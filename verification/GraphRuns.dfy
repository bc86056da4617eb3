/** Runs of a Graph account: the delta cycles, body fetches and local removals of all its folders on shared tables. */
module GraphRuns {
  import opened Util
  import opened Store
  import opened Identity
  import Graph = GraphSync

  datatype Account = Account(db: Db, folders: map<FolderId, Graph.Folder>)

  function At(a: Account, f: FolderId): Graph.Replica
    requires f in a.folders
  {
    Graph.Replica(a.db, a.folders[f])
  }

  ghost predicate Tidy(a: Account) {
    Valid(a.db) && forall f :: f in a.folders ==> a.folders[f].id == f && ':' !in f
  }

  /** A fetch without `raw` is the JSON fallback, which leaves the identity alone. */
  datatype Action =
    | Cycle(folder: FolderId, forceFull: bool, answer: Option<string> -> Graph.Reply)
    | Fetch(
        folder: FolderId, item: string, messageId: Option<string>, raw: Option<string>,
        state: BodyState, body: Option<string>)
    | Forget(folder: FolderId, items: set<string>)

  ghost predicate Step(a: Account, action: Action, b: Account)
    requires Tidy(a)
  {
    action.folder in a.folders &&
    match action
    case Cycle(f, forceFull, answer) =>
      var after := Graph.CycleResult(At(a, f), forceFull, answer);
      b == Account(after.db, a.folders[f := after.folder])
    case Fetch(f, item, messageId, raw, state, body) =>
      var s := ItemSlot(f, item);
      && s in a.db.placements
      && b == a.(db := if raw.Some? then Stored(a.db, s, messageId, raw.value, state, body)
                       else WriteBody(a.db, a.db.placements[s].message, messageId, state, body))
    case Forget(f, items) => b == a.(db := Exec(a.db, DropItems(f, items)))
  }

  ghost predicate Trace(states: seq<Account>, actions: seq<Action>) {
    && |states| == |actions| + 1 && Tidy(states[0]) && states[0].db == Db(map[], map[], 0)
    && forall i :: 0 <= i < |actions| ==> Tidy(states[i]) ==> Step(states[i], actions[i], states[i + 1])
  }

  // ---- What an item is ----

  /** The Message-ID and the text of each item: neither ever changes under one item id. */
  datatype Items = Items(id: (FolderId, string) -> Option<string>, text: (FolderId, string) -> string)

  function Handle(f: FolderId, item: string): string {
    f + ":" + item
  }

  ghost predicate Tells(items: Items, action: Action) {
    match action
    case Cycle(f, _, answer) => forall start, item ::
      answer(start).Delta? && item in answer(start).items && !item.removed ==> item.messageId == items.id(f, item.id)
    case Fetch(f, item, messageId, raw, _, _) =>
      messageId == items.id(f, item) && (raw.Some? ==> raw.value == items.text(f, item))
    case Forget(_, _) => true
  }

  /** Replies and fetches say what the items are, and Message-IDs, handles and texts are kinds of their own. */
  ghost predicate Distinguishes(items: Items, actions: seq<Action>) {
    && (forall k :: 0 <= k < |actions| ==> Tells(items, actions[k]))
    && (forall f: FolderId, item: string :: IdIsApart(items, items.id(f, item)))
    && (forall f: FolderId, item: string, g: FolderId, other: string :: items.text(f, item) != Handle(g, other))
  }

  ghost predicate IdIsApart(items: Items, x: Option<string>) {
    x.Some? && x.value != "" ==>
      && (forall g: FolderId, item: string :: x.value != Handle(g, item))
      && (forall g: FolderId, item: string :: x.value != items.text(g, item))
  }

  ghost predicate FetchesBody(action: Action, f: FolderId, item: string) {
    action.Fetch? && action.folder == f && action.item == item && action.raw.Some?
  }

  ghost function MarkOf(items: Items, actions: seq<Action>, n: nat, f: FolderId, item: string): Mark
    requires n <= |actions|
  {
    Mark(items.id(f, item), Handle(f, item), items.text(f, item),
         exists k :: 0 <= k < n && FetchesBody(actions[k], f, item))
  }

  ghost predicate Placed(a: Account, f: FolderId, item: string) {
    f in a.folders && ItemSlot(f, item) in a.db.placements
  }

  ghost predicate MarksSound(items: Items, actions: seq<Action>, n: nat, a: Account)
    requires n <= |actions|
  {
    forall f, item :: Placed(a, f, item) ==> Marked(a.db, ItemSlot(f, item), MarkOf(items, actions, n, f, item))
  }

  lemma HandlesDiffer(f: FolderId, item: string, g: FolderId, other: string)
    requires ':' !in f && ':' !in g && Handle(f, item) == Handle(g, other)
    ensures f == g && item == other
  {
    var s := Handle(f, item);
    assert s[|f|] == ':' && s[|g|] == ':';
    assert forall i :: 0 <= i < |f| ==> s[i] == f[i];
    assert forall i :: 0 <= i < |g| ==> s[i] == g[i];
    assert f == s[..|f|] && g == s[..|g|] && item == s[|f| + 1..] && other == s[|g| + 1..];
  }

  lemma MarksApart(items: Items, actions: seq<Action>, n: nat, f: FolderId, item: string, g: FolderId, other: string)
    requires n <= |actions| && Distinguishes(items, actions) && (f != g || item != other) && ':' !in f && ':' !in g
    ensures Apart(MarkOf(items, actions, n, f, item), MarkOf(items, actions, n, g, other))
  {
    hide Handle;
    if Handle(f, item) == Handle(g, other) {
      HandlesDiffer(f, item, g, other);
    }
    assert IdIsApart(items, items.id(f, item)) && IdIsApart(items, items.id(g, other));
  }

  lemma MarkLater(items: Items, actions: seq<Action>, n: nat, f: FolderId, item: string, db: Db)
    requires n < |actions| && Marked(db, ItemSlot(f, item), MarkOf(items, actions, n, f, item))
    ensures Marked(db, ItemSlot(f, item), MarkOf(items, actions, n + 1, f, item))
  {
    MarkedLater(db, ItemSlot(f, item), MarkOf(items, actions, n, f, item), MarkOf(items, actions, n + 1, f, item));
  }

  // ---- What a step does to the rows of placements ----

  /** The placement is that of a listed item, on the row with its hash. */
  ghost predicate IsListed(db: Db, folder: FolderId, item: Graph.Item, s: Slot) {
    !item.removed && s == ItemSlot(folder, item.id) && RowHash(db, s) == Some(Graph.HashOf(folder, item))
  }

  /** A placement after a delta was written from a listed item, or is an old one with its row. */
  lemma DeltaSlot(db: Db, folder: FolderId, items: seq<Graph.Item>, full: bool, s: Slot)
    requires Valid(db) && !Graph.RepeatsItem(Graph.Changed(items))
    requires s in Graph.Applied(db, folder, items, full).placements
    ensures
      || (exists item :: item in items && IsListed(Graph.Applied(db, folder, items, full), folder, item, s))
      || (s in db.placements && RowHash(Graph.Applied(db, folder, items, full), s) == RowHash(db, s))
  {
    hide Graph.HashOf, Graph.RepeatsItem, UpsertBatch;
    var changed := Graph.Changed(items);
    var upserted := Graph.Upserted(db, folder, changed);
    Graph.ChangedExact(items);
    Graph.UpsertedExact(db, folder, changed);
    PurgeKeepsHash(upserted, Graph.Removed(upserted, folder, items, full), s);
    if item :| item in changed && s == ItemSlot(folder, item.id) {
      assert Holds(upserted, ItemSlot(folder, item.id), Graph.RecordFromItem(folder, item));
      assert RowHash(upserted, s) == Some(Graph.HashOf(folder, item));
    } else {
      NotUpserted(db, folder, changed, s);
    }
  }

  lemma PurgeKeepsHash(db: Db, gone: set<Slot>, s: Slot)
    requires Valid(db)
    ensures s in Purge(Without(db, gone)).placements ==>
      s in db.placements && RowHash(Purge(Without(db, gone)), s) == RowHash(db, s)
  {
    PurgeExact(Without(db, gone));
  }

  lemma NotUpserted(db: Db, folder: FolderId, changed: seq<Graph.Item>, s: Slot)
    requires Valid(db) && !Graph.RepeatsItem(changed) && forall item :: item in changed ==> item.id != ""
    requires forall item :: item in changed ==> s != ItemSlot(folder, item.id)
    requires s in Graph.Upserted(db, folder, changed).placements
    ensures s in db.placements && RowHash(Graph.Upserted(db, folder, changed), s) == RowHash(db, s)
  {
    hide UpsertBatch, Graph.RepeatsItem;
    Graph.UpsertedExact(db, folder, changed);
  }

  lemma WriteKeepsValid(db: Db, row: RowId, x: Option<string>, state: BodyState, body: Option<string>)
    requires Valid(db)
    ensures Valid(WriteBody(db, row, x, state, body))
  {
  }

  lemma StepKeepsTidy(a: Account, action: Action, b: Account)
    requires Tidy(a) && Step(a, action, b)
    ensures Tidy(b) && b.folders.Keys == a.folders.Keys
  {
    hide Graph.Applied, Exec, Graph.Changed, Graph.RepeatsItem, Stored, Valid;
    match action
    case Cycle(f, forceFull, answer) =>
      var reply, full := Graph.FinalReply(Graph.StartLink(a.folders[f], forceFull), answer).0,
        Graph.FinalReply(Graph.StartLink(a.folders[f], forceFull), answer).1;
      if Graph.Succeeds(reply) {
        Graph.AppliedValid(a.db, f, reply.items, full);
      }
    case Fetch(f, item, messageId, raw, state, body) =>
      if raw.Some? {
        StoredKeeps(a.db, ItemSlot(f, item), messageId, raw.value, state, body);
      } else {
        WriteKeepsValid(a.db, a.db.placements[ItemSlot(f, item)].message, messageId, state, body);
      }
    case Forget(f, items) =>
      ExecKeepsValid(a.db, DropItems(f, items));
  }

  /** The hash of a placed item's row after a cycle: that of a listed item, or the one it had. */
  lemma CycleRowHash(items: Items, a: Account, action: Action, b: Account, g: FolderId, item: string)
    requires Tidy(a) && Step(a, action, b) && action.Cycle? && Tells(items, action) && Placed(b, g, item)
    ensures
      || IsItemHash(items, b.db, g, item)
      || (Placed(a, g, item) && RowHash(b.db, ItemSlot(g, item)) == RowHash(a.db, ItemSlot(g, item)))
  {
    hide Graph.Applied, Graph.Changed, Graph.RepeatsItem, Valid, RowHash;
    var f, start := action.folder, Graph.StartLink(a.folders[action.folder], action.forceFull);
    var reply, full := Graph.FinalReply(start, action.answer).0, Graph.FinalReply(start, action.answer).1;
    if Graph.Succeeds(reply) {
      DeltaSlot(a.db, f, reply.items, full, ItemSlot(g, item));
    }
  }

  ghost predicate IsItemHash(items: Items, db: Db, f: FolderId, item: string) {
    var x := items.id(f, item);
    RowHash(db, ItemSlot(f, item)) == Some(Sha256(if x.Some? && x.value != "" then x.value else Handle(f, item)))
  }

  lemma FetchKeepsMarks(
    items: Items, actions: seq<Action>, n: nat, a: Account, b: Account, g: FolderId, item: string)
    requires Tidy(a) && n < |actions| && actions[n].Fetch? && Step(a, actions[n], b)
    requires MarksSound(items, actions, n, a) && Distinguishes(items, actions) && Placed(b, g, item)
    ensures Marked(b.db, ItemSlot(g, item), MarkOf(items, actions, n + 1, g, item))
  {
    hide Marked, Stored, Handle, Distinguishes, MarkOf;
    var f, fetched := actions[n].folder, actions[n].item;
    var s, o, row := ItemSlot(f, fetched), ItemSlot(g, item), a.db.placements[ItemSlot(f, fetched)].message;
    var m, k := MarkOf(items, actions, n, f, fetched), MarkOf(items, actions, n, g, item);
    if actions[n].raw.Some? {
      StoredKeeps(a.db, s, actions[n].messageId, actions[n].raw.value, actions[n].state, actions[n].body);
      assert Placed(a, f, fetched) && Placed(a, g, item);
      FetchedMark(items, actions, n);
      if o == s {
        StoredMarks(a.db, s, m, actions[n].state, actions[n].body, s, m);
      } else {
        MarksApart(items, actions, n, f, fetched, g, item);
        StoredMarks(a.db, s, m, actions[n].state, actions[n].body, o, k);
        MarkLater(items, actions, n, g, item, b.db);
      }
    } else {
      WriteKeepsHash(a.db, row, actions[n].messageId, actions[n].state, actions[n].body, o);
      assert Placed(a, g, item);
      SameHashMarked(a.db, b.db, o, k);
      MarkLater(items, actions, n, g, item, b.db);
    }
  }

  lemma WriteKeepsHash(db: Db, row: RowId, x: Option<string>, state: BodyState, body: Option<string>, o: Slot)
    ensures WriteBody(db, row, x, state, body).placements == db.placements
    ensures RowHash(WriteBody(db, row, x, state, body), o) == RowHash(db, o)
  {
  }

  lemma FetchedMark(items: Items, actions: seq<Action>, n: nat)
    requires n < |actions| && actions[n].Fetch? && actions[n].raw.Some? && Distinguishes(items, actions)
    ensures var m := MarkOf(items, actions, n, actions[n].folder, actions[n].item);
      && m.id == actions[n].messageId && m.text == actions[n].raw.value
      && MarkOf(items, actions, n + 1, actions[n].folder, actions[n].item) == m.(fetched := true)
  {
    assert Tells(items, actions[n]);
    assert FetchesBody(actions[n], actions[n].folder, actions[n].item);
  }

  lemma StepKeepsMarks(
    items: Items, actions: seq<Action>, n: nat, a: Account, b: Account, g: FolderId, item: string)
    requires Tidy(a) && n < |actions| && Step(a, actions[n], b)
    requires MarksSound(items, actions, n, a) && Distinguishes(items, actions) && Placed(b, g, item)
    ensures Marked(b.db, ItemSlot(g, item), MarkOf(items, actions, n + 1, g, item))
  {
    hide Marked, Exec, Stored, Graph.CycleResult, Handle, Valid;
    var action, s := actions[n], ItemSlot(g, item);
    if action.Fetch? {
      FetchKeepsMarks(items, actions, n, a, b, g, item);
    } else {
      if action.Forget? {
        ForgetKeepsHash(a.db, action.folder, action.items, s);
      } else {
        CycleRowHash(items, a, action, b, g, item);
      }
      if IsItemHash(items, b.db, g, item) {
        ItemHashIsMarked(items, actions, n + 1, b.db, g, item);
      } else {
        assert Placed(a, g, item);
        MarkLater(items, actions, n, g, item, a.db);
        SameHashMarked(a.db, b.db, s, MarkOf(items, actions, n + 1, g, item));
      }
    }
  }

  lemma ItemHashIsMarked(items: Items, actions: seq<Action>, n: nat, db: Db, g: FolderId, item: string)
    requires n <= |actions| && IsItemHash(items, db, g, item)
    ensures Marked(db, ItemSlot(g, item), MarkOf(items, actions, n, g, item))
  {
  }

  lemma ForgetKeepsHash(db: Db, f: FolderId, items: set<string>, s: Slot)
    requires Valid(db)
    ensures s in Exec(db, DropItems(f, items)).placements ==>
      s in db.placements && RowHash(Exec(db, DropItems(f, items)), s) == RowHash(db, s)
  {
    if items != {} {
      PurgeKeepsHash(db, ListedItems(db, f, items), s);
    }
  }

  lemma {:induction false} RunKeepsMarks(states: seq<Account>, actions: seq<Action>, items: Items, i: nat)
    requires Trace(states, actions) && i <= |actions| && Distinguishes(items, actions)
    ensures Tidy(states[i]) && MarksSound(items, actions, i, states[i])
    decreases i
  {
    hide Tidy, Step, Marked, Distinguishes, MarkOf;
    if i > 0 {
      RunKeepsMarks(states, actions, items, i - 1);
      StepKeepsTidy(states[i - 1], actions[i - 1], states[i]);
      forall f, item | Placed(states[i], f, item)
        ensures Marked(states[i].db, ItemSlot(f, item), MarkOf(items, actions, i, f, item))
      {
        StepKeepsMarks(items, actions, i - 1, states[i - 1], states[i], f, item);
      }
    }
  }

  /**
    * Over any run: two placed items share a row only if they are one placement, or have one non-empty
    * Message-ID, or neither has one and bodies with one text were fetched for both. With one non-empty
    * Message-ID they do share it.
    */
  lemma RowsAreShared(
    states: seq<Account>, actions: seq<Action>, items: Items, i: nat,
    f: FolderId, item: string, g: FolderId, other: string)
    requires Trace(states, actions) && i <= |actions| && Distinguishes(items, actions)
    requires Placed(states[i], f, item) && Placed(states[i], g, other)
    ensures
      var x, y := items.id(f, item), items.id(g, other);
      var one, two := states[i].db.placements[ItemSlot(f, item)], states[i].db.placements[ItemSlot(g, other)];
      && (one.message == two.message ==>
        || (f == g && item == other)
        || (x.Some? && x.value != "" && x == y)
        || (exists k, n :: FetchedAlike(actions, i, k, n, f, item, g, other)))
      && (x.Some? && x.value != "" && x == y ==> one.message == two.message)
  {
    hide Trace, Distinguishes, Marked, Handle;
    RunKeepsMarks(states, actions, items, i);
    RunLength(states, actions);
    var m, n := MarkOf(items, actions, i, f, item), MarkOf(items, actions, i, g, other);
    var db, s, o := states[i].db, ItemSlot(f, item), ItemSlot(g, other);
    if HasId(m) && m.id == n.id {
      SameIdShares(db, s, m, o, n);
    }
    if (f != g || item != other) && db.placements[s].message == db.placements[o].message {
      MarksApart(items, actions, i, f, item, g, other);
      SharersMatch(db, s, m, o, n);
      if !HasId(m) {
        BothFetched(items, actions, i, f, item, g, other);
      }
    }
  }

  lemma RunLength(states: seq<Account>, actions: seq<Action>)
    requires Trace(states, actions)
    ensures |states| == |actions| + 1
  {
  }

  /** Fetches `k` and `n`, both before `i`, got one text for the two items. */
  ghost predicate FetchedAlike(
    actions: seq<Action>, i: nat, k: int, n: int, f: FolderId, item: string, g: FolderId, other: string)
  {
    && 0 <= k < i <= |actions| && 0 <= n < i
    && FetchesBody(actions[k], f, item) && FetchesBody(actions[n], g, other) && actions[k].raw == actions[n].raw
  }

  lemma BothFetched(items: Items, actions: seq<Action>, i: nat, f: FolderId, item: string, g: FolderId, other: string)
    requires i <= |actions| && Distinguishes(items, actions)
    requires var m, n := MarkOf(items, actions, i, f, item), MarkOf(items, actions, i, g, other);
      m.fetched && n.fetched && m.text == n.text
    ensures exists k, n :: FetchedAlike(actions, i, k, n, f, item, g, other)
  {
    var k :| 0 <= k < i && FetchesBody(actions[k], f, item);
    var n :| 0 <= n < i && FetchesBody(actions[n], g, other);
    assert Tells(items, actions[k]) && Tells(items, actions[n]);
    assert FetchedAlike(actions, i, k, n, f, item, g, other);
  }
}
