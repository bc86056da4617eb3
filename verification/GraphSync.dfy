/**
  * One Microsoft Graph folder kept as a local copy by delta queries: a stored link names a snapshot,
  * a reply lists what changed since, and an expired link restarts from nothing.
  */
module GraphSync {
  import opened Util
  import opened Store

  /** One entry of a delta reply; a missing id is the empty string. */
  datatype Item = Item(id: string, removed: bool, messageId: Option<string>, isRead: bool, isDraft: bool)

  datatype Error = RequestError(status: int, code: string) | OtherError

  datatype Reply = Delta(items: seq<Item>, link: Option<string>) | Raised(error: Error)

  const DELTA_EXPIRED_CODES: set<string> :=
    {"syncStateNotFound", "resyncRequired", "invalidDeltaToken", "ErrorInvalidDeltaToken"}

  predicate IsDeltaExpired(e: Error) {
    e.RequestError? && (e.status == 410 || e.code in DELTA_EXPIRED_CODES)
  }

  function HashOf(folder: FolderId, item: Item): Hash {
    if item.messageId.Some? && item.messageId.value != "" then HashMessageId(item.messageId.value)
    else ProvisionalHash(folder, item.id)
  }

  function RecordFromItem(folder: FolderId, item: Item): Record {
    Record(HashOf(folder, item), None, Some(item.id), item.messageId,
           Flags(item.isRead, false, false, item.isDraft, false), None)
  }

  function Changed(items: seq<Item>): seq<Item> {
    if items == [] then []
    else (if !items[0].removed && items[0].id != "" then [items[0]] else []) + Changed(items[1..])
  }

  function RemovedIds(items: seq<Item>): set<string> {
    set item | item in items && item.removed && item.id != "" :: item.id
  }

  function Ids(items: seq<Item>): set<string> {
    set item | item in items :: item.id
  }

  function RecordsOf(folder: FolderId, items: seq<Item>): (records: seq<Record>)
    ensures |records| == |items| && forall i :: 0 <= i < |items| ==> records[i] == RecordFromItem(folder, items[i])
  {
    seq(|items|, i requires 0 <= i < |items| => RecordFromItem(folder, items[i]))
  }

  lemma {:induction false} ChangedExact(items: seq<Item>)
    ensures forall item :: item in Changed(items) <==> item in items && !item.removed && item.id != ""
  {
    if items != [] {
      ChangedExact(items[1..]);
      assert items == [items[0]] + items[1..];
    }
  }

  /**
    * The record says what the reply said: id, Message-ID, read and draft. No other flag is set, as the
    * query does not ask for them, and there is neither UID nor modseq.
    */
  ghost predicate Conveys(r: Record, folder: FolderId, item: Item) {
    && r.item == Some(item.id) && r.uid == None && r.modseq == None && r.messageId == item.messageId
    && (r.flags.seen <==> item.isRead) && (r.flags.draft <==> item.isDraft)
    && !r.flags.flagged && !r.flags.answered && !r.flags.deleted
    && (if item.messageId.Some? && item.messageId.value != "" then r.hash.preimage == item.messageId.value
        else |r.hash.preimage| > |folder| && r.hash.preimage[..|folder|] == folder && r.hash.preimage[|folder|] == ':'
             && r.hash.preimage[|folder| + 1..] == item.id)
  }

  /** The records written for a reply convey its changed items, one by one. */
  lemma ReplyConveys(folder: FolderId, items: seq<Item>)
    ensures var changed := Changed(items); var records := RecordsOf(folder, changed);
      && |records| == |changed| && (forall i :: 0 <= i < |changed| ==> Conveys(records[i], folder, changed[i]))
      && forall item :: item in changed <==> item in items && !item.removed && item.id != ""
  {
    hide Changed;
    ChangedExact(items);
    var changed := Changed(items);
    forall i | 0 <= i < |changed| ensures Conveys(RecordsOf(folder, changed)[i], folder, changed[i]) {
      var s := folder + ":" + changed[i].id;
      assert s[|folder| + 1..] == changed[i].id && s[..|folder|] == folder;
    }
  }

  // ---- What a cycle does ----

  datatype Folder = Folder(id: FolderId, link: Option<string>, syncPass: nat, failed: bool)

  datatype Replica = Replica(db: Db, folder: Folder)

  /** Postgres refuses a statement that places one item twice; the cycle then rolls back. */
  predicate RepeatsItem(items: seq<Item>) {
    exists i, j :: 0 <= i < j < |items| && items[i].id == items[j].id
  }

  ghost function Upserted(db: Db, folder: FolderId, changed: seq<Item>): Db
    requires Valid(db)
  {
    if changed == [] then db else UpsertBatch(db, folder, RecordsOf(folder, changed))
  }

  function Removed(db: Db, folder: FolderId, items: seq<Item>, full: bool): set<Slot> {
    if full then MissingItems(db, folder, Ids(Changed(items))) else ListedItems(db, folder, RemovedIds(items))
  }

  ghost function Applied(db: Db, folder: FolderId, items: seq<Item>, full: bool): Db
    requires Valid(db)
  {
    var upserted := Upserted(db, folder, Changed(items));
    if full || RemovedIds(items) != {} then Purge(Without(upserted, Removed(upserted, folder, items, full)))
    else upserted
  }

  /** The link a cycle starts from. */
  function StartLink(folder: Folder, forceFull: bool): Option<string> {
    if forceFull then None else folder.link
  }

  /** The reply a cycle ends up with: an expired link is asked again without one. */
  function FinalReply(start: Option<string>, answer: Option<string> -> Reply): (r: (Reply, bool))
  {
    var first := answer(start);
    if first.Raised? && start.Some? && IsDeltaExpired(first.error) then (answer(None), true) else (first, start.None?)
  }

  function StoredLink(link: Option<string>): Option<string> {
    if link == Some("") then None else link
  }

  ghost predicate Succeeds(reply: Reply) {
    reply.Delta? && !RepeatsItem(Changed(reply.items))
  }

  ghost function CycleResult(rep: Replica, forceFull: bool, answer: Option<string> -> Reply): Replica
    requires Valid(rep.db)
  {
    var (reply, full) := FinalReply(StartLink(rep.folder, forceFull), answer);
    if Succeeds(reply) then
      Replica(Applied(rep.db, rep.folder.id, reply.items, full),
              Folder(rep.folder.id, StoredLink(reply.link), rep.folder.syncPass + 1, false))
    else rep.(folder := rep.folder.(failed := true))
  }

  // ---- The server's side of the bargain ----

  datatype View = View(seen: bool, draft: bool)

  type Snapshot = map<string, View>

  /** The reply leads from `base` (nothing, for a full listing) to `snap`, naming each id once. */
  ghost predicate Describes(items: seq<Item>, base: Option<Snapshot>, snap: Snapshot) {
    && (forall i, j :: 0 <= i < j < |items| && items[i].id != "" ==> items[i].id != items[j].id)
    && "" !in snap
    && (forall item :: item in items && item.id != "" ==>
          if item.removed then item.id !in snap
          else item.id in snap && snap[item.id] == View(item.isRead, item.isDraft))
    && (forall k :: k !in Ids(items) ==>
          if base.None? then k !in snap
          else (k in snap <==> k in base.value) && (k in snap ==> snap[k] == base.value[k]))
  }

  ghost predicate LeadsTo(reply: Reply, base: Option<Snapshot>, snapOf: string -> Snapshot, snap: Snapshot) {
    && reply.Delta? && Describes(reply.items, base, snap)
    && (reply.link.Some? && reply.link.value != "" ==> snapOf(reply.link.value) == snap)
  }

  function Base(start: Option<string>, snapOf: string -> Snapshot): Option<Snapshot> {
    if start.Some? then Some(snapOf(start.value)) else None
  }

  /** Every reply is honest about the snapshots its links stand for, and items that are gone stay away. */
  ghost predicate Honest(answer: Option<string> -> Reply, snapOf: string -> Snapshot, gone: set<string>) {
    forall start :: answer(start).Delta? ==>
      exists snap :: LeadsTo(answer(start), Base(start, snapOf), snapOf, snap) && snap.Keys !! gone
  }

  /** A reply that leads from a base leads from it without the items that are gone, too. */
  lemma DescribesWithout(items: seq<Item>, base: Option<Snapshot>, snap: Snapshot, gone: set<string>)
    requires Describes(items, base, snap) && snap.Keys !! gone
    ensures Describes(items, if base.Some? then Some(base.value - gone) else None, snap)
  {
  }

  // ---- The folder as a map ----

  function ItemsIn(db: Db, folder: FolderId): set<Slot> {
    set s | s in db.placements && s.ItemSlot? && s.folder == folder
  }

  function Contents(db: Db, folder: FolderId): Snapshot {
    map s | s in ItemsIn(db, folder) :: s.item := ViewOf(db, s)
  }

  lemma UpsertedExact(db: Db, folder: FolderId, changed: seq<Item>)
    requires Valid(db) && !RepeatsItem(changed)
    ensures var after := Upserted(db, folder, changed);
      && Valid(after) && KeepsRows(db, after)
      && (forall item :: item in changed ==>
            Holds(after, ItemSlot(folder, item.id), RecordFromItem(folder, item)))
      && (forall s: Slot :: !(s.ItemSlot? && s.folder == folder && s.item in Ids(changed)) ==> SameSlot(db, after, s))
  {
    var records := RecordsOf(folder, changed);
    forall i, j | 0 <= i < j < |records| ensures SlotOf(folder, records[i]) != SlotOf(folder, records[j]) {
      assert changed[i].id != changed[j].id;
    }
    UpsertBatchExact(db, folder, records);
    if changed != [] {
      var after := UpsertBatch(db, folder, records);
      forall item | item in changed ensures Holds(after, ItemSlot(folder, item.id), RecordFromItem(folder, item)) {
        var i :| 0 <= i < |changed| && changed[i] == item;
        assert records[i] in records;
      }
      forall s: Slot | !(s.ItemSlot? && s.folder == folder && s.item in Ids(changed)) ensures SameSlot(db, after, s) {
        forall r | r in records ensures SlotOf(folder, r) != Some(s) {
          var i :| 0 <= i < |records| && records[i] == r;
          assert changed[i] in changed;
        }
      }
    }
  }

  predicate Gone(items: seq<Item>, full: bool, k: string) {
    if full then k !in Ids(Changed(items)) else k in RemovedIds(items)
  }

  /** Deletion takes exactly the unlisted items of a full reply, or the `@removed` ones. */
  lemma AppliedSlot(db: Db, folder: FolderId, items: seq<Item>, full: bool, k: string)
    requires Valid(db) && !RepeatsItem(Changed(items))
    ensures
      var after, upserted := Applied(db, folder, items, full), Upserted(db, folder, Changed(items));
      var s := ItemSlot(folder, k);
      && (s in after.placements <==> s in upserted.placements && !Gone(items, full, k))
      && (s in after.placements ==> after.placements[s] == upserted.placements[s])
  {
    hide Upserted, Changed, Valid;
  }

  function ViewOf(db: Db, s: Slot): View
    requires s in db.placements
  {
    View(db.placements[s].flags.seen, db.placements[s].flags.draft)
  }

  ghost predicate Listed(items: seq<Item>, k: string, view: View) {
    exists item :: item in items && !item.removed && item.id == k && view == View(item.isRead, item.isDraft)
  }

  /** What the upsert leaves for one item. */
  lemma UpsertedItem(db: Db, folder: FolderId, items: seq<Item>, k: string)
    requires Valid(db) && !RepeatsItem(Changed(items))
    ensures var upserted, s := Upserted(db, folder, Changed(items)), ItemSlot(folder, k);
      && (k !in Ids(Changed(items)) ==> SameSlot(db, upserted, s))
      && (k in Ids(Changed(items)) ==> s in upserted.placements && k != "")
      && (k in Ids(Changed(items)) ==> Listed(items, k, ViewOf(upserted, s)))
  {
    hide Upserted, Valid;
    var upserted := Upserted(db, folder, Changed(items));
    ChangedExact(items);
    UpsertedExact(db, folder, Changed(items));
    if item :| item in Changed(items) && item.id == k {
      assert Holds(upserted, ItemSlot(folder, item.id), RecordFromItem(folder, item));
    }
  }

  lemma ContentsAt(db: Db, folder: FolderId, k: string)
    ensures k in Contents(db, folder) <==> ItemSlot(folder, k) in db.placements
    ensures k in Contents(db, folder) ==> Contents(db, folder)[k] == ViewOf(db, ItemSlot(folder, k))
  {
    if ItemSlot(folder, k) in db.placements {
      assert ItemSlot(folder, k) in ItemsIn(db, folder);
    }
  }

  /** One item after a delta: it is there exactly when the described snapshot has it, with its view. */
  lemma AppliedItem(
      db: Db, folder: FolderId, items: seq<Item>, full: bool, base: Option<Snapshot>, snap: Snapshot, k: string)
    requires Valid(db) && Describes(items, base, snap) && !RepeatsItem(Changed(items))
    requires if full then base == None else base == Some(Contents(db, folder)) && "" !in base.value
    ensures var contents := Contents(Applied(db, folder, items, full), folder);
      && (k in contents <==> k in snap) && (k in contents ==> contents[k] == snap[k])
  {
    hide Applied, Upserted, Contents, Valid, RepeatsItem;
    ContentsAt(db, folder, k);
    ContentsAt(Applied(db, folder, items, full), folder, k);
    AppliedSlot(db, folder, items, full, k);
    UpsertedItem(db, folder, items, k);
    ChangedExact(items);
    if k !in Ids(Changed(items)) && k != "" && k in Ids(items) {
      var item :| item in items && item.id == k;
      assert item.removed;
    }
  }

  lemma AppliedIsSnapshot(
      db: Db, folder: FolderId, items: seq<Item>, full: bool, base: Option<Snapshot>, snap: Snapshot)
    requires Valid(db) && Describes(items, base, snap) && !RepeatsItem(Changed(items))
    requires if full then base == None else base == Some(Contents(db, folder)) && "" !in base.value
    ensures Contents(Applied(db, folder, items, full), folder) == snap
  {
    hide Applied, Contents, Describes, RepeatsItem, Valid;
    var contents := Contents(Applied(db, folder, items, full), folder);
    forall k ensures (k in contents <==> k in snap) && (k in contents ==> contents[k] == snap[k]) {
      AppliedItem(db, folder, items, full, base, snap, k);
    }
  }

  lemma AppliedValid(db: Db, folder: FolderId, items: seq<Item>, full: bool)
    requires Valid(db) && !RepeatsItem(Changed(items))
    ensures Valid(Applied(db, folder, items, full))
  {
    UpsertedExact(db, folder, Changed(items));
    var upserted := Upserted(db, folder, Changed(items));
    PurgeExact(Without(upserted, Removed(upserted, folder, items, full)));
  }

  // ---- What the first answer of a cycle decides ----

  /** Graph says that a delta link is no longer good. */
  predicate SaysExpired(e: Error) {
    e.RequestError? && (e.status == 410
      || e.code == "syncStateNotFound" || e.code == "resyncRequired"
      || e.code == "invalidDeltaToken" || e.code == "ErrorInvalidDeltaToken")
  }

  /** No two entries that are neither removed nor without id have one id. */
  predicate ListsOnce(items: seq<Item>) {
    forall i, j :: 0 <= i < j < |items| && !items[i].removed && !items[j].removed && items[i].id != "" ==>
      items[i].id != items[j].id
  }

  /** The folder holds exactly the listed items, with their views. */
  ghost predicate IsListing(contents: Snapshot, items: seq<Item>) {
    && (forall k :: k in contents <==> k != "" && exists item :: item in items && !item.removed && item.id == k)
    && (forall item :: item in items && !item.removed && item.id in contents ==>
      contents[item.id] == View(item.isRead, item.isDraft))
  }

  lemma RepeatsCons(head: Item, rest: seq<Item>)
    ensures RepeatsItem([head] + rest) <==> RepeatsItem(rest) || exists item :: item in rest && item.id == head.id
  {
    var all := [head] + rest;
    if RepeatsItem(rest) {
      var i, j :| 0 <= i < j < |rest| && rest[i].id == rest[j].id;
      assert all[i + 1].id == all[j + 1].id;
    }
    if item :| item in rest && item.id == head.id {
      var j :| 0 <= j < |rest| && rest[j] == item;
      assert all[0].id == all[j + 1].id;
    }
    if RepeatsItem(all) {
      var i, j :| 0 <= i < j < |all| && all[i].id == all[j].id;
      assert rest[j - 1] == all[j] && (i > 0 ==> rest[i - 1] == all[i]);
    }
  }

  predicate Lists(item: Item) {
    !item.removed && item.id != ""
  }

  lemma ListsOnceCons(head: Item, tail: seq<Item>)
    ensures ListsOnce([head] + tail) <==>
      ListsOnce(tail) && (Lists(head) ==> forall item :: item in tail && !item.removed ==> item.id != head.id)
  {
    var all := [head] + tail;
    if ListsOnce(all) {
      forall i, j | 0 <= i < j < |tail| && !tail[i].removed && !tail[j].removed && tail[i].id != ""
        ensures tail[i].id != tail[j].id
      {
        assert all[i + 1] == tail[i] && all[j + 1] == tail[j];
      }
      if Lists(head) {
        forall item | item in tail && !item.removed ensures item.id != head.id {
          var j :| 0 <= j < |tail| && tail[j] == item;
          assert all[0] == head && all[j + 1] == item;
        }
      }
    }
    if ListsOnce(tail) && (Lists(head) ==> forall item :: item in tail && !item.removed ==> item.id != head.id) {
      forall i, j | 0 <= i < j < |all| && !all[i].removed && !all[j].removed && all[i].id != ""
        ensures all[i].id != all[j].id
      {
        assert all[j] == tail[j - 1] && all[j] in tail;
        assert i > 0 ==> all[i] == tail[i - 1];
      }
    }
  }

  lemma ChangedCons(head: Item, tail: seq<Item>)
    ensures Changed([head] + tail) == if Lists(head) then [head] + Changed(tail) else Changed(tail)
  {
    assert ([head] + tail)[1..] == tail;
  }

  lemma {:induction false} ChangedRepeats(items: seq<Item>)
    ensures RepeatsItem(Changed(items)) <==> !ListsOnce(items)
  {
    hide RepeatsItem, ListsOnce, Changed, Lists;
    if items == [] {
      NothingRepeats();
    } else {
      var head, tail := items[0], items[1..];
      assert items == [head] + tail;
      ChangedRepeats(tail);
      ChangedCons(head, tail);
      ListsOnceCons(head, tail);
      RepeatsCons(head, Changed(tail));
      SameIds(head, tail);
    }
  }

  lemma NothingRepeats()
    ensures !RepeatsItem(Changed([])) && ListsOnce([])
  {
  }

  lemma SameIds(head: Item, tail: seq<Item>)
    ensures Lists(head) ==>
      ((exists item :: item in Changed(tail) && item.id == head.id) <==>
      !(forall item :: item in tail && !item.removed ==> item.id != head.id))
  {
    ChangedExact(tail);
  }

  /** Applying a full reply leaves the folder as listed. */
  lemma FullReplyIsListing(db: Db, folder: FolderId, items: seq<Item>)
    requires Valid(db) && !RepeatsItem(Changed(items))
    ensures IsListing(Contents(Applied(db, folder, items, true), folder), items)
  {
    hide Applied, Upserted, Contents, Valid;
    var contents := Contents(Applied(db, folder, items, true), folder);
    ChangedExact(items);
    forall k ensures k in contents <==> k != "" && exists item :: item in items && !item.removed && item.id == k {
      ContentsAt(Applied(db, folder, items, true), folder, k);
      AppliedSlot(db, folder, items, true, k);
      UpsertedItem(db, folder, items, k);
      if k in Ids(Changed(items)) {
        var item :| item in Changed(items) && item.id == k;
      }
    }
    forall item | item in items && !item.removed && item.id in contents
      ensures contents[item.id] == View(item.isRead, item.isDraft)
    {
      ContentsAt(Applied(db, folder, items, true), folder, item.id);
      AppliedSlot(db, folder, items, true, item.id);
      UpsertedItem(db, folder, items, item.id);
      assert item in Changed(items);
      SameChanged(items, item);
    }
  }

  lemma SameChanged(items: seq<Item>, item: Item)
    requires !RepeatsItem(Changed(items)) && item in Changed(items)
    ensures forall other :: other in items && !other.removed && other.id == item.id ==> other == item
  {
    ChangedExact(items);
    forall other | other in Changed(items) && other.id == item.id ensures other == item {
      var i :| 0 <= i < |Changed(items)| && Changed(items)[i] == item;
      var j :| 0 <= j < |Changed(items)| && Changed(items)[j] == other;
    }
  }

  /**
    * A cycle from a stored link whose first answer says the link expired: it succeeds exactly when the
    * answer without a link is a delta that lists no item twice, and then leaves the folder as that
    * answer lists it.
    */
  lemma ExpiredLinkRestarts(rep: Replica, answer: Option<string> -> Reply)
    requires Valid(rep.db) && rep.folder.link.Some?
    requires answer(rep.folder.link).Raised? && SaysExpired(answer(rep.folder.link).error)
    ensures var after, full := CycleResult(rep, false, answer), answer(None);
      && (!after.folder.failed <==> full.Delta? && ListsOnce(full.items))
      && (!after.folder.failed ==> IsListing(Contents(after.db, rep.folder.id), full.items))
      && (after.folder.failed ==> after == rep.(folder := rep.folder.(failed := true)))
  {
    hide Applied, Contents, IsListing;
    if answer(None).Delta? {
      ChangedRepeats(answer(None).items);
      if ListsOnce(answer(None).items) {
        FullReplyIsListing(rep.db, rep.folder.id, answer(None).items);
      }
    }
  }

  /** Any other error, or any error without a link, changes nothing but the mark on the folder. */
  lemma OtherErrorsFail(rep: Replica, forceFull: bool, answer: Option<string> -> Reply)
    requires Valid(rep.db)
    requires var start := if forceFull then None else rep.folder.link;
      answer(start).Raised? && (start.Some? ==> !SaysExpired(answer(start).error))
    ensures CycleResult(rep, forceFull, answer) == rep.(folder := rep.folder.(failed := true))
  {
  }

  /** A cycle asked to start over, or without a link, enumerates the folder. */
  lemma FullCycleLists(rep: Replica, forceFull: bool, answer: Option<string> -> Reply)
    requires Valid(rep.db) && (forceFull || rep.folder.link.None?)
    ensures var after, full := CycleResult(rep, forceFull, answer), answer(None);
      && (!after.folder.failed <==> full.Delta? && ListsOnce(full.items))
      && (!after.folder.failed ==> IsListing(Contents(after.db, rep.folder.id), full.items))
  {
    hide Applied, Contents, IsListing;
    if answer(None).Delta? {
      ChangedRepeats(answer(None).items);
      if ListsOnce(answer(None).items) {
        FullReplyIsListing(rep.db, rep.folder.id, answer(None).items);
      }
    }
  }

  /** The answer a cycle goes by: the second one only if the first says that the stored link expired. */
  function Deciding(rep: Replica, forceFull: bool, answer: Option<string> -> Reply): Reply {
    var start := if forceFull then None else rep.folder.link;
    var first := answer(start);
    if start.Some? && first.Raised? && SaysExpired(first.error) then answer(None) else first
  }

  /** A successful cycle goes on from the link it was given, if it was given one. */
  lemma CycleStoresLink(rep: Replica, forceFull: bool, answer: Option<string> -> Reply)
    requires Valid(rep.db)
    ensures var after, last := CycleResult(rep, forceFull, answer), Deciding(rep, forceFull, answer);
      && (!after.folder.failed <==> last.Delta? && ListsOnce(last.items))
      && (!after.folder.failed ==>
        after.folder.link == if last.link.Some? && last.link.value != "" then last.link else None)
      && (!after.folder.failed ==> after.folder.syncPass == rep.folder.syncPass + 1)
      && (after.folder.failed ==> after == rep.(folder := rep.folder.(failed := true)))
  {
    hide Applied;
    var last := Deciding(rep, forceFull, answer);
    if last.Delta? {
      ChangedRepeats(last.items);
    }
  }

  // ---- Every run ----

  /**
    * A cycle, a body backfill, the removal of items an action has just moved or deleted on the
    * server, or any store operation on other folders.
    */
  datatype Action =
    | Cycle(forceFull: bool, answer: Option<string> -> Reply)
    | Backfill(row: RowId, hash: Hash, messageId: Option<string>, state: BodyState, body: Option<string>)
    | Forget(items: set<string>)
    | Elsewhere(op: Op)

  ghost function Next(rep: Replica, action: Action): Replica
    requires Valid(rep.db)
  {
    match action
    case Cycle(forceFull, answer) => CycleResult(rep, forceFull, answer)
    case Backfill(row, hash, messageId, state, body) =>
      var (merged, kept) := EnsureHash(rep.db, row, hash);
      rep.(db := WriteBody(merged, kept, messageId, state, body))
    case Forget(items) => rep.(db := Exec(rep.db, DropItems(rep.folder.id, items)))
    case Elsewhere(op) => rep.(db := Exec(rep.db, op))
  }

  /** The operation names another folder, or only rows. */
  predicate Foreign(op: Op, folder: FolderId) {
    op.Rehash? || op.StoreBody? || op.folder != folder
  }

  /** Items forgotten by the first `i` actions. */
  ghost function GoneBefore(actions: seq<Action>, i: nat): set<string>
    requires i <= |actions|
  {
    if i == 0 then {}
    else GoneBefore(actions, i - 1) + if actions[i - 1].Forget? then actions[i - 1].items else {}
  }

  ghost predicate Fair(action: Action, folder: FolderId, snapOf: string -> Snapshot, gone: set<string>) {
    match action
    case Cycle(_, answer) => Honest(answer, snapOf, gone)
    case Elsewhere(op) => Foreign(op, folder)
    case _ => true
  }

  ghost predicate Run(states: seq<Replica>, actions: seq<Action>, snapOf: string -> Snapshot) {
    && |states| == |actions| + 1 && Valid(states[0].db) && states[0].folder.link == None
    && forall i :: 0 <= i < |actions| ==>
         Fair(actions[i], states[i].folder.id, snapOf, GoneBefore(actions, i))
         && (Valid(states[i].db) ==> states[i + 1] == Next(states[i], actions[i]))
  }

  /** While a link is stored, the folder is the snapshot the link stands for, without what was forgotten since. */
  ghost predicate LinkSound(rep: Replica, snapOf: string -> Snapshot, gone: set<string>) {
    rep.folder.link.Some? ==>
      && Contents(rep.db, rep.folder.id) == snapOf(rep.folder.link.value) - gone
      && "" !in snapOf(rep.folder.link.value)
  }

  /** A successful cycle ends in the snapshot described by the reply it used. */
  lemma CycleReachesSnapshot(
      rep: Replica, forceFull: bool, answer: Option<string> -> Reply, snapOf: string -> Snapshot, gone: set<string>)
      returns (snap: Snapshot)
    requires Valid(rep.db) && LinkSound(rep, snapOf, gone) && Honest(answer, snapOf, gone)
    requires Succeeds(FinalReply(StartLink(rep.folder, forceFull), answer).0)
    ensures var (reply, full) := FinalReply(StartLink(rep.folder, forceFull), answer);
      LeadsTo(reply, if full then None else Base(rep.folder.link, snapOf), snapOf, snap)
    ensures Contents(CycleResult(rep, forceFull, answer).db, rep.folder.id) == snap && snap.Keys !! gone
  {
    hide Describes, Contents, Applied;
    var start := StartLink(rep.folder, forceFull);
    var (reply, full) := FinalReply(start, answer);
    var asked := if full then None else start;
    assert reply == answer(asked);
    snap :| LeadsTo(answer(asked), Base(asked, snapOf), snapOf, snap) && snap.Keys !! gone;
    DescribesWithout(reply.items, Base(asked, snapOf), snap, gone);
    var base := if asked.Some? then Some(snapOf(asked.value) - gone) else None;
    AppliedIsSnapshot(rep.db, rep.folder.id, reply.items, full, base, snap);
  }

  lemma CycleKeepsLinkSound(
      rep: Replica, forceFull: bool, answer: Option<string> -> Reply, snapOf: string -> Snapshot, gone: set<string>)
    requires Valid(rep.db) && LinkSound(rep, snapOf, gone) && Honest(answer, snapOf, gone)
    ensures Valid(CycleResult(rep, forceFull, answer).db)
    ensures LinkSound(CycleResult(rep, forceFull, answer), snapOf, gone)
  {
    hide Applied, Contents, RepeatsItem, Valid, Honest, Changed;
    var (reply, full) := FinalReply(StartLink(rep.folder, forceFull), answer);
    if Succeeds(reply) {
      AppliedValid(rep.db, rep.folder.id, reply.items, full);
      var snap := CycleReachesSnapshot(rep, forceFull, answer, snapOf, gone);
      assert snap - gone == snap;
    }
  }

  /** Storing a body, with the merge it may cause, leaves every folder's contents alone. */
  lemma BackfillKeepsContents(
      db: Db, row: RowId, hash: Hash, messageId: Option<string>, state: BodyState, body: Option<string>,
      folder: FolderId)
    requires Valid(db)
    ensures var (merged, kept) := EnsureHash(db, row, hash);
      && Valid(WriteBody(merged, kept, messageId, state, body))
      && Contents(WriteBody(merged, kept, messageId, state, body), folder) == Contents(db, folder)
  {
    EnsureHashConserves(db, row, hash);
    var (merged, kept) := EnsureHash(db, row, hash);
    var after := WriteBody(merged, kept, messageId, state, body);
    forall k ensures k in Contents(after, folder) <==> k in Contents(db, folder)
      ensures k in Contents(db, folder) ==> Contents(after, folder)[k] == Contents(db, folder)[k]
    {
      ContentsAt(db, folder, k);
      ContentsAt(after, folder, k);
    }
  }

  /** A local removal takes exactly the named items out of the folder. */
  lemma ForgetContents(db: Db, folder: FolderId, items: set<string>)
    requires Valid(db)
    ensures Contents(Exec(db, DropItems(folder, items)), folder) == Contents(db, folder) - items
  {
    hide Contents;
    var after := Exec(db, DropItems(folder, items));
    var was, now := Contents(db, folder), Contents(after, folder);
    forall k ensures k in now <==> k in was - items
      ensures k in now ==> now[k] == was[k]
    {
      ContentsAt(db, folder, k);
      ContentsAt(after, folder, k);
    }
  }

  /** An operation on other folders does not touch a slot's place and flags. */
  lemma ForeignKeepsSlot(db: Db, op: Op, s: Slot)
    requires Valid(db) && Foreign(op, s.folder)
    ensures var after := Exec(db, op);
      && (s in after.placements <==> s in db.placements)
      && (s in db.placements ==> after.placements[s].flags == db.placements[s].flags)
  {
    match op
    case Upsert(folder, records) => ForeignUpsert(db, folder, records, s);
    case Rehash(row, hash) => EnsureHashConserves(db, row, hash);
    case _ =>
  }

  lemma ForeignUpsert(db: Db, folder: FolderId, records: seq<Record>, s: Slot)
    requires Valid(db) && folder != s.folder
    ensures SameSlot(db, UpsertBatch(db, folder, records), s)
  {
    hide AddRows, PlaceAll, MessageIds, Hashes, Valid, RepeatsSlot;
    AddRowsKeeps(db, records);
    var added := AddRows(db, records);
    ValidIsUnique(added);
    var ids := MessageIds(added, Hashes(records));
    if !RepeatsSlot(folder, records, ids) {
      ForeignPlacements(added, folder, records, ids, s);
    }
  }

  lemma ForeignPlacements(db: Db, folder: FolderId, records: seq<Record>, ids: map<Hash, RowId>, s: Slot)
    requires folder != s.folder && !RepeatsSlot(folder, records, ids)
    ensures SameSlot(db, PlaceAll(db, folder, records, ids), s)
  {
    hide PlaceAll, RepeatsSlot;
    PlaceAllExact(db, folder, records, ids);
    assert forall r :: r in records ==> SlotOf(folder, r) != Some(s);
  }

  lemma ForeignKeepsContents(db: Db, op: Op, folder: FolderId)
    requires Valid(db) && Foreign(op, folder)
    ensures Contents(Exec(db, op), folder) == Contents(db, folder)
  {
    hide Contents, Exec, Valid;
    var was, now := Contents(db, folder), Contents(Exec(db, op), folder);
    forall k ensures k in now <==> k in was
      ensures k in now ==> now[k] == was[k]
    {
      ContentsAt(db, folder, k);
      ContentsAt(Exec(db, op), folder, k);
      ForeignKeepsSlot(db, op, ItemSlot(folder, k));
    }
  }

  lemma NextKeepsLinkSound(rep: Replica, action: Action, snapOf: string -> Snapshot, gone: set<string>)
    requires Valid(rep.db) && LinkSound(rep, snapOf, gone) && Fair(action, rep.folder.id, snapOf, gone)
    ensures Valid(Next(rep, action).db)
    ensures LinkSound(Next(rep, action), snapOf, gone + if action.Forget? then action.items else {})
  {
    hide CycleResult, Contents, Honest, Valid, Exec;
    match action
    case Cycle(forceFull, answer) =>
      CycleKeepsLinkSound(rep, forceFull, answer, snapOf, gone);
      assert gone + {} == gone;
    case Backfill(row, hash, messageId, state, body) =>
      BackfillKeepsContents(rep.db, row, hash, messageId, state, body, rep.folder.id);
      assert gone + {} == gone;
    case Forget(items) =>
      ExecKeepsValid(rep.db, DropItems(rep.folder.id, items));
      ForgetContents(rep.db, rep.folder.id, items);
      if rep.folder.link.Some? {
        var snap := snapOf(rep.folder.link.value);
        assert snap - gone - items == snap - (gone + items);
      }
    case Elsewhere(op) =>
      ExecKeepsValid(rep.db, op);
      ForeignKeepsContents(rep.db, op, rep.folder.id);
      assert gone + {} == gone;
  }

  lemma {:induction false} RunKeepsLinkSound(
      states: seq<Replica>, actions: seq<Action>, snapOf: string -> Snapshot, i: nat)
    requires Run(states, actions, snapOf) && i <= |actions|
    ensures Valid(states[i].db) && LinkSound(states[i], snapOf, GoneBefore(actions, i))
    decreases i
  {
    hide Valid, LinkSound, Next, Fair;
    if i == 0 {
      NoLinkIsSound(states[0], snapOf);
    } else {
      RunKeepsLinkSound(states, actions, snapOf, i - 1);
      NextKeepsLinkSound(states[i - 1], actions[i - 1], snapOf, GoneBefore(actions, i - 1));
    }
  }

  lemma NoLinkIsSound(rep: Replica, snapOf: string -> Snapshot)
    requires rep.folder.link == None
    ensures LinkSound(rep, snapOf, {})
  {
  }

  /**
    * Over any run of full, incremental and restarted cycles, rolled-back cycles, body writes, local
    * removals and operations on other folders: each successful cycle leaves the folder equal to the
    * snapshot its last reply describes.
    */
  lemma DeltaReplayRefines(states: seq<Replica>, actions: seq<Action>, snapOf: string -> Snapshot, i: nat)
      returns (snap: Snapshot)
    requires Run(states, actions, snapOf) && i < |actions| && actions[i].Cycle?
    requires Succeeds(FinalReply(StartLink(states[i].folder, actions[i].forceFull), actions[i].answer).0)
    ensures var (reply, full) := FinalReply(StartLink(states[i].folder, actions[i].forceFull), actions[i].answer);
      LeadsTo(reply, if full then None else Base(states[i].folder.link, snapOf), snapOf, snap)
    ensures Contents(states[i + 1].db, states[i].folder.id) == snap
  {
    hide Valid, LinkSound, Honest;
    RunKeepsLinkSound(states, actions, snapOf, i);
    assert Fair(actions[i], states[i].folder.id, snapOf, GoneBefore(actions, i));
    snap := CycleReachesSnapshot(
      states[i], actions[i].forceFull, actions[i].answer, snapOf, GoneBefore(actions, i));
  }

  // ---- Counters ----

  function SlotsOf(folder: FolderId, changed: seq<Item>): seq<Slot> {
    seq(|changed|, i requires 0 <= i < |changed| => ItemSlot(folder, changed[i].id))
  }

  /** Positions of the changed items the folder did not have: the cycle's `added`. */
  function NewItems(db: Db, folder: FolderId, changed: seq<Item>): set<int> {
    NewAt(SlotsOf(folder, changed), db.placements.Keys)
  }

  lemma NewItemsAreNewSlots(db: Db, folder: FolderId, changed: seq<Item>)
    requires !RepeatsItem(changed)
    ensures |NewItems(db, folder, changed)| == |Elements(SlotsOf(folder, changed)) - db.placements.Keys|
  {
    CountNew(SlotsOf(folder, changed), db.placements.Keys);
  }

  lemma UpsertedItems(db: Db, folder: FolderId, changed: seq<Item>)
    requires Valid(db) && !RepeatsItem(changed)
    ensures ItemsIn(Upserted(db, folder, changed), folder)
      == ItemsIn(db, folder) + (Elements(SlotsOf(folder, changed)) - db.placements.Keys)
  {
    hide Upserted, Valid, RepeatsItem;
    var upserted, slots := Upserted(db, folder, changed), SlotsOf(folder, changed);
    UpsertedExact(db, folder, changed);
    forall s
      ensures s in ItemsIn(upserted, folder) <==> s in ItemsIn(db, folder) + (Elements(slots) - db.placements.Keys)
    {
      if s.ItemSlot? && s.folder == folder && s.item in Ids(changed) {
        var item :| item in changed && item.id == s.item;
        assert Holds(upserted, ItemSlot(folder, item.id), RecordFromItem(folder, item));
        var i: nat :| i < |changed| && changed[i] == item;
        assert slots[i] == s;
      } else {
        assert SameSlot(db, upserted, s);
        assert forall i :: 0 <= i < |slots| ==> changed[i] in changed && slots[i] != s;
      }
    }
  }

  lemma AppliedItems(db: Db, folder: FolderId, items: seq<Item>, full: bool)
    requires Valid(db) && !RepeatsItem(Changed(items))
    ensures var upserted := Upserted(db, folder, Changed(items));
      && Removed(upserted, folder, items, full) <= ItemsIn(upserted, folder)
      && ItemsIn(Applied(db, folder, items, full), folder)
          == ItemsIn(upserted, folder) - Removed(upserted, folder, items, full)
  {
    hide Upserted, Valid, RepeatsItem, Changed;
  }

  /** placements after = placements before + added - removed, in every cycle. */
  lemma CountsBalance(db: Db, folder: FolderId, items: seq<Item>, full: bool)
    requires Valid(db) && !RepeatsItem(Changed(items))
    ensures |ItemsIn(Applied(db, folder, items, full), folder)|
      == |ItemsIn(db, folder)| + |NewItems(db, folder, Changed(items))|
         - |Removed(Upserted(db, folder, Changed(items)), folder, items, full)|
  {
    hide Upserted, Applied, Removed, Valid, RepeatsItem, Changed;
    NewItemsAreNewSlots(db, folder, Changed(items));
    UpsertedItems(db, folder, Changed(items));
    AppliedItems(db, folder, items, full);
  }

  // ---- `sync_folder` ----

  /** Postgres sees a repeated slot exactly when the reply repeats an item. */
  lemma RepeatsAgree(folder: FolderId, changed: seq<Item>, ids: map<Hash, RowId>)
    requires forall r :: r in RecordsOf(folder, changed) ==> r.hash in ids
    ensures RepeatsSlot(folder, RecordsOf(folder, changed), ids) <==> RepeatsItem(changed)
  {
    var records := RecordsOf(folder, changed);
    forall i | 0 <= i < |records|
      ensures records[i].hash in ids && SlotOf(folder, records[i]) == Some(ItemSlot(folder, changed[i].id))
    {
      assert records[i] in records;
    }
    if RepeatsItem(changed) {
      var i, j :| 0 <= i < j < |changed| && changed[i].id == changed[j].id;
      assert SlotOf(folder, records[i]) == SlotOf(folder, records[j]);
    }
  }

  lemma AllHashesMapped(db: Db, folder: FolderId, changed: seq<Item>)
    requires Valid(db)
    ensures var records := RecordsOf(folder, changed);
      && Valid(AddRows(db, records))
      && forall r :: r in records ==> r.hash in MessageIds(AddRows(db, records), Hashes(records))
  {
    AddRowsKeeps(db, RecordsOf(folder, changed));
  }

  class GraphFolderSync {
    const id: FolderId
    const store: MailStore
    var link: Option<string>
    var syncPass: nat
    var failed: bool

    function Abs(): Replica
      reads this, store
    {
      Replica(store.Abs(), Folder(id, link, syncPass, failed))
    }

    constructor (id: FolderId, store: MailStore)
      ensures this.store == store && Abs() == Replica(store.Abs(), Folder(id, None, 0, false))
    {
      this.id, this.store, link, syncPass, failed := id, store, None, 0, false;
    }

    /** `stats.added`: records whose item the folder did not have before. */
    method CountAdded(changed: seq<Item>, known: set<Slot>) returns (added: nat)
      ensures added == |NewAt(SlotsOf(id, changed), known)|
    {
      added := 0;
      var slots := SlotsOf(id, changed);
      for i := 0 to |slots|
        invariant added == |NewAt(slots[..i], known)|
      {
        assert slots[..i + 1] == slots[..i] + [slots[i]];
        NewAtSnoc(slots[..i], slots[i], known);
        if slots[i] !in known {
          added := added + 1;
        }
      }
      assert slots[..|slots|] == slots;
    }

    /** The upsert of the changed items; false when Postgres rejects the statement. */
    method WriteChanged(changed: seq<Item>) returns (ok: bool, added: nat)
      requires Valid(store.Abs())
      modifies store
      ensures ok <==> !RepeatsItem(changed)
      ensures ok ==> store.Abs() == Upserted(old(store.Abs()), id, changed)
      ensures added == |NewItems(old(store.Abs()), id, changed)|
    {
      ok := true;
      added := CountAdded(changed, store.placements.Keys);
      if changed != [] {
        var records := RecordsOf(id, changed);
        AllHashesMapped(store.Abs(), id, changed);
        var ids := store.UpsertMessages(records);
        RepeatsAgree(id, changed, ids);
        var written := store.UpsertPlacements(id, records, ids);
        ok := written.Some?;
      }
    }

    /** Deletion: all unlisted items after a full reply, else the `@removed` ones. */
    method DeleteGone(items: seq<Item>, full: bool) returns (removed: nat)
      requires Valid(store.Abs())
      modifies store
      ensures var before := old(store.Abs()); var gone := Removed(before, id, items, full);
        && store.Abs() == (if full || RemovedIds(items) != {} then Purge(Without(before, gone)) else before)
        && removed == |gone|
    {
      ghost var before := store.Abs();
      ghost var gone := Removed(before, id, items, full);
      WithoutSize(before, gone);
      removed := 0;
      if full {
        removed := store.DeleteMissingPlacements(id, None, Some(Ids(Changed(items))));
        assert Missing(before, id, None, Some(Ids(Changed(items)))) == gone;
      } else if RemovedIds(items) != {} {
        assert RemovedIds(items) - {""} == RemovedIds(items);
        removed := store.RemovePlacements(id, RemovedIds(items));
      } else {
        assert gone == {};
      }
    }

    /** One delta cycle: committed with balanced counters, or rolled back with the folder marked failed. */
    method SyncFolder(forceFull: bool, answer: Option<string> -> Reply)
        returns (ok: bool, added: nat, updated: int, removed: nat)
      requires Valid(store.Abs())
      modifies this, store
      ensures ok <==> Succeeds(FinalReply(StartLink(old(Abs()).folder, forceFull), answer).0)
      ensures Abs() == CycleResult(old(Abs()), forceFull, answer) && Valid(store.Abs())
      ensures var last := Deciding(old(Abs()), forceFull, answer);
        && (ok <==> last.Delta? && ListsOnce(last.items))
        && (ok ==> link == if last.link.Some? && last.link.value != "" then last.link else None)
        && (ok ==> !failed && syncPass == old(syncPass) + 1)
      ensures !ok ==> Abs() == old(Abs()).(folder := old(Abs()).folder.(failed := true))
      ensures ok ==> |ItemsIn(store.Abs(), id)| == |ItemsIn(old(store.Abs()), id)| + added - removed
      ensures ok ==> added + updated == |Changed(FinalReply(StartLink(old(Abs()).folder, forceFull), answer).0.items)|
    {
      hide Upserted, Changed, RepeatsItem, Removed, Valid, ItemsIn, NewItems;
      CycleStoresLink(Abs(), forceFull, answer);
      var committed := store.Abs();
      var start := if forceFull then None else link;
      var reply, full := answer(start), start.None?;
      if reply.Raised? && start.Some? && IsDeltaExpired(reply.error) {
        reply, full := answer(None), true;
      }
      ok, added, updated, removed := false, 0, 0, 0;
      if reply.Delta? {
        var changed := Changed(reply.items);
        ok, added := WriteChanged(changed);
        updated := |changed| - added;
        if ok {
          UpsertedExact(committed, id, changed);
          removed := DeleteGone(reply.items, full);
          AppliedValid(committed, id, reply.items, full);
          CountsBalance(committed, id, reply.items, full);
          link := StoredLink(reply.link);
          syncPass, failed := syncPass + 1, false;
        }
      }
      if !ok {
        store.Rollback(committed);
        failed := true;
      }
    }
  }
}
