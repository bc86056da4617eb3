/**
  * Runs of an account: the sync cycles, body backfills and local removals of all its IMAP folders,
  * which share one set of tables, while every mailbox changes on its own.
  */
module ImapRuns {
  import opened Util
  import opened Store
  import opened ImapServer
  import opened ImapSync

  datatype Account = Account(db: Db, folders: map<FolderId, Folder>)

  ghost predicate Tidy(a: Account) {
    Valid(a.db) && forall f :: f in a.folders ==> a.folders[f].id == f
  }

  /** One folder of the account, with the shared tables. */
  function At(a: Account, f: FolderId): Replica
    requires f in a.folders
  {
    Replica(a.db, a.folders[f])
  }

  function Put(a: Account, f: FolderId, rep: Replica): Account {
    Account(rep.db, a.folders[f := rep.folder])
  }

  /** Each folder's mailbox over time. */
  type Servers = FolderId -> nat -> Mailbox

  /**
    * `raw` is the text a body fetch parsed: the whole message, or header and first part of a large one.
    * `Forget` removes placements that an action has just moved or deleted on the server.
    */
  datatype Action =
    | Cycle(folder: FolderId, req: Request, at: nat, failAt: nat)
    | Backfill(folder: FolderId, uid: nat, at: nat, raw: string, state: BodyState, body: Option<string>)
    | Forget(folder: FolderId, uids: set<nat>)

  /** One committed step; a cycle that succeeds takes from `at` to its last command. */
  ghost predicate Step(cfg: Config, srvs: Servers, a: Account, now: nat, action: Action, b: Account, later: nat)
    requires cfg.headerChunk > 0 && Tidy(a)
  {
    action.folder in a.folders && now <= later &&
    match action
    case Cycle(f, req, at, failAt) =>
      now <= at && b == Put(a, f, CycleResult(cfg, At(a, f), req, srvs(f), failAt, at))
      && (if Succeeds(cfg, At(a, f), req, srvs(f), failAt, at)
          then later == PlanOf(cfg, At(a, f), req, srvs(f), at).end && Steady(srvs(f), at, later)
          else at <= later)
    case Backfill(f, uid, at, raw, state, body) =>
      now <= at <= later && UidSlot(f, uid) in a.db.placements && uid in srvs(f)(at).mails
      && b == a.(db := Stored(a.db, UidSlot(f, uid), srvs(f)(at).mails[uid].messageId, raw, state, body))
    case Forget(f, uids) =>
      uids !! srvs(f)(later).mails.Keys && b == a.(db := Exec(a.db, DropUids(f, uids)))
  }

  ghost predicate Histories(srvs: Servers) {
    forall f: FolderId :: History(srvs(f))
  }

  /** A run from folders that were never synchronised; `nows[i]` is when state `i` was committed. */
  ghost predicate Trace(cfg: Config, srvs: Servers, states: seq<Account>, nows: seq<nat>, actions: seq<Action>) {
    && cfg.headerChunk > 0 && Histories(srvs) && |states| == |nows| == |actions| + 1
    && Tidy(states[0]) && (forall f :: f in states[0].folders ==> states[0].folders[f].uidvalidity == None)
    && forall i :: 0 <= i < |actions| ==> Tidy(states[i]) ==>
         Step(cfg, srvs, states[i], nows[i], actions[i], states[i + 1], nows[i + 1])
  }

  /** A cycle of folder `f` that commits. */
  ghost predicate Completes(cfg: Config, srvs: Servers, a: Account, action: Action, f: FolderId)
    requires cfg.headerChunk > 0
  {
    && action.Cycle? && action.folder == f && f in a.folders
    && Succeeds(cfg, At(a, f), action.req, srvs(f), action.failAt, action.at)
  }

  // ---- What steps leave alone ----

  /** The cursor and the folder's UIDs with their flags. */
  ghost predicate SameView(a: Replica, b: Replica) {
    && a.folder.(failed := false) == b.folder.(failed := false)
    && forall u :: (Has(a, u) <==> Has(b, u)) && (Has(a, u) ==> FlagsAt(a, u) == FlagsAt(b, u))
  }

  lemma CycleKeepsView(
    cfg: Config, a: Account, f: FolderId, req: Request, srv: nat -> Mailbox, failAt: nat, t: nat, g: FolderId)
    requires cfg.headerChunk > 0 && Tidy(a) && f in a.folders && g in a.folders
    requires g != f || !Succeeds(cfg, At(a, f), req, srv, failAt, t)
    ensures SameView(At(a, g), At(Put(a, f, CycleResult(cfg, At(a, f), req, srv, failAt, t)), g))
  {
    hide Synced, PlanOf, Succeeds;
    if Succeeds(cfg, At(a, f), req, srv, failAt, t) {
      forall u: nat ensures SameSlot(a.db, Synced(cfg, At(a, f), req, srv, t).db, UidSlot(g, u)) {
        SlotAfterCycle(cfg, At(a, f), req, srv, t, UidSlot(g, u));
      }
    }
  }

  /** Dropping placements keeps the others with their rows. */
  lemma ForgetKeeps(db: Db, f: FolderId, uids: set<nat>, s: Slot)
    requires Valid(db)
    ensures var after := Exec(db, DropUids(f, uids));
      && Valid(after)
      && (s in after.placements <==> s in db.placements && !AtUid(s, f, uids))
      && (s in after.placements ==> Untouched(db, after, s) && after.placements[s] == db.placements[s])
  {
    if uids != {} {
      PurgeExact(Without(db, ListedUids(db, f, uids)));
    }
  }

  /** A step leaves alone what it does not act on: other folders, and all of them unless a cycle commits. */
  lemma StepKeepsView(
    cfg: Config, srvs: Servers, a: Account, now: nat, action: Action, b: Account, later: nat, g: FolderId)
    requires cfg.headerChunk > 0 && Tidy(a) && Step(cfg, srvs, a, now, action, b, later)
    requires g in a.folders && !Completes(cfg, srvs, a, action, g)
    requires action.Forget? ==> action.folder != g
    ensures g in b.folders && SameView(At(a, g), At(b, g))
  {
    hide PlanOf, Exec, CycleResult, Succeeds, Stored;
    match action
    case Cycle(f, req, at, failAt) =>
      CycleKeepsView(cfg, a, f, req, srvs(f), failAt, at, g);
    case Backfill(f, uid, at, raw, state, body) =>
      StoredKeeps(a.db, UidSlot(f, uid), srvs(f)(at).mails[uid].messageId, raw, state, body);
    case Forget(f, uids) =>
      forall u: nat ensures SameSlot(a.db, b.db, UidSlot(g, u)) {
        ForgetKeeps(a.db, f, uids, UidSlot(g, u));
      }
  }

  lemma StepKeepsTidy(cfg: Config, srvs: Servers, a: Account, now: nat, action: Action, b: Account, later: nat)
    requires cfg.headerChunk > 0 && Tidy(a) && Step(cfg, srvs, a, now, action, b, later)
    ensures Tidy(b) && b.folders.Keys == a.folders.Keys
  {
    hide PlanOf, Exec, Succeeds, Stored, AfterHeaders, Valid;
    match action
    case Cycle(f, req, at, failAt) =>
      PlanOpens(cfg, At(a, f), req, srvs(f), at);
      SyncedValid(cfg, At(a, f), req, srvs(f), at);
    case Backfill(f, uid, at, raw, state, body) =>
      StoredKeeps(a.db, UidSlot(f, uid), srvs(f)(at).mails[uid].messageId, raw, state, body);
    case Forget(f, uids) =>
      ForgetKeeps(a.db, f, uids, UidSlot(f, 0));
  }

  // ---- No message is skipped ----

  ghost predicate CursorsSound(a: Account, srvs: Servers, now: nat) {
    forall f: FolderId, t: nat :: f in a.folders && now <= t ==> CursorSound(At(a, f), srvs(f)(t))
  }

  lemma SameViewKeepsCursorSound(a: Replica, b: Replica, m: Mailbox)
    requires SameView(a, b) && CursorSound(a, m)
    ensures CursorSound(b, m)
  {
  }

  lemma StepKeepsCursorSound(
    cfg: Config, srvs: Servers, a: Account, now: nat, action: Action, b: Account, later: nat, g: FolderId, t: nat)
    requires cfg.headerChunk > 0 && Histories(srvs) && Tidy(a) && Step(cfg, srvs, a, now, action, b, later)
    requires CursorsSound(a, srvs, now) && g in a.folders && later <= t
    ensures g in b.folders && CursorSound(At(b, g), srvs(g)(t))
  {
    hide PlanOf, Exec, CycleResult, Synced, Succeeds, Stored, CursorSound, Evolves, WellFormed;
    assert CursorSound(At(a, g), srvs(g)(t));
    if Completes(cfg, srvs, a, action, g) {
      var req, at, srv := action.req, action.at, srvs(g);
      CommittedCycle(cfg, srvs, a, now, action, b, later);
      SessionOfHistory(srv, at, later);
      CycleKeepsCursorSound(cfg, At(a, g), req, srv, at);
      HistoryLater(srv, later, t);
      CursorSoundDrifts(At(b, g), srv(later), srv(t));
    } else if action.Forget? && action.folder == g {
      HistoryLater(srvs(g), later, t);
      ForgetKeepsCursorSound(At(a, g), action.uids, srvs(g)(later), srvs(g)(t));
    } else {
      StepKeepsView(cfg, srvs, a, now, action, b, later, g);
      SameViewKeepsCursorSound(At(a, g), At(b, g), srvs(g)(t));
    }
  }

  /** What a committed cycle leaves, and when. */
  lemma CommittedCycle(cfg: Config, srvs: Servers, a: Account, now: nat, action: Action, b: Account, later: nat)
    requires cfg.headerChunk > 0 && Tidy(a) && Step(cfg, srvs, a, now, action, b, later)
    requires action.Cycle? && Completes(cfg, srvs, a, action, action.folder)
    ensures var f, req, at := action.folder, action.req, action.at;
      && b == Put(a, f, Synced(cfg, At(a, f), req, srvs(f), at)) && At(b, f) == Synced(cfg, At(a, f), req, srvs(f), at)
      && now <= at <= later && later == PlanOf(cfg, At(a, f), req, srvs(f), at).end && Steady(srvs(f), at, later)
  {
    hide Synced;
    PlanIsWell(cfg, At(a, action.folder), action.req, srvs(action.folder), action.at);
  }

  /** Dropping placements of messages that are gone from the server loses none that is still there. */
  lemma ForgetKeepsCursorSound(a: Replica, uids: set<nat>, at: Mailbox, m: Mailbox)
    requires Valid(a.db) && CursorSound(a, at) && CursorSound(a, m)
    requires WellFormed(at) && Later(at, m) && uids !! at.mails.Keys
    ensures CursorSound(a.(db := Exec(a.db, DropUids(a.folder.id, uids))), m)
  {
  }

  lemma {:induction false} RunKeepsCursorSound(
    cfg: Config, srvs: Servers, states: seq<Account>, nows: seq<nat>, actions: seq<Action>, i: nat)
    requires Trace(cfg, srvs, states, nows, actions) && i <= |actions|
    ensures Tidy(states[i]) && states[i].folders.Keys == states[0].folders.Keys
    ensures CursorsSound(states[i], srvs, nows[i])
    decreases i
  {
    hide Tidy, Step, CursorSound;
    if i == 0 {
      FreshIsSound(states[0], srvs, nows[0]);
    } else {
      RunKeepsCursorSound(cfg, srvs, states, nows, actions, i - 1);
      var a, b := states[i - 1], states[i];
      assert Step(cfg, srvs, a, nows[i - 1], actions[i - 1], b, nows[i]);
      StepKeepsTidy(cfg, srvs, a, nows[i - 1], actions[i - 1], b, nows[i]);
      forall f: FolderId, t: nat | f in b.folders && nows[i] <= t ensures CursorSound(At(b, f), srvs(f)(t)) {
        StepKeepsCursorSound(cfg, srvs, a, nows[i - 1], actions[i - 1], b, nows[i], f, t);
      }
    }
  }

  lemma FreshIsSound(a: Account, srvs: Servers, now: nat)
    requires forall f :: f in a.folders ==> a.folders[f].uidvalidity == None
    ensures CursorsSound(a, srvs, now)
  {
  }

  /**
    * Whatever arrives or is expunged between the commands of a cycle, however many cycles roll back,
    * and whatever happens in other folders: a message below a folder's stored UIDNEXT that is still
    * on the server has its placement.
    */
  lemma NoMessageSkipped(
    cfg: Config, srvs: Servers, states: seq<Account>, nows: seq<nat>, actions: seq<Action>,
    i: nat, f: FolderId, t: nat, u: nat)
    requires Trace(cfg, srvs, states, nows, actions) && i <= |actions| && nows[i] <= t
    requires f in states[i].folders && states[i].folders[f].uidvalidity == Some(srvs(f)(t).uidvalidity)
    requires states[i].folders[f].uidnext.Some? && u < states[i].folders[f].uidnext.value && u in srvs(f)(t).mails
    ensures UidSlot(f, u) in states[i].db.placements
  {
    RunKeepsCursorSound(cfg, srvs, states, nows, actions, i);
    assert CursorSound(At(states[i], f), srvs(f)(t)) && Has(At(states[i], f), u);
  }

  // ---- Flags ----

  ghost predicate FlagsSoundFrom(rep: Replica, srv: nat -> Mailbox, now: nat) {
    forall t: nat :: now <= t ==> FlagsSound(rep, srv(t))
  }

  /** Every cycle of the folder that commits among the first `n` actions meets the exact condition for sound flags. */
  ghost predicate FlagsKept(
    cfg: Config, srvs: Servers, states: seq<Account>, actions: seq<Action>, n: nat, g: FolderId)
    requires cfg.headerChunk > 0 && |states| == |actions| + 1 && n <= |actions|
  {
    forall k :: 0 <= k < n && Completes(cfg, srvs, states[k], actions[k], g) ==>
      KeepsFlags(cfg, At(states[k], g), actions[k].req, srvs(g), actions[k].at)
  }

  lemma SameViewKeepsFlagsSound(a: Replica, b: Replica, m: Mailbox)
    requires SameView(a, b) && FlagsSound(a, m)
    ensures FlagsSound(b, m)
  {
  }

  lemma ForgetKeepsFlagsSound(a: Replica, uids: set<nat>, m: Mailbox)
    requires Valid(a.db) && FlagsSound(a, m)
    ensures FlagsSound(a.(db := Exec(a.db, DropUids(a.folder.id, uids))), m)
  {
    hide Exec;
    var after := a.(db := Exec(a.db, DropUids(a.folder.id, uids)));
    forall u | Has(after, u) ensures Has(a, u) && FlagsAt(after, u) == FlagsAt(a, u) {
      ForgetKeeps(a.db, a.folder.id, uids, UidSlot(a.folder.id, u));
    }
  }

  lemma StepKeepsFlagsSound(
    cfg: Config, srvs: Servers, a: Account, now: nat, action: Action, b: Account, later: nat, g: FolderId, t: nat)
    requires cfg.headerChunk > 0 && Histories(srvs) && Tidy(a) && Step(cfg, srvs, a, now, action, b, later)
    requires CursorsSound(a, srvs, now) && g in a.folders && FlagsSoundFrom(At(a, g), srvs(g), now) && later <= t
    requires Completes(cfg, srvs, a, action, g) ==> KeepsFlags(cfg, At(a, g), action.req, srvs(g), action.at)
    ensures g in b.folders && FlagsSound(At(b, g), srvs(g)(t))
  {
    hide PlanOf, Exec, CycleResult, Synced, Succeeds, Stored, CursorSound, FlagsSound, KeepsFlags, Evolves;
    assert FlagsSound(At(a, g), srvs(g)(t));
    if Completes(cfg, srvs, a, action, g) {
      var req, at, srv := action.req, action.at, srvs(g);
      CommittedCycle(cfg, srvs, a, now, action, b, later);
      SessionOfHistory(srv, at, later);
      CycleKeepsFlagsSound(cfg, At(a, g), req, srv, at);
      CycleKeepsCursorSound(cfg, At(a, g), req, srv, at);
      HistoryLater(srv, later, t);
      FlagsSoundDrifts(At(b, g), srv(later), srv(t));
    } else if action.Forget? && action.folder == g {
      ForgetKeepsFlagsSound(At(a, g), action.uids, srvs(g)(t));
    } else {
      StepKeepsView(cfg, srvs, a, now, action, b, later, g);
      SameViewKeepsFlagsSound(At(a, g), At(b, g), srvs(g)(t));
    }
  }

  lemma {:induction false} RunKeepsFlagsSound(
    cfg: Config, srvs: Servers, states: seq<Account>, nows: seq<nat>, actions: seq<Action>, i: nat, g: FolderId)
    requires Trace(cfg, srvs, states, nows, actions) && i <= |actions| && g in states[0].folders
    requires FlagsKept(cfg, srvs, states, actions, i, g)
    ensures g in states[i].folders && FlagsSoundFrom(At(states[i], g), srvs(g), nows[i])
    decreases i
  {
    hide Tidy, Step, CursorsSound, KeepsFlags, Completes;
    if i > 0 {
      RunKeepsFlagsSound(cfg, srvs, states, nows, actions, i - 1, g);
      RunKeepsCursorSound(cfg, srvs, states, nows, actions, i - 1);
      RunKeepsCursorSound(cfg, srvs, states, nows, actions, i);
      forall t: nat | nows[i] <= t ensures FlagsSound(At(states[i], g), srvs(g)(t)) {
        StepKeepsFlagsSound(
          cfg, srvs, states[i - 1], nows[i - 1], actions[i - 1], states[i], nows[i], g, t);
      }
    }
  }

  /** The folder's server always speaks CONDSTORE and always states a positive HIGHESTMODSEQ. */
  ghost predicate ServesCondstore(srv: nat -> Mailbox, actions: seq<Action>, g: FolderId) {
    && (forall t: nat :: srv(t).modseq > 0)
    && forall i :: 0 <= i < |actions| && actions[i].Cycle? && actions[i].folder == g ==>
      actions[i].req.condstore && actions[i].req.tellsModseq
  }

  lemma {:induction false} CondstoreCursor(
    cfg: Config, srvs: Servers, states: seq<Account>, nows: seq<nat>, actions: seq<Action>, i: nat, g: FolderId)
    requires Trace(cfg, srvs, states, nows, actions) && i <= |actions| && g in states[0].folders
    requires ServesCondstore(srvs(g), actions, g)
    ensures g in states[i].folders
    ensures states[i].folders[g].uidvalidity.Some? ==> Truthy(states[i].folders[g].modseq)
    decreases i
  {
    hide Tidy, Completes, CursorsSound;
    if i > 0 {
      CondstoreCursor(cfg, srvs, states, nows, actions, i - 1, g);
      RunKeepsCursorSound(cfg, srvs, states, nows, actions, i - 1);
      RunKeepsCursorSound(cfg, srvs, states, nows, actions, i);
      var a, b, action := states[i - 1], states[i], actions[i - 1];
      assert Step(cfg, srvs, a, nows[i - 1], action, b, nows[i]);
      CursorAfterStep(cfg, srvs, a, nows[i - 1], action, b, nows[i], g);
    }
  }

  /** A folder's cursor moves only when a cycle of it commits. */
  lemma CursorAfterStep(
    cfg: Config, srvs: Servers, a: Account, now: nat, action: Action, b: Account, later: nat, g: FolderId)
    requires cfg.headerChunk > 0 && Tidy(a) && Step(cfg, srvs, a, now, action, b, later) && g in a.folders
    ensures g in b.folders
    ensures if Completes(cfg, srvs, a, action, g)
      then b.folders[g] == Cursor(PlanOf(cfg, At(a, g), action.req, srvs(g), action.at))
        && b.folders[g].syncPass == a.folders[g].syncPass + 1
      else b.folders[g].(failed := false) == a.folders[g].(failed := false)
  {
    hide Exec, AfterHeaders, Pruned, Stored, Valid;
  }

  /** A full cycle reads flags; so does any other once a MODSEQ is stored and the server speaks CONDSTORE. */
  lemma CondstoreReadsFlags(cfg: Config, rep: Replica, req: Request, srv: nat -> Mailbox, t: nat)
    requires cfg.headerChunk > 0 && req.condstore
    requires rep.folder.uidvalidity.Some? ==> Truthy(rep.folder.modseq)
    ensures KeepsFlags(cfg, rep, req, srv, t)
  {
  }

  /** Under CONDSTORE, a placement within the stored HIGHESTMODSEQ always has the server's flags. */
  lemma CondstoreFlagsNeverStale(
    cfg: Config, srvs: Servers, states: seq<Account>, nows: seq<nat>, actions: seq<Action>,
    i: nat, f: FolderId, t: nat, u: nat)
    requires Trace(cfg, srvs, states, nows, actions) && i <= |actions| && nows[i] <= t
    requires f in states[0].folders && f in states[i].folders && ServesCondstore(srvs(f), actions, f)
    requires states[i].folders[f].uidvalidity == Some(srvs(f)(t).uidvalidity) && states[i].folders[f].modseq.Some?
    requires u in srvs(f)(t).mails && srvs(f)(t).mails[u].modseq <= states[i].folders[f].modseq.value
    requires UidSlot(f, u) in states[i].db.placements
    ensures Mirrors(states[i].db.placements[UidSlot(f, u)].flags, srvs(f)(t).mails[u].flags)
  {
    hide FlagsKept, Step, CursorsSound, FlagsSound, PlanOf;
    CondstoreKeepsFlags(cfg, srvs, states, nows, actions, i, f);
    RunKeepsFlagsSound(cfg, srvs, states, nows, actions, i, f);
    RunKeepsCursorSound(cfg, srvs, states, nows, actions, i);
    CondstoreCursor(cfg, srvs, states, nows, actions, i, f);
    FlagsSoundAt(At(states[i], f), srvs(f)(t), u);
    ColumnsMirror(srvs(f)(t).mails[u].flags);
  }

  lemma CondstoreKeepsFlags(
    cfg: Config, srvs: Servers, states: seq<Account>, nows: seq<nat>, actions: seq<Action>, n: nat, f: FolderId)
    requires Trace(cfg, srvs, states, nows, actions) && n <= |actions|
    requires f in states[0].folders && ServesCondstore(srvs(f), actions, f)
    ensures FlagsKept(cfg, srvs, states, actions, n, f)
  {
    hide KeepsFlags, Step;
    forall k | 0 <= k < n && Completes(cfg, srvs, states[k], actions[k], f)
      ensures KeepsFlags(cfg, At(states[k], f), actions[k].req, srvs(f), actions[k].at)
    {
      CondstoreCursor(cfg, srvs, states, nows, actions, k, f);
      CondstoreReadsFlags(cfg, At(states[k], f), actions[k].req, srvs(f), actions[k].at);
    }
  }

  lemma FlagsSoundAt(rep: Replica, m: Mailbox, u: nat)
    requires FlagsSound(rep, m) && rep.folder.uidvalidity == Some(m.uidvalidity) && Truthy(rep.folder.modseq)
    requires u in m.mails && Has(rep, u) && m.mails[u].modseq <= rep.folder.modseq.value
    ensures FlagsAt(rep, u) == FlagsToColumns(m.mails[u].flags)
  {
  }

  // ---- How often deletions are detected ----

  function Period(cfg: Config): nat { if cfg.flagRefreshEvery > 1 then cfg.flagRefreshEvery else 1 }

  lemma {:induction false} PassIsReached(
    cfg: Config, srvs: Servers, states: seq<Account>, nows: seq<nat>, actions: seq<Action>,
    i: nat, j: nat, f: FolderId, c: nat)
    requires Trace(cfg, srvs, states, nows, actions) && i <= j <= |actions|
    requires f in states[i].folders && f in states[j].folders
    requires states[i].folders[f].syncPass <= c < states[j].folders[f].syncPass
    ensures exists k ::
      i <= k < j && Completes(cfg, srvs, states[k], actions[k], f) && states[k].folders[f].syncPass == c
    decreases j
  {
    hide Tidy, CursorsSound, PlanOf, Succeeds;
    RunKeepsCursorSound(cfg, srvs, states, nows, actions, i);
    RunKeepsCursorSound(cfg, srvs, states, nows, actions, j - 1);
    var a, b, action := states[j - 1], states[j], actions[j - 1];
    assert Step(cfg, srvs, a, nows[j - 1], action, b, nows[j]);
    CursorAfterStep(cfg, srvs, a, nows[j - 1], action, b, nows[j], f);
    hide Step;
    if c < a.folders[f].syncPass {
      PassIsReached(cfg, srvs, states, nows, actions, i, j - 1, f, c);
    } else {
      assert Completes(cfg, srvs, states[j - 1], actions[j - 1], f);
    }
  }

  /**
    * Any window of a run with `max(flag_refresh_every, 1)` committed cycles of a folder holds one, `k`,
    * that detects deletions. If the server is quiet during it, the folder's UIDs then are the server's,
    * and its flags are exactly when those cycle `k` does not read were right. They were if `k` ran
    * without CONDSTORE, if the server always serves CONDSTORE, or if the cycles before `k` kept flags sound.
    */
  lemma WindowConverges(
    cfg: Config, srvs: Servers, states: seq<Account>, nows: seq<nat>, actions: seq<Action>,
    i: nat, j: nat, f: FolderId) returns (k: nat)
    requires Trace(cfg, srvs, states, nows, actions) && i <= j <= |actions|
    requires f in states[0].folders && f in states[i].folders && f in states[j].folders
    requires states[j].folders[f].syncPass - states[i].folders[f].syncPass >= Period(cfg)
    ensures i <= k < j && Completes(cfg, srvs, states[k], actions[k], f) && f in states[k + 1].folders
    ensures PlanOf(cfg, At(states[k], f), actions[k].req, srvs(f), actions[k].at).refresh
    ensures actions[k].req.tellsUidvalidity && Quiet(srvs(f), actions[k].at, nows[k + 1]) ==>
      var before, after, m := At(states[k], f), At(states[k + 1], f), srvs(f)(nows[k + 1]);
      var p := PlanOf(cfg, before, actions[k].req, srvs(f), actions[k].at);
      && (forall u :: Has(after, u) <==> u in m.mails)
      && (Converged(after, m) <==> CoveredRight(p, before, m))
      && (!actions[k].req.condstore ==> Converged(after, m))
      && (ServesCondstore(srvs(f), actions, f) ==> Converged(after, m))
      && (FlagsKept(cfg, srvs, states, actions, k, f) ==> Converged(after, m))
  {
    hide Tidy, CursorsSound, FlagsKept, ServesCondstore, FlagsSoundFrom, Converged, CoveredRight, Synced, Has;
    var c := NextMultiple(Period(cfg), states[i].folders[f].syncPass);
    PassIsReached(cfg, srvs, states, nows, actions, i, j, f, c);
    k :| i <= k < j && Completes(cfg, srvs, states[k], actions[k], f) && states[k].folders[f].syncPass == c;
    RunKeepsCursorSound(cfg, srvs, states, nows, actions, k);
    RunKeepsCursorSound(cfg, srvs, states, nows, actions, k + 1);
    var a, req, at := states[k], actions[k].req, actions[k].at;
    RefreshAt(cfg, At(a, f), req, srvs(f), at);
    assert Step(cfg, srvs, a, nows[k], actions[k], states[k + 1], nows[k + 1]);
    hide Step;
    CommittedCycle(cfg, srvs, a, nows[k], actions[k], states[k + 1], nows[k + 1]);
    if req.tellsUidvalidity && Quiet(srvs(f), at, nows[k + 1]) {
      QuietWindow(cfg, srvs, a, nows[k], f, req, at);
      if ServesCondstore(srvs(f), actions, f) {
        CondstoreKeepsFlags(cfg, srvs, states, nows, actions, k, f);
      }
      if FlagsKept(cfg, srvs, states, actions, k, f) {
        RunKeepsFlagsSound(cfg, srvs, states, nows, actions, k, f);
        CoveredFrom(cfg, a, nows[k], f, req, srvs(f), at);
      }
    }
  }

  lemma CoveredFrom(
    cfg: Config, a: Account, now: nat, f: FolderId, req: Request, srv: nat -> Mailbox, at: nat)
    requires cfg.headerChunk > 0 && Tidy(a) && f in a.folders && now <= at && req.tellsUidvalidity
    requires FlagsSoundFrom(At(a, f), srv, now)
    ensures CoveredRight(PlanOf(cfg, At(a, f), req, srv, at), At(a, f), srv(at))
  {
    hide PlanOf, CoveredRight, FlagsSound;
    FlagsSoundIsCoveredRight(cfg, At(a, f), req, srv, at);
  }

  lemma QuietWindow(cfg: Config, srvs: Servers, a: Account, now: nat, f: FolderId, req: Request, at: nat)
    requires cfg.headerChunk > 0 && Histories(srvs) && Tidy(a) && f in a.folders && now <= at
    requires CursorsSound(a, srvs, now) && req.tellsUidvalidity
    requires PlanOf(cfg, At(a, f), req, srvs(f), at).refresh
    requires Quiet(srvs(f), at, PlanOf(cfg, At(a, f), req, srvs(f), at).end)
    ensures
      var p, after := PlanOf(cfg, At(a, f), req, srvs(f), at), Synced(cfg, At(a, f), req, srvs(f), at);
      && srvs(f)(p.end) == srvs(f)(at)
      && (forall u :: Has(after, u) <==> u in srvs(f)(at).mails)
      && (Converged(after, srvs(f)(at)) <==> CoveredRight(p, At(a, f), srvs(f)(at)))
      && (!req.condstore ==> CoveredRight(p, At(a, f), srvs(f)(at)))
  {
    hide PlanOf, CursorSound, Synced, Converged, CoveredRight;
    var p := PlanOf(cfg, At(a, f), req, srvs(f), at);
    HistoryLater(srvs(f), at, at);
    PlanIsWell(cfg, At(a, f), req, srvs(f), at);
    QuietCycleConverges(cfg, At(a, f), req, srvs(f), at);
    SinceNeedsCondstore(cfg, At(a, f), req, srvs(f), at);
    if p.since.None? {
      AllReadIsRight(p, At(a, f), srvs(f)(at));
    }
  }

  lemma SinceNeedsCondstore(cfg: Config, rep: Replica, req: Request, srv: nat -> Mailbox, t: nat)
    requires cfg.headerChunk > 0
    ensures PlanOf(cfg, rep, req, srv, t).since.Some? ==> req.condstore && !PlanOf(cfg, rep, req, srv, t).full
  {
  }

  lemma RefreshAt(cfg: Config, rep: Replica, req: Request, srv: nat -> Mailbox, t: nat)
    requires cfg.headerChunk > 0 && rep.folder.syncPass % Period(cfg) == 0
    ensures PlanOf(cfg, rep, req, srv, t).refresh
  {
  }

  lemma NextMultiple(n: nat, pass: nat) returns (c: nat)
    requires n > 0
    ensures pass <= c < pass + n && c % n == 0
  {
    c := if pass % n == 0 then pass else pass + (n - pass % n);
    if pass % n != 0 {
      assert c == n * (pass / n + 1);
      MultipleMod(n, pass / n + 1);
    }
  }

  lemma MultipleMod(n: nat, q: nat)
    requires n > 0
    ensures (n * q) % n == 0
  {
    var d := (n * q) / n;
    MulAwayFromZero(n, q - d);
    assert n * (q - d) == (n * q) % n;
  }

  lemma MulAwayFromZero(n: nat, k: int)
    ensures k >= 1 ==> n * k >= n
    ensures k <= -1 ==> n * k <= -(n as int)
  {
  }

  // ---- Identity of messages through a new UIDVALIDITY ----

  /** `isId` tells Message-IDs from the other texts that are hashed: `folder:uid` handles and fetched content. */
  ghost predicate TellsIds(isId: string -> bool, srvs: Servers, actions: seq<Action>) {
    && (forall f: FolderId, t: nat, u: nat :: u in srvs(f)(t).mails ==> IdOrNone(isId, srvs(f)(t).mails[u].messageId))
    && (forall f: FolderId, u: nat :: !isId(Handle(f, u)))
    && forall k :: 0 <= k < |actions| && actions[k].Backfill? ==> !isId(actions[k].raw)
  }

  /** What stands for a mail without a Message-ID before its body is fetched. */
  function Handle(f: FolderId, u: nat): string {
    f + ":" + Decimal(u)
  }

  predicate IdOrNone(isId: string -> bool, x: Option<string>) {
    x.Some? && x.value != "" ==> isId(x.value)
  }

  /** The row placed at `s` has the hash of Message-ID `x`, or no Message-ID's hash if there is none. */
  ghost predicate Bears(db: Db, s: Slot, x: Option<string>, isId: string -> bool) {
    && s in db.placements && db.placements[s].message in db.rows
    && var hash := db.rows[db.placements[s].message].hash;
      if x.Some? && x.value != "" then hash == HashMessageId(x.value) else !isId(hash.preimage)
  }

  /** Under the stored UIDVALIDITY, whatever mail the server has or had under a placed UID, the row bears its id. */
  ghost predicate IdsSound(a: Account, srvs: Servers, isId: string -> bool) {
    forall f: FolderId, t: nat, u: nat :: Current(a, srvs, f, t, u) ==>
      Bears(a.db, UidSlot(f, u), srvs(f)(t).mails[u].messageId, isId)
  }

  ghost predicate Current(a: Account, srvs: Servers, f: FolderId, t: nat, u: nat) {
    && f in a.folders && a.folders[f].uidvalidity == Some(srvs(f)(t).uidvalidity)
    && u in srvs(f)(t).mails && UidSlot(f, u) in a.db.placements
  }

  /** A body is fetched under the UIDVALIDITY that gave the placement its UID. */
  ghost predicate FetchesCurrent(srvs: Servers, a: Account, action: Action) {
    action.Backfill? && action.folder in a.folders ==>
      a.folders[action.folder].uidvalidity == Some(srvs(action.folder)(action.at).uidvalidity)
  }

  lemma UntouchedBears(before: Db, after: Db, s: Slot, x: Option<string>, isId: string -> bool)
    requires Untouched(before, after, s) && Bears(before, s, x, isId)
    ensures Bears(after, s, x, isId)
  {
  }

  /** Storing a body under its own identity moves no row from or to a Message-ID's hash. */
  lemma BackfillBears(
    db: Db, s: Slot, x: Option<string>, raw: string, state: BodyState, body: Option<string>,
    o: Slot, y: Option<string>, isId: string -> bool)
    requires Valid(db) && Bears(db, s, x, isId) && Bears(db, o, y, isId)
    requires IdOrNone(isId, x) && IdOrNone(isId, y) && !isId(raw)
    ensures Bears(Stored(db, s, x, raw, state, body), o, y, isId)
  {
    EnsureHashConserves(db, db.placements[s].message, BodyHash(x, raw));
  }

  lemma CursorTold(cfg: Config, rep: Replica, req: Request, srv: nat -> Mailbox, t: nat)
    requires cfg.headerChunk > 0 && Valid(rep.db)
    ensures Synced(cfg, rep, req, srv, t).folder.uidvalidity == Select(srv(t), req).uidvalidity
  {
    hide AfterHeaders, Pruned;
  }

  /** A placement that survives SELECT is an old one, under the same UIDVALIDITY if the server states one. */
  lemma OpenedSlot(rep: Replica, info: SelectInfo, after: Db, s: Slot)
    requires Untouched(Opened(rep, info).db, after, s)
    ensures Untouched(rep.db, after, s)
    ensures s.folder == rep.folder.id && info.uidvalidity.Some? ==> rep.folder.uidvalidity == info.uidvalidity
  {
  }

  /** A placement from a header reply has the hash of its mail, at whatever time one looks at the mail. */
  lemma ReplyHash(srvs: Servers, f: FolderId, at: nat, from: nat, to: nat, db: Db, t: nat, u: nat)
    requires Histories(srvs)
    requires Steady(srvs(f), at, to) && at <= from && Placed(db, f, u, srvs(f), from, to)
    requires u in srvs(f)(t).mails && srvs(f)(t).uidvalidity == srvs(f)(at).uidvalidity
    ensures RowHash(db, UidSlot(f, u)) == Some(ImapSync.HashOf(f, u, srvs(f)(t).mails[u].messageId))
  {
    var i: nat :| from <= i < to && u in srvs(f)(i).mails
      && db.rows[db.placements[UidSlot(f, u)].message].hash == ImapSync.HashOf(f, u, srvs(f)(i).mails[u].messageId);
    SameMail(srvs(f), i, t, u);
  }

  /** The hash of a placed mail's row after a cycle: that of a header reply, or the one it had. */
  lemma CycleRowHash(
    cfg: Config, srvs: Servers, a: Account, now: nat, action: Action, b: Account, later: nat,
    g: FolderId, t: nat, u: nat)
    requires cfg.headerChunk > 0 && Histories(srvs) && Tidy(a) && Step(cfg, srvs, a, now, action, b, later)
    requires Current(b, srvs, g, t, u)
    requires action.Cycle? && Completes(cfg, srvs, a, action, action.folder)
    ensures
      || RowHash(b.db, UidSlot(g, u)) == Some(ImapSync.HashOf(g, u, srvs(g)(t).mails[u].messageId))
      || (Current(a, srvs, g, t, u) && RowHash(b.db, UidSlot(g, u)) == RowHash(a.db, UidSlot(g, u)))
  {
    hide Step, PlanOf, Succeeds, Synced, Untouched, Placed, Histories, Valid;
    var f, req, at := action.folder, action.req, action.at;
    var rep, srv, s := At(a, f), srvs(f), UidSlot(g, u);
    var p := PlanOf(cfg, rep, req, srv, at);
    PlanIsWell(cfg, rep, req, srv, at);
    CommittedCycle(cfg, srvs, a, now, action, b, later);
    PlanOpens(cfg, rep, req, srv, at);
    SlotAfterCycle(cfg, rep, req, srv, at, s);
    CursorTold(cfg, rep, req, srv, at);
    if Untouched(p.start.db, b.db, s) {
      OpenedSlot(rep, p.info, b.db, s);
      OldSlotIsCurrent(a, srvs, b, f, g, t, u);
      UntouchedHash(a.db, b.db, s);
    } else {
      ReplyHash(srvs, f, at, p.headersAt, later, b.db, t, u);
    }
  }

  lemma UntouchedHash(before: Db, after: Db, s: Slot)
    requires Untouched(before, after, s)
    ensures RowHash(after, s) == RowHash(before, s)
  {
  }

  lemma CycleKeepsIds(
    cfg: Config, srvs: Servers, a: Account, now: nat, action: Action, b: Account, later: nat, isId: string -> bool,
    g: FolderId, t: nat, u: nat)
    requires cfg.headerChunk > 0 && Histories(srvs) && Tidy(a) && Step(cfg, srvs, a, now, action, b, later)
    requires IdsSound(a, srvs, isId) && TellsIds(isId, srvs, []) && Current(b, srvs, g, t, u)
    requires action.Cycle? && Completes(cfg, srvs, a, action, action.folder)
    ensures Bears(b.db, UidSlot(g, u), srvs(g)(t).mails[u].messageId, isId)
  {
    hide Step, Completes, Tidy, Histories;
    CycleRowHash(cfg, srvs, a, now, action, b, later, g, t, u);
    assert !isId(Handle(g, u));
  }

  lemma OldSlotIsCurrent(a: Account, srvs: Servers, b: Account, f: FolderId, g: FolderId, t: nat, u: nat)
    requires f in a.folders && f in b.folders && b.folders == a.folders[f := b.folders[f]]
    requires Untouched(a.db, b.db, UidSlot(g, u)) && Current(b, srvs, g, t, u)
    requires g == f ==> a.folders[f].uidvalidity == b.folders[f].uidvalidity
    ensures Current(a, srvs, g, t, u)
  {
  }

  lemma BackfillKeepsIds(
    cfg: Config, srvs: Servers, a: Account, now: nat, action: Action, b: Account, later: nat, isId: string -> bool,
    g: FolderId, t: nat, u: nat)
    requires cfg.headerChunk > 0 && Histories(srvs) && Tidy(a) && Step(cfg, srvs, a, now, action, b, later)
    requires IdsSound(a, srvs, isId) && TellsIds(isId, srvs, [action]) && Current(b, srvs, g, t, u)
    requires action.Backfill? && FetchesCurrent(srvs, a, action)
    ensures Bears(b.db, UidSlot(g, u), srvs(g)(t).mails[u].messageId, isId)
  {
    hide Bears, Histories, Stored;
    var f, uid, at := action.folder, action.uid, action.at;
    var x := srvs(f)(at).mails[uid].messageId;
    assert [action][0] == action;
    StoredKeeps(a.db, UidSlot(f, uid), x, action.raw, action.state, action.body);
    assert Current(a, srvs, f, at, uid) && Current(a, srvs, g, t, u);
    assert IdOrNone(isId, srvs(g)(t).mails[u].messageId);
    BackfillBears(
      a.db, UidSlot(f, uid), x, action.raw, action.state, action.body, UidSlot(g, u), srvs(g)(t).mails[u].messageId,
      isId);
  }

  lemma StepKeepsIds(
    cfg: Config, srvs: Servers, a: Account, now: nat, action: Action, b: Account, later: nat, isId: string -> bool,
    g: FolderId, t: nat, u: nat)
    requires cfg.headerChunk > 0 && Histories(srvs) && Tidy(a) && Step(cfg, srvs, a, now, action, b, later)
    requires IdsSound(a, srvs, isId) && TellsIds(isId, srvs, [action]) && FetchesCurrent(srvs, a, action)
    requires Current(b, srvs, g, t, u)
    ensures Bears(b.db, UidSlot(g, u), srvs(g)(t).mails[u].messageId, isId)
  {
    hide Bears, Histories, PlanOf, Synced, Exec, Stored, TellsIds, Valid;
    FewerActionsTell(isId, srvs, action);
    match action
    case Cycle(f, req, at, failAt) =>
      if Succeeds(cfg, At(a, f), req, srvs(f), failAt, at) {
        CycleKeepsIds(cfg, srvs, a, now, action, b, later, isId, g, t, u);
      } else {
        assert Current(a, srvs, g, t, u);
      }
    case Backfill(_, _, _, _, _, _) =>
      BackfillKeepsIds(cfg, srvs, a, now, action, b, later, isId, g, t, u);
    case Forget(f, uids) =>
      ForgetKeeps(a.db, f, uids, UidSlot(g, u));
      assert Current(a, srvs, g, t, u);
      UntouchedBears(a.db, b.db, UidSlot(g, u), srvs(g)(t).mails[u].messageId, isId);
  }

  lemma FewerActionsTell(isId: string -> bool, srvs: Servers, action: Action)
    requires TellsIds(isId, srvs, [action])
    ensures TellsIds(isId, srvs, [])
  {
  }

  lemma {:induction false} RunKeepsIds(
    cfg: Config, srvs: Servers, states: seq<Account>, nows: seq<nat>, actions: seq<Action>,
    isId: string -> bool, i: nat)
    requires Trace(cfg, srvs, states, nows, actions) && i <= |actions| && TellsIds(isId, srvs, actions)
    requires forall k :: 0 <= k < |actions| ==> FetchesCurrent(srvs, states[k], actions[k])
    ensures IdsSound(states[i], srvs, isId)
    decreases i
  {
    hide Tidy, Step, Bears, FetchesCurrent, CursorsSound;
    if i > 0 {
      RunKeepsIds(cfg, srvs, states, nows, actions, isId, i - 1);
      RunKeepsCursorSound(cfg, srvs, states, nows, actions, i - 1);
      assert actions[i - 1] in actions;
      var a, b, action := states[i - 1], states[i], actions[i - 1];
      assert TellsIds(isId, srvs, [action]);
      forall f: FolderId, t: nat, u: nat | Current(b, srvs, f, t, u)
        ensures Bears(b.db, UidSlot(f, u), srvs(f)(t).mails[u].messageId, isId)
      {
        StepKeepsIds(cfg, srvs, a, nows[i - 1], action, b, nows[i], isId, f, t, u);
      }
    }
  }

  /**
    * Over any run: a mail with Message-ID `x` that was placed on a row before the folder got a new
    * UIDVALIDITY, found under a UID of the new enumeration and still there at the end of the cycle, is
    * placed on the same row, and the row has its body and body state.
    */
  lemma ResetLosesNothing(
    cfg: Config, srvs: Servers, states: seq<Account>, nows: seq<nat>, actions: seq<Action>, isId: string -> bool,
    i: nat, f: FolderId, oldTime: nat, oldUid: nat, u: nat, x: string)
    requires Trace(cfg, srvs, states, nows, actions) && i < |actions| && TellsIds(isId, srvs, actions)
    requires forall k :: 0 <= k < |actions| ==> FetchesCurrent(srvs, states[k], actions[k])
    requires Completes(cfg, srvs, states[i], actions[i], f)
    requires Resets(states[i].folders[f], Select(srvs(f)(actions[i].at), actions[i].req))
    requires x != "" && Current(states[i], srvs, f, oldTime, oldUid)
    requires srvs(f)(oldTime).mails[oldUid].messageId == Some(x)
    requires u in srvs(f)(actions[i].at + 1).mails
    requires u in srvs(f)(nows[i + 1]).mails && srvs(f)(nows[i + 1]).mails[u].messageId == Some(x)
    ensures
      var before, after := states[i].db, states[i + 1].db;
      var id := before.placements[UidSlot(f, oldUid)].message;
      && UidSlot(f, u) in after.placements && after.placements[UidSlot(f, u)].message == id
      && id in before.rows && id in after.rows && after.rows[id] == before.rows[id]
  {
    hide Step, PlanOf, Succeeds, Synced, Bears, TellsIds, CursorsSound, Resets, FetchesCurrent;
    RunKeepsIds(cfg, srvs, states, nows, actions, isId, i);
    RunKeepsCursorSound(cfg, srvs, states, nows, actions, i);
    RunKeepsCursorSound(cfg, srvs, states, nows, actions, i + 1);
    var req, at, srv := actions[i].req, actions[i].at, srvs(f);
    CommittedCycle(cfg, srvs, states[i], nows[i], actions[i], states[i + 1], nows[i + 1]);
    SessionOfHistory(srv, at, nows[i + 1]);
    var id := BearerOf(states[i].db, UidSlot(f, oldUid), x, isId);
    ResetKeepsContent(cfg, At(states[i], f), req, srv, at, u, id);
  }

  lemma BearerOf(db: Db, s: Slot, x: string, isId: string -> bool) returns (id: RowId)
    requires x != "" && Bears(db, s, Some(x), isId)
    ensures s in db.placements && id == db.placements[s].message
    ensures id in db.rows && db.rows[id].hash == HashMessageId(x)
  {
    id := db.placements[s].message;
  }

  /**
    * The backfill does not look at UIDVALIDITY. Whatever mailbox it finds, the row keeps the hash of
    * its Message-ID exactly when the UIDVALIDITY at the fetch is that of the placement.
    */
  lemma BackfillKeepsIdentityIff(
    db: Db, f: FolderId, u: nat, x: string, raw: string, state: BodyState, body: Option<string>,
    before: Mailbox, uidvalidity: nat)
    requires Valid(db) && UidSlot(f, u) in db.placements && x != ""
    requires db.rows[db.placements[UidSlot(f, u)].message].hash == HashMessageId(x)
    requires WellFormed(before) && u in before.mails && before.mails[u].messageId == Some(x)
    requires before.uidvalidity <= uidvalidity
    ensures
      (forall m: Mailbox | WellFormed(m) && Later(before, m) && m.uidvalidity == uidvalidity && u in m.mails ::
        RowHash(Stored(db, UidSlot(f, u), m.mails[u].messageId, raw, state, body), UidSlot(f, u))
          == Some(HashMessageId(x)))
      <==> uidvalidity == before.uidvalidity
  {
    var s := UidSlot(f, u);
    if uidvalidity != before.uidvalidity {
      var y := x + "'";
      var m := Mailbox(uidvalidity, u + 1, 0, map[u := Mail({}, 0, Some(y))]);
      assert WellFormed(m) && Later(before, m) && u in m.mails;
      StoredHash(db, s, Some(y), raw, state, body);
    } else {
      StoredHash(db, s, Some(x), raw, state, body);
    }
  }

  lemma StoredHash(db: Db, s: Slot, x: Option<string>, raw: string, state: BodyState, body: Option<string>)
    requires Valid(db) && s in db.placements
    ensures RowHash(Stored(db, s, x, raw, state, body), s) == Some(BodyHash(x, raw))
  {
    EnsureHashConserves(db, db.placements[s].message, BodyHash(x, raw));
  }

  // ---- Stored content through a new UIDVALIDITY, whatever the bodies were fetched from ----

  /** A row that records a Message-ID has its hash. */
  ghost predicate Named(db: Db) {
    forall id :: id in db.rows ==> NamedBy(db.rows[id].messageId, db.rows[id].hash)
  }

  predicate NamedBy(x: Option<string>, hash: Hash) {
    x.Some? && x.value != "" ==> hash == HashMessageId(x.value)
  }

  lemma UpsertNamed(db: Db, folder: FolderId, records: seq<Record>)
    requires Valid(db) && Named(db) && forall r :: r in records ==> NamedBy(r.messageId, r.hash)
    ensures Named(UpsertBatch(db, folder, records))
  {
    hide AddRows, PlaceAll, NamedBy;
    AddRowsKeeps(db, records);
    var added := AddRows(db, records);
    PlaceAllKeeps(added, folder, records, MessageIds(added, Hashes(records)));
  }

  lemma {:induction false} HeaderPassNamed(
    db: Db, folder: FolderId, uids: seq<nat>, chunk: nat, condstore: bool, srv: nat -> Mailbox, t: nat)
    requires Valid(db) && Named(db) && chunk > 0
    ensures Named(HeaderPass(db, folder, uids, chunk, condstore, srv, t))
    decreases |uids|
  {
    hide UpsertBatch, Named, Valid, Records;
    if uids != [] {
      var first := FirstChunk(uids, chunk);
      var records := Records(folder, srv(t), first, condstore);
      RecordsExact(folder, srv(t), first, condstore);
      forall r | r in records ensures NamedBy(r.messageId, r.hash) {
        assert IsReplyRecord(folder, srv(t), first, condstore, r);
      }
      UpsertNamed(db, folder, records);
      UpsertBatchKeeps(db, folder, records);
      HeaderPassNamed(
        UpsertBatch(db, folder, records), folder, LaterChunks(uids, chunk), chunk, condstore, srv, t + 1);
    }
  }

  lemma CycleKeepsNamed(cfg: Config, rep: Replica, req: Request, srv: nat -> Mailbox, t: nat)
    requires cfg.headerChunk > 0 && Valid(rep.db) && Named(rep.db)
    ensures Named(Synced(cfg, rep, req, srv, t).db)
  {
    hide PlanOf, HeaderPass, NamedBy;
    var p := PlanOf(cfg, rep, req, srv, t);
    PlanOpens(cfg, rep, req, srv, t);
    HeaderPassNamed(
      AfterFlags(p, srv), p.start.folder.id, p.newUids, cfg.headerChunk, req.condstore, srv, p.headersAt);
  }

  lemma StepKeepsNamed(cfg: Config, srvs: Servers, a: Account, now: nat, action: Action, b: Account, later: nat)
    requires cfg.headerChunk > 0 && Tidy(a) && Step(cfg, srvs, a, now, action, b, later) && Named(a.db)
    ensures Named(b.db)
  {
    hide PlanOf, Synced, Succeeds;
    match action
    case Cycle(f, req, at, failAt) =>
      CycleKeepsNamed(cfg, At(a, f), req, srvs(f), at);
    case Backfill(f, uid, at, raw, state, body) =>
      var x := srvs(f)(at).mails[uid].messageId;
      EnsureHashConserves(a.db, a.db.placements[UidSlot(f, uid)].message, BodyHash(x, raw));
    case Forget(f, uids) =>
  }

  lemma {:induction false} RunKeepsNamed(
    cfg: Config, srvs: Servers, states: seq<Account>, nows: seq<nat>, actions: seq<Action>, i: nat)
    requires Trace(cfg, srvs, states, nows, actions) && i <= |actions| && Named(states[0].db)
    ensures Named(states[i].db)
    decreases i
  {
    hide Tidy, Step, Named, CursorsSound;
    if i > 0 {
      RunKeepsNamed(cfg, srvs, states, nows, actions, i - 1);
      RunKeepsCursorSound(cfg, srvs, states, nows, actions, i - 1);
      StepKeepsNamed(cfg, srvs, states[i - 1], nows[i - 1], actions[i - 1], states[i], nows[i]);
    }
  }

  /**
    * Over any run, with no hypothesis on when bodies were fetched: a row that records Message-ID `x`
    * keeps its id, body state and body through a new UIDVALIDITY if the folder's new enumeration has
    * a mail with that Message-ID that is still there at the end of the cycle, and is where that mail
    * is placed.
    */
  lemma ResetKeepsStoredContent(
    cfg: Config, srvs: Servers, states: seq<Account>, nows: seq<nat>, actions: seq<Action>,
    i: nat, f: FolderId, u: nat, x: string, id: RowId)
    requires Trace(cfg, srvs, states, nows, actions) && i < |actions| && Named(states[0].db)
    requires Completes(cfg, srvs, states[i], actions[i], f)
    requires Resets(states[i].folders[f], Select(srvs(f)(actions[i].at), actions[i].req))
    requires x != "" && id in states[i].db.rows && states[i].db.rows[id].messageId == Some(x)
    requires u in srvs(f)(actions[i].at + 1).mails
    requires u in srvs(f)(nows[i + 1]).mails && srvs(f)(nows[i + 1]).mails[u].messageId == Some(x)
    ensures
      var after := states[i + 1].db;
      && id in after.rows && after.rows[id] == states[i].db.rows[id]
      && UidSlot(f, u) in after.placements && after.placements[UidSlot(f, u)].message == id
  {
    hide Step, PlanOf, Succeeds, Synced, CursorsSound, Resets;
    RunKeepsNamed(cfg, srvs, states, nows, actions, i);
    RunKeepsCursorSound(cfg, srvs, states, nows, actions, i);
    RunKeepsCursorSound(cfg, srvs, states, nows, actions, i + 1);
    var req, at, srv := actions[i].req, actions[i].at, srvs(f);
    CommittedCycle(cfg, srvs, states[i], nows[i], actions[i], states[i + 1], nows[i + 1]);
    SessionOfHistory(srv, at, nows[i + 1]);
    assert NamedBy(states[i].db.rows[id].messageId, states[i].db.rows[id].hash);
    ResetKeepsContent(cfg, At(states[i], f), req, srv, at, u, id);
  }
}
