/** Concrete runs of an account with one folder: where promises fail, and where their hypotheses hold. */
module ImapWitnesses {
  import opened Util
  import opened Store
  import opened ImapServer
  import opened ImapSync
  import opened ImapRuns

  // ---- A run that ends with stale flags: HIGHESTMODSEQ is stated on a connection without CONDSTORE ----

  const UNREAD := Mailbox(1, 2, 1, map[1 := Mail({}, 1, None)])
  const READ := Mailbox(1, 2, 2, map[1 := Mail({"\\Seen"}, 2, None)])

  const EVERY_OTHER := Config(2, 100)
  const NO_CONDSTORE := Request(false, false, true, true, true)
  const NEW_FOLDER := Folder("inbox", None, None, None, 0, false)
  const SYNCED_FOLDER := Folder("inbox", Some(1), Some(2), Some(1), 1, false)

  /** The one mail is marked read at time ten. */
  function ReadAtTen(t: nat): Mailbox {
    if t < 10 then UNREAD else READ
  }

  lemma ReadAtTenIsHistory()
    ensures History(ReadAtTen)
  {
    forall t: nat ensures Tick(ReadAtTen(t), ReadAtTen(t + 1)) {
      var events := if t == 9 then [StoreFlags(1, {"\\Seen"})] else [];
      assert events == [] || events[1..] == [];
      assert ReadAtTen(t + 1) == ApplyAll(ReadAtTen(t), events);
    }
  }

  lemma SeenDiffers()
    ensures FlagsToColumns({}) != FlagsToColumns({"\\Seen"})
  {
    assert Upper("\\Seen") == "\\SEEN";
    assert Names({"\\Seen"}, "\\SEEN");
  }

  lemma FirstIsIn(uids: seq<nat>)
    ensures uids == [] || uids[0] in uids
  {
  }

  lemma OneUid(m: Mailbox)
    requires m.mails.Keys == {1}
    ensures |SearchAllUids(m)| == 1 && SearchAllUids(m)[0] == 1
    ensures Commands(SearchAllUids(m), UID_CHUNK) == 1 && Commands(SearchAllUids(m), 100) == 1
    ensures SearchUidsSince(m, 2) == []
  {
    var uids, since := SearchAllUids(m), SearchUidsSince(m, 2);
    assert |uids| == |{1}|;
    assert uids[0] in uids;
    FirstIsIn(since);
  }

  lemma NoCommands()
    ensures Commands<nat>([], 100) == 0
  {
  }

  lemma FirstPlan(db: Db)
    ensures var p := PlanOf(EVERY_OTHER, Replica(db, NEW_FOLDER), NO_CONDSTORE, ReadAtTen, 0);
      p.end == 4 && p.full && p.refresh && Cursor(p) == SYNCED_FOLDER
  {
    hide PlanOf, Cursor;
    assert UNREAD.mails.Keys == {1};
    FullPlan(db, NEW_FOLDER, ReadAtTen, 0);
    FirstCursor(db);
  }

  lemma FirstCursor(db: Db)
    ensures Cursor(PlanOf(EVERY_OTHER, Replica(db, NEW_FOLDER), NO_CONDSTORE, ReadAtTen, 0)) == SYNCED_FOLDER
  {
    hide SearchAllUids, SearchUidsSince, Commands;
  }

  lemma SecondPlan(db: Db)
    ensures var p := PlanOf(EVERY_OTHER, Replica(db, SYNCED_FOLDER), NO_CONDSTORE, ReadAtTen, 10);
      p.end == 13 && !p.readsFlags && p.newUids == []
  {
    hide SearchAllUids, SearchUidsSince, Commands;
    OneUid(READ);
    NoCommands();
  }

  /** The flag invariant does not hold over all runs: here a placement within the stored MODSEQ is stale. */
  lemma FlagsGoStale()
    returns (srvs: Servers, states: seq<Account>, nows: seq<nat>, actions: seq<Action>)
    ensures Trace(EVERY_OTHER, srvs, states, nows, actions) && |actions| == 2 && "inbox" in states[2].folders
    ensures !FlagsSound(At(states[2], "inbox"), srvs("inbox")(nows[2]))
  {
    hide PlanOf, Synced, FlagsSound, Session, ApplyAll, Cursor;
    srvs := (f: FolderId) => ReadAtTen;
    var first, second := Cycle("inbox", NO_CONDSTORE, 0, 99), Cycle("inbox", NO_CONDSTORE, 10, 99);
    var start := Account(EMPTY_DB, map["inbox" := NEW_FOLDER]);
    var one := Put(start, "inbox", Synced(EVERY_OTHER, At(start, "inbox"), NO_CONDSTORE, ReadAtTen, 0));
    FirstPlan(EMPTY_DB);
    AfterFirst(start, one);
    SecondPlan(one.db);
    var two := Put(one, "inbox", Synced(EVERY_OTHER, At(one, "inbox"), NO_CONDSTORE, ReadAtTen, 10));
    ReadAtTenIsHistory();
    states, nows, actions := [start, one, two], [0, 4, 13], [first, second];
    assert Step(EVERY_OTHER, srvs, start, 0, first, one, 4);
    assert Step(EVERY_OTHER, srvs, one, 4, second, two, 13);
    SessionOfHistory(ReadAtTen, 10, 13);
    SeenDiffers();
    UnreadFlagsStayStale(EVERY_OTHER, At(one, "inbox"), NO_CONDSTORE, ReadAtTen, 10, 1);
  }

  /** The first cycle is full and leaves the unread mail as it is on the server. */
  lemma AfterFirst(start: Account, one: Account)
    requires start == Account(EMPTY_DB, map["inbox" := NEW_FOLDER])
    requires one == Put(start, "inbox", Synced(EVERY_OTHER, At(start, "inbox"), NO_CONDSTORE, ReadAtTen, 0))
    ensures Tidy(one) && one.folders == map["inbox" := SYNCED_FOLDER]
    ensures Has(At(one, "inbox"), 1) && FlagsAt(At(one, "inbox"), 1) == FlagsToColumns({})
  {
    hide PlanOf, AfterHeaders, Pruned, Cursor;
    FirstPlan(EMPTY_DB);
    SyncedValid(EVERY_OTHER, At(start, "inbox"), NO_CONDSTORE, ReadAtTen, 0);
    QuietCycleConverges(EVERY_OTHER, At(start, "inbox"), NO_CONDSTORE, ReadAtTen, 0);
    SinceNeedsCondstore(EVERY_OTHER, At(start, "inbox"), NO_CONDSTORE, ReadAtTen, 0);
    AllReadIsRight(PlanOf(EVERY_OTHER, At(start, "inbox"), NO_CONDSTORE, ReadAtTen, 0), At(start, "inbox"), UNREAD);
    assert one.folders["inbox"] == SYNCED_FOLDER;
    assert 1 in UNREAD.mails;
  }

  // ---- Runs through a new UIDVALIDITY ----

  const FIRST := Mailbox(1, 2, 1, map[1 := Mail({}, 1, Some("id"))])
  const RENEWED := Mailbox(2, 6, 2, map[1 := Mail({}, 1, Some("other")), 5 := Mail({}, 2, Some("id"))])

  /** The mailbox is recreated at time ten: its mail gets another UID, and its old UID stands for another mail. */
  function RenewedAtTen(t: nat): Mailbox {
    if t < 10 then FIRST else RENEWED
  }

  function IsId(s: string): bool {
    s == "id" || s == "other"
  }

  lemma RenewedAtTenIsHistory()
    ensures History(RenewedAtTen)
  {
    forall t: nat ensures Tick(RenewedAtTen(t), RenewedAtTen(t + 1)) {
      if t != 9 {
        assert RenewedAtTen(t + 1) == ApplyAll(RenewedAtTen(t), []);
      }
    }
  }

  /** A full cycle over a few mails: SELECT, SEARCH, one flag and one header FETCH. */
  lemma FullPlan(db: Db, folder: Folder, srv: nat -> Mailbox, t: nat)
    requires folder.uidvalidity != Some(srv(t).uidvalidity) && 1 <= |srv(t + 1).mails.Keys| <= 100
    ensures var p := PlanOf(EVERY_OTHER, Replica(db, folder), NO_CONDSTORE, srv, t);
      p.end == t + 4 && p.full && p.refresh && Cursor(p).uidvalidity == Some(srv(t).uidvalidity)
  {
    hide SearchAllUids, Commands;
    OneCommand(SearchAllUids(srv(t + 1)), srv(t + 1));
  }

  lemma OneCommand(uids: seq<nat>, m: Mailbox)
    requires uids == SearchAllUids(m) && 1 <= |m.mails.Keys| <= 100
    ensures uids != [] && Commands(uids, UID_CHUNK) == 1 && Commands(uids, 100) == 1
  {
  }

  lemma FewMails(t: nat)
    ensures 1 <= |RenewedAtTen(t).mails.Keys| <= 100
  {
    assert FIRST.mails.Keys == {1} && RENEWED.mails.Keys == {1, 5};
  }

  lemma IdsAreNoHandles()
    ensures forall f: FolderId, u: nat :: !IsId(Handle(f, u))
  {
    forall f: FolderId, u: nat ensures !IsId(Handle(f, u)) {
      assert Handle(f, u)[|f|] == ':';
    }
  }

  lemma IdsAreTold(srvs: Servers, actions: seq<Action>)
    requires forall f: FolderId :: srvs(f) == RenewedAtTen
    requires forall k :: 0 <= k < |actions| && actions[k].Backfill? ==> !IsId(actions[k].raw)
    ensures TellsIds(IsId, srvs, actions)
  {
    IdsAreNoHandles();
    forall f: FolderId, t: nat, u: nat | u in srvs(f)(t).mails ensures IdOrNone(IsId, srvs(f)(t).mails[u].messageId) {
      assert srvs(f)(t) == RenewedAtTen(t);
    }
  }

  const START := Account(EMPTY_DB, map["inbox" := NEW_FOLDER])

  ghost function AfterFirstCycle(): Account {
    Put(START, "inbox", Synced(EVERY_OTHER, At(START, "inbox"), NO_CONDSTORE, RenewedAtTen, 0))
  }

  lemma EmptyIsValid()
    ensures Valid(EMPTY_DB) && Tidy(START)
  {
  }

  /** The first cycle leaves one placement, and one row for it. */
  lemma FirstCycle()
    ensures var one := AfterFirstCycle();
      && Tidy(one) && one.folders.Keys == {"inbox"} && one.folders["inbox"].uidvalidity == Some(1)
      && UidSlot("inbox", 1) in one.db.placements
      && one.db.rows.Keys == {one.db.placements[UidSlot("inbox", 1)].message}
  {
    hide PlanOf, Synced, Valid;
    EmptyIsValid();
    FullPlan(EMPTY_DB, NEW_FOLDER, RenewedAtTen, 0);
    FirstPlaces();
    OnlyRow();
    FirstStep((f: FolderId) => RenewedAtTen);
    StepKeepsTidy(
      EVERY_OTHER, (f: FolderId) => RenewedAtTen, START, 0, Cycle("inbox", NO_CONDSTORE, 0, 99), AfterFirstCycle(), 4);
    FirstFolder();
  }

  lemma FirstFolder()
    ensures AfterFirstCycle().folders["inbox"].uidvalidity == Some(1)
  {
    hide AfterHeaders, Pruned, PlanOf;
    EmptyIsValid();
    FullPlan(EMPTY_DB, NEW_FOLDER, RenewedAtTen, 0);
  }

  lemma FirstPlaces()
    ensures forall u :: UidSlot("inbox", u) in AfterFirstCycle().db.placements <==> u == 1
    ensures Valid(AfterFirstCycle().db)
  {
    hide PlanOf, AfterHeaders, Pruned, Valid, CoveredRight, Converged;
    EmptyIsValid();
    var rep := At(START, "inbox");
    FullPlan(EMPTY_DB, NEW_FOLDER, RenewedAtTen, 0);
    PlanOpens(EVERY_OTHER, rep, NO_CONDSTORE, RenewedAtTen, 0);
    SyncedValid(EVERY_OTHER, rep, NO_CONDSTORE, RenewedAtTen, 0);
    QuietCycleConverges(EVERY_OTHER, rep, NO_CONDSTORE, RenewedAtTen, 0);
    var after := Synced(EVERY_OTHER, rep, NO_CONDSTORE, RenewedAtTen, 0);
    forall u ensures UidSlot("inbox", u) in after.db.placements <==> u in FIRST.mails {
      assert Has(after, u) <==> u in RenewedAtTen(0).mails;
    }
  }

  lemma OnlyRow()
    requires UidSlot("inbox", 1) in AfterFirstCycle().db.placements && Valid(AfterFirstCycle().db)
    requires forall u :: UidSlot("inbox", u) in AfterFirstCycle().db.placements ==> u == 1
    ensures AfterFirstCycle().db.rows.Keys == {AfterFirstCycle().db.placements[UidSlot("inbox", 1)].message}
  {
    hide PlanOf, Valid, Placed;
    EmptyIsValid();
    var rep, db := At(START, "inbox"), AfterFirstCycle().db;
    FullPlan(EMPTY_DB, NEW_FOLDER, RenewedAtTen, 0);
    RefreshLeavesNoOrphans(EVERY_OTHER, rep, NO_CONDSTORE, RenewedAtTen, 0);
    PlanOpens(EVERY_OTHER, rep, NO_CONDSTORE, RenewedAtTen, 0);
    forall s | s in db.placements ensures s == UidSlot("inbox", 1) {
      SlotAfterCycle(EVERY_OTHER, rep, NO_CONDSTORE, RenewedAtTen, 0, s);
    }
    PlacedRow(db, UidSlot("inbox", 1));
  }

  lemma PlacedRow(db: Db, s: Slot)
    requires Valid(db) && s in db.placements
    ensures db.placements[s].message in db.rows
  {
  }

  lemma RefreshLeavesNoOrphans(cfg: Config, rep: Replica, req: Request, srv: nat -> Mailbox, t: nat)
    requires cfg.headerChunk > 0 && Valid(rep.db) && PlanOf(cfg, rep, req, srv, t).refresh
    ensures NoOrphans(Synced(cfg, rep, req, srv, t).db)
  {
    hide PlanOf, AfterHeaders;
    PlanIsWell(cfg, rep, req, srv, t);
    var p := PlanOf(cfg, rep, req, srv, t);
    var db := AfterHeaders(cfg, p, req, srv);
    PurgeExact(Without(db, MissingUids(db, p.start.folder.id, Elements(p.allUids))));
  }

  lemma Ready() returns (srvs: Servers)
    ensures Histories(srvs) && forall f: FolderId :: srvs(f) == RenewedAtTen
  {
    srvs := (f: FolderId) => RenewedAtTen;
    RenewedAtTenIsHistory();
  }

  /** The cycle that finds the new UIDVALIDITY, as a step. */
  lemma ResettingCycle(srvs: Servers, a: Account, now: nat, at: nat) returns (b: Account)
    requires forall f: FolderId :: srvs(f) == RenewedAtTen
    requires Tidy(a) && a.folders.Keys == {"inbox"} && a.folders["inbox"].uidvalidity == Some(1)
    requires now <= at && 10 <= at < 20
    ensures Step(EVERY_OTHER, srvs, a, now, Cycle("inbox", NO_CONDSTORE, at, 99), b, at + 4)
    ensures Completes(EVERY_OTHER, srvs, a, Cycle("inbox", NO_CONDSTORE, at, 99), "inbox")
    ensures b.db == Synced(EVERY_OTHER, At(a, "inbox"), NO_CONDSTORE, RenewedAtTen, at).db
  {
    hide PlanOf, Synced;
    FewMails(at + 1);
    FullPlan(a.db, a.folders["inbox"], RenewedAtTen, at);
    assert srvs("inbox") == RenewedAtTen;
    b := Put(a, "inbox", Synced(EVERY_OTHER, At(a, "inbox"), NO_CONDSTORE, RenewedAtTen, at));
  }

  lemma FirstStep(srvs: Servers)
    requires forall f: FolderId :: srvs(f) == RenewedAtTen
    ensures Tidy(START)
    ensures Step(EVERY_OTHER, srvs, START, 0, Cycle("inbox", NO_CONDSTORE, 0, 99), AfterFirstCycle(), 4)
  {
    hide PlanOf, Synced;
    FullPlan(EMPTY_DB, NEW_FOLDER, RenewedAtTen, 0);
    assert srvs("inbox") == RenewedAtTen;
  }

  /** A run that meets the hypotheses of `ResetLosesNothing`: the mail is on the row it was on. */
  lemma ResetHappens() returns (srvs: Servers, states: seq<Account>, nows: seq<nat>, actions: seq<Action>)
    ensures Trace(EVERY_OTHER, srvs, states, nows, actions) && |actions| == 2 && TellsIds(IsId, srvs, actions)
    ensures forall k :: 0 <= k < |actions| ==> FetchesCurrent(srvs, states[k], actions[k])
    ensures Completes(EVERY_OTHER, srvs, states[1], actions[1], "inbox")
    ensures Moves(states[1], states[2], (x, y) => x == y)
  {
    hide PlanOf, Synced, History, Step, Completes;
    srvs := Ready();
    FirstStep(srvs);
    FirstCycle();
    var two := ResettingCycle(srvs, AfterFirstCycle(), 4, 10);
    states, nows := [START, AfterFirstCycle(), two], [0, 4, 14];
    actions := [Cycle("inbox", NO_CONDSTORE, 0, 99), Cycle("inbox", NO_CONDSTORE, 10, 99)];
    IdsAreTold(srvs, actions);
    assert srvs("inbox")(0) == FIRST && srvs("inbox")(10) == srvs("inbox")(11) == srvs("inbox")(14) == RENEWED;
    assert Current(states[1], srvs, "inbox", 0, 1);
    ResetLosesNothing(EVERY_OTHER, srvs, states, nows, actions, IsId, 1, "inbox", 0, 1, 5, "id");
  }

  /** How the row of the mail with Message-ID "id" before compares with the one after. */
  ghost predicate Moves(before: Account, after: Account, compare: (RowId, RowId) -> bool) {
    var was, now := before.db.placements, after.db.placements;
    && UidSlot("inbox", 1) in was && UidSlot("inbox", 5) in now
    && compare(was[UidSlot("inbox", 1)].message, now[UidSlot("inbox", 5)].message)
  }

  const STALE_FETCH := Backfill("inbox", 1, 10, "content", Full, Some("content"))

  lemma StaleRun() returns (srvs: Servers, states: seq<Account>, nows: seq<nat>, actions: seq<Action>)
    ensures Trace(EVERY_OTHER, srvs, states, nows, actions) && |states| == 4 && nows == [0, 4, 10, 15]
    ensures actions == [Cycle("inbox", NO_CONDSTORE, 0, 99), STALE_FETCH, Cycle("inbox", NO_CONDSTORE, 11, 99)]
    ensures forall f: FolderId :: srvs(f) == RenewedAtTen
    ensures states[1] == AfterFirstCycle() && Rehashed(states[1], states[2])
    ensures Completes(EVERY_OTHER, srvs, states[2], actions[2], "inbox")
    ensures states[3].db == Synced(EVERY_OTHER, At(states[2], "inbox"), NO_CONDSTORE, RenewedAtTen, 11).db
  {
    hide PlanOf, Synced, History, Step, Completes, Stored;
    srvs := Ready();
    FirstStep(srvs);
    FirstCycle();
    var filled := StaleFetch(srvs, AfterFirstCycle());
    var last := ResettingCycle(srvs, filled, 10, 11);
    states, nows := [START, AfterFirstCycle(), filled, last], [0, 4, 10, 15];
    actions := [Cycle("inbox", NO_CONDSTORE, 0, 99), STALE_FETCH, Cycle("inbox", NO_CONDSTORE, 11, 99)];
  }

  /** The row of the one placement has become the other mail's. */
  ghost predicate Rehashed(one: Account, filled: Account) {
    && Tidy(filled) && filled.folders == one.folders && UidSlot("inbox", 1) in one.db.placements
    && var row := one.db.placements[UidSlot("inbox", 1)].message;
      row in filled.db.rows && filled.db.rows[row].hash == HashMessageId("other")
  }

  /**
    * A body fetched between the reset and the cycle that finds it: the row of the mail gets the identity
    * of the other mail that has its old UID, and at the reset the mail is placed on another row.
    */
  lemma StaleFetchLosesRow() returns (srvs: Servers, states: seq<Account>, nows: seq<nat>, actions: seq<Action>)
    ensures Trace(EVERY_OTHER, srvs, states, nows, actions) && |actions| == 3 && TellsIds(IsId, srvs, actions)
    ensures actions[1].Backfill? && !FetchesCurrent(srvs, states[1], actions[1])
    ensures Completes(EVERY_OTHER, srvs, states[2], actions[2], "inbox")
    ensures Moves(states[1], states[3], (x, y) => x != y)
  {
    hide PlanOf, Synced, Trace, Completes, Session, TellsIds;
    srvs, states, nows, actions := StaleRun();
    IdsAreTold(srvs, actions);
    FirstCycle();
    assert srvs("inbox")(10) == RENEWED;
    var row := states[1].db.placements[UidSlot("inbox", 1)].message;
    SteadyIsSession(11, 15);
    FewMails(12);
    FullPlan(states[2].db, states[2].folders["inbox"], RenewedAtTen, 11);
    SyncedId(EVERY_OTHER, At(states[2], "inbox"), NO_CONDSTORE, RenewedAtTen, 11);
    ResetKeepsContent(EVERY_OTHER, At(states[2], "inbox"), NO_CONDSTORE, RenewedAtTen, 11, 5, row);
  }

  lemma SyncedId(cfg: Config, rep: Replica, req: Request, srv: nat -> Mailbox, t: nat)
    requires cfg.headerChunk > 0 && Valid(rep.db)
    ensures Synced(cfg, rep, req, srv, t).folder.id == rep.folder.id
  {
    hide AfterHeaders, Pruned;
  }

  lemma SteadyIsSession(from: nat, to: nat)
    requires 10 <= from <= to
    ensures Session(RenewedAtTen, from, to)
  {
    RenewedAtTenIsHistory();
    SessionOfHistory(RenewedAtTen, from, to);
  }

  /** The one row is rehashed to the other mail's Message-ID. */
  lemma StaleFetch(srvs: Servers, one: Account) returns (filled: Account)
    requires (forall f: FolderId :: srvs(f) == RenewedAtTen) && one == AfterFirstCycle() && Tidy(one)
    requires "inbox" in one.folders && UidSlot("inbox", 1) in one.db.placements
    requires one.db.rows.Keys == {one.db.placements[UidSlot("inbox", 1)].message}
    ensures Step(EVERY_OTHER, srvs, one, 4, STALE_FETCH, filled, 10) && Rehashed(one, filled)
  {
    hide Synced;
    var s, x := UidSlot("inbox", 1), Some("other");
    assert srvs("inbox")(10) == RENEWED;
    filled := one.(db := Stored(one.db, s, x, "content", Full, Some("content")));
    StoredKeeps(one.db, s, x, "content", Full, Some("content"));
    EnsureHashConserves(one.db, one.db.placements[s].message, BodyHash(x, "content"));
  }
}
