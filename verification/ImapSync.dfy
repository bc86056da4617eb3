/**
  * One IMAP folder kept as a local copy: the sync cycle, its cursor, and what every run of cycles
  * keeps while the mailbox changes between any two commands.
  */
module ImapSync {
  import opened Util
  import opened Store
  import opened ImapServer

  datatype Folder = Folder(
    id: FolderId, uidvalidity: Option<nat>, uidnext: Option<nat>, modseq: Option<nat>,
    syncPass: nat, failed: bool)

  datatype Replica = Replica(db: Db, folder: Folder)

  datatype Config = Config(flagRefreshEvery: int, headerChunk: nat)

  /** One cycle: what the caller asks, and which items this session's server states. */
  datatype Request = Request(
    forceFull: bool, condstore: bool, tellsUidvalidity: bool, tellsUidnext: bool, tellsModseq: bool)

  /** Python truthiness of an optional number. */
  predicate Truthy(o: Option<nat>) { o.Some? && o.value != 0 }

  function Select(m: Mailbox, req: Request): SelectInfo {
    SelectInfo(
      if req.tellsUidvalidity then Some(m.uidvalidity) else None,
      if req.tellsUidnext then Some(m.uidnext) else None,
      if req.tellsModseq then Some(m.modseq) else None)
  }

  // ---- Records of the header pass ----

  function HashOf(folder: FolderId, uid: nat, messageId: Option<string>): Hash {
    if messageId.Some? && messageId.value != "" then HashMessageId(messageId.value)
    else ProvisionalHash(folder, Decimal(uid))
  }

  function RecordFromFetch(folder: FolderId, uid: nat, mail: Mail, condstore: bool): Record {
    Record(HashOf(folder, uid, mail.messageId), Some(uid), None, mail.messageId,
           FlagsToColumns(mail.flags), if condstore then Some(mail.modseq) else None)
  }

  /** The records of one header FETCH: every asked UID that is still present. */
  function Records(folder: FolderId, m: Mailbox, uids: seq<nat>, condstore: bool): seq<Record> {
    if uids == [] then []
    else
      (if uids[0] in m.mails then [RecordFromFetch(folder, uids[0], m.mails[uids[0]], condstore)] else [])
      + Records(folder, m, uids[1..], condstore)
  }

  ghost predicate IsReplyRecord(folder: FolderId, m: Mailbox, uids: seq<nat>, condstore: bool, r: Record) {
    && r.uid.Some? && r.uid.value in uids && r.uid.value in m.mails
    && r == RecordFromFetch(folder, r.uid.value, m.mails[r.uid.value], condstore)
  }

  /** The record says what the FETCH said: the mail's id and flags, its modseq with CONDSTORE, and no item. */
  ghost predicate Conveys(r: Record, folder: FolderId, uid: nat, mail: Mail, condstore: bool) {
    && r.uid == Some(uid) && r.item == None && r.messageId == mail.messageId
    && Mirrors(r.flags, mail.flags)
    && (condstore ==> r.modseq == Some(mail.modseq)) && (!condstore ==> r.modseq == None)
    && (if mail.messageId.Some? && mail.messageId.value != "" then r.hash.preimage == mail.messageId.value
        else |r.hash.preimage| > |folder| && r.hash.preimage[..|folder|] == folder && r.hash.preimage[|folder|] == ':'
             && Numeral(r.hash.preimage[|folder| + 1..]) == uid)
  }

  lemma RecordConveys(folder: FolderId, uid: nat, mail: Mail, condstore: bool)
    ensures Conveys(RecordFromFetch(folder, uid, mail, condstore), folder, uid, mail, condstore)
  {
    hide Decimal, Numeral, FlagsToColumns, Mirrors;
    ColumnsMirror(mail.flags);
    DecimalStands(uid);
    var s := folder + ":" + Decimal(uid);
    assert s[|folder| + 1..] == Decimal(uid) && s[..|folder|] == folder;
  }

  /** The records of a reply convey the asked mails that are present, all of them, each UID once. */
  lemma ReplyConveys(folder: FolderId, m: Mailbox, uids: seq<nat>, condstore: bool)
    ensures var rs := Records(folder, m, uids, condstore);
      && (forall r :: r in rs ==> r.uid.Some? && r.uid.value in uids && r.uid.value in m.mails)
      && (forall r :: r in rs ==> Conveys(r, folder, r.uid.value, m.mails[r.uid.value], condstore))
      && (forall u :: u in uids && u in m.mails ==>
            exists r :: r in rs && Conveys(r, folder, u, m.mails[u], condstore))
      && (Ascending(uids) ==> forall i, j :: 0 <= i < j < |rs| ==> rs[i].uid != rs[j].uid)
  {
    hide Conveys, RecordFromFetch;
    var rs := Records(folder, m, uids, condstore);
    RecordsExact(folder, m, uids, condstore);
    forall r | r in rs
      ensures r.uid.Some? && r.uid.value in uids && r.uid.value in m.mails
        && Conveys(r, folder, r.uid.value, m.mails[r.uid.value], condstore)
    {
      assert IsReplyRecord(folder, m, uids, condstore, r);
      RecordConveys(folder, r.uid.value, m.mails[r.uid.value], condstore);
    }
    forall u | u in uids && u in m.mails ensures exists r :: r in rs && Conveys(r, folder, u, m.mails[u], condstore) {
      RecordConveys(folder, u, m.mails[u], condstore);
    }
  }

  lemma {:induction false} RecordsExact(folder: FolderId, m: Mailbox, uids: seq<nat>, condstore: bool)
    ensures var rs := Records(folder, m, uids, condstore);
      && (forall r :: r in rs ==> IsReplyRecord(folder, m, uids, condstore, r))
      && (forall u :: u in uids && u in m.mails ==> RecordFromFetch(folder, u, m.mails[u], condstore) in rs)
      && (Ascending(uids) ==> forall i, j :: 0 <= i < j < |rs| ==> rs[i].uid != rs[j].uid)
  {
    if uids != [] {
      RecordsExact(folder, m, uids[1..], condstore);
      var rs, tail := Records(folder, m, uids, condstore), Records(folder, m, uids[1..], condstore);
      forall r | r in rs ensures IsReplyRecord(folder, m, uids, condstore, r) {
        if r in tail {
          assert IsReplyRecord(folder, m, uids[1..], condstore, r);
        }
      }
      if Ascending(uids) {
        forall i, j | 0 <= i < j < |rs| ensures rs[i].uid != rs[j].uid {
          var shift := |rs| - |tail|;
          assert rs[j] == tail[j - shift] && tail[j - shift] in tail;
          assert IsReplyRecord(folder, m, uids[1..], condstore, tail[j - shift]);
          if i >= shift {
            assert rs[i] == tail[i - shift];
          }
        }
      }
    }
  }

  ghost function HeaderPass(
      db: Db, folder: FolderId, uids: seq<nat>, chunk: nat, condstore: bool, srv: nat -> Mailbox, t: nat): Db
    requires Valid(db) && chunk > 0
    decreases |uids|
  {
    if uids == [] then db
    else
      var records := Records(folder, srv(t), FirstChunk(uids, chunk), condstore);
      UpsertBatchKeeps(db, folder, records);
      HeaderPass(UpsertBatch(db, folder, records), folder, LaterChunks(uids, chunk), chunk, condstore, srv, t + 1)
  }

  lemma HeaderPassEnds(
      db: Db, folder: FolderId, chunk: nat, condstore: bool, srv: nat -> Mailbox, t: nat)
    requires Valid(db) && chunk > 0
    ensures HeaderPass(db, folder, [], chunk, condstore, srv, t) == db
  {
  }

  lemma HeaderPassUnfolds(
      db: Db, folder: FolderId, uids: seq<nat>, chunk: nat, condstore: bool, srv: nat -> Mailbox, t: nat, after: Db)
    requires Valid(db) && Valid(after) && chunk > 0 && uids != []
    requires after == UpsertBatch(db, folder, Records(folder, srv(t), FirstChunk(uids, chunk), condstore))
    ensures HeaderPass(db, folder, uids, chunk, condstore, srv, t)
      == HeaderPass(after, folder, LaterChunks(uids, chunk), chunk, condstore, srv, t + 1)
  {
  }

  lemma {:induction false} HeaderPassKeepsValid(
      db: Db, folder: FolderId, uids: seq<nat>, chunk: nat, condstore: bool, srv: nat -> Mailbox, t: nat)
    requires Valid(db) && chunk > 0
    ensures Valid(HeaderPass(db, folder, uids, chunk, condstore, srv, t))
    decreases |uids|
  {
    if uids != [] {
      var records := Records(folder, srv(t), FirstChunk(uids, chunk), condstore);
      UpsertBatchKeeps(db, folder, records);
      HeaderPassKeepsValid(
        UpsertBatch(db, folder, records), folder, LaterChunks(uids, chunk), chunk, condstore, srv, t + 1);
    }
  }

  /** The placement of `u` and its row are those of one header reply in `[from, to)`. */
  ghost predicate Placed(db: Db, folder: FolderId, u: nat, srv: nat -> Mailbox, from: nat, to: nat) {
    var s := UidSlot(folder, u);
    s in db.placements && db.placements[s].message in db.rows
    && exists i: nat :: from <= i < to && u in srv(i).mails
         && db.placements[s].flags == FlagsToColumns(srv(i).mails[u].flags)
         && db.rows[db.placements[s].message].hash == HashOf(folder, u, srv(i).mails[u].messageId)
  }

  ghost predicate AbsentSome(u: nat, srv: nat -> Mailbox, from: nat, to: nat) {
    exists i: nat :: from <= i < to && u !in srv(i).mails
  }

  /** One chunk: present UIDs are placed from this reply, everything else is as it was. */
  lemma BatchExact(db: Db, folder: FolderId, m: Mailbox, uids: seq<nat>, condstore: bool)
    requires Valid(db) && Ascending(uids)
    ensures var after := UpsertBatch(db, folder, Records(folder, m, uids, condstore));
      && Valid(after) && KeepsRows(db, after)
      && (forall s: Slot :: !(InUids(s, folder, uids) && s.uid in m.mails) ==> SameSlot(db, after, s))
      && (forall u :: u in uids && u in m.mails ==>
            Holds(after, UidSlot(folder, u), RecordFromFetch(folder, u, m.mails[u], condstore)))
  {
    var records := Records(folder, m, uids, condstore);
    RecordsExact(folder, m, uids, condstore);
    forall r | r in records
      ensures r.uid.Some? && r.uid.value in uids && r.uid.value in m.mails
      ensures SlotOf(folder, r) == Some(UidSlot(folder, r.uid.value))
    {
      assert IsReplyRecord(folder, m, uids, condstore, r);
    }
    forall i, j | 0 <= i < j < |records| ensures SlotOf(folder, records[i]) != SlotOf(folder, records[j]) {
      assert records[i] in records && records[j] in records;
    }
    UpsertBatchExact(db, folder, records);
    var after := UpsertBatch(db, folder, records);
    forall s: Slot | !(InUids(s, folder, uids) && s.uid in m.mails)
      ensures SameSlot(db, after, s)
    {
      assert forall r :: r in records ==> SlotOf(folder, r) != Some(s);
    }
  }

  /** What the header pass leaves for an asked UID: a reply's placement, or the old one if it vanished. */
  ghost predicate Asked(before: Db, after: Db, folder: FolderId, u: nat, srv: nat -> Mailbox, from: nat, to: nat) {
    || Placed(after, folder, u, srv, from, to)
    || (SameSlot(before, after, UidSlot(folder, u)) && AbsentSome(u, srv, from, to))
  }

  lemma AskedFirst(
      before: Db, mid: Db, after: Db, folder: FolderId, u: nat, srv: nat -> Mailbox, t: nat, to: nat, condstore: bool)
    requires t < to && SameSlot(mid, after, UidSlot(folder, u)) && KeepsRows(mid, after)
    requires if u in srv(t).mails
      then Holds(mid, UidSlot(folder, u), RecordFromFetch(folder, u, srv(t).mails[u], condstore))
      else SameSlot(before, mid, UidSlot(folder, u))
    ensures Asked(before, after, folder, u, srv, t, to)
  {
    if u in srv(t).mails {
      assert Placed(after, folder, u, srv, t, to);
    } else {
      assert AbsentSome(u, srv, t, to);
    }
  }

  lemma AskedLater(before: Db, mid: Db, after: Db, folder: FolderId, u: nat, srv: nat -> Mailbox, t: nat, to: nat)
    requires SameSlot(before, mid, UidSlot(folder, u)) && Asked(mid, after, folder, u, srv, t + 1, to)
    ensures Asked(before, after, folder, u, srv, t, to)
  {
  }

  lemma ChunkSplit(uids: seq<nat>, chunk: nat)
    requires Ascending(uids)
    ensures var first, rest := FirstChunk(uids, chunk), LaterChunks(uids, chunk);
      && Ascending(first) && Ascending(rest)
      && (forall u :: u in uids <==> u in first || u in rest) && (forall u :: u in first ==> u !in rest)
  {
    var first, rest := FirstChunk(uids, chunk), LaterChunks(uids, chunk);
    var n := |first|;
    assert uids == first + rest;
    assert first == uids[..n] && rest == uids[n..];
    if rest != [] {
      assert forall u :: u in first ==> u < rest[0];
      assert forall u :: u in rest ==> rest[0] <= u;
    }
  }

  ghost predicate InUids(s: Slot, folder: FolderId, uids: seq<nat>) {
    s.UidSlot? && s.folder == folder && s.uid in uids
  }

  /** The pass over `uids` leaves other slots alone, keeps the rows, and deals with every asked UID. */
  ghost predicate PassFacts(
      before: Db, after: Db, folder: FolderId, uids: seq<nat>, srv: nat -> Mailbox, from: nat, to: nat) {
    && KeepsRows(before, after)
    && (forall s: Slot :: !InUids(s, folder, uids) ==> SameSlot(before, after, s))
    && (forall u :: u in uids ==> Asked(before, after, folder, u, srv, from, to))
  }

  lemma PassStep(
      before: Db, mid: Db, after: Db, folder: FolderId, uids: seq<nat>, chunk: nat, condstore: bool,
      srv: nat -> Mailbox, t: nat, to: nat)
    requires Ascending(uids) && t < to && KeepsRows(before, mid)
    requires forall s: Slot ::
      !(InUids(s, folder, FirstChunk(uids, chunk)) && s.uid in srv(t).mails) ==> SameSlot(before, mid, s)
    requires forall u :: u in FirstChunk(uids, chunk) && u in srv(t).mails ==>
      Holds(mid, UidSlot(folder, u), RecordFromFetch(folder, u, srv(t).mails[u], condstore))
    requires PassFacts(mid, after, folder, LaterChunks(uids, chunk), srv, t + 1, to)
    ensures PassFacts(before, after, folder, uids, srv, t, to)
  {
    var first, rest := FirstChunk(uids, chunk), LaterChunks(uids, chunk);
    ChunkSplit(uids, chunk);
    forall s: Slot | !InUids(s, folder, uids) ensures SameSlot(before, after, s) {
      assert SameSlot(before, mid, s) && SameSlot(mid, after, s);
    }
    forall u | u in uids ensures Asked(before, after, folder, u, srv, t, to) {
      if u in rest {
        AskedLater(before, mid, after, folder, u, srv, t, to);
      } else {
        AskedFirst(before, mid, after, folder, u, srv, t, to, condstore);
      }
    }
  }

  lemma NothingAsked(db: Db, folder: FolderId, srv: nat -> Mailbox, t: nat, to: nat)
    ensures PassFacts(db, db, folder, [], srv, t, to)
  {
  }

  lemma {:induction false} HeaderPassExact(
      db: Db, folder: FolderId, uids: seq<nat>, chunk: nat, condstore: bool, srv: nat -> Mailbox, t: nat)
    requires Valid(db) && chunk > 0 && Ascending(uids)
    ensures var after := HeaderPass(db, folder, uids, chunk, condstore, srv, t);
      PassFacts(db, after, folder, uids, srv, t, t + Commands(uids, chunk))
    decreases |uids|
  {
    hide HeaderPass, UpsertBatch, PassFacts, Valid, KeepsRows, Holds, SameSlot, Records;
    if uids == [] {
      HeaderPassEnds(db, folder, chunk, condstore, srv, t);
      NothingAsked(db, folder, srv, t, t + Commands(uids, chunk));
    } else {
      var first, rest := FirstChunk(uids, chunk), LaterChunks(uids, chunk);
      ChunkSplit(uids, chunk);
      BatchExact(db, folder, srv(t), first, condstore);
      var mid := UpsertBatch(db, folder, Records(folder, srv(t), first, condstore));
      HeaderPassUnfolds(db, folder, uids, chunk, condstore, srv, t, mid);
      HeaderPassExact(mid, folder, rest, chunk, condstore, srv, t + 1);
      var after := HeaderPass(mid, folder, rest, chunk, condstore, srv, t + 1);
      PassStep(db, mid, after, folder, uids, chunk, condstore, srv, t, t + Commands(uids, chunk));
    }
  }

  // ---- The cycle ----

  /** UIDVALIDITY is stated and differs from the stored one: old UIDs mean nothing any more. */
  predicate Resets(folder: Folder, info: SelectInfo) {
    info.uidvalidity.Some? && folder.uidvalidity != info.uidvalidity
  }

  predicate IsFull(folder: Folder, info: SelectInfo, req: Request) {
    req.forceFull || folder.uidvalidity.None? || Resets(folder, info)
  }

  /** The replica after SELECT: a reset wipes the folder's placements and its cursors. */
  function Opened(rep: Replica, info: SelectInfo): Replica {
    if Resets(rep.folder, info)
    then Replica(Without(rep.db, FolderSlots(rep.db, rep.folder.id)), rep.folder.(modseq := None, uidnext := None))
    else rep
  }

  predicate RefreshDue(cfg: Config, folder: Folder, full: bool) {
    full || folder.syncPass % (if cfg.flagRefreshEvery > 1 then cfg.flagRefreshEvery else 1) == 0
  }

  /** The commands of one cycle in order, with the instants at which the server reads them. */
  datatype Plan = Plan(
    start: Replica, info: SelectInfo, full: bool, refresh: bool, allUids: seq<nat>, newUids: seq<nat>,
    readsFlags: bool, since: Option<nat>, flagsAt: nat, headersAt: nat, end: nat)

  function PlanOf(cfg: Config, rep: Replica, req: Request, srv: nat -> Mailbox, t: nat): Plan
    requires cfg.headerChunk > 0
  {
    var info := Select(srv(t), req);
    var start := Opened(rep, info);
    var full := IsFull(rep.folder, info, req);
    var allUids := SearchAllUids(srv(t + 1));
    var ranged := !full && Truthy(start.folder.uidnext);
    var newUids := if ranged then SearchUidsSince(srv(t + 2), start.folder.uidnext.value) else allUids;
    var flagsAt := t + 2 + if ranged then 1 else 0;
    var refresh := RefreshDue(cfg, start.folder, full);
    var changedOnly := !full && req.condstore && Truthy(start.folder.modseq) && allUids != [];
    var readsFlags := changedOnly || (refresh && allUids != []);
    var headersAt := flagsAt + if readsFlags then Commands(allUids, UID_CHUNK) else 0;
    Plan(start, info, full, refresh, allUids, newUids, readsFlags, if changedOnly then start.folder.modseq else None,
         flagsAt, headersAt, headersAt + Commands(newUids, cfg.headerChunk))
  }

  function AfterFlags(p: Plan, srv: nat -> Mailbox): Db {
    if p.readsFlags then ApplyFlags(p.start.db, p.start.folder.id, FlagsOf(srv, p.flagsAt, p.allUids, p.since))
    else p.start.db
  }

  ghost function AfterHeaders(cfg: Config, p: Plan, req: Request, srv: nat -> Mailbox): (db: Db)
    requires cfg.headerChunk > 0 && Valid(p.start.db)
    ensures Valid(db)
  {
    HeaderPassKeepsValid(
      AfterFlags(p, srv), p.start.folder.id, p.newUids, cfg.headerChunk, req.condstore, srv, p.headersAt);
    HeaderPass(AfterFlags(p, srv), p.start.folder.id, p.newUids, cfg.headerChunk, req.condstore, srv, p.headersAt)
  }

  function Pruned(p: Plan, db: Db): Db {
    if p.full || p.refresh then Purge(Without(db, MissingUids(db, p.start.folder.id, Elements(p.allUids)))) else db
  }

  function Cursor(p: Plan): Folder {
    Folder(p.start.folder.id, p.info.uidvalidity, p.info.uidnext, p.info.modseq, p.start.folder.syncPass + 1, false)
  }

  /** The committed result of a cycle in which no command and no commit fails. */
  ghost function Synced(cfg: Config, rep: Replica, req: Request, srv: nat -> Mailbox, t: nat): Replica
    requires cfg.headerChunk > 0 && Valid(rep.db)
  {
    var p := PlanOf(cfg, rep, req, srv, t);
    Replica(Pruned(p, AfterHeaders(cfg, p, req, srv)), Cursor(p))
  }

  /** Every command, and the commit at instant `end`, goes through. */
  ghost predicate Succeeds(cfg: Config, rep: Replica, req: Request, srv: nat -> Mailbox, failAt: nat, t: nat)
    requires cfg.headerChunk > 0
  {
    Clean(failAt, t, PlanOf(cfg, rep, req, srv, t).end + 1)
  }

  ghost function CycleResult(
      cfg: Config, rep: Replica, req: Request, srv: nat -> Mailbox, failAt: nat, t: nat): Replica
    requires cfg.headerChunk > 0 && Valid(rep.db)
  {
    if Succeeds(cfg, rep, req, srv, failAt, t) then Synced(cfg, rep, req, srv, t)
    else rep.(folder := rep.folder.(failed := true))
  }

  // ---- Facts about one successful cycle ----

  lemma SyncedValid(cfg: Config, rep: Replica, req: Request, srv: nat -> Mailbox, t: nat)
    requires cfg.headerChunk > 0 && Valid(rep.db)
    ensures Valid(Synced(cfg, rep, req, srv, t).db)
  {
    var p := PlanOf(cfg, rep, req, srv, t);
    var db := AfterHeaders(cfg, p, req, srv);
    PurgeExact(Without(db, MissingUids(db, p.start.folder.id, Elements(p.allUids))));
  }

  lemma SyncedFolder(cfg: Config, rep: Replica, req: Request, srv: nat -> Mailbox, t: nat)
    requires cfg.headerChunk > 0 && Valid(rep.db)
    ensures var folder := Synced(cfg, rep, req, srv, t).folder;
      !folder.failed && folder.syncPass == rep.folder.syncPass + 1
  {
  }

  ghost predicate Has(rep: Replica, u: nat) {
    UidSlot(rep.folder.id, u) in rep.db.placements
  }

  function FlagsAt(rep: Replica, u: nat): Flags
    requires UidSlot(rep.folder.id, u) in rep.db.placements
  {
    rep.db.placements[UidSlot(rep.folder.id, u)].flags
  }

  ghost predicate WellPlanned(cfg: Config, p: Plan) {
    && cfg.headerChunk > 0 && Valid(p.start.db) && Ascending(p.newUids)
    && p.end == p.headersAt + Commands(p.newUids, cfg.headerChunk)
  }

  predicate Kept(p: Plan, u: nat) {
    (p.full || p.refresh) ==> u in p.allUids
  }

  lemma PrunedExact(p: Plan, db: Db, u: nat)
    requires Valid(db)
    ensures var s, after := UidSlot(p.start.folder.id, u), Pruned(p, db);
      && (s in after.placements <==> s in db.placements && Kept(p, u))
      && (s in after.placements ==>
            after.placements[s] == db.placements[s]
            && after.placements[s].message in after.rows
            && after.rows[after.placements[s].message] == db.rows[after.placements[s].message])
  {
    var id := p.start.folder.id;
    if p.full || p.refresh {
      var left := Without(db, MissingUids(db, id, Elements(p.allUids)));
      PurgeExact(left);
    }
  }

  lemma FlaggedExact(p: Plan, srv: nat -> Mailbox, u: nat)
    ensures var flagged := Replica(AfterFlags(p, srv), p.start.folder);
      && (Has(flagged, u) <==> Has(p.start, u))
      && (Has(p.start, u) ==> FlagsAt(flagged, u) == FlagsSeen(p, srv, u))
  {
  }

  /** The flags the flag pass leaves on a placement the folder already had. */
  function FlagsSeen(p: Plan, srv: nat -> Mailbox, u: nat): Flags
    requires UidSlot(p.start.folder.id, u) in p.start.db.placements
  {
    if p.readsFlags && u in FlagsOf(srv, p.flagsAt, p.allUids, p.since)
    then FlagsToColumns(FlagsOf(srv, p.flagsAt, p.allUids, p.since)[u])
    else FlagsAt(p.start, u)
  }

  /** Where the placement of one UID comes from after a cycle. */
  lemma PlannedPlacement(cfg: Config, p: Plan, req: Request, srv: nat -> Mailbox, u: nat)
    requires WellPlanned(cfg, p)
    ensures var after := Replica(Pruned(p, AfterHeaders(cfg, p, req, srv)), p.start.folder);
      var replied := u in p.newUids && Placed(after.db, p.start.folder.id, u, srv, p.headersAt, p.end);
      && (Has(after, u) ==> Kept(p, u))
      && (Has(after, u) && !replied ==> Has(p.start, u) && FlagsAt(after, u) == FlagsSeen(p, srv, u))
      && (Kept(p, u) && u in p.newUids && !AbsentSome(u, srv, p.headersAt, p.end) ==> Has(after, u) && replied)
      && (Kept(p, u) && Has(p.start, u) ==> Has(after, u))
  {
    hide HeaderPass, AfterFlags, FlagsSeen, Pruned, Ascending;
    var flagged, headed := AfterFlags(p, srv), AfterHeaders(cfg, p, req, srv);
    var id, s := p.start.folder.id, UidSlot(p.start.folder.id, u);
    FlagPassKeeps(p, srv, s);
    HeaderPassExact(flagged, id, p.newUids, cfg.headerChunk, req.condstore, srv, p.headersAt);
    PrunedExact(p, headed, u);
    var after := Pruned(p, headed);
    FlaggedExact(p, srv, u);
    if u in p.newUids {
      assert Asked(flagged, headed, id, u, srv, p.headersAt, p.end);
      assert Kept(p, u) && Placed(headed, id, u, srv, p.headersAt, p.end)
        ==> Placed(after, id, u, srv, p.headersAt, p.end);
    } else {
      assert SameSlot(flagged, headed, s);
    }
  }

  lemma PlanIsWell(cfg: Config, rep: Replica, req: Request, srv: nat -> Mailbox, t: nat)
    requires cfg.headerChunk > 0 && Valid(rep.db)
    ensures WellPlanned(cfg, PlanOf(cfg, rep, req, srv, t))
    ensures var p := PlanOf(cfg, rep, req, srv, t);
      && t + 2 <= p.flagsAt <= p.headersAt <= p.end
      && p.headersAt == p.flagsAt + (if p.readsFlags then Commands(p.allUids, UID_CHUNK) else 0)
      && (forall u :: u in p.allUids <==> u in srv(t + 1).mails)
      && p.info == Select(srv(t), req)
      && (p.since.Some? ==> p.start == rep && !p.full && p.since == rep.folder.modseq && Truthy(p.since))
      && (!p.full ==> rep.folder.uidvalidity.Some?)
      && (!p.full && req.tellsUidvalidity ==> rep.folder.uidvalidity == Some(srv(t).uidvalidity))
  {
  }

  // ---- No message is skipped ----

  /** Every message below the stored UIDNEXT, under the stored UIDVALIDITY, has its placement. */
  ghost predicate CursorSound(rep: Replica, m: Mailbox) {
    && (rep.folder.uidvalidity.Some? ==> rep.folder.uidvalidity.value <= m.uidvalidity)
    && (rep.folder.uidvalidity == Some(m.uidvalidity) && rep.folder.uidnext.Some? ==>
          rep.folder.uidnext.value <= m.uidnext
          && forall u :: u in m.mails && u < rep.folder.uidnext.value ==> Has(rep, u))
  }

  lemma CursorSoundDrifts(rep: Replica, a: Mailbox, b: Mailbox)
    requires CursorSound(rep, a) && Later(a, b)
    ensures CursorSound(rep, b)
  {
  }

  lemma CyclePlacesMessage(cfg: Config, rep: Replica, req: Request, srv: nat -> Mailbox, t: nat, u: nat)
    requires cfg.headerChunk > 0 && Valid(rep.db) && CursorSound(rep, srv(t))
    requires req.tellsUidvalidity || PlanOf(cfg, rep, req, srv, t).full
    requires Session(srv, t, PlanOf(cfg, rep, req, srv, t).end)
    requires u in srv(PlanOf(cfg, rep, req, srv, t).end).mails && u < srv(t).uidnext
    ensures Has(Synced(cfg, rep, req, srv, t), u)
  {
    var p := PlanOf(cfg, rep, req, srv, t);
    PlanIsWell(cfg, rep, req, srv, t);
    forall i: nat | t <= i <= p.end ensures u in srv(i).mails {
      assert Evolves(srv(t), srv(i));
      Persists(srv, t, i, p.end, u);
    }
    PlannedPlacement(cfg, p, req, srv, u);
    assert u in p.newUids || Has(p.start, u);
  }

  lemma CycleKeepsCursorSound(cfg: Config, rep: Replica, req: Request, srv: nat -> Mailbox, t: nat)
    requires cfg.headerChunk > 0 && Valid(rep.db) && CursorSound(rep, srv(t))
    requires Session(srv, t, PlanOf(cfg, rep, req, srv, t).end)
    ensures CursorSound(Synced(cfg, rep, req, srv, t), srv(PlanOf(cfg, rep, req, srv, t).end))
  {
    var p, after := PlanOf(cfg, rep, req, srv, t), Synced(cfg, rep, req, srv, t);
    PlanIsWell(cfg, rep, req, srv, t);
    assert Evolves(srv(t), srv(p.end));
    if req.tellsUidvalidity && req.tellsUidnext {
      forall u | u in srv(p.end).mails && u < srv(t).uidnext ensures Has(after, u) {
        CyclePlacesMessage(cfg, rep, req, srv, t, u);
      }
    }
  }

  // ---- Flags under CONDSTORE ----

  /** Placements whose server MODSEQ is within the stored HIGHESTMODSEQ carry the server's flags. */
  ghost predicate FlagsSound(rep: Replica, m: Mailbox) {
    rep.folder.uidvalidity == Some(m.uidvalidity) && Truthy(rep.folder.modseq) ==>
      rep.folder.modseq.value <= m.modseq
      && forall u :: u in m.mails && Has(rep, u) && m.mails[u].modseq <= rep.folder.modseq.value ==>
           FlagsAt(rep, u) == FlagsToColumns(m.mails[u].flags)
  }

  lemma FlagsSoundDrifts(rep: Replica, a: Mailbox, b: Mailbox)
    requires CursorSound(rep, a) && FlagsSound(rep, a) && WellFormed(a) && Later(a, b)
    ensures FlagsSound(rep, b)
  {
  }

  /** A cycle that is going to store a MODSEQ reads flags, or has nothing to read them from. */
  ghost predicate ReadsFlags(p: Plan) {
    Truthy(p.info.modseq) ==> p.readsFlags || p.allUids == []
  }

  /** The flag pass settles an old placement whose mail stays the same throughout it. */
  lemma FlagsSeenRight(p: Plan, srv: nat -> Mailbox, u: nat, mail: Mail)
    requires Has(p.start, u) && p.readsFlags && u in p.allUids
    requires p.headersAt == p.flagsAt + Commands(p.allUids, UID_CHUNK)
    requires forall i: nat :: p.flagsAt <= i < p.headersAt ==> u in srv(i).mails && srv(i).mails[u] == mail
    requires p.since.Some? && mail.modseq <= p.since.value ==> FlagsAt(p.start, u) == FlagsToColumns(mail.flags)
    ensures FlagsSeen(p, srv, u) == FlagsToColumns(mail.flags)
  {
    hide FlagsOf, Commands, Valid;
    FlagsOfExact(srv, p.flagsAt, p.allUids, p.since);
    var out := FlagsOf(srv, p.flagsAt, p.allUids, p.since);
    if u in out {
      assert Carried(srv, p.flagsAt, p.headersAt, u, out[u], p.since);
    } else {
      assert !AlwaysAnswers(srv, p.flagsAt, p.headersAt, u, p.since);
    }
  }

  /** Any placement after the cycle has the flags of a mail that stayed the same throughout it. */
  lemma PlannedFlags(cfg: Config, p: Plan, req: Request, srv: nat -> Mailbox, t: nat, u: nat, mail: Mail)
    requires WellPlanned(cfg, p) && p.readsFlags && t + 1 <= p.flagsAt <= p.headersAt
    requires p.headersAt == p.flagsAt + Commands(p.allUids, UID_CHUNK) && u in p.allUids
    requires forall i: nat :: t <= i < p.end ==> u in srv(i).mails && srv(i).mails[u] == mail
    requires p.since.Some? && Has(p.start, u) && mail.modseq <= p.since.value ==>
      FlagsAt(p.start, u) == FlagsToColumns(mail.flags)
    requires Has(Replica(Pruned(p, AfterHeaders(cfg, p, req, srv)), p.start.folder), u)
    ensures FlagsAt(Replica(Pruned(p, AfterHeaders(cfg, p, req, srv)), p.start.folder), u) == FlagsToColumns(mail.flags)
  {
    PlannedPlacement(cfg, p, req, srv, u);
    if !(u in p.newUids
        && Placed(Pruned(p, AfterHeaders(cfg, p, req, srv)), p.start.folder.id, u, srv, p.headersAt, p.end)) {
      FlagsSeenRight(p, srv, u, mail);
    }
  }

  lemma CycleReadsMessageFlags(cfg: Config, rep: Replica, req: Request, srv: nat -> Mailbox, t: nat, u: nat)
    requires cfg.headerChunk > 0 && Valid(rep.db)
    requires PlanOf(cfg, rep, req, srv, t).since.Some? ==> FlagsSound(rep, srv(t))
    requires req.tellsUidvalidity || PlanOf(cfg, rep, req, srv, t).full
    requires Session(srv, t, PlanOf(cfg, rep, req, srv, t).end)
    requires PlanOf(cfg, rep, req, srv, t).readsFlags
    requires u in srv(PlanOf(cfg, rep, req, srv, t).end).mails && Has(Synced(cfg, rep, req, srv, t), u)
    requires srv(PlanOf(cfg, rep, req, srv, t).end).mails[u].modseq <= srv(t).modseq
    ensures FlagsAt(Synced(cfg, rep, req, srv, t), u)
      == FlagsToColumns(srv(PlanOf(cfg, rep, req, srv, t).end).mails[u].flags)
  {
    hide PlanOf;
    var p := PlanOf(cfg, rep, req, srv, t);
    var mail := srv(p.end).mails[u];
    PlanIsWell(cfg, rep, req, srv, t);
    forall i: nat | t <= i <= p.end ensures u in srv(i).mails && srv(i).mails[u] == mail {
      Stable(srv, t, i, p.end, u);
    }
    assert u in srv(t + 1).mails && srv(t).mails[u] == mail;
    PlannedFlags(cfg, p, req, srv, t, u, mail);
  }

  /**
    * What lets the flag invariant survive a cycle, decided by cursor, request and server alone: no
    * UIDVALIDITY is stored, or flags are read if a MODSEQ is stored, or every mail unchanged since
    * SELECT is fetched as new or was already within the old stored MODSEQ.
    */
  ghost predicate KeepsFlags(cfg: Config, rep: Replica, req: Request, srv: nat -> Mailbox, t: nat)
    requires cfg.headerChunk > 0
  {
    var p := PlanOf(cfg, rep, req, srv, t);
    || !req.tellsUidvalidity
    || ReadsFlags(p)
    || forall u :: u in srv(p.end).mails && srv(p.end).mails[u].modseq <= srv(t).modseq ==> Settled(p, rep, srv, u)
  }

  ghost predicate Settled(p: Plan, rep: Replica, srv: nat -> Mailbox, u: nat)
    requires u in srv(p.end).mails
  {
    u in p.newUids || (Truthy(rep.folder.modseq) && srv(p.end).mails[u].modseq <= rep.folder.modseq.value)
  }

  /** A mail that did not change since SELECT keeps or gets the right flags, although no flags are read. */
  lemma CycleSettlesMessageFlags(cfg: Config, rep: Replica, req: Request, srv: nat -> Mailbox, t: nat, u: nat)
    requires cfg.headerChunk > 0 && Valid(rep.db) && FlagsSound(rep, srv(t)) && req.tellsUidvalidity
    requires Session(srv, t, PlanOf(cfg, rep, req, srv, t).end)
    requires !PlanOf(cfg, rep, req, srv, t).readsFlags
    requires u in srv(PlanOf(cfg, rep, req, srv, t).end).mails && Has(Synced(cfg, rep, req, srv, t), u)
    requires srv(PlanOf(cfg, rep, req, srv, t).end).mails[u].modseq <= srv(t).modseq
    requires Settled(PlanOf(cfg, rep, req, srv, t), rep, srv, u)
    ensures FlagsAt(Synced(cfg, rep, req, srv, t), u)
      == FlagsToColumns(srv(PlanOf(cfg, rep, req, srv, t).end).mails[u].flags)
  {
    hide PlanOf, Pruned, AfterHeaders, Placed, Evolves, Valid;
    var p := PlanOf(cfg, rep, req, srv, t);
    var mail := srv(p.end).mails[u];
    PlanIsWell(cfg, rep, req, srv, t);
    forall i: nat | t <= i <= p.end ensures u in srv(i).mails && srv(i).mails[u] == mail {
      Stable(srv, t, i, p.end, u);
    }
    if u in p.newUids {
      NewMessageFlags(cfg, p, req, srv, u, mail);
    } else {
      NotFull(cfg, rep, req, srv, t, u);
      OldPlacementStays(cfg, rep, req, srv, t, u);
    }
  }

  /** A mail fetched as new and the same throughout the header pass has its flags. */
  lemma NewMessageFlags(cfg: Config, p: Plan, req: Request, srv: nat -> Mailbox, u: nat, mail: Mail)
    requires WellPlanned(cfg, p) && u in p.newUids
    requires forall i: nat :: p.headersAt <= i < p.end ==> u in srv(i).mails && srv(i).mails[u] == mail
    requires Has(Replica(Pruned(p, AfterHeaders(cfg, p, req, srv)), p.start.folder), u)
    ensures FlagsAt(Replica(Pruned(p, AfterHeaders(cfg, p, req, srv)), p.start.folder), u) == FlagsToColumns(mail.flags)
  {
    hide Pruned, AfterHeaders;
    PlannedPlacement(cfg, p, req, srv, u);
  }

  /** A placement that a cycle neither reads nor fetches is an old one, as it was. */
  lemma OldPlacementStays(cfg: Config, rep: Replica, req: Request, srv: nat -> Mailbox, t: nat, u: nat)
    requires cfg.headerChunk > 0 && Valid(rep.db) && Has(Synced(cfg, rep, req, srv, t), u)
    requires PlanOf(cfg, rep, req, srv, t).start == rep
    requires !PlanOf(cfg, rep, req, srv, t).readsFlags && u !in PlanOf(cfg, rep, req, srv, t).newUids
    ensures Has(rep, u) && FlagsAt(Synced(cfg, rep, req, srv, t), u) == FlagsAt(rep, u)
  {
    hide PlanOf, Pruned, AfterHeaders, Placed, AbsentSome, Valid;
    PlanIsWell(cfg, rep, req, srv, t);
    PlannedPlacement(cfg, PlanOf(cfg, rep, req, srv, t), req, srv, u);
  }

  lemma CycleKeepsFlagsSound(cfg: Config, rep: Replica, req: Request, srv: nat -> Mailbox, t: nat)
    requires cfg.headerChunk > 0 && Valid(rep.db) && FlagsSound(rep, srv(t))
    requires Session(srv, t, PlanOf(cfg, rep, req, srv, t).end)
    requires KeepsFlags(cfg, rep, req, srv, t)
    ensures FlagsSound(Synced(cfg, rep, req, srv, t), srv(PlanOf(cfg, rep, req, srv, t).end))
  {
    hide PlanOf, Pruned, AfterHeaders, FlagsAt, Settled;
    var p, after := PlanOf(cfg, rep, req, srv, t), Synced(cfg, rep, req, srv, t);
    PlanIsWell(cfg, rep, req, srv, t);
    assert Evolves(srv(t), srv(p.end));
    if req.tellsUidvalidity && Truthy(p.info.modseq) {
      forall u | u in srv(p.end).mails && Has(after, u) && srv(p.end).mails[u].modseq <= srv(t).modseq
        ensures FlagsAt(after, u) == FlagsToColumns(srv(p.end).mails[u].flags)
      {
        Stable(srv, t, t + 1, p.end, u);
        assert u in p.allUids;
        if p.readsFlags {
          CycleReadsMessageFlags(cfg, rep, req, srv, t, u);
        } else {
          CycleSettlesMessageFlags(cfg, rep, req, srv, t, u);
        }
      }
    }
  }

  /** A stale placement of a mail that the cycle neither reads nor fetches stays stale. */
  lemma UnreadFlagsStayStale(cfg: Config, rep: Replica, req: Request, srv: nat -> Mailbox, t: nat, u: nat)
    requires cfg.headerChunk > 0 && Valid(rep.db) && req.tellsUidvalidity
    requires Session(srv, t, PlanOf(cfg, rep, req, srv, t).end)
    requires Truthy(Select(srv(t), req).modseq) && !PlanOf(cfg, rep, req, srv, t).readsFlags
    requires u in srv(PlanOf(cfg, rep, req, srv, t).end).mails && u !in PlanOf(cfg, rep, req, srv, t).newUids
    requires srv(PlanOf(cfg, rep, req, srv, t).end).mails[u].modseq <= srv(t).modseq
    requires Has(rep, u) && FlagsAt(rep, u) != FlagsToColumns(srv(PlanOf(cfg, rep, req, srv, t).end).mails[u].flags)
    ensures !FlagsSound(Synced(cfg, rep, req, srv, t), srv(PlanOf(cfg, rep, req, srv, t).end))
  {
    hide PlanOf, Pruned, AfterHeaders, FlagsAt, Has;
    var p, after := PlanOf(cfg, rep, req, srv, t), Synced(cfg, rep, req, srv, t);
    PlanIsWell(cfg, rep, req, srv, t);
    Stable(srv, t, t + 1, p.end, u);
    NotFull(cfg, rep, req, srv, t, u);
    UnreadPlacement(cfg, rep, req, srv, t, u);
    assert Evolves(srv(t), srv(p.end));
  }

  /** A placement the cycle neither reads, fetches nor prunes is as it was. */
  lemma UnreadPlacement(cfg: Config, rep: Replica, req: Request, srv: nat -> Mailbox, t: nat, u: nat)
    requires cfg.headerChunk > 0 && Valid(rep.db) && Has(rep, u) && u in srv(t + 1).mails
    requires PlanOf(cfg, rep, req, srv, t).start == rep
    requires !PlanOf(cfg, rep, req, srv, t).readsFlags && u !in PlanOf(cfg, rep, req, srv, t).newUids
    ensures Has(Synced(cfg, rep, req, srv, t), u) && FlagsAt(Synced(cfg, rep, req, srv, t), u) == FlagsAt(rep, u)
  {
    hide PlanOf, Pruned, AfterHeaders, Placed, AbsentSome, Valid;
    PlanIsWell(cfg, rep, req, srv, t);
    PlannedPlacement(cfg, PlanOf(cfg, rep, req, srv, t), req, srv, u);
  }

  /** A cycle that leaves out a UID it found is not full, and opens the folder as it was. */
  lemma NotFull(cfg: Config, rep: Replica, req: Request, srv: nat -> Mailbox, t: nat, u: nat)
    requires cfg.headerChunk > 0
    requires u in srv(t + 1).mails && u !in PlanOf(cfg, rep, req, srv, t).newUids
    ensures !PlanOf(cfg, rep, req, srv, t).full && PlanOf(cfg, rep, req, srv, t).start == rep
  {
    assert u in SearchAllUids(srv(t + 1));
  }

  const EMPTY_DB := Db(map[], map[], 0)

  /** The tables play no part in the plan of a cycle. */
  lemma PlanIgnoresTables(cfg: Config, folder: Folder, db: Db, req: Request, srv: nat -> Mailbox, t: nat)
    requires cfg.headerChunk > 0
    ensures var p := PlanOf(cfg, Replica(EMPTY_DB, folder), req, srv, t);
      PlanOf(cfg, Replica(db, folder), req, srv, t) == p.(start := Opened(Replica(db, folder), p.info))
    ensures KeepsFlags(cfg, Replica(db, folder), req, srv, t) <==>
      KeepsFlags(cfg, Replica(EMPTY_DB, folder), req, srv, t)
  {
    hide SearchAllUids, SearchUidsSince, Commands, KeepsFlags;
    CursorDecides(folder, db, Select(srv(t), req));
    SamePlanKeepsFlags(cfg, Replica(db, folder), Replica(EMPTY_DB, folder), req, srv, t);
  }

  lemma CursorDecides(folder: Folder, db: Db, info: SelectInfo)
    ensures Opened(Replica(db, folder), info).folder == Opened(Replica(EMPTY_DB, folder), info).folder
  {
  }

  lemma SamePlanKeepsFlags(cfg: Config, a: Replica, b: Replica, req: Request, srv: nat -> Mailbox, t: nat)
    requires cfg.headerChunk > 0 && a.folder == b.folder
    requires PlanOf(cfg, a, req, srv, t) == PlanOf(cfg, b, req, srv, t).(start := Opened(a, Select(srv(t), req)))
    ensures KeepsFlags(cfg, a, req, srv, t) <==> KeepsFlags(cfg, b, req, srv, t)
  {
    hide PlanOf, Opened;
    var p, q := PlanOf(cfg, a, req, srv, t), PlanOf(cfg, b, req, srv, t);
    forall u | u in srv(p.end).mails ensures Settled(p, a, srv, u) <==> Settled(q, b, srv, u) {
    }
  }

  /** Tables that hold one placement, with flags the mail does not have. */
  lemma StalePlacement(folder: Folder, mail: Mail, u: nat) returns (db: Db)
    ensures Valid(db) && db.placements.Keys == {UidSlot(folder.id, u)}
    ensures FlagsAt(Replica(db, folder), u) != FlagsToColumns(mail.flags)
  {
    var flags := FlagsToColumns(mail.flags);
    var row := Row(ProvisionalHash(folder.id, Decimal(u)), None, NoBody, None);
    db := Db(map[0 := row], map[UidSlot(folder.id, u) := Placement(0, None, flags.(seen := !flags.seen))], 1);
  }

  /**
    * For a given cursor, request and server, a cycle keeps the flag invariant of whatever tables it
    * starts from exactly when `KeepsFlags` holds.
    */
  lemma FlagsKeptIff(cfg: Config, folder: Folder, req: Request, srv: nat -> Mailbox, t: nat)
    requires cfg.headerChunk > 0
    requires Session(srv, t, PlanOf(cfg, Replica(EMPTY_DB, folder), req, srv, t).end)
    ensures
      (forall db | Valid(db) && FlagsSound(Replica(db, folder), srv(t)) ::
        FlagsSound(
          Synced(cfg, Replica(db, folder), req, srv, t),
          srv(PlanOf(cfg, Replica(EMPTY_DB, folder), req, srv, t).end)))
      <==> KeepsFlags(cfg, Replica(EMPTY_DB, folder), req, srv, t)
  {
    hide PlanOf, Synced, FlagsSound, KeepsFlags;
    var end := PlanOf(cfg, Replica(EMPTY_DB, folder), req, srv, t).end;
    if KeepsFlags(cfg, Replica(EMPTY_DB, folder), req, srv, t) {
      forall db | Valid(db) && FlagsSound(Replica(db, folder), srv(t))
        ensures FlagsSound(Synced(cfg, Replica(db, folder), req, srv, t), srv(end))
      {
        PlanIgnoresTables(cfg, folder, db, req, srv, t);
        CycleKeepsFlagsSound(cfg, Replica(db, folder), req, srv, t);
      }
    } else {
      var db := LosesFlags(cfg, folder, req, srv, t);
      assert Valid(db) && FlagsSound(Replica(db, folder), srv(t));
    }
  }

  lemma LosesFlags(cfg: Config, folder: Folder, req: Request, srv: nat -> Mailbox, t: nat) returns (db: Db)
    requires cfg.headerChunk > 0 && !KeepsFlags(cfg, Replica(EMPTY_DB, folder), req, srv, t)
    requires Session(srv, t, PlanOf(cfg, Replica(EMPTY_DB, folder), req, srv, t).end)
    ensures Valid(db) && FlagsSound(Replica(db, folder), srv(t))
    ensures !FlagsSound(
      Synced(cfg, Replica(db, folder), req, srv, t), srv(PlanOf(cfg, Replica(EMPTY_DB, folder), req, srv, t).end))
  {
    hide PlanOf, Synced;
    var empty := Replica(EMPTY_DB, folder);
    var p := PlanOf(cfg, empty, req, srv, t);
    PlanIsWell(cfg, empty, req, srv, t);
    var u :| u in srv(p.end).mails && srv(p.end).mails[u].modseq <= srv(t).modseq && !Settled(p, empty, srv, u);
    Stable(srv, t, t, p.end, u);
    db := StalePlacement(folder, srv(p.end).mails[u], u);
    PlanIgnoresTables(cfg, folder, db, req, srv, t);
    UnreadFlagsStayStale(cfg, Replica(db, folder), req, srv, t, u);
  }

  // ---- Convergence ----

  /** The folder's UIDs are the server's, and every flag column says what the mail carries. */
  ghost predicate Converged(rep: Replica, m: Mailbox) {
    && (forall u :: Has(rep, u) <==> u in m.mails)
    && (forall u :: u in m.mails && Has(rep, u) ==> Mirrors(FlagsAt(rep, u), m.mails[u].flags))
  }

  ghost predicate Quiet(srv: nat -> Mailbox, from: nat, to: nat) {
    forall i: nat :: from <= i <= to ==> srv(i) == srv(from)
  }

  lemma QuietSession(srv: nat -> Mailbox, from: nat, to: nat)
    requires Quiet(srv, from, to) && WellFormed(srv(from))
    ensures Session(srv, from, to)
  {
    forall i: nat, j: nat | from <= i <= j <= to ensures Evolves(srv(i), srv(j)) {
      assert srv(i) == srv(from) == srv(j);
    }
  }

  lemma QuietUids(cfg: Config, rep: Replica, req: Request, srv: nat -> Mailbox, t: nat, u: nat)
    requires cfg.headerChunk > 0 && Valid(rep.db) && WellFormed(srv(t)) && CursorSound(rep, srv(t))
    requires Quiet(srv, t, PlanOf(cfg, rep, req, srv, t).end) && PlanOf(cfg, rep, req, srv, t).refresh
    requires req.tellsUidvalidity || PlanOf(cfg, rep, req, srv, t).full
    ensures Has(Synced(cfg, rep, req, srv, t), u) <==> u in srv(t).mails
  {
    var p := PlanOf(cfg, rep, req, srv, t);
    PlanIsWell(cfg, rep, req, srv, t);
    QuietSession(srv, t, p.end);
    assert srv(t + 1) == srv(t) == srv(p.end);
    if u in srv(t).mails {
      CyclePlacesMessage(cfg, rep, req, srv, t, u);
    } else {
      PlannedPlacement(cfg, p, req, srv, u);
    }
  }

  /**
    * When only changes since the stored MODSEQ are read: every mail within it that is placed and not
    * fetched as new has the right flags already.
    */
  ghost predicate CoveredRight(p: Plan, rep: Replica, m: Mailbox) {
    forall u :: u in m.mails && Has(rep, u) ==> CoveredRightAt(p, rep, m, u)
  }

  ghost predicate CoveredRightAt(p: Plan, rep: Replica, m: Mailbox, u: nat)
    requires u in m.mails && UidSlot(rep.folder.id, u) in rep.db.placements
  {
    p.since.Some? && m.mails[u].modseq <= p.since.value && u !in p.newUids ==>
      Mirrors(FlagsAt(rep, u), m.mails[u].flags)
  }

  lemma FlagsSoundIsCoveredRight(cfg: Config, rep: Replica, req: Request, srv: nat -> Mailbox, t: nat)
    requires cfg.headerChunk > 0 && Valid(rep.db) && req.tellsUidvalidity
    requires FlagsSound(rep, srv(t))
    ensures CoveredRight(PlanOf(cfg, rep, req, srv, t), rep, srv(t))
  {
    hide PlanOf, Valid, Mirrors, FlagsToColumns;
    PlanIsWell(cfg, rep, req, srv, t);
    forall u | u in srv(t).mails && Has(rep, u)
      ensures FlagsAt(rep, u) == FlagsToColumns(srv(t).mails[u].flags) <==>
        Mirrors(FlagsAt(rep, u), srv(t).mails[u].flags)
    {
      ColumnsMirror(srv(t).mails[u].flags);
    }
  }

  /** A mail of a quiet server ends with the right flags exactly when it had them where they are not read. */
  lemma QuietFlags(cfg: Config, rep: Replica, req: Request, srv: nat -> Mailbox, t: nat, u: nat)
    requires cfg.headerChunk > 0 && Valid(rep.db) && WellFormed(srv(t))
    requires Quiet(srv, t, PlanOf(cfg, rep, req, srv, t).end) && PlanOf(cfg, rep, req, srv, t).refresh
    requires u in srv(t).mails && Has(Synced(cfg, rep, req, srv, t), u)
    ensures FlagsAt(Synced(cfg, rep, req, srv, t), u) == FlagsToColumns(srv(t).mails[u].flags) <==>
      (Has(rep, u) ==> CoveredRightAt(PlanOf(cfg, rep, req, srv, t), rep, srv(t), u))
  {
    hide PlanOf, Pruned, AfterHeaders, Placed, Valid, Mirrors, FlagsToColumns;
    ColumnsMirror(srv(t).mails[u].flags);
    var p, mail := PlanOf(cfg, rep, req, srv, t), srv(t).mails[u];
    PlanIsWell(cfg, rep, req, srv, t);
    forall i: nat | t <= i <= p.end ensures u in srv(i).mails && srv(i).mails[u] == mail {
      assert srv(i) == srv(t);
    }
    assert u in p.allUids;
    RefreshReads(cfg, rep, req, srv, t);
    if u in p.newUids {
      NewMessageFlags(cfg, p, req, srv, u, mail);
    } else if p.since.Some? && mail.modseq <= p.since.value {
      CoveredPlacementStays(cfg, p, req, srv, u);
    } else {
      PlannedFlags(cfg, p, req, srv, t, u, mail);
    }
  }

  lemma RefreshReads(cfg: Config, rep: Replica, req: Request, srv: nat -> Mailbox, t: nat)
    requires cfg.headerChunk > 0 && PlanOf(cfg, rep, req, srv, t).refresh
    ensures var p := PlanOf(cfg, rep, req, srv, t); p.readsFlags || p.allUids == []
  {
  }

  /** A placement within the MODSEQ asked about is not answered, and stays as it was. */
  lemma CoveredPlacementStays(cfg: Config, p: Plan, req: Request, srv: nat -> Mailbox, u: nat)
    requires WellPlanned(cfg, p) && u !in p.newUids && p.since.Some?
    requires p.readsFlags && p.headersAt == p.flagsAt + Commands(p.allUids, UID_CHUNK)
    requires forall i: nat :: p.flagsAt <= i < p.headersAt ==> !Answers(srv(i), u, p.since)
    requires Has(Replica(Pruned(p, AfterHeaders(cfg, p, req, srv)), p.start.folder), u)
    ensures Has(p.start, u)
    ensures FlagsAt(Replica(Pruned(p, AfterHeaders(cfg, p, req, srv)), p.start.folder), u) == FlagsAt(p.start, u)
  {
    hide Pruned, AfterHeaders, Placed, FlagsOf, Valid;
    PlannedPlacement(cfg, p, req, srv, u);
    FlagsOfExact(srv, p.flagsAt, p.allUids, p.since);
    forall flags ensures !Carried(srv, p.flagsAt, p.headersAt, u, flags, p.since) {
    }
  }

  /**
    * A refresh cycle on a quiet server leaves exactly the server's UIDs, from any flags. The flags are
    * the server's too exactly when those it does not read were: all of them are read without CONDSTORE.
    */
  lemma QuietCycleConverges(cfg: Config, rep: Replica, req: Request, srv: nat -> Mailbox, t: nat)
    requires cfg.headerChunk > 0 && Valid(rep.db) && WellFormed(srv(t)) && CursorSound(rep, srv(t))
    requires Quiet(srv, t, PlanOf(cfg, rep, req, srv, t).end)
    requires PlanOf(cfg, rep, req, srv, t).refresh
    requires req.tellsUidvalidity || PlanOf(cfg, rep, req, srv, t).full
    ensures forall u :: Has(Synced(cfg, rep, req, srv, t), u) <==> u in srv(t).mails
    ensures Converged(Synced(cfg, rep, req, srv, t), srv(t)) <==>
      CoveredRight(PlanOf(cfg, rep, req, srv, t), rep, srv(t))
  {
    hide PlanOf, Synced, CoveredRightAt, Mirrors, FlagsToColumns;
    var p, after := PlanOf(cfg, rep, req, srv, t), Synced(cfg, rep, req, srv, t);
    forall u ensures Has(after, u) <==> u in srv(t).mails {
      QuietUids(cfg, rep, req, srv, t, u);
    }
    forall u | u in srv(t).mails
      ensures FlagsAt(after, u) == FlagsToColumns(srv(t).mails[u].flags) <==>
        (Has(rep, u) ==> CoveredRightAt(p, rep, srv(t), u))
    {
      QuietFlags(cfg, rep, req, srv, t, u);
    }
    forall u | u in srv(t).mails
      ensures FlagsAt(after, u) == FlagsToColumns(srv(t).mails[u].flags) <==>
        Mirrors(FlagsAt(after, u), srv(t).mails[u].flags)
    {
      ColumnsMirror(srv(t).mails[u].flags);
    }
  }

  lemma AllReadIsRight(p: Plan, rep: Replica, m: Mailbox)
    requires p.since.None?
    ensures CoveredRight(p, rep, m)
  {
  }

  /** The caller asks for everything, the folder was never synchronised, or its UIDs have lost their meaning. */
  predicate StartsOver(folder: Folder, req: Request, m: Mailbox) {
    req.forceFull || folder.uidvalidity == None || (req.tellsUidvalidity && folder.uidvalidity != Some(m.uidvalidity))
  }

  lemma StartsOverPlan(cfg: Config, rep: Replica, req: Request, srv: nat -> Mailbox, t: nat)
    requires cfg.headerChunk > 0 && StartsOver(rep.folder, req, srv(t))
    ensures var p := PlanOf(cfg, rep, req, srv, t);
      p.full && p.newUids == p.allUids && p.allUids == SearchAllUids(srv(t + 1))
  {
  }

  /** One UID after such a cycle on a quiet server. */
  lemma StartedOver(cfg: Config, p: Plan, req: Request, srv: nat -> Mailbox, t: nat, u: nat)
    requires WellPlanned(cfg, p) && t + 1 <= p.headersAt <= p.end && Quiet(srv, t, p.end)
    requires p.full && p.newUids == p.allUids && p.allUids == SearchAllUids(srv(t + 1))
    ensures var after := Replica(Pruned(p, AfterHeaders(cfg, p, req, srv)), p.start.folder);
      && (Has(after, u) <==> u in srv(t).mails)
      && (u in srv(t).mails ==> Mirrors(FlagsAt(after, u), srv(t).mails[u].flags))
  {
    hide Pruned, AfterHeaders, Valid, Mirrors, FlagsToColumns, FlagsSeen;
    assert srv(t + 1) == srv(t);
    forall i: nat | p.headersAt <= i < p.end ensures srv(i) == srv(t) {
    }
    PlannedPlacement(cfg, p, req, srv, u);
    if u in srv(t).mails {
      assert !AbsentSome(u, srv, p.headersAt, p.end);
      ColumnsMirror(srv(t).mails[u].flags);
    }
  }

  /** Such a cycle repairs the folder on a quiet server, whatever tables and cursor were before. */
  lemma StartingOverConverges(cfg: Config, rep: Replica, req: Request, srv: nat -> Mailbox, t: nat)
    requires cfg.headerChunk > 0 && Valid(rep.db) && StartsOver(rep.folder, req, srv(t))
    requires Quiet(srv, t, PlanOf(cfg, rep, req, srv, t).end)
    ensures Converged(Synced(cfg, rep, req, srv, t), srv(t))
  {
    hide PlanOf, Pruned, AfterHeaders, Valid, Mirrors, StartsOver, Quiet;
    var p, m := PlanOf(cfg, rep, req, srv, t), srv(t);
    PlanIsWell(cfg, rep, req, srv, t);
    StartsOverPlan(cfg, rep, req, srv, t);
    forall u: nat
      ensures Has(Synced(cfg, rep, req, srv, t), u) <==> u in m.mails
      ensures u in m.mails ==> Mirrors(FlagsAt(Synced(cfg, rep, req, srv, t), u), m.mails[u].flags)
    {
      StartedOver(cfg, p, req, srv, t, u);
    }
  }

  /** What a cycle with CONDSTORE and a stored modseq plans for a folder that does not start over. */
  lemma ChangesPlan(cfg: Config, rep: Replica, req: Request, srv: nat -> Mailbox, t: nat)
    requires cfg.headerChunk > 0 && !StartsOver(rep.folder, req, srv(t)) && req.condstore
    requires rep.folder.modseq.Some? && rep.folder.modseq.value > 0
    requires rep.folder.uidnext.Some? && rep.folder.uidnext.value > 0
    ensures var p := PlanOf(cfg, rep, req, srv, t);
      && p.start == rep && p.newUids == SearchUidsSince(srv(t + 2), rep.folder.uidnext.value)
      && (if p.allUids == [] then !p.readsFlags
          else p.readsFlags && p.since == rep.folder.modseq
               && p.headersAt == p.flagsAt + Commands(p.allUids, UID_CHUNK))
  {
  }

  /** Such a cycle does not touch the flags of an old mail that did not change since the stored modseq. */
  lemma OnlyChangesAreRead(cfg: Config, rep: Replica, req: Request, srv: nat -> Mailbox, t: nat, u: nat)
    requires cfg.headerChunk > 0 && Valid(rep.db) && !StartsOver(rep.folder, req, srv(t)) && req.condstore
    requires rep.folder.modseq.Some? && rep.folder.modseq.value > 0
    requires rep.folder.uidnext.Some? && u < rep.folder.uidnext.value
    requires forall i: nat :: t <= i <= PlanOf(cfg, rep, req, srv, t).end && u in srv(i).mails ==>
      srv(i).mails[u].modseq <= rep.folder.modseq.value
    ensures Has(Synced(cfg, rep, req, srv, t), u) ==>
      Has(rep, u) && FlagsAt(Synced(cfg, rep, req, srv, t), u) == FlagsAt(rep, u)
  {
    hide PlanOf, Pruned, AfterHeaders, Placed, Valid, StartsOver, FlagsOf;
    var p := PlanOf(cfg, rep, req, srv, t);
    PlanIsWell(cfg, rep, req, srv, t);
    ChangesPlan(cfg, rep, req, srv, t);
    if Has(Synced(cfg, rep, req, srv, t), u) {
      if p.allUids == [] {
        PlannedPlacement(cfg, p, req, srv, u);
      } else {
        forall i: nat | p.flagsAt <= i < p.headersAt ensures !Answers(srv(i), u, p.since) {
        }
        CoveredPlacementStays(cfg, p, req, srv, u);
      }
    }
  }

  // ---- Where placements come from ----

  /** Deletion detection reaches only its folder, and keeps what it does not delete. */
  lemma PrunedSlot(p: Plan, db: Db, s: Slot)
    requires Valid(db)
    ensures s.folder != p.start.folder.id ==> SameSlot(db, Pruned(p, db), s)
    ensures s in Pruned(p, db).placements ==>
      Untouched(db, Pruned(p, db), s) && Pruned(p, db).placements[s] == db.placements[s]
  {
    if p.full || p.refresh {
      PurgeExact(Without(db, MissingUids(db, p.start.folder.id, Elements(p.allUids))));
    }
  }

  lemma FlagPassKeeps(p: Plan, srv: nat -> Mailbox, s: Slot)
    requires Valid(p.start.db)
    ensures Valid(AfterFlags(p, srv)) && AfterFlags(p, srv).rows == p.start.db.rows
    ensures s in AfterFlags(p, srv).placements <==> s in p.start.db.placements
    ensures s in p.start.db.placements ==>
      && AfterFlags(p, srv).placements[s].message == p.start.db.placements[s].message
      && (s.folder != p.start.folder.id ==> AfterFlags(p, srv).placements[s] == p.start.db.placements[s])
  {
  }

  lemma PlanOpens(cfg: Config, rep: Replica, req: Request, srv: nat -> Mailbox, t: nat)
    requires cfg.headerChunk > 0
    ensures PlanOf(cfg, rep, req, srv, t).start == Opened(rep, Select(srv(t), req))
    ensures PlanOf(cfg, rep, req, srv, t).full == IsFull(rep.folder, Select(srv(t), req), req)
  {
  }

  /** Where a placement after a cycle comes from: a header reply, or the tables before. */
  lemma SlotAfterCycle(cfg: Config, rep: Replica, req: Request, srv: nat -> Mailbox, t: nat, s: Slot)
    requires cfg.headerChunk > 0 && Valid(rep.db)
    ensures var p, after := PlanOf(cfg, rep, req, srv, t), Synced(cfg, rep, req, srv, t).db;
      && (s.folder != rep.folder.id ==> SameSlot(rep.db, after, s))
      && (s in after.placements ==>
        || (s.UidSlot? && s.folder == rep.folder.id && Placed(after, s.folder, s.uid, srv, p.headersAt, p.end))
        || Untouched(p.start.db, after, s))
  {
    hide HeaderPass, PlanOf, Pruned, AfterFlags;
    var p := PlanOf(cfg, rep, req, srv, t);
    PlanIsWell(cfg, rep, req, srv, t);
    PlanOpens(cfg, rep, req, srv, t);
    var id := rep.folder.id;
    var flagged, headed := AfterFlags(p, srv), AfterHeaders(cfg, p, req, srv);
    FlagPassKeeps(p, srv, s);
    HeaderPassExact(flagged, id, p.newUids, cfg.headerChunk, req.condstore, srv, p.headersAt);
    PrunedSlot(p, headed, s);
    if InUids(s, id, p.newUids) {
      assert Asked(flagged, headed, id, s.uid, srv, p.headersAt, p.end);
    } else {
      assert SameSlot(flagged, headed, s);
    }
  }

  // ---- A new UIDVALIDITY ----

  /** The header pass places a message on the row that already has its hash, if there is one, and pruning keeps it. */
  lemma PlannedRow(cfg: Config, p: Plan, req: Request, srv: nat -> Mailbox, u: nat, x: Option<string>, id: RowId)
    requires WellPlanned(cfg, p) && Kept(p, u) && u in p.newUids && p.headersAt < p.end
    requires forall i: nat :: p.headersAt <= i < p.end ==> u in srv(i).mails && srv(i).mails[u].messageId == x
    requires id in p.start.db.rows
    ensures var s, after := UidSlot(p.start.folder.id, u), Pruned(p, AfterHeaders(cfg, p, req, srv));
      && s in after.placements
      && (after.placements[s].message == id <==> p.start.db.rows[id].hash == HashOf(p.start.folder.id, u, x))
      && (after.placements[s].message == id ==> id in after.rows && after.rows[id] == p.start.db.rows[id])
  {
    hide HeaderPass, HashOf;
    var flagged, headed := AfterFlags(p, srv), AfterHeaders(cfg, p, req, srv);
    HeaderPassExact(flagged, p.start.folder.id, p.newUids, cfg.headerChunk, req.condstore, srv, p.headersAt);
    assert Asked(flagged, headed, p.start.folder.id, u, srv, p.headersAt, p.end);
    assert !AbsentSome(u, srv, p.headersAt, p.end);
    assert id in flagged.rows && id in headed.rows && headed.rows[id] == p.start.db.rows[id];
    PrunedExact(p, headed, u);
  }

  /**
    * A message that is still in the folder after a reset is placed under its new UID on an old row
    * exactly when that row has the message's hash, and the row keeps its body and body state. With
    * a Message-ID the hash does not depend on the UID.
    */
  lemma ResetKeepsContent(
      cfg: Config, rep: Replica, req: Request, srv: nat -> Mailbox, t: nat, u: nat, id: RowId)
    requires cfg.headerChunk > 0 && Valid(rep.db) && Resets(rep.folder, Select(srv(t), req))
    requires Session(srv, t, PlanOf(cfg, rep, req, srv, t).end)
    requires u in srv(t + 1).mails && u in srv(PlanOf(cfg, rep, req, srv, t).end).mails
    requires id in rep.db.rows
    ensures
      var after, x := Synced(cfg, rep, req, srv, t), srv(PlanOf(cfg, rep, req, srv, t).end).mails[u].messageId;
      var bears := rep.db.rows[id].hash == HashOf(rep.folder.id, u, x);
      && Has(after, u)
      && (after.db.placements[UidSlot(rep.folder.id, u)].message == id <==> bears)
      && (bears ==> id in after.db.rows && after.db.rows[id] == rep.db.rows[id])
  {
    hide HashOf;
    var p := PlanOf(cfg, rep, req, srv, t);
    PlanIsWell(cfg, rep, req, srv, t);
    assert WellFormed(srv(t + 1));
    forall i: nat | t + 1 <= i <= p.end
      ensures u in srv(i).mails && srv(i).mails[u].messageId == srv(p.end).mails[u].messageId
    {
      assert Evolves(srv(t + 1), srv(i));
      Persists(srv, t, i, p.end, u);
    }
    PlannedRow(cfg, p, req, srv, u, srv(p.end).mails[u].messageId, id);
  }

  /** After a reset no old UID survives: every placement of the folder was replied by this cycle. */
  lemma ResetForgetsOldUids(cfg: Config, rep: Replica, req: Request, srv: nat -> Mailbox, t: nat)
    requires cfg.headerChunk > 0 && Valid(rep.db) && Resets(rep.folder, Select(srv(t), req))
    ensures var p, after := PlanOf(cfg, rep, req, srv, t), Synced(cfg, rep, req, srv, t).db;
      forall s :: s in after.placements && s.folder == rep.folder.id ==>
        s.UidSlot? && s.uid in p.allUids && Placed(after, rep.folder.id, s.uid, srv, p.headersAt, p.end)
  {
    hide PlanOf, Pruned, AfterHeaders, Placed;
    var p, after := PlanOf(cfg, rep, req, srv, t), Synced(cfg, rep, req, srv, t).db;
    PlanIsWell(cfg, rep, req, srv, t);
    PlanOpens(cfg, rep, req, srv, t);
    forall s | s in after.placements && s.folder == rep.folder.id
      ensures s.UidSlot? && s.uid in p.allUids && Placed(after, rep.folder.id, s.uid, srv, p.headersAt, p.end)
    {
      SlotAfterCycle(cfg, rep, req, srv, t, s);
      PlannedPlacement(cfg, p, req, srv, s.uid);
    }
  }

  // ---- `sync_folder` ----

  class FolderSync {
    const cfg: Config
    const id: FolderId
    const store: MailStore
    var uidvalidity: Option<nat>
    var uidnext: Option<nat>
    var modseq: Option<nat>
    var syncPass: nat
    var failed: bool

    function Abs(): Replica
      reads this, store
    {
      Replica(store.Abs(), Folder(id, uidvalidity, uidnext, modseq, syncPass, failed))
    }

    constructor (cfg: Config, id: FolderId, store: MailStore)
      ensures this.cfg == cfg && this.store == store
      ensures Abs() == Replica(store.Abs(), Folder(id, None, None, None, 0, false))
    {
      this.cfg, this.id, this.store := cfg, id, store;
      uidvalidity, uidnext, modseq, syncPass, failed := None, None, None, 0, false;
    }

    /** One header FETCH and its writes: the pass over `uids` continues with the later chunks. */
    method WriteReply(uids: seq<nat>, condstore: bool, srv: nat -> Mailbox, t: nat)
      requires cfg.headerChunk > 0 && Valid(store.Abs()) && Ascending(uids) && uids != []
      modifies store
      ensures Valid(store.Abs()) && Ascending(LaterChunks(uids, cfg.headerChunk))
      ensures store.Abs()
        == UpsertBatch(old(store.Abs()), id, Records(id, srv(t), FirstChunk(uids, cfg.headerChunk), condstore))
    {
      ChunkSplit(uids, cfg.headerChunk);
      var chunk := FirstChunk(uids, cfg.headerChunk);
      var records := Records(id, srv(t), chunk, condstore);
      RecordsAcceptable(id, srv(t), chunk, condstore);
      UpsertBatchKeeps(store.Abs(), id, records);
      var ids := store.UpsertMessages(records);
      var written := store.UpsertPlacements(id, records, ids);
    }

    /** The header pass over chunks of new UIDs; false when a command raises. */
    method FetchHeaders(uids: seq<nat>, condstore: bool, srv: nat -> Mailbox, failAt: nat, t: nat) returns (ok: bool)
      requires cfg.headerChunk > 0 && Valid(store.Abs()) && Ascending(uids)
      modifies store
      ensures ok <==> Clean(failAt, t, t + Commands(uids, cfg.headerChunk))
      ensures ok ==> store.Abs() == HeaderPass(old(store.Abs()), id, uids, cfg.headerChunk, condstore, srv, t)
      ensures Valid(store.Abs())
    {
      hide HeaderPass, UpsertBatch, Valid;
      var step, now, rest := cfg.headerChunk, t, uids;
      ghost var db := store.Abs();
      ghost var whole := HeaderPass(db, id, uids, step, condstore, srv, t);
      while rest != [] && now != failAt
        invariant db == store.Abs() && Valid(db) && Ascending(rest)
        invariant t <= now && now + Commands(rest, step) == t + Commands(uids, step) && !(t <= failAt < now)
        invariant whole == HeaderPass(db, id, rest, step, condstore, srv, now)
        decreases |rest|
      {
        WriteReply(rest, condstore, srv, now);
        HeaderPassUnfolds(db, id, rest, step, condstore, srv, now, store.Abs());
        db := store.Abs();
        rest, now := LaterChunks(rest, step), now + 1;
      }
      HeaderPassEnds(db, id, step, condstore, srv, now);
      ok := rest == [];
    }

    /** The state after SELECT: a changed UIDVALIDITY wipes placements and cursors. */
    method Open(info: SelectInfo, req: Request) returns (full: bool)
      requires Valid(store.Abs())
      modifies this, store
      ensures Abs() == Opened(old(Abs()), info) && Valid(store.Abs())
      ensures full == IsFull(old(Abs()).folder, info, req)
    {
      full := req.forceFull || uidvalidity.None?;
      if info.uidvalidity.Some? && uidvalidity != info.uidvalidity {
        var wiped := FolderSlots(store.Abs(), id);
        store.placements := Without(store.Abs(), wiped).placements;
        modseq, uidnext, full := None, None, true;
      }
    }

    /** Fetch flags for the given UIDs and apply them. */
    method ReadFlags(uids: seq<nat>, since: Option<nat>, srv: nat -> Mailbox, failAt: nat, t: nat) returns (ok: bool)
      requires Valid(store.Abs())
      modifies store
      ensures ok <==> Clean(failAt, t, t + Commands(uids, UID_CHUNK))
      ensures ok ==> store.Abs() == ApplyFlags(old(store.Abs()), id, FlagsOf(srv, t, uids, since))
      ensures Valid(store.Abs())
    {
      var flags;
      ok, flags := FetchFlags(srv, failAt, t, uids, since);
      if ok {
        var updated := store.ApplyFlagsByUid(id, flags);
      }
    }

    /** SELECT and the SEARCHes, with the decisions taken before any flag or header is fetched. */
    method Scan(req: Request, srv: nat -> Mailbox, failAt: nat, t: nat)
        returns (ok: bool, info: SelectInfo, prune: bool, allUids: seq<nat>, newUids: seq<nat>, readsFlags: bool,
            since: Option<nat>, now: nat)
      requires cfg.headerChunk > 0 && Valid(store.Abs())
      modifies this, store
      ensures var p := PlanOf(cfg, old(Abs()), req, srv, t);
        && (ok <==> Clean(failAt, t, p.flagsAt))
        && (ok ==>
            Abs() == p.start && info == p.info && (prune <==> p.full || p.refresh)
            && allUids == p.allUids && newUids == p.newUids
            && readsFlags == p.readsFlags && since == p.since && now == p.flagsAt)
      ensures Valid(store.Abs())
    {
      hide Valid, Commands, FlagsOf, HeaderPass;
      ok, info, prune := false, SelectInfo(None, None, None), false;
      allUids, newUids, readsFlags, since, now := [], [], false, None, t;
      if t == failAt {
        return;
      }
      info := Select(srv(t), req);
      var full := Open(info, req);
      if t + 1 == failAt {
        return;
      }
      allUids := SearchAllUids(srv(t + 1));
      newUids, now := allUids, t + 2;
      if !full && Truthy(uidnext) {
        if t + 2 == failAt {
          return;
        }
        newUids, now := SearchUidsSince(srv(t + 2), uidnext.value), t + 3;
      }
      var refresh := full || syncPass % (if cfg.flagRefreshEvery > 1 then cfg.flagRefreshEvery else 1) == 0;
      if !full && req.condstore && Truthy(modseq) && allUids != [] {
        readsFlags, since := true, modseq;
      } else if refresh && allUids != [] {
        readsFlags := true;
      }
      ok, prune := true, full || refresh;
    }

    /** Flag pass and header pass. */
    method Fetch(
        ghost p: Plan, req: Request, srv: nat -> Mailbox, failAt: nat,
        allUids: seq<nat>, newUids: seq<nat>, readsFlags: bool, since: Option<nat>, t: nat) returns (ok: bool, end: nat)
      requires WellPlanned(cfg, p) && Abs() == p.start
      requires allUids == p.allUids && newUids == p.newUids
      requires readsFlags == p.readsFlags && since == p.since && t == p.flagsAt
      requires p.headersAt == p.flagsAt + if p.readsFlags then Commands(p.allUids, UID_CHUNK) else 0
      modifies store
      ensures end == p.end && (ok <==> Clean(failAt, p.flagsAt, p.end))
      ensures ok ==> store.Abs() == AfterHeaders(cfg, p, req, srv)
      ensures Valid(store.Abs())
    {
      hide HeaderPass, FlagsOf, ApplyFlags, Commands, Ascending, Valid;
      var now := t;
      ok := true;
      if readsFlags {
        ok := ReadFlags(allUids, since, srv, failAt, now);
        now := now + Commands(allUids, UID_CHUNK);
      }
      end := now + Commands(newUids, cfg.headerChunk);
      if ok {
        ok := FetchHeaders(newUids, req.condstore, srv, failAt, now);
      }
    }

    /** Deletion detection and the folder cursor. */
    method Finish(ghost p: Plan, info: SelectInfo, prune: bool, allUids: seq<nat>)
      requires Valid(store.Abs()) && info == p.info && (prune <==> p.full || p.refresh) && allUids == p.allUids
      requires Abs().folder == p.start.folder
      modifies this, store
      ensures Abs() == Replica(Pruned(p, old(store.Abs())), Cursor(p))
    {
      ghost var headed := store.Abs();
      if prune {
        var removed := store.DeleteMissingPlacements(id, Some(Elements(allUids)), None);
        assert Missing(headed, id, Some(Elements(allUids)), None) == MissingUids(headed, id, Elements(allUids));
      }
      uidvalidity, uidnext, modseq := info.uidvalidity, info.uidnext, info.modseq;
      syncPass, failed := syncPass + 1, false;
    }

    /** One cycle: committed as a whole, or rolled back with the folder marked failed. */
    method SyncFolder(req: Request, srv: nat -> Mailbox, failAt: nat, t: nat) returns (ok: bool)
      requires cfg.headerChunk > 0 && Valid(store.Abs())
      modifies this, store
      ensures ok <==> Succeeds(cfg, old(Abs()), req, srv, failAt, t)
      ensures failed <==> !ok
      ensures !ok ==> Abs() == old(Abs()).(folder := old(Abs()).folder.(failed := true))
      ensures ok ==> syncPass == old(syncPass) + 1
      ensures Abs() == CycleResult(cfg, old(Abs()), req, srv, failAt, t)
      ensures Valid(store.Abs())
    {
      hide HeaderPass, UpsertBatch, FlagsOf, PlanOf, AfterHeaders, Pruned, Cursor, Valid;
      var committed := store.Abs();
      var folder := (uidvalidity, uidnext, modseq, syncPass);
      ghost var before := Abs();
      PlanIsWell(cfg, before, req, srv, t);
      var info, prune, allUids, newUids, readsFlags, since, now;
      ok, info, prune, allUids, newUids, readsFlags, since, now := Scan(req, srv, failAt, t);
      ghost var p := PlanOf(cfg, before, req, srv, t);
      if ok {
        ok, now := Fetch(p, req, srv, failAt, allUids, newUids, readsFlags, since, now);
      }
      if ok {
        Finish(p, info, prune, allUids);
        ok := now != failAt;
      }
      SyncedFolder(cfg, before, req, srv, t);
      if ok {
        SyncedValid(cfg, before, req, srv, t);
      } else {
        store.Rollback(committed);
        uidvalidity, uidnext, modseq, syncPass := folder.0, folder.1, folder.2, folder.3;
        failed := true;
      }
    }
  }

  /** The records of one reply never ask for one slot twice, so Postgres accepts the statement. */
  lemma RecordsAcceptable(folder: FolderId, m: Mailbox, uids: seq<nat>, condstore: bool)
    requires Ascending(uids)
    ensures forall ids: map<Hash, RowId> :: !RepeatsSlot(folder, Records(folder, m, uids, condstore), ids)
  {
    var records := Records(folder, m, uids, condstore);
    RecordsExact(folder, m, uids, condstore);
    forall i, j | 0 <= i < j < |records| ensures SlotOf(folder, records[i]) != SlotOf(folder, records[j]) {
      assert IsReplyRecord(folder, m, uids, condstore, records[i]);
      assert IsReplyRecord(folder, m, uids, condstore, records[j]);
    }
  }
}
