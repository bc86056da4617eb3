/** Message identity, folder placements and orphan clean-up of one account's database. */
module Store {
  import opened Util

  type FolderId = string
  type RowId = nat

  /** SHA-256 is treated as collision free, so a digest is its preimage. */
  datatype Hash = Sha256(preimage: string)

  datatype Flags = Flags(seen: bool, flagged: bool, answered: bool, draft: bool, deleted: bool)

  datatype BodyState = NoBody | Partial | Full

  datatype Row = Row(hash: Hash, messageId: Option<string>, bodyState: BodyState, body: Option<string>)

  /** The two partial unique indexes of `mailbox_messages`. */
  datatype Slot = UidSlot(folder: FolderId, uid: nat) | ItemSlot(folder: FolderId, item: string)

  datatype Placement = Placement(message: RowId, modseq: Option<nat>, flags: Flags)

  datatype Db = Db(rows: map<RowId, Row>, placements: map<Slot, Placement>, nextId: RowId)

  datatype Record = Record(
    hash: Hash, uid: Option<nat>, item: Option<string>, messageId: Option<string>,
    flags: Flags, modseq: Option<nat>)

  // ---- Pure helpers of the source ----

  function HashMessageId(messageId: string): Hash { Sha256(messageId) }

  function ProvisionalHash(folder: FolderId, handle: string): Hash { Sha256(folder + ":" + handle) }

  function UpperChar(c: char): char {
    if 'a' <= c <= 'z' then (c as int - 32) as char else c
  }

  function Upper(s: string): (u: string)
    ensures |u| == |s| && forall i :: 0 <= i < |s| ==> u[i] == UpperChar(s[i])
  {
    seq(|s|, i requires 0 <= i < |s| => UpperChar(s[i]))
  }

  predicate Names(flags: set<string>, name: string) {
    exists f :: f in flags && Upper(f) == name
  }

  function FlagsToColumns(flags: set<string>): Flags {
    Flags(Names(flags, "\\SEEN"), Names(flags, "\\FLAGGED"), Names(flags, "\\ANSWERED"),
          Names(flags, "\\DRAFT"), Names(flags, "\\DELETED"))
  }

  // ---- What the flag columns mean ----

  /** The same letter in either case, or the same character. */
  predicate SameLetter(c: char, d: char) {
    || c == d
    || ('a' <= c <= 'z' && c as int == d as int + 32)
    || ('a' <= d <= 'z' && d as int == c as int + 32)
  }

  predicate SameText(s: string, t: string) {
    |s| == |t| && forall i :: 0 <= i < |s| ==> SameLetter(s[i], t[i])
  }

  /** Some flag is `name`, whatever its case. */
  predicate Carries(flags: set<string>, name: string) {
    exists f :: f in flags && SameText(f, name)
  }

  /** Each column says whether the mail carries its IMAP flag. */
  predicate Mirrors(columns: Flags, flags: set<string>) {
    && (columns.seen <==> Carries(flags, "\\Seen"))
    && (columns.flagged <==> Carries(flags, "\\Flagged"))
    && (columns.answered <==> Carries(flags, "\\Answered"))
    && (columns.draft <==> Carries(flags, "\\Draft"))
    && (columns.deleted <==> Carries(flags, "\\Deleted"))
  }

  /** A text in upper case equals the name in upper case exactly when the texts are the same up to case. */
  lemma UpperIsSameText(f: string, name: string, upper: string)
    requires |name| == |upper|
    requires forall i :: 0 <= i < |name| ==> !('a' <= upper[i] <= 'z') && SameLetter(name[i], upper[i])
    ensures Upper(f) == upper <==> SameText(f, name)
  {
    if |f| == |name| && forall i :: 0 <= i < |f| ==> SameLetter(f[i], name[i]) {
      forall i | 0 <= i < |f| ensures Upper(f)[i] == upper[i] {
        assert SameLetter(f[i], name[i]) && SameLetter(name[i], upper[i]);
      }
    }
    if Upper(f) == upper {
      forall i | 0 <= i < |f| ensures SameLetter(f[i], name[i]) {
        assert Upper(f)[i] == upper[i];
      }
    }
  }

  lemma NamesIsCarries(flags: set<string>, name: string, upper: string)
    requires |name| == |upper|
    requires forall i :: 0 <= i < |name| ==> !('a' <= upper[i] <= 'z') && SameLetter(name[i], upper[i])
    ensures Names(flags, upper) <==> Carries(flags, name)
  {
    hide SameText, SameLetter, Upper;
    forall f | f in flags ensures Upper(f) == upper <==> SameText(f, name) {
      UpperIsSameText(f, name, upper);
    }
  }

  /** The columns of a flag set mirror it, and no other columns do. */
  lemma ColumnsMirror(flags: set<string>)
    ensures Mirrors(FlagsToColumns(flags), flags)
    ensures forall columns :: Mirrors(columns, flags) ==> columns == FlagsToColumns(flags)
  {
    NamesIsCarries(flags, "\\Seen", "\\SEEN");
    NamesIsCarries(flags, "\\Flagged", "\\FLAGGED");
    NamesIsCarries(flags, "\\Answered", "\\ANSWERED");
    NamesIsCarries(flags, "\\Draft", "\\DRAFT");
    NamesIsCarries(flags, "\\Deleted", "\\DELETED");
  }

  // ---- Consistency of the database ----

  ghost predicate UniqueHashes(rows: map<RowId, Row>) {
    forall a, b :: a in rows && b in rows && rows[a].hash == rows[b].hash ==> a == b
  }

  ghost predicate NoDangling(db: Db) {
    forall s :: s in db.placements ==> db.placements[s].message in db.rows
  }

  ghost predicate Valid(db: Db) {
    && UniqueHashes(db.rows)
    && NoDangling(db)
    && forall id :: id in db.rows ==> id < db.nextId
  }

  predicate Known(rows: map<RowId, Row>, h: Hash) {
    exists id :: id in rows && rows[id].hash == h
  }

  /** The row with a given hash: the lookup through `messages_account_dedup_key`. */
  function Find(rows: map<RowId, Row>, h: Hash): (id: RowId)
    requires UniqueHashes(rows) && Known(rows, h)
    ensures id in rows && rows[id].hash == h
  {
    var id :| id in rows && rows[id].hash == h;
    id
  }

  function Used(db: Db): set<RowId> {
    set s | s in db.placements :: db.placements[s].message
  }

  ghost predicate NoOrphans(db: Db) {
    forall id :: id in db.rows ==> id in Used(db)
  }

  // ---- What each operation does to the database ----

  function NewRow(r: Record): Row { Row(r.hash, r.messageId, NoBody, None) }

  function AddRow(db: Db, r: Record): Db {
    if Known(db.rows, r.hash) then db
    else db.(rows := db.rows[db.nextId := NewRow(r)], nextId := db.nextId + 1)
  }

  function AddRows(db: Db, records: seq<Record>): Db {
    if records == [] then db
    else AddRow(AddRows(db, records[..|records| - 1]), records[|records| - 1])
  }

  function Hashes(records: seq<Record>): set<Hash> {
    set r | r in records :: r.hash
  }

  ghost function MessageIds(db: Db, hashes: set<Hash>): map<Hash, RowId>
    requires UniqueHashes(db.rows)
  {
    map h | h in hashes && Known(db.rows, h) :: Find(db.rows, h)
  }

  function SlotOf(folder: FolderId, r: Record): Option<Slot> {
    if r.item.Some? then Some(ItemSlot(folder, r.item.value))
    else if r.uid.Some? then Some(UidSlot(folder, r.uid.value))
    else None
  }

  /** Two records of one statement for the same slot: Postgres rejects the whole statement. */
  predicate RepeatsSlot(folder: FolderId, records: seq<Record>, ids: map<Hash, RowId>) {
    exists i, j :: 0 <= i < j < |records| && records[i].hash in ids && records[j].hash in ids
      && SlotOf(folder, records[i]).Some? && SlotOf(folder, records[i]) == SlotOf(folder, records[j])
  }

  function Place(db: Db, folder: FolderId, r: Record, ids: map<Hash, RowId>): Db {
    var slot := SlotOf(folder, r);
    if r.hash !in ids || slot.None? then db
    else db.(placements := db.placements[slot.value := Placement(ids[r.hash], r.modseq, r.flags)])
  }

  function PlaceAll(db: Db, folder: FolderId, records: seq<Record>, ids: map<Hash, RowId>): Db {
    if records == [] then db
    else Place(PlaceAll(db, folder, records[..|records| - 1], ids), folder, records[|records| - 1], ids)
  }

  predicate AtUid(s: Slot, folder: FolderId, uids: set<nat>) {
    s.UidSlot? && s.folder == folder && s.uid in uids
  }

  function ApplyFlags(db: Db, folder: FolderId, changed: map<nat, set<string>>): Db {
    db.(placements := map s | s in db.placements ::
      if AtUid(s, folder, changed.Keys) then db.placements[s].(flags := FlagsToColumns(changed[s.uid]))
      else db.placements[s])
  }

  function Without(db: Db, gone: set<Slot>): Db {
    db.(placements := map s | s in db.placements && s !in gone :: db.placements[s])
  }

  function Purge(db: Db): Db {
    db.(rows := map id | id in db.rows && id in Used(db) :: db.rows[id])
  }

  function MissingUids(db: Db, folder: FolderId, server: set<nat>): set<Slot> {
    set s | s in db.placements && s.UidSlot? && s.folder == folder && s.uid !in server
  }

  function MissingItems(db: Db, folder: FolderId, server: set<string>): set<Slot> {
    set s | s in db.placements && s.ItemSlot? && s.folder == folder && s.item !in server
  }

  function ListedItems(db: Db, folder: FolderId, items: set<string>): set<Slot> {
    set s | s in db.placements && s.ItemSlot? && s.folder == folder && s.item in items
  }

  function ListedUids(db: Db, folder: FolderId, uids: set<nat>): set<Slot> {
    set s | s in db.placements && AtUid(s, folder, uids)
  }

  function FolderSlots(db: Db, folder: FolderId): set<Slot> {
    set s | s in db.placements && s.folder == folder
  }

  /** The final hash of a message, merging it into the twin row that already has it. */
  function EnsureHash(db: Db, row: RowId, desired: Hash): (result: (Db, RowId))
    requires UniqueHashes(db.rows)
  {
    if row in db.rows && db.rows[row].hash == desired then (db, row)
    else if Known(db.rows, desired) then
      var twin := Find(db.rows, desired);
      var moved := map s | s in db.placements ::
        if db.placements[s].message == row then db.placements[s].(message := twin) else db.placements[s];
      (db.(rows := db.rows - {row}, placements := moved), twin)
    else if row in db.rows then
      (db.(rows := db.rows[row := db.rows[row].(hash := desired)]), row)
    else (db, row)
  }

  /** Storing a fetched body and the Message-ID parsed from it; without its row the foreign key rejects the write. */
  function WriteBody(db: Db, row: RowId, messageId: Option<string>, state: BodyState, body: Option<string>): Db {
    if row in db.rows then
      db.(rows := db.rows[row := db.rows[row].(messageId := messageId, bodyState := state, body := body)])
    else db
  }

  /** `_dedup_hash`: the final identity of a parsed message. */
  function BodyHash(messageId: Option<string>, raw: string): Hash {
    if messageId.Some? && messageId.value != "" then HashMessageId(messageId.value) else Sha256(raw)
  }

  /** `write_content` on the message placed at `s`, with the Message-ID and the text that were fetched. */
  function Stored(db: Db, s: Slot, x: Option<string>, raw: string, state: BodyState, body: Option<string>): Db
    requires UniqueHashes(db.rows) && s in db.placements
  {
    var (merged, kept) := EnsureHash(db, db.placements[s].message, BodyHash(x, raw));
    WriteBody(merged, kept, x, state, body)
  }

  function RowHash(db: Db, s: Slot): Option<Hash> {
    if s in db.placements && db.placements[s].message in db.rows then Some(db.rows[db.placements[s].message].hash)
    else None
  }

  /** The placement, its message and the row of the message are as they were, up to flags and modseq. */
  ghost predicate Untouched(before: Db, after: Db, s: Slot) {
    && s in before.placements && s in after.placements
    && after.placements[s].message == before.placements[s].message
    && before.placements[s].message in before.rows && before.placements[s].message in after.rows
    && after.rows[before.placements[s].message] == before.rows[before.placements[s].message]
  }

  // ---- What the operations keep ----

  lemma AddRowKeeps(db: Db, r: Record)
    requires Valid(db)
    ensures Valid(AddRow(db, r))
    ensures Known(AddRow(db, r).rows, r.hash)
    ensures forall id :: id in db.rows ==> id in AddRow(db, r).rows && AddRow(db, r).rows[id] == db.rows[id]
    ensures forall id :: id in AddRow(db, r).rows && id !in db.rows ==> AddRow(db, r).rows[id] == NewRow(r)
  {
    if !Known(db.rows, r.hash) {
      assert AddRow(db, r).rows[db.nextId].hash == r.hash;
    }
  }

  lemma {:induction false} AddRowsKeeps(db: Db, records: seq<Record>)
    requires Valid(db)
    ensures Valid(AddRows(db, records)) && AddRows(db, records).placements == db.placements
    ensures forall r :: r in records ==> Known(AddRows(db, records).rows, r.hash)
    ensures forall id :: id in db.rows ==>
      id in AddRows(db, records).rows && AddRows(db, records).rows[id] == db.rows[id]
    ensures forall id :: id in AddRows(db, records).rows && id !in db.rows ==>
      exists r :: r in records && AddRows(db, records).rows[id] == NewRow(r)
  {
    if records != [] {
      var init, last := records[..|records| - 1], records[|records| - 1];
      AddRowsKeeps(db, init);
      var mid := AddRows(db, init);
      AddRowKeeps(mid, last);
      var end := AddRow(mid, last);
      forall r | r in records ensures Known(end.rows, r.hash) {
        if r in init {
          assert mid.rows[Find(mid.rows, r.hash)].hash == r.hash;
          assert end.rows[Find(mid.rows, r.hash)].hash == r.hash;
        } else {
          assert r == last;
        }
      }
      forall id | id in end.rows && id !in db.rows
        ensures exists r :: r in records && end.rows[id] == NewRow(r)
      {
        if id in mid.rows {
          var r :| r in init && mid.rows[id] == NewRow(r);
          assert r in records;
        } else {
          assert last in records;
        }
      }
    }
  }

  /** Rows stay as they are, and each new one has the hash and Message-ID of a record and no body yet. */
  ghost predicate Adds(before: map<RowId, Row>, after: map<RowId, Row>, records: seq<Record>) {
    && (forall id :: id in before ==> id in after && after[id] == before[id])
    && forall id :: id in after && id !in before ==> IsBare(after[id], records)
  }

  ghost predicate IsBare(row: Row, records: seq<Record>) {
    && row.bodyState == NoBody && row.body == None
    && exists r :: r in records && row.hash == r.hash && row.messageId == r.messageId
  }

  lemma AddRowsAdd(db: Db, records: seq<Record>)
    requires Valid(db)
    ensures Adds(db.rows, AddRows(db, records).rows, records)
  {
    AddRowsKeeps(db, records);
  }

  /** A batch of placements with distinct slots is written in full, and nothing else is touched. */
  lemma {:induction false} PlaceAllExact(db: Db, folder: FolderId, records: seq<Record>, ids: map<Hash, RowId>)
    requires !RepeatsSlot(folder, records, ids)
    ensures var after := PlaceAll(db, folder, records, ids);
      && after.rows == db.rows && after.nextId == db.nextId
      && (forall i :: 0 <= i < |records| && records[i].hash in ids && SlotOf(folder, records[i]).Some? ==>
            var s := SlotOf(folder, records[i]).value;
            s in after.placements
            && after.placements[s] == Placement(ids[records[i].hash], records[i].modseq, records[i].flags))
      && (forall s :: (forall r :: r in records && r.hash in ids ==> SlotOf(folder, r) != Some(s)) ==>
            (s in after.placements <==> s in db.placements)
            && (s in db.placements ==> after.placements[s] == db.placements[s]))
  {
    if records != [] {
      var n := |records| - 1;
      var init, last := records[..n], records[n];
      assert !RepeatsSlot(folder, init, ids);
      PlaceAllExact(db, folder, init, ids);
      var mid, after := PlaceAll(db, folder, init, ids), PlaceAll(db, folder, records, ids);
      assert forall r :: r in init ==> r in records;
      assert last in records;
      forall i | 0 <= i < |records| && records[i].hash in ids && SlotOf(folder, records[i]).Some?
        ensures var s := SlotOf(folder, records[i]).value;
          s in after.placements
          && after.placements[s] == Placement(ids[records[i].hash], records[i].modseq, records[i].flags)
      {
        if i < n {
          assert init[i] == records[i];
          assert last.hash in ids ==> SlotOf(folder, last) != SlotOf(folder, records[i]);
        }
      }
    }
  }

  lemma {:induction false} PlaceAllKeeps(db: Db, folder: FolderId, records: seq<Record>, ids: map<Hash, RowId>)
    requires Valid(db) && forall h :: h in ids ==> ids[h] in db.rows
    ensures Valid(PlaceAll(db, folder, records, ids))
    ensures PlaceAll(db, folder, records, ids).rows == db.rows
  {
    if records != [] {
      PlaceAllKeeps(db, folder, records[..|records| - 1], ids);
    }
  }

  /** A merge moves every placement with its slot, flags and modseq, and drops at most the merged row. */
  lemma EnsureHashConserves(db: Db, row: RowId, desired: Hash)
    requires Valid(db)
    ensures var (after, id) := EnsureHash(db, row, desired);
      && Valid(after)
      && after.placements.Keys == db.placements.Keys
      && (forall s :: s in db.placements ==>
            after.placements[s].flags == db.placements[s].flags
            && after.placements[s].modseq == db.placements[s].modseq
            && (after.placements[s].message
                == if db.placements[s].message == row then id else db.placements[s].message))
      && db.rows.Keys - {row} <= after.rows.Keys <= db.rows.Keys
      && (forall k :: k in after.rows && k != row ==> after.rows[k] == db.rows[k])
      && (row in db.rows ==> id in after.rows && after.rows[id].hash == desired)
      && (row in after.rows ==> after.rows[row] == db.rows[row].(hash := desired))
      && (row in db.rows && row !in after.rows ==> id != row && id in db.rows && db.rows[id].hash == desired)
  {
    if !(row in db.rows && db.rows[row].hash == desired) && Known(db.rows, desired) {
      var (after, id) := EnsureHash(db, row, desired);
      assert id != row;
    }
  }

  lemma PurgeExact(db: Db)
    requires Valid(db)
    ensures Valid(Purge(db)) && NoOrphans(Purge(db))
    ensures Purge(db).placements == db.placements
    ensures forall id :: id in db.rows ==>
      (id in Purge(db).rows <==> exists s :: s in db.placements && db.placements[s].message == id)
    ensures forall id :: id in Purge(db).rows ==> id in db.rows && Purge(db).rows[id] == db.rows[id]
  {
    var after := Purge(db);
    forall s | s in after.placements ensures after.placements[s].message in after.rows {
      assert db.placements[s].message in Used(db);
    }
    forall id | id in after.rows ensures id in Used(after) {
      var s :| s in db.placements && db.placements[s].message == id;
      assert s in after.placements && after.placements[s].message == id;
    }
  }

  lemma StoredKeeps(db: Db, s: Slot, x: Option<string>, raw: string, state: BodyState, body: Option<string>)
    requires Valid(db) && s in db.placements
    ensures var after := Stored(db, s, x, raw, state, body);
      && Valid(after) && after.placements.Keys == db.placements.Keys
      && forall o :: o in db.placements ==> after.placements[o].flags == db.placements[o].flags
  {
    EnsureHashConserves(db, db.placements[s].message, BodyHash(x, raw));
  }

  /** The placement's row ends with what was fetched; rows other than the two that may merge are as they were. */
  lemma StoredContent(db: Db, s: Slot, x: Option<string>, raw: string, state: BodyState, body: Option<string>)
    requires Valid(db) && s in db.placements
    ensures var after := Stored(db, s, x, raw, state, body); var row := after.placements[s].message;
      && row in after.rows
      && after.rows[row] == Row(Sha256(if x.Some? && x.value != "" then x.value else raw), x, state, body)
      && (forall id :: id in after.rows && id != row ==> id in db.rows && after.rows[id] == db.rows[id])
      && (forall id :: id in db.rows && id !in after.rows ==> id == db.placements[s].message)
  {
    EnsureHashConserves(db, db.placements[s].message, BodyHash(x, raw));
  }

  // ---- Runs of store operations ----

  datatype Op =
    | Upsert(folder: FolderId, records: seq<Record>)
    | SetFlags(folder: FolderId, changed: map<nat, set<string>>)
    | DropMissingUids(folder: FolderId, server: set<nat>)
    | DropMissingItems(folder: FolderId, items: set<string>)
    | DropItems(folder: FolderId, items: set<string>)
    | DropUids(folder: FolderId, uids: set<nat>)
    | WipeFolder(folder: FolderId)
    | Rehash(row: RowId, hash: Hash)
    | StoreBody(row: RowId, messageId: Option<string>, state: BodyState, body: Option<string>)

  /** `upsert_messages` followed by `upsert_placements`; a repeated slot aborts the transaction. */
  ghost function UpsertBatch(db: Db, folder: FolderId, records: seq<Record>): Db
    requires Valid(db)
  {
    AddRowsKeeps(db, records);
    var added := AddRows(db, records);
    var ids := MessageIds(added, Hashes(records));
    if RepeatsSlot(folder, records, ids) then db else PlaceAll(added, folder, records, ids)
  }

  ghost function Exec(db: Db, op: Op): Db
    requires Valid(db)
  {
    match op
    case Upsert(folder, records) => UpsertBatch(db, folder, records)
    case SetFlags(folder, changed) => ApplyFlags(db, folder, changed)
    case DropMissingUids(folder, server) => Purge(Without(db, MissingUids(db, folder, server)))
    case DropMissingItems(folder, items) => Purge(Without(db, MissingItems(db, folder, items)))
    case DropItems(folder, items) =>
      if items == {} then db else Purge(Without(db, ListedItems(db, folder, items)))
    case DropUids(folder, uids) =>
      if uids == {} then db else Purge(Without(db, ListedUids(db, folder, uids)))
    case WipeFolder(folder) => Without(db, FolderSlots(db, folder))
    case Rehash(row, hash) => EnsureHash(db, row, hash).0
    case StoreBody(row, messageId, state, body) => WriteBody(db, row, messageId, state, body)
  }

  lemma UpsertBatchKeeps(db: Db, folder: FolderId, records: seq<Record>)
    requires Valid(db)
    ensures Valid(UpsertBatch(db, folder, records))
    ensures forall id :: id in db.rows ==>
      id in UpsertBatch(db, folder, records).rows && UpsertBatch(db, folder, records).rows[id] == db.rows[id]
  {
    AddRowsKeeps(db, records);
    var added := AddRows(db, records);
    PlaceAllKeeps(added, folder, records, MessageIds(added, Hashes(records)));
  }

  ghost predicate SameSlot(a: Db, b: Db, s: Slot) {
    (s in a.placements <==> s in b.placements) && (s in a.placements ==> a.placements[s] == b.placements[s])
  }

  ghost predicate KeepsRows(a: Db, b: Db) {
    forall id :: id in a.rows ==> id in b.rows && b.rows[id] == a.rows[id]
  }

  /** No two records of the batch ask for one slot. */
  ghost predicate DistinctSlots(folder: FolderId, records: seq<Record>) {
    forall i, j :: 0 <= i < j < |records| && SlotOf(folder, records[i]).Some?
      ==> SlotOf(folder, records[i]) != SlotOf(folder, records[j])
  }

  /** `s` holds what record `r` says, and its row carries the record's hash. */
  ghost predicate Holds(db: Db, s: Slot, r: Record) {
    && s in db.placements && db.placements[s].flags == r.flags && db.placements[s].modseq == r.modseq
    && db.placements[s].message in db.rows && db.rows[db.placements[s].message].hash == r.hash
  }

  lemma ValidIsUnique(db: Db)
    requires Valid(db)
    ensures UniqueHashes(db.rows)
  {
  }

  lemma UpsertBatchExact(db: Db, folder: FolderId, records: seq<Record>)
    requires Valid(db) && DistinctSlots(folder, records)
    ensures var after := UpsertBatch(db, folder, records);
      && Valid(after) && KeepsRows(db, after)
      && (forall r :: r in records && SlotOf(folder, r).Some? ==> Holds(after, SlotOf(folder, r).value, r))
      && (forall s: Slot :: (forall r :: r in records ==> SlotOf(folder, r) != Some(s)) ==> SameSlot(db, after, s))
  {
    hide AddRows, PlaceAll, SlotOf, Valid;
    AddRowsKeeps(db, records);
    var added := AddRows(db, records);
    ValidIsUnique(added);
    var ids := MessageIds(added, Hashes(records));
    UpsertBatchKeeps(db, folder, records);
    assert !RepeatsSlot(folder, records, ids);
    PlaceAllExact(added, folder, records, ids);
    var after := UpsertBatch(db, folder, records);
    forall r | r in records && SlotOf(folder, r).Some?
      ensures Holds(after, SlotOf(folder, r).value, r)
    {
      assert r.hash in Hashes(records) && r.hash in ids;
      var i :| 0 <= i < |records| && records[i] == r;
      assert SlotOf(folder, records[i]).value in after.placements;
    }
  }

  lemma ExecKeepsValid(db: Db, op: Op)
    requires Valid(db)
    ensures Valid(Exec(db, op))
  {
    match op
    case Upsert(folder, records) => UpsertBatchKeeps(db, folder, records);
    case DropMissingUids(folder, server) => PurgeExact(Without(db, MissingUids(db, folder, server)));
    case DropMissingItems(folder, items) => PurgeExact(Without(db, MissingItems(db, folder, items)));
    case DropItems(folder, items) => PurgeExact(Without(db, ListedItems(db, folder, items)));
    case DropUids(folder, uids) => PurgeExact(Without(db, ListedUids(db, folder, uids)));
    case Rehash(row, hash) => EnsureHashConserves(db, row, hash);
    case _ =>
  }

  ghost predicate Run(states: seq<Db>, ops: seq<Op>) {
    && |states| == |ops| + 1
    && states[0] == Db(map[], map[], 0)
    && forall i :: 0 <= i < |ops| ==> Valid(states[i]) ==> states[i + 1] == Exec(states[i], ops[i])
  }

  /**
    * Over any run from the empty database: hashes are unique, no placement dangles, and every
    * removal of placements ends without an orphan message.
    */
  lemma {:induction false} IdentityOverRuns(states: seq<Db>, ops: seq<Op>, i: nat)
    requires Run(states, ops) && i <= |ops|
    ensures Valid(states[i])
    ensures i > 0 && (ops[i - 1].DropMissingUids? || ops[i - 1].DropMissingItems?) ==> NoOrphans(states[i])
    decreases i
  {
    if i > 0 {
      IdentityOverRuns(states, ops, i - 1);
      var db := states[i - 1];
      ExecKeepsValid(db, ops[i - 1]);
      match ops[i - 1]
      case DropMissingUids(folder, server) => PurgeExact(Without(db, MissingUids(db, folder, server)));
      case DropMissingItems(folder, items) => PurgeExact(Without(db, MissingItems(db, folder, items)));
      case _ =>
    }
  }

  // ---- The module's writer, statement by statement ----

  function Missing(db: Db, folder: FolderId, uids: Option<set<nat>>, items: Option<set<string>>): (gone: set<Slot>)
    ensures gone <= db.placements.Keys
  {
    (if uids.Some? then MissingUids(db, folder, uids.value) else {})
    + (if items.Some? then MissingItems(db, folder, items.value) else {})
  }

  /** Deleting missing UIDs and then missing items deletes what was missing at first. */
  lemma DropsAddUp(db: Db, folder: FolderId, uids: Option<set<nat>>, items: Option<set<string>>)
    ensures
      var first := if uids.Some? then Without(db, MissingUids(db, folder, uids.value)) else db;
      var second := if items.Some? then Without(first, MissingItems(first, folder, items.value)) else first;
      && (uids.Some? ==> MissingUids(db, folder, uids.value) <= db.placements.Keys)
      && (items.Some? ==> MissingItems(first, folder, items.value) <= first.placements.Keys)
      && second == Without(db, Missing(db, folder, uids, items))
  {
    var first := if uids.Some? then Without(db, MissingUids(db, folder, uids.value)) else db;
    if items.Some? {
      assert MissingItems(first, folder, items.value) == MissingItems(db, folder, items.value);
    }
  }

  lemma WithoutSize(db: Db, gone: set<Slot>)
    requires gone <= db.placements.Keys
    ensures |Without(db, gone).placements| == |db.placements| - |gone|
  {
    assert Without(db, gone).placements.Keys == db.placements.Keys - gone;
  }

  /** `_group_flags`: the UIDs of a FETCH result, one group per combination of flag columns. */
  method GroupFlags(changed: map<nat, set<string>>) returns (groups: map<Flags, set<nat>>)
    ensures forall k :: k in groups ==> groups[k] == set u | u in changed && FlagsToColumns(changed[u]) == k
    ensures forall u :: u in changed ==> FlagsToColumns(changed[u]) in groups
    ensures forall k, u :: k in groups && u in groups[k] ==> u in changed && Mirrors(k, changed[u])
  {
    hide FlagsToColumns, Mirrors;
    groups := map[];
    var todo := changed.Keys;
    while todo != {}
      invariant todo <= changed.Keys
      invariant forall k :: k in groups ==>
        groups[k] == set u | u in changed && u !in todo && FlagsToColumns(changed[u]) == k
      invariant forall u :: u in changed && u !in todo ==> FlagsToColumns(changed[u]) in groups
      decreases todo
    {
      var uid :| uid in todo;
      var key := FlagsToColumns(changed[uid]);
      groups := groups[key := (if key in groups then groups[key] else {}) + {uid}];
      todo := todo - {uid};
    }
    forall k, u | k in groups && u in groups[k] ensures u in changed && Mirrors(k, changed[u]) {
      ColumnsMirror(changed[u]);
    }
  }

  lemma AddRowIds(db: Db, r: Record, hashes: set<Hash>)
    requires Valid(db) && Valid(AddRow(db, r)) && r.hash in hashes && !Known(db.rows, r.hash)
    ensures MessageIds(AddRow(db, r), hashes) == MessageIds(db, hashes)[r.hash := db.nextId]
  {
    var after := AddRow(db, r);
    assert after.rows[db.nextId].hash == r.hash;
    forall h | h in hashes && h != r.hash
      ensures Known(after.rows, h) <==> Known(db.rows, h)
      ensures Known(db.rows, h) ==> Find(after.rows, h) == Find(db.rows, h)
    {
      if Known(db.rows, h) {
        assert after.rows[Find(db.rows, h)].hash == h;
      }
    }
  }

  ghost function FlaggedSoFar(
      before: Db, folder: FolderId, done: set<nat>, changed: map<nat, set<string>>): map<Slot, Placement>
    requires done <= changed.Keys
  {
    map s | s in before.placements ::
      if AtUid(s, folder, done) then before.placements[s].(flags := FlagsToColumns(changed[s.uid]))
      else before.placements[s]
  }

  /** One grouped UPDATE extends the flagged part by its group, and counts the rows it reached. */
  lemma FlagGroup(
      before: Db, folder: FolderId, done: set<nat>, uids: set<nat>, key: Flags, changed: map<nat, set<string>>)
    requires done <= changed.Keys && uids <= changed.Keys && done !! uids
    requires forall u :: u in uids ==> FlagsToColumns(changed[u]) == key
    ensures var now := FlaggedSoFar(before, folder, done, changed);
      && (map s | s in now :: if AtUid(s, folder, uids) then now[s].(flags := key) else now[s])
        == FlaggedSoFar(before, folder, done + uids, changed)
      && ListedUids(before.(placements := now), folder, uids) == ListedUids(before, folder, uids)
    ensures |ListedUids(before, folder, done + uids)|
      == |ListedUids(before, folder, done)| + |ListedUids(before, folder, uids)|
  {
    assert ListedUids(before, folder, done + uids)
      == ListedUids(before, folder, done) + ListedUids(before, folder, uids);
  }

  lemma KnownIds(db: Db, hashes: set<Hash>, ids: map<Hash, RowId>)
    requires Valid(db)
    requires ids == map id | id in db.rows && db.rows[id].hash in hashes :: db.rows[id].hash := id
    ensures ids == MessageIds(db, hashes)
  {
  }

  lemma AddNoRows(db: Db, records: seq<Record>)
    ensures AddRows(db, records[..0]) == db
  {
  }

  /** One turn of the loop over the records: a row is added exactly when its hash has none. */
  lemma AddNextRow(db: Db, records: seq<Record>, i: nat, ids: map<Hash, RowId>)
    requires i < |records| && Valid(AddRows(db, records[..i]))
    requires ids == MessageIds(AddRows(db, records[..i]), Hashes(records))
    ensures var mid, next, r := AddRows(db, records[..i]), AddRows(db, records[..i + 1]), records[i];
      && Valid(next)
      && (r.hash in ids ==> next == mid)
      && (r.hash !in ids ==> next == mid.(rows := mid.rows[mid.nextId := NewRow(r)], nextId := mid.nextId + 1))
      && MessageIds(next, Hashes(records)) == if r.hash in ids then ids else ids[r.hash := mid.nextId]
  {
    assert records[..i + 1][..i] == records[..i];
    assert records[i].hash in Hashes(records);
    AddRowKeeps(AddRows(db, records[..i]), records[i]);
    if records[i].hash !in ids {
      AddRowIds(AddRows(db, records[..i]), records[i], Hashes(records));
    }
  }

  class MailStore {
    var rows: map<RowId, Row>
    var placements: map<Slot, Placement>
    var nextId: RowId

    function Abs(): Db
      reads this
    {
      Db(rows, placements, nextId)
    }

    constructor ()
      ensures Abs() == Db(map[], map[], 0)
    {
      rows, placements, nextId := map[], map[], 0;
    }

    /** `session.rollback()`: every table returns to its committed contents. */
    method Rollback(committed: Db)
      modifies this
      ensures Abs() == committed
    {
      rows, placements, nextId := committed.rows, committed.placements, committed.nextId;
    }

    method UpsertMessages(records: seq<Record>) returns (ids: map<Hash, RowId>)
      requires Valid(Abs())
      modifies this
      ensures Abs() == AddRows(old(Abs()), records) && Valid(Abs())
      ensures ids == MessageIds(Abs(), Hashes(records))
      ensures Adds(old(rows), rows, records)
    {
      var hashes := Hashes(records);
      ids := map id | id in rows && rows[id].hash in hashes :: rows[id].hash := id;
      KnownIds(Abs(), hashes, ids);
      hide Adds, AddRows, MessageIds, Valid, Hashes;
      AddRowsAdd(Abs(), records);
      ghost var before := Abs();
      AddNoRows(before, records);
      for i := 0 to |records|
        invariant Valid(Abs()) && Abs() == AddRows(before, records[..i])
        invariant ids == MessageIds(Abs(), hashes)
      {
        var record := records[i];
        AddNextRow(before, records, i, ids);
        if record.hash !in ids {
          rows := rows[nextId := NewRow(record)];
          ids := ids[record.hash := nextId];
          nextId := nextId + 1;
        }
      }
      assert records[..|records|] == records;
    }

    /** The number of kept records, or nothing when Postgres rejects a statement that repeats a slot. */
    method UpsertPlacements(folder: FolderId, records: seq<Record>, ids: map<Hash, RowId>)
        returns (written: Option<nat>)
      modifies this`placements
      ensures RepeatsSlot(folder, records, ids) ==> written.None? && Abs() == old(Abs())
      ensures !RepeatsSlot(folder, records, ids) ==>
        Abs() == PlaceAll(old(Abs()), folder, records, ids)
        && written == Some(|set i | 0 <= i < |records| && records[i].hash in ids|)
    {
      if RepeatsSlot(folder, records, ids) {
        return None;
      }
      var kept := 0;
      ghost var before := Abs();
      for i := 0 to |records|
        invariant Abs() == PlaceAll(before, folder, records[..i], ids)
        invariant kept == |set k | 0 <= k < i && records[k].hash in ids|
      {
        var record := records[i];
        assert records[..i + 1][..i] == records[..i];
        assert (set k | 0 <= k < i + 1 && records[k].hash in ids)
            == (set k | 0 <= k < i && records[k].hash in ids) + (if record.hash in ids then {i} else {});
        if record.hash in ids {
          var slot := SlotOf(folder, record);
          if slot.Some? {
            placements := placements[slot.value := Placement(ids[record.hash], record.modseq, record.flags)];
          }
          kept := kept + 1;
        }
      }
      assert records[..|records|] == records;
      written := Some(kept);
    }

    /** One UPDATE per flag combination has the effect of setting every listed UID on its own. */
    method ApplyFlagsByUid(folder: FolderId, changed: map<nat, set<string>>) returns (updated: nat)
      modifies this`placements
      ensures Abs() == ApplyFlags(old(Abs()), folder, changed)
      ensures updated == |ListedUids(old(Abs()), folder, changed.Keys)|
      ensures placements.Keys == old(placements.Keys)
      ensures forall s :: s in placements && !AtUid(s, folder, changed.Keys) ==> placements[s] == old(placements)[s]
      ensures forall s :: s in placements && AtUid(s, folder, changed.Keys) ==>
        Mirrors(placements[s].flags, changed[s.uid])
      ensures forall s :: s in placements ==> placements[s] == old(placements)[s].(flags := placements[s].flags)
    {
      hide FlagsToColumns, Mirrors;
      var groups := GroupFlags(changed);
      var todo := groups.Keys;
      updated := 0;
      ghost var before, done := Abs(), {};
      while todo != {}
        invariant todo <= groups.Keys
        invariant done == set u | u in changed && FlagsToColumns(changed[u]) !in todo
        invariant Abs() == before.(placements := FlaggedSoFar(before, folder, done, changed))
        invariant updated == |ListedUids(before, folder, done)|
        decreases todo
      {
        var key :| key in todo;
        var uids := groups[key];
        FlagGroup(before, folder, done, uids, key, changed);
        updated := updated + |ListedUids(Abs(), folder, uids)|;
        placements := map s | s in placements ::
          if AtUid(s, folder, uids) then placements[s].(flags := key) else placements[s];
        todo := todo - {key};
        done := done + uids;
      }
      assert done == changed.Keys;
      forall s | s in placements && AtUid(s, folder, changed.Keys)
        ensures Mirrors(placements[s].flags, changed[s.uid])
      {
        ColumnsMirror(changed[s.uid]);
      }
    }

    method PurgeOrphanMessages()
      modifies this`rows
      ensures Abs() == Purge(old(Abs()))
    {
      var used := Used(Abs());
      rows := map id | id in rows && id in used :: rows[id];
    }

    /** One DELETE, with its row count. */
    method Drop(gone: set<Slot>) returns (removed: nat)
      requires gone <= placements.Keys
      modifies this`placements
      ensures Abs() == Without(old(Abs()), gone)
      ensures removed == |old(placements)| - |placements|
    {
      WithoutSize(Abs(), gone);
      placements := Without(Abs(), gone).placements;
      removed := |gone|;
    }

    method DeleteMissingPlacements(folder: FolderId, serverUids: Option<set<nat>>, serverItems: Option<set<string>>)
        returns (removed: nat)
      modifies this
      ensures Abs() == Purge(Without(old(Abs()), Missing(old(Abs()), folder, serverUids, serverItems)))
      ensures removed == |old(placements)| - |placements|
    {
      hide Without, MissingUids, MissingItems, Purge;
      ghost var before := Abs();
      DropsAddUp(before, folder, serverUids, serverItems);
      removed := 0;
      if serverUids.Some? {
        var missing := MissingUids(Abs(), folder, serverUids.value);
        removed := Drop(missing);
      }
      if serverItems.Some? {
        var missing := MissingItems(Abs(), folder, serverItems.value);
        var more := Drop(missing);
        removed := removed + more;
      }
      PurgeOrphanMessages();
    }

    method RemovePlacements(folder: FolderId, items: set<string>) returns (removed: nat)
      modifies this
      ensures Abs() == if items - {""} == {} then old(Abs())
        else Purge(Without(old(Abs()), ListedItems(old(Abs()), folder, items - {""})))
      ensures removed == |old(placements)| - |placements|
    {
      var ids := items - {""};
      if ids == {} {
        return 0;
      }
      var listed := ListedItems(Abs(), folder, ids);
      removed := Drop(listed);
      PurgeOrphanMessages();
    }

    method EnsureDedupHash(row: RowId, desired: Hash) returns (id: RowId)
      requires Valid(Abs())
      modifies this
      ensures (Abs(), id) == EnsureHash(old(Abs()), row, desired)
      ensures Valid(Abs())
    {
      EnsureHashConserves(Abs(), row, desired);
      if row in rows && rows[row].hash == desired {
        return row;
      }
      if Known(rows, desired) {
        var twin := Find(rows, desired);
        placements := map s | s in placements ::
          if placements[s].message == row then placements[s].(message := twin) else placements[s];
        rows := rows - {row};
        return twin;
      }
      if row in rows {
        rows := rows[row := rows[row].(hash := desired)];
      }
      return row;
    }
  }
}
