/** Which placements share a message row: what marks a mail, and how the marks survive store operations. */
module Identity {
  import opened Util
  import opened Store

  /**
    * What can identify the mail at a placement: its Message-ID, the handle it has before its body is
    * fetched, and the text of its body, which counts once it was fetched.
    */
  datatype Mark = Mark(id: Option<string>, handle: string, text: string, fetched: bool)

  predicate HasId(m: Mark) {
    m.id.Some? && m.id.value != ""
  }

  /** The digest of the row placed at `s` is that of the Message-ID, or else of the handle or the fetched text. */
  ghost predicate Marked(db: Db, s: Slot, m: Mark) {
    var hash := RowHash(db, s);
    if HasId(m) then hash == Some(Sha256(m.id.value))
    else hash == Some(Sha256(m.handle)) || (m.fetched && hash == Some(Sha256(m.text)))
  }

  /** Message-IDs, handles and texts are three kinds of text, and the two mails have handles of their own. */
  predicate Apart(m: Mark, n: Mark) {
    && (HasId(m) ==> m.id.value != n.handle && m.id.value != n.text)
    && (HasId(n) ==> n.id.value != m.handle && n.id.value != m.text)
    && m.handle != n.handle && m.handle != n.text && n.handle != m.text
  }

  /** Two placements of one row are of one Message-ID, or both bodies were fetched and are the same. */
  lemma SharersMatch(db: Db, s: Slot, m: Mark, o: Slot, n: Mark)
    requires Marked(db, s, m) && Marked(db, o, n) && Apart(m, n)
    requires s in db.placements && o in db.placements && db.placements[s].message == db.placements[o].message
    ensures
      || (HasId(m) && HasId(n) && m.id == n.id)
      || (!HasId(m) && !HasId(n) && m.fetched && n.fetched && m.text == n.text)
  {
  }

  /** Placements of one Message-ID are on one row. */
  lemma SameIdShares(db: Db, s: Slot, m: Mark, o: Slot, n: Mark)
    requires Valid(db) && Marked(db, s, m) && Marked(db, o, n)
    requires HasId(m) && m.id == n.id
    ensures s in db.placements && o in db.placements && db.placements[s].message == db.placements[o].message
  {
  }

  lemma SameHashMarked(before: Db, after: Db, s: Slot, m: Mark)
    requires RowHash(after, s) == RowHash(before, s) && Marked(before, s, m)
    ensures Marked(after, s, m)
  {
  }

  lemma MarkedLater(db: Db, s: Slot, m: Mark, n: Mark)
    requires Marked(db, s, m) && n == m.(fetched := n.fetched) && (m.fetched ==> n.fetched)
    ensures Marked(db, s, n)
  {
  }

  /** Storing the body of one placement marks it by its text, and leaves the marks of all others. */
  lemma StoredMarks(db: Db, s: Slot, m: Mark, state: BodyState, body: Option<string>, o: Slot, n: Mark)
    requires Valid(db) && Marked(db, s, m) && Marked(db, o, n)
    requires if o == s then n == m else Apart(m, n)
    ensures Marked(Stored(db, s, m.id, m.text, state, body), o, if o == s then n.(fetched := true) else n)
  {
    hide Stored;
    StoredRowHash(db, s, m.id, m.text, state, body, o);
  }

  /** The rows that a stored body rehashes are those of the placements on its own row. */
  lemma StoredRowHash(db: Db, s: Slot, x: Option<string>, raw: string, state: BodyState, body: Option<string>, o: Slot)
    requires Valid(db) && s in db.placements && o in db.placements
    ensures RowHash(Stored(db, s, x, raw, state, body), o) ==
      if db.placements[o].message == db.placements[s].message
      then Some(Sha256(if x.Some? && x.value != "" then x.value else raw))
      else RowHash(db, o)
  {
    var row := db.placements[s].message;
    EnsureHashConserves(db, row, BodyHash(x, raw));
  }
}
