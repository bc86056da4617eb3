/** Keyset paging of message lists: opaque cursors, ordered queries, and what following the cursors yields. */
module Paging {
  import opened Util
  import Base64

  // ---- Cursor text ----

  /** How timestamps and ids are written and read back. */
  datatype Codec = Codec(
    showTime: int -> string, readTime: string -> Option<int>,
    showId: int -> string, readId: string -> Option<int>)
  {
    ghost predicate Lawful() {
      && (forall t :: readTime(showTime(t)) == Some(t))
      && (forall t :: Ascii(showTime(t)) && '|' !in showTime(t))
      && (forall i :: readId(showId(i)) == Some(i))
      && (forall i :: Ascii(showId(i)))
    }
  }

  datatype Cursor = Cursor(stamp: int, id: int)

  const CURSOR_VERSION := "1"

  predicate Ascii(s: string) {
    forall i :: 0 <= i < |s| ==> s[i] as int < 128
  }

  function ToBytes(s: string): (bs: seq<Base64.Byte>)
    requires Ascii(s)
  {
    seq(|s|, i requires 0 <= i < |s| => s[i] as int)
  }

  function OfBytes(bs: seq<Base64.Byte>): Option<string> {
    if forall i :: 0 <= i < |bs| ==> bs[i] < 128
    then Some(seq(|bs|, i requires 0 <= i < |bs| => bs[i] as char))
    else None
  }

  lemma BytesRoundTrip(s: string)
    requires Ascii(s)
    ensures OfBytes(ToBytes(s)) == Some(s)
  {
    var t := OfBytes(ToBytes(s)).value;
    forall i | 0 <= i < |s| ensures t[i] == s[i] {
      assert ToBytes(s)[i] == s[i] as int;
    }
    assert t == s;
  }

  /** The text before and after the first bar. */
  function Cut(s: string): Option<(string, string)> {
    if s == [] then None
    else if s[0] == '|' then Some(([], s[1..]))
    else
      var rest := Cut(s[1..]);
      if rest.None? then None else Some(([s[0]] + rest.value.0, rest.value.1))
  }

  lemma {:induction false} CutAt(head: string, tail: string)
    requires '|' !in head
    ensures Cut(head + "|" + tail) == Some((head, tail))
  {
    var s := head + "|" + tail;
    if head == [] {
      assert s[1..] == tail;
    } else {
      assert s[0] == head[0] && head == [head[0]] + head[1..];
      assert s[1..] == head[1..] + "|" + tail;
      CutAt(head[1..], tail);
    }
  }

  function RawCursor(c: Codec, stamp: int, id: int): string {
    CURSOR_VERSION + "|" + (c.showTime(stamp) + "|" + c.showId(id))
  }

  function EncodeCursor(c: Codec, row: Row): string
    requires c.Lawful()
  {
    RawIsAscii(c, Stamp(row), row.id);
    Base64.StripPadding(Base64.Encode(ToBytes(RawCursor(c, Stamp(row), row.id))))
  }

  /** Nothing where the code raises: not base64, not three parts, a foreign version, an unreadable part. */
  function DecodeCursor(c: Codec, text: string): Option<Cursor> {
    var bs := Base64.Decode(Base64.Repad(text));
    var raw := if bs.Some? then OfBytes(bs.value) else None;
    var first := if raw.Some? then Cut(raw.value) else None;
    var second := if first.Some? then Cut(first.value.1) else None;
    if second.None? || first.value.0 != CURSOR_VERSION then None
    else
      var stamp, id := c.readTime(second.value.0), c.readId(second.value.1);
      if stamp.Some? && id.Some? then Some(Cursor(stamp.value, id.value)) else None
  }

  lemma RawIsAscii(c: Codec, stamp: int, id: int)
    requires c.Lawful()
    ensures Ascii(RawCursor(c, stamp, id))
  {
    assert Ascii(c.showTime(stamp)) && Ascii(c.showId(id));
  }

  /** A row's cursor decodes to the row's stamp and id, whatever padding was cut off, and is never the empty text. */
  lemma CursorRoundTrip(c: Codec, row: Row)
    requires c.Lawful()
    ensures DecodeCursor(c, EncodeCursor(c, row)) == Some(CursorOf(row))
    ensures EncodeCursor(c, row) != ""
  {
    hide Base64.Encode, Base64.Decode, Base64.StripPadding, OfBytes, ToBytes, Cut;
    RawIsAscii(c, Stamp(row), row.id);
    var raw := RawCursor(c, Stamp(row), row.id);
    var bs := ToBytes(raw);
    Base64.RoundTrip(bs);
    BytesRoundTrip(raw);
    CutAt(CURSOR_VERSION, c.showTime(Stamp(row)) + "|" + c.showId(row.id));
    CutAt(c.showTime(Stamp(row)), c.showId(row.id));
    assert c.readTime(c.showTime(Stamp(row))) == Some(Stamp(row));
    assert c.readId(c.showId(row.id)) == Some(row.id);
    if EncodeCursor(c, row) == "" {
      NothingDecodesToNothing();
    }
  }

  lemma NothingDecodesToNothing()
    ensures Base64.Decode(Base64.Repad("")) == Some([]) && OfBytes([]) == Some("")
  {
    assert Base64.Repad("") == "";
    assert OfBytes([]).value == "";
    Base64.DecodeOfNothing();
  }

  /** A text is two parts cut at a bar exactly when the first part has none. */
  lemma {:induction false} CutExact(s: string, head: string, tail: string)
    ensures Cut(s) == Some((head, tail)) <==> '|' !in head && s == head + "|" + tail
  {
    if '|' !in head && s == head + "|" + tail {
      CutAt(head, tail);
    }
    if Cut(s) == Some((head, tail)) {
      CutParts(s);
    }
  }

  lemma {:induction false} CutParts(s: string)
    requires Cut(s).Some?
    ensures '|' !in Cut(s).value.0 && s == Cut(s).value.0 + "|" + Cut(s).value.1
  {
    if s[0] == '|' {
      assert s == [] + "|" + s[1..];
    } else {
      CutParts(s[1..]);
      var rest := Cut(s[1..]).value;
      assert s == [s[0]] + s[1..] == [s[0]] + rest.0 + "|" + rest.1;
    }
  }

  /** The bytes spell a cursor of version 1: stamp and id after two bars, both readable. */
  ghost predicate Spells(c: Codec, bs: seq<Base64.Byte>, at: Cursor) {
    exists stamp: string, id: string ::
      && '|' !in stamp && c.readTime(stamp) == Some(at.stamp) && c.readId(id) == Some(at.id)
      && OfBytes(bs) == Some("1|" + stamp + "|" + id)
  }

  /** A cursor is read exactly when its text is base64 of such bytes. */
  lemma DecodeExact(c: Codec, text: string, at: Cursor)
    ensures DecodeCursor(c, text) == Some(at) <==>
      Base64.Decode(Base64.Repad(text)).Some? && Spells(c, Base64.Decode(Base64.Repad(text)).value, at)
  {
    hide Base64.Decode, OfBytes, Cut;
    var bs := Base64.Decode(Base64.Repad(text));
    if bs.Some? {
      if Spells(c, bs.value, at) {
        var stamp, id :| '|' !in stamp && c.readTime(stamp) == Some(at.stamp) && c.readId(id) == Some(at.id)
          && OfBytes(bs.value) == Some("1|" + stamp + "|" + id);
        assert "1|" + stamp + "|" + id == "1" + "|" + (stamp + "|" + id);
        CutAt("1", stamp + "|" + id);
        CutAt(stamp, id);
      }
      if DecodeCursor(c, text) == Some(at) {
        var raw := OfBytes(bs.value).value;
        CutParts(raw);
        var rest := Cut(raw).value.1;
        CutParts(rest);
        assert raw == "1|" + Cut(rest).value.0 + "|" + Cut(rest).value.1;
      }
    }
  }

  // ---- Rows and their order ----

  datatype Row = Row(id: int, internalDate: Option<int>, sentDate: Option<int>, createdAt: int)

  /** What the query orders by. */
  function Key(r: Row): int {
    if r.internalDate.Some? then r.internalDate.value else r.createdAt
  }

  /** What the cursor carries. */
  function Stamp(r: Row): int {
    if r.internalDate.Some? then r.internalDate.value
    else if r.sentDate.Some? then r.sentDate.value
    else r.createdAt
  }

  /** `x` comes later than `r` in a listing: older, or as old with a smaller id. */
  predicate After(x: Row, r: Row) {
    Key(x) < Key(r) || (Key(x) == Key(r) && x.id < r.id)
  }

  predicate Below(x: Row, at: Cursor) {
    Key(x) < at.stamp || (Key(x) == at.stamp && x.id < at.id)
  }

  predicate Selected(x: Row, at: Option<Cursor>) {
    at.None? || Below(x, at.value)
  }

  /** The position a row's cursor stands for. */
  function CursorOf(r: Row): Cursor {
    Cursor(Stamp(r), r.id)
  }

  ghost predicate Descending(s: seq<Row>) {
    forall i, j :: 0 <= i < j < |s| ==> !After(s[i], s[j])
  }

  ghost predicate StrictlyDescending(s: seq<Row>) {
    forall i, j :: 0 <= i < j < |s| ==> After(s[j], s[i])
  }

  /** The id is the primary key. */
  ghost predicate Identified(s: seq<Row>) {
    forall x, y :: x in s && y in s && x.id == y.id ==> x == y
  }

  /** `x` stands between the place of `r` and the place its cursor points to, the older end included. */
  predicate Between(x: Row, r: Row) {
    if Stamp(r) < Key(r) then After(x, r) && !Below(x, CursorOf(r)) else Below(x, CursorOf(r)) && !After(x, r)
  }

  /** No row but the last has a row between its place and that of its cursor, itself included. */
  ghost predicate Resumable(s: seq<Row>) {
    forall r, x, y :: r in s && x in s && After(x, r) && y in s ==> !Between(y, r)
  }

  /** Rows whose cursors carry the ordering key are never in the way. */
  lemma DatedIsResumable(s: seq<Row>)
    requires forall r :: r in s ==> r.internalDate.Some? || r.sentDate.None? || r.sentDate.value == r.createdAt
    ensures Resumable(s)
  {
  }

  /**
   * A row's cursor selects exactly the rows listed after it if and only if the stamp is the
   * ordering key. A row with only a sent date breaks this unless that date is its creation time.
   */
  lemma CursorFaithfulIff(row: Row)
    ensures (forall x: Row :: Below(x, CursorOf(row)) <==> After(x, row)) <==>
      (row.internalDate.Some? || row.sentDate.None? || row.sentDate.value == row.createdAt)
  {
    var at := CursorOf(row);
    if Stamp(row) != Key(row) {
      var low := if Stamp(row) < Key(row) then Stamp(row) else Key(row);
      var x := Row(row.id, Some(low), None, 0);
      assert !(Below(x, at) <==> After(x, row));
    }
  }

  // ---- The query ----

  function Where(s: seq<Row>, at: Option<Cursor>): (t: seq<Row>) {
    if s == [] then []
    else (if Selected(s[0], at) then [s[0]] else []) + Where(s[1..], at)
  }

  function Insert(r: Row, s: seq<Row>): seq<Row> {
    if s == [] || !After(r, s[0]) then [r] + s else [s[0]] + Insert(r, s[1..])
  }

  function OrderBy(s: seq<Row>): seq<Row> {
    if s == [] then [] else Insert(s[0], OrderBy(s[1..]))
  }

  function Limit(s: seq<Row>, n: nat): seq<Row> {
    if |s| <= n then s else s[..n]
  }

  /** First occurrences, in order. */
  function Unique(s: seq<Row>): seq<Row> {
    if s == [] then []
    else
      var u := Unique(s[..|s| - 1]);
      if s[|s| - 1] in u then u else u + [s[|s| - 1]]
  }

  datatype Page = Page(rows: seq<Row>, next: Option<string>)

  /**
   * `joined` is what the FROM and WHERE clauses yield without the cursor: each matching message
   * once in an account-wide listing, once per placement in a folder listing.
   */
  function Fetched(joined: seq<Row>, at: Option<Cursor>, limit: nat): seq<Row> {
    Unique(Limit(OrderBy(Where(joined, at)), limit + 1))
  }

  function PageOf(c: Codec, rows: seq<Row>, limit: nat): Page
    requires c.Lawful()
  {
    var shown := Limit(rows, limit);
    Page(shown, if |rows| > limit && shown != [] then Some(EncodeCursor(c, shown[|shown| - 1])) else None)
  }

  /** An absent or empty cursor starts at the top. */
  function StartOf(c: Codec, cursor: Option<string>): Option<Option<Cursor>> {
    if cursor.None? || cursor.value == "" then Some(None)
    else
      var at := DecodeCursor(c, cursor.value);
      if at.None? then None else Some(at)
  }

  /** Nothing when the cursor cannot be read. */
  ghost function Listed(c: Codec, joined: seq<Row>, limit: nat, cursor: Option<string>): Option<Page>
    requires c.Lawful()
  {
    var at := StartOf(c, cursor);
    if at.None? then None else Some(PageOf(c, Fetched(joined, at.value, limit), limit))
  }

  /** Builds the query step by step, runs it, and trims the extra row that tells whether there is more. */
  method ListMessages(c: Codec, joined: seq<Row>, limit: nat, cursor: Option<string>) returns (page: Option<Page>)
    requires c.Lawful()
    ensures page == Listed(c, joined, limit, cursor)
    ensures page.None? <==> cursor.Some? && cursor.value != "" && DecodeCursor(c, cursor.value).None?
    ensures page.Some? ==> |page.value.rows| <= limit
  {
    hide OrderBy, Unique, DecodeCursor, RawCursor, Ascii, EncodeCursor;
    var query := joined;
    if cursor.Some? && cursor.value != "" {
      var at := DecodeCursor(c, cursor.value);
      if at.None? {
        return None;
      }
      query := Where(query, at);
    } else {
      WhereAll(query);
    }
    query := Limit(OrderBy(query), limit + 1);
    var rows := Unique(query);
    var hasMore := |rows| > limit;
    rows := Limit(rows, limit);
    var next := if hasMore && rows != [] then Some(EncodeCursor(c, rows[|rows| - 1])) else None;
    page := Some(Page(rows, next));
  }

  lemma {:induction false} WhereAll(s: seq<Row>)
    ensures Where(s, None) == s
  {
    if s != [] {
      WhereAll(s[1..]);
    }
  }

  // ---- Ordering facts ----

  lemma AfterOrders()
    ensures forall x, y :: After(x, y) ==> !After(y, x)
    ensures forall x, y, z :: !After(x, y) && !After(y, z) ==> !After(x, z)
  {
  }

  lemma {:induction false} InsertSorts(r: Row, s: seq<Row>)
    requires Descending(s)
    ensures Descending(Insert(r, s)) && multiset(Insert(r, s)) == multiset(s) + multiset{r}
  {
    hide After;
    AfterOrders();
    if s == [] || !After(r, s[0]) {
      assert multiset([r] + s) == multiset{r} + multiset(s);
    } else {
      InsertSorts(r, s[1..]);
      var t := Insert(r, s[1..]);
      assert s == [s[0]] + s[1..];
      forall x | x in t ensures !After(s[0], x) {
        assert x in multiset(t);
        assert x == r || x in s[1..];
      }
      assert multiset([s[0]] + t) == multiset{s[0]} + multiset(t);
    }
  }

  /** The listing order: descending, and the same rows as often. */
  lemma {:induction false} OrderBySorts(s: seq<Row>)
    ensures Descending(OrderBy(s)) && multiset(OrderBy(s)) == multiset(s)
  {
    if s != [] {
      OrderBySorts(s[1..]);
      InsertSorts(s[0], OrderBy(s[1..]));
      assert s == [s[0]] + s[1..];
    }
  }

  lemma WhereCons(r: Row, s: seq<Row>, at: Option<Cursor>)
    ensures Where([r] + s, at) == (if Selected(r, at) then [r] else []) + Where(s, at)
  {
    assert ([r] + s)[1..] == s;
  }

  lemma InsertCons(r: Row, h: Row, s: seq<Row>)
    requires After(r, h)
    ensures Insert(r, [h] + s) == [h] + Insert(r, s)
  {
    assert ([h] + s)[1..] == s;
  }

  lemma InsertFront(r: Row, s: seq<Row>)
    requires s == [] || !After(r, s[0])
    ensures Insert(r, s) == [r] + s
  {
  }

  lemma {:induction false} InsertWhere(r: Row, s: seq<Row>, at: Option<Cursor>)
    requires Descending(s)
    ensures Where(Insert(r, s), at) == if Selected(r, at) then Insert(r, Where(s, at)) else Where(s, at)
  {
    hide Where, Selected, Insert;
    if s == [] || !After(r, s[0]) {
      InsertFront(r, s);
      WhereCons(r, s, at);
      WhereKeeps(s, at);
      var w := Where(s, at);
      if w != [] {
        assert w[0] in s;
        assert !After(r, w[0]);
      }
      InsertFront(r, w);
    } else {
      assert s == [s[0]] + s[1..];
      InsertWhere(r, s[1..], at);
      InsertLater(r, s[0], s[1..], at);
    }
  }

  lemma InsertLater(r: Row, h: Row, tail: seq<Row>, at: Option<Cursor>)
    requires After(r, h)
    requires Where(Insert(r, tail), at) == if Selected(r, at) then Insert(r, Where(tail, at)) else Where(tail, at)
    ensures Where(Insert(r, [h] + tail), at) ==
      if Selected(r, at) then Insert(r, Where([h] + tail, at)) else Where([h] + tail, at)
  {
    hide Where, Selected, Insert, After;
    InsertCons(r, h, tail);
    WhereCons(h, Insert(r, tail), at);
    WhereCons(h, tail, at);
    InsertCons(r, h, Where(tail, at));
    if !Selected(h, at) {
      assert [] + Where(Insert(r, tail), at) == Where(Insert(r, tail), at);
      assert [] + Where(tail, at) == Where(tail, at);
    }
  }

  lemma {:induction false} WhereKeeps(s: seq<Row>, at: Option<Cursor>)
    ensures forall x :: x in Where(s, at) <==> x in s && Selected(x, at)
    ensures |Where(s, at)| <= |s|
  {
    hide Selected;
    if s != [] {
      WhereKeeps(s[1..], at);
      assert forall x :: x in s <==> x == s[0] || x in s[1..];
    }
  }

  lemma {:induction false} WhereCounts(s: seq<Row>, at: Option<Cursor>, x: Row)
    ensures multiset(Where(s, at))[x] == if Selected(x, at) then multiset(s)[x] else 0
  {
    hide Selected;
    if s != [] {
      WhereCounts(s[1..], at, x);
      var w := Where(s[1..], at);
      assert s == [s[0]] + s[1..];
      assert multiset([s[0]] + w) == multiset{s[0]} + multiset(w);
    }
  }

  lemma {:induction false} WhereDescends(s: seq<Row>, at: Option<Cursor>)
    requires Descending(s)
    ensures Descending(Where(s, at))
  {
    hide Selected, After, Where;
    if s != [] {
      assert s == [s[0]] + s[1..];
      WhereCons(s[0], s[1..], at);
      WhereDescends(s[1..], at);
      WhereKeeps(s[1..], at);
      var w := Where(s[1..], at);
      assert forall x :: x in w ==> !After(s[0], x);
      if !Selected(s[0], at) {
        assert [] + w == w;
      }
    } else {
      WhereKeeps(s, at);
    }
  }

  /** Selecting before sorting is selecting from the sorted listing. */
  lemma {:induction false} OrderWhere(s: seq<Row>, at: Option<Cursor>)
    ensures OrderBy(Where(s, at)) == Where(OrderBy(s), at)
  {
    hide Insert, Selected, Where;
    if s == [] {
      WhereKeeps(s, at);
    } else {
      OrderWhere(s[1..], at);
      OrderBySorts(s[1..]);
      InsertWhere(s[0], OrderBy(s[1..]), at);
      var w := Where(s[1..], at);
      assert s == [s[0]] + s[1..];
      WhereCons(s[0], s[1..], at);
      assert ([s[0]] + w)[1..] == w && [] + w == w;
    }
  }

  // ---- Rows without their repetitions ----

  lemma {:induction false} UniqueElements(s: seq<Row>)
    ensures forall x :: x in Unique(s) <==> x in s
    ensures |Unique(s)| <= |s| && (s != [] ==> Unique(s) != [])
  {
    if s != [] {
      UniqueElements(s[..|s| - 1]);
      assert s == s[..|s| - 1] + [s[|s| - 1]];
    }
  }

  lemma {:induction false} UniqueLength(s: seq<Row>)
    ensures NoRepeats(s) ==> Unique(s) == s
    ensures !NoRepeats(s) ==> |Unique(s)| < |s|
  {
    if s != [] {
      var init, last := s[..|s| - 1], s[|s| - 1];
      UniqueLength(init);
      UniqueElements(init);
      assert s == init + [last];
      assert NoRepeats(init) && last !in init ==> NoRepeats(s);
    }
  }

  lemma {:induction false} UniqueAppend(a: seq<Row>, b: seq<Row>)
    requires NoRepeats(a) && forall x :: x in b ==> x !in a
    ensures Unique(a + b) == a + Unique(b)
  {
    if b == [] {
      assert a + b == a && a + Unique(b) == a;
      UniqueLength(a);
    } else {
      var init, last := b[..|b| - 1], b[|b| - 1];
      assert b == init + [last];
      UniqueAppend(a, init);
      assert (a + b)[..|a + b| - 1] == a + init;
    }
  }

  lemma {:induction false} UniqueSaturates(a: seq<Row>, b: seq<Row>)
    requires forall x :: x in b ==> x in a
    ensures Unique(a + b) == Unique(a)
  {
    if b == [] {
      assert a + b == a;
    } else {
      var init, last := b[..|b| - 1], b[|b| - 1];
      assert b == init + [last];
      UniqueSaturates(a, init);
      UniqueElements(a);
      assert (a + b)[..|a + b| - 1] == a + init;
    }
  }

  lemma {:induction false} UniqueDescends(s: seq<Row>)
    requires Descending(s) && Identified(s)
    ensures StrictlyDescending(Unique(s))
  {
    hide After;
    if s != [] {
      var init, last := s[..|s| - 1], s[|s| - 1];
      UniqueDescends(init);
      UniqueElements(init);
      if last !in init {
        var u := Unique(init);
        forall i | 0 <= i < |u| ensures After(last, u[i]) {
          assert u[i] in init;
          var k :| 0 <= k < |init| && init[k] == u[i];
          assert s[k] == u[i];
          DistinctInOrder(u[i], last);
        }
      }
    }
  }

  lemma DistinctInOrder(x: Row, y: Row)
    requires !After(x, y) && x.id != y.id
    ensures After(y, x)
  {
  }

  lemma RepeatCounts(s: seq<Row>, i: nat, j: nat)
    requires i < j < |s| && s[i] == s[j]
    ensures multiset(s)[s[i]] >= 2
  {
    assert s == s[..j] + s[j..];
    assert s[..j][i] == s[i] && s[j..][0] == s[i];
    assert multiset(s) == multiset(s[..j]) + multiset(s[j..]);
  }

  lemma CountRepeats(s: seq<Row>, r: Row) returns (i: nat, j: nat)
    requires multiset(s)[r] >= 2
    ensures i < j < |s| && s[i] == s[j] == r
  {
    assert r in s;
    var k :| 0 <= k < |s| && s[k] == r;
    assert s == s[..k] + [s[k]] + s[k + 1..];
    assert multiset(s) == multiset(s[..k]) + multiset{r} + multiset(s[k + 1..]);
    if r in s[..k] {
      i :| 0 <= i < k && s[..k][i] == r;
      j := k;
    } else {
      assert r in multiset(s[k + 1..]);
      var m :| 0 <= m < |s[k + 1..]| && s[k + 1..][m] == r;
      i, j := k, k + 1 + m;
    }
  }

  // ---- Following the cursors ----

  /** No row but the last in the order is joined more than once. */
  ghost predicate OnlyLastRepeats(s: seq<Row>) {
    forall r, x :: multiset(s)[r] >= 2 && x in s ==> !After(x, r)
  }

  /** Pages fetched one after the other, each with the cursor of the one before. */
  ghost predicate Run(c: Codec, joined: seq<Row>, limit: nat, cursor: Option<string>, pages: seq<Page>)
    requires c.Lawful()
    decreases |pages|
  {
    && pages != []
    && Listed(c, joined, limit, cursor) == Some(pages[0])
    && (|pages| > 1 ==> pages[0].next.Some? && Run(c, joined, limit, pages[0].next, pages[1..]))
  }

  ghost predicate Finished(pages: seq<Page>) {
    pages != [] && pages[|pages| - 1].next.None?
  }

  ghost function Rows(pages: seq<Page>): seq<Row> {
    if pages == [] then [] else pages[0].rows + Rows(pages[1..])
  }

  /** What remains to be listed from a position. */
  ghost function Rest(joined: seq<Row>, at: Option<Cursor>): seq<Row> {
    Where(OrderBy(joined), at)
  }

  lemma RestShape(joined: seq<Row>, at: Option<Cursor>)
    requires Identified(joined)
    ensures Descending(Rest(joined, at)) && Identified(Rest(joined, at))
    ensures forall x :: x in Rest(joined, at) <==> x in joined && Selected(x, at)
    ensures |Rest(joined, at)| <= |joined|
    ensures OnlyLastRepeats(joined) ==> OnlyLastRepeats(Rest(joined, at))
  {
    hide Selected, After, Where;
    var l := OrderBy(joined);
    OrderBySorts(joined);
    WhereDescends(l, at);
    WhereKeeps(l, at);
    assert |multiset(l)| == |l| && |multiset(joined)| == |joined|;
    forall x ensures x in l <==> x in joined {
      assert x in multiset(l) <==> x in multiset(joined);
    }
    forall x ensures multiset(Rest(joined, at))[x] <= multiset(joined)[x] {
      WhereCounts(l, at, x);
    }
  }

  lemma {:induction false} WhereWhere(s: seq<Row>, at: Option<Cursor>, later: Option<Cursor>)
    requires forall x :: x in s && Selected(x, later) ==> Selected(x, at)
    ensures Where(Where(s, at), later) == Where(s, later)
  {
    hide Selected, Where;
    if s == [] {
      WhereKeeps(s, at);
      WhereKeeps(s, later);
    } else {
      WhereWhere(s[1..], at, later);
      assert s == [s[0]] + s[1..];
      WhereCons(s[0], s[1..], at);
      WhereCons(s[0], s[1..], later);
      var w := Where(s[1..], at);
      WhereCons(s[0], w, later);
      assert [] + w == w && [] + Where(w, later) == Where(w, later);
    }
  }

  lemma {:induction false} WhereSuffix(s: seq<Row>, at: Option<Cursor>, k: nat)
    requires k <= |s|
    requires forall i :: 0 <= i < k ==> !Selected(s[i], at)
    requires forall i :: k <= i < |s| ==> Selected(s[i], at)
    ensures Where(s, at) == s[k..]
  {
    hide Selected;
    if s != [] {
      WhereSuffix(s[1..], at, if k == 0 then 0 else k - 1);
    }
  }

  /** A full page stops before the rest: the cursor of its last row selects exactly that rest. */
  lemma CursorSelectsRest(joined: seq<Row>, at: Option<Cursor>, k: nat)
    requires Identified(joined) && Resumable(joined)
    requires 0 < k < |Rest(joined, at)| && Rest(joined, at)[k - 1] != Rest(joined, at)[k]
    ensures var last := Rest(joined, at)[k - 1];
      Rest(joined, Some(CursorOf(last))) == Rest(joined, at)[k..]
  {
    hide Where, OrderBy;
    var r := Rest(joined, at);
    RestShape(joined, at);
    var last := r[k - 1];
    var later := Some(CursorOf(last));
    DistinctInOrder(last, r[k]);
    OrderElements(joined);
    forall x | x in joined ensures Selected(x, later) <==> After(x, last) {
      assert r[k] in joined && last in joined && !Between(x, last);
    }
    WhereWhere(OrderBy(joined), at, later);
    WhereSuffix(r, later, k);
  }

  lemma OrderElements(s: seq<Row>)
    ensures forall x :: x in OrderBy(s) <==> x in s
  {
    OrderBySorts(s);
    forall x ensures x in OrderBy(s) <==> x in s {
      assert x in multiset(OrderBy(s)) <==> x in multiset(s);
    }
  }

  /** One page either exhausts what remains, or shows the first `limit` rows of it and leaves the rest. */
  ghost predicate Progress(c: Codec, joined: seq<Row>, at: Option<Cursor>, limit: nat, page: Page)
    requires c.Lawful()
  {
    var r := Rest(joined, at);
    if page.next.None? then page.rows == Unique(r)
    else
      && 0 < limit < |r|
      && page.rows == r[..limit]
      && page.next == Some(EncodeCursor(c, r[limit - 1]))
      && Unique(r) == r[..limit] + Unique(r[limit..])
      && r[limit - 1] != r[limit]
  }

  lemma PageProgress(c: Codec, joined: seq<Row>, at: Option<Cursor>, limit: nat)
    requires c.Lawful() && limit >= 1 && Identified(joined) && OnlyLastRepeats(joined)
    ensures Progress(c, joined, at, limit, PageOf(c, Fetched(joined, at, limit), limit))
  {
    hide Where, OrderBy, Selected, After, OnlyLastRepeats, EncodeCursor;
    RestShape(joined, at);
    OrderWhere(joined, at);
    var r := Rest(joined, at);
    var t := Limit(r, limit + 1);
    UniqueLength(t);
    UniqueElements(t);
    if |Unique(t)| > limit {
      assert t == r[..limit + 1] && Unique(t) == t;
      FullPage(r, limit);
      assert Limit(t, limit) == r[..limit];
    } else {
      ShortPage(r, limit);
    }
  }

  /** Copies of a row stand side by side. */
  lemma SameSpot(s: seq<Row>, i: nat, mid: nat, j: nat)
    requires Descending(s) && Identified(s)
    requires i < mid <= j < |s| && s[i] == s[j]
    ensures s[mid] == s[i]
  {
    assert !After(s[i], s[mid]);
    assert mid == j || !After(s[mid], s[j]);
  }

  lemma FullPage(r: seq<Row>, limit: nat)
    requires Descending(r) && Identified(r) && 0 < limit < |r| && NoRepeats(r[..limit + 1])
    ensures r[limit - 1] != r[limit] && Unique(r) == r[..limit] + Unique(r[limit..])
  {
    hide After, Unique, Descending, Identified;
    var t, front, back := r[..limit + 1], r[..limit], r[limit..];
    assert t[limit - 1] != t[limit];
    forall m: nat, k: nat | m < limit && k < |back| ensures front[m] != back[k] {
      assert t[m] != t[limit];
      if front[m] == back[k] {
        SameSpot(r, m, limit, limit + k);
      }
    }
    assert NoRepeats(front) by {
      forall i, j | 0 <= i < j < limit ensures front[i] != front[j] {
        assert t[i] != t[j];
      }
    }
    UniqueAppend(front, back);
    assert r == front + back;
  }

  lemma ShortPage(r: seq<Row>, limit: nat)
    requires Descending(r) && Identified(r) && OnlyLastRepeats(r)
    requires |Unique(Limit(r, limit + 1))| <= limit
    ensures Unique(Limit(r, limit + 1)) == Unique(r)
  {
    hide After, Unique;
    if |r| > limit + 1 {
      var t := r[..limit + 1];
      UniqueLength(t);
      var i, j :| 0 <= i < j < |t| && t[i] == t[j];
      RepeatCounts(r, i, j);
      forall x | x in r[limit + 1..] ensures x in t {
        var k :| 0 <= k < |r[limit + 1..]| && r[limit + 1..][k] == x;
        assert x == r[limit + 1 + k] && !After(x, r[i]) && !After(r[i], x);
        SameOrder(r[i], x);
        assert x == t[i];
      }
      UniqueSaturates(t, r[limit + 1..]);
      assert r == t + r[limit + 1..];
    }
  }

  lemma SameOrder(x: Row, y: Row)
    requires !After(x, y) && !After(y, x)
    ensures x.id == y.id
  {
  }

  /** Any run yields, in order, a beginning of what remains; a finished run yields all of it. */
  lemma {:induction false} Follow(
    c: Codec, joined: seq<Row>, limit: nat, cursor: Option<string>, at: Option<Cursor>, pages: seq<Page>)
    requires c.Lawful() && limit >= 1
    requires Identified(joined) && Resumable(joined) && OnlyLastRepeats(joined)
    requires StartOf(c, cursor) == Some(at) && Run(c, joined, limit, cursor, pages)
    ensures Rows(pages) <= Unique(Rest(joined, at))
    ensures Finished(pages) ==> Rows(pages) == Unique(Rest(joined, at))
    ensures |pages| <= 1 || |pages| <= |Rest(joined, at)|
    decreases |pages|
  {
    hide Progress, Rest, OnlyLastRepeats, Listed, EncodeCursor, StartOf, PageOf, Fetched;
    PageProgress(c, joined, at, limit);
    FirstPage(c, joined, limit, cursor, at, pages[0]);
    if |pages| == 1 {
      OnePage(c, joined, at, limit, pages[0]);
      assert Rows(pages) == pages[0].rows + Rows([]);
      assert Rows(pages) == pages[0].rows;
    } else {
      var later := NextStart(c, joined, limit, at, pages[0]);
      Follow(c, joined, limit, pages[0].next, later, pages[1..]);
      assert Finished(pages) <==> Finished(pages[1..]);
    }
  }

  lemma FirstPage(c: Codec, joined: seq<Row>, limit: nat, cursor: Option<string>, at: Option<Cursor>, page: Page)
    requires c.Lawful() && StartOf(c, cursor) == Some(at) && Listed(c, joined, limit, cursor) == Some(page)
    ensures page == PageOf(c, Fetched(joined, at, limit), limit)
  {
  }

  lemma OnePage(c: Codec, joined: seq<Row>, at: Option<Cursor>, limit: nat, page: Page)
    requires c.Lawful() && Progress(c, joined, at, limit, page)
    ensures page.rows <= Unique(Rest(joined, at))
    ensures page.next.None? ==> page.rows == Unique(Rest(joined, at))
  {
  }

  lemma NextStart(c: Codec, joined: seq<Row>, limit: nat, at: Option<Cursor>, page: Page)
      returns (later: Option<Cursor>)
    requires c.Lawful() && Identified(joined) && Resumable(joined)
    requires Progress(c, joined, at, limit, page) && page.next.Some?
    ensures StartOf(c, page.next) == Some(later)
    ensures Unique(Rest(joined, at)) == page.rows + Unique(Rest(joined, later))
    ensures 0 < |Rest(joined, later)| < |Rest(joined, at)|
  {
    hide Rest, EncodeCursor, DecodeCursor, Unique;
    var r := Rest(joined, at);
    var last := r[limit - 1];
    later := Some(CursorOf(last));
    CursorRoundTrip(c, last);
    CursorSelectsRest(joined, at, limit);
  }

  /**
   * Following the cursors from the top lists every matching row exactly once, newest first, in at
   * most as many requests as there are rows; before the end it has listed a beginning of that.
   */
  lemma PagesAreComplete(c: Codec, joined: seq<Row>, limit: nat, pages: seq<Page>)
    requires c.Lawful() && limit >= 1
    requires Identified(joined) && Resumable(joined) && OnlyLastRepeats(joined)
    requires Run(c, joined, limit, None, pages)
    ensures StrictlyDescending(Rows(pages)) && Elements(Rows(pages)) <= Elements(joined)
    ensures Finished(pages) ==> Elements(Rows(pages)) == Elements(joined)
    ensures |pages| <= 1 || |pages| <= |joined|
  {
    hide Run, OnlyLastRepeats, Rest, Unique, Rows;
    Follow(c, joined, limit, None, None, pages);
    RestShape(joined, None);
    UniqueDescends(Rest(joined, None));
    UniqueElements(Rest(joined, None));
    assert forall x :: x in Rows(pages) ==> x in Unique(Rest(joined, None));
  }

  /** A run that has not finished can always go on, so every listing is read to its end. */
  lemma {:induction false} CanFinish(c: Codec, joined: seq<Row>, limit: nat, cursor: Option<string>, at: Option<Cursor>)
    returns (pages: seq<Page>)
    requires c.Lawful() && limit >= 1
    requires Identified(joined) && Resumable(joined) && OnlyLastRepeats(joined)
    requires StartOf(c, cursor) == Some(at)
    ensures Run(c, joined, limit, cursor, pages) && Finished(pages)
    decreases |Rest(joined, at)|
  {
    hide Progress, Rest, OnlyLastRepeats, EncodeCursor, StartOf, PageOf, Fetched;
    var page := PageOf(c, Fetched(joined, at, limit), limit);
    PageProgress(c, joined, at, limit);
    pages := [page];
    if page.next.Some? {
      var later := NextStart(c, joined, limit, at, page);
      var more := CanFinish(c, joined, limit, page.next, later);
      pages := [page] + more;
      assert pages[1..] == more;
    }
  }

  /** Following the cursors ends, with every matching row listed once, in order. */
  ghost predicate ListsAll(c: Codec, joined: seq<Row>, limit: nat)
    requires c.Lawful()
  {
    exists pages :: Run(c, joined, limit, None, pages) && Finished(pages)
      && StrictlyDescending(Rows(pages)) && Elements(Rows(pages)) == Elements(joined)
  }

  /**
   * Whatever rows a listing has, paging through it ends and is complete for every page size if and
   * only if no row but the last in the order is joined twice, and no row but the last has a row of
   * the listing between its place and that of its cursor.
   */
  lemma CompleteIff(c: Codec, joined: seq<Row>)
    requires c.Lawful() && Identified(joined)
    ensures (forall limit: nat | limit >= 1 :: ListsAll(c, joined, limit)) <==>
      OnlyLastRepeats(joined) && Resumable(joined)
  {
    hide Run, Rows, Listed, Finished, Between;
    if OnlyLastRepeats(joined) && Resumable(joined) {
      hide OnlyLastRepeats, Resumable;
      forall limit: nat | limit >= 1 ensures ListsAll(c, joined, limit) {
        var pages := CanFinish(c, joined, limit, None, None);
        PagesAreComplete(c, joined, limit, pages);
      }
    } else if !OnlyLastRepeats(joined) {
      var r, x :| multiset(joined)[r] >= 2 && x in joined && After(x, r);
      var limit := LosesRow(c, joined, r, x);
      assert !ListsAll(c, joined, limit);
    } else {
      var r, x, y :| r in joined && x in joined && After(x, r) && y in joined && Between(y, r);
      var limit := GoesAstray(c, joined, r, x, y);
      assert !ListsAll(c, joined, limit);
    }
  }

  /** A page cut right after the second copy of a row counts one row short and is taken for the last. */
  lemma LosesRow(c: Codec, joined: seq<Row>, r: Row, x: Row) returns (limit: nat)
    requires c.Lawful() && Identified(joined)
    requires multiset(joined)[r] >= 2 && x in joined && After(x, r)
    ensures limit >= 1 && !ListsAll(c, joined, limit)
  {
    hide OrderBy, Unique, EncodeCursor, DecodeCursor, RawCursor, Ascii, After, StrictlyDescending;
    AfterOrders();
    var l := OrderBy(joined);
    OrderBySorts(joined);
    var i, j := CountRepeats(l, r);
    limit := j;
    var t := l[..j + 1];
    assert t[i] == t[j];
    UniqueLength(t);
    UniqueElements(t);
    WhereAll(joined);
    assert Limit(l, limit + 1) == t;
    var page := PageOf(c, Fetched(joined, None, limit), limit);
    assert page == Page(Unique(t), None);
    forall y | y in t ensures !After(y, r) {
      var k :| 0 <= k < |t| && t[k] == y;
      assert l[k] == y && (k == j || !After(l[k], l[j]));
    }
    assert x !in page.rows;
    assert Listed(c, joined, limit, None) == Some(page);
    OnlyPage(c, joined, limit, page, x);
  }

  /** A run whose first page is taken for the last has no other. */
  lemma OnlyPage(c: Codec, joined: seq<Row>, limit: nat, page: Page, x: Row)
    requires c.Lawful() && Listed(c, joined, limit, None) == Some(page) && page.next.None?
    requires x in joined && x !in page.rows
    ensures !ListsAll(c, joined, limit)
  {
    hide Listed, StrictlyDescending;
    assert x in Elements(joined) && x !in Elements(page.rows);
    forall pages | Run(c, joined, limit, None, pages) && Finished(pages) ensures Rows(pages) == page.rows {
      assert pages == [page];
      assert Rows(pages) == page.rows + Rows([]);
    }
  }

  /** Up to the row after `l[m]` every row stands once, if rows come later than `l[m]`. */
  lemma OneCopyEach(joined: seq<Row>, m: nat, x: Row)
    requires Identified(joined) && OnlyLastRepeats(joined) && m < |OrderBy(joined)|
    requires x in joined && After(x, OrderBy(joined)[m])
    ensures m + 1 < |OrderBy(joined)| && NoRepeats(OrderBy(joined)[..m + 2])
  {
    hide OrderBy, After;
    AfterOrders();
    var l := OrderBy(joined);
    OrderBySorts(joined);
    OrderElements(joined);
    var n :| 0 <= n < |l| && l[n] == x;
    assert n > m;
    var t := l[..m + 2];
    forall i, j | 0 <= i < j < m + 2 ensures t[i] != t[j] {
      assert i == m || !After(l[i], l[m]);
      if l[i] == l[j] {
        RepeatCounts(l, i, j);
      }
    }
  }

  /** Selecting from a descending list drops a beginning of it. */
  lemma {:induction false} WhereDrops(s: seq<Row>, at: Option<Cursor>) returns (k: nat)
    requires Descending(s)
    ensures k <= |s| && Where(s, at) == s[k..]
    ensures forall i :: 0 <= i < |s| ==> (Selected(s[i], at) <==> k <= i)
  {
    if s == [] || Selected(s[0], at) {
      k := 0;
      forall i | 0 <= i < |s| ensures Selected(s[i], at) {
        assert i == 0 || !After(s[0], s[i]);
      }
      WhereSuffix(s, at, 0);
    } else {
      var j := WhereDrops(s[1..], at);
      k := j + 1;
      forall i | 0 <= i < |s| ensures Selected(s[i], at) <==> k <= i {
        assert i > 0 ==> s[1..][i - 1] == s[i];
      }
    }
  }

  /** The page that ends with `l[m]`, and the request after it. */
  lemma PageEndingAt(c: Codec, joined: seq<Row>, m: nat, x: Row)
    requires c.Lawful() && Identified(joined) && OnlyLastRepeats(joined) && m < |OrderBy(joined)|
    requires x in joined && After(x, OrderBy(joined)[m])
    ensures m + 1 < |OrderBy(joined)|
    ensures Listed(c, joined, m + 1, None) ==
      Some(Page(OrderBy(joined)[..m + 1], Some(EncodeCursor(c, OrderBy(joined)[m]))))
    ensures StartOf(c, Some(EncodeCursor(c, OrderBy(joined)[m]))) == Some(Some(CursorOf(OrderBy(joined)[m])))
  {
    hide OrderBy, Unique, EncodeCursor, DecodeCursor, RawCursor, Ascii, After;
    OneCopyEach(joined, m, x);
    var l := OrderBy(joined);
    var t := l[..m + 2];
    WhereAll(joined);
    UniqueLength(t);
    assert Limit(l, m + 2) == t;
    assert t[..m + 1] == l[..m + 1];
    CursorRoundTrip(c, l[m]);
  }

  lemma {:induction false} UniqueFirst(s: seq<Row>)
    requires s != []
    ensures Unique(s) != [] && Unique(s)[0] == s[0]
  {
    if |s| > 1 {
      UniqueFirst(s[..|s| - 1]);
    }
  }

  /** What a request shows first, if anything: the first row its cursor selects. */
  lemma ShownFirst(c: Codec, joined: seq<Row>, limit: nat, cursor: Option<string>, at: Cursor, page: Page)
      returns (k: nat)
    requires c.Lawful() && limit >= 1
    requires StartOf(c, cursor) == Some(Some(at)) && Listed(c, joined, limit, cursor) == Some(page)
    ensures var l := OrderBy(joined);
      && k <= |l| && (forall i :: 0 <= i < |l| ==> (Selected(l[i], Some(at)) <==> k <= i))
      && (if k < |l| then page.rows != [] && page.rows[0] == l[k] else page == Page([], None))
  {
    hide OrderBy, Where, Unique, EncodeCursor, StartOf, Selected;
    var l := OrderBy(joined);
    OrderBySorts(joined);
    OrderWhere(joined, Some(at));
    k := WhereDrops(l, Some(at));
    var t := Limit(l[k..], limit + 1);
    if k < |l| {
      UniqueFirst(t);
      assert t[0] == l[k];
    } else {
      UniqueElements(t);
    }
  }

  /** If all rows are listed, the page that ends with `l[m]` is followed by exactly the rows after it. */
  lemma NextRowFollows(c: Codec, joined: seq<Row>, m: nat, x: Row, pages: seq<Page>)
    requires c.Lawful() && Identified(joined) && OnlyLastRepeats(joined) && m < |OrderBy(joined)|
    requires x in joined && After(x, OrderBy(joined)[m])
    requires Run(c, joined, m + 1, None, pages) && Finished(pages)
    requires StrictlyDescending(Rows(pages)) && Elements(Rows(pages)) == Elements(joined)
    ensures var l := OrderBy(joined);
      forall i :: 0 <= i < |l| ==> (Selected(l[i], Some(CursorOf(l[m]))) <==> m + 1 <= i)
  {
    hide OrderBy, EncodeCursor, DecodeCursor, After, StartOf, Listed, OnlyLastRepeats, Selected;
    var l, at := OrderBy(joined), CursorOf(OrderBy(joined)[m]);
    PageEndingAt(c, joined, m, x);
    OrderElements(joined);
    OrderBySorts(joined);
    var first := pages[0];
    assert |pages| > 1 && Run(c, joined, m + 1, first.next, pages[1..]);
    var k := ShownFirst(c, joined, m + 1, first.next, at, pages[1]);
    var rest := pages[1..];
    assert Rows(pages) == l[..m + 1] + Rows(rest) && Rows(rest) == pages[1].rows + Rows(rest[1..]);
    if k == |l| {
      assert rest == [pages[1]] && Rows(pages) == l[..m + 1];
      StopsShort(l, m, x, joined);
    } else {
      OneCopyEach(joined, m, x);
      NextIsNext(l, m, k, Rows(pages), at, joined);
    }
  }

  lemma StopsShort(l: seq<Row>, m: nat, x: Row, joined: seq<Row>)
    requires Descending(l) && m < |l| && x in joined && After(x, l[m])
    ensures Elements(l[..m + 1]) != Elements(joined)
  {
    AfterOrders();
    assert x in Elements(joined);
    var t := l[..m + 1];
    forall i | 0 <= i < m + 1 ensures t[i] != x {
      assert i == m || !After(l[i], l[m]);
    }
  }

  lemma NextIsNext(l: seq<Row>, m: nat, k: nat, listed: seq<Row>, at: Cursor, joined: seq<Row>)
    requires Descending(l) && m + 1 < |l| && k < |l| && NoRepeats(l[..m + 2])
    requires forall i :: 0 <= i < |l| ==> (Selected(l[i], Some(at)) <==> k <= i)
    requires StrictlyDescending(listed) && m + 1 < |listed| && listed[..m + 1] == l[..m + 1] && listed[m + 1] == l[k]
    requires l[m + 1] in joined && Elements(listed) == Elements(joined)
    ensures k == m + 1
  {
    hide After, Selected;
    AfterOrders();
    assert listed[m] == listed[..m + 1][m] == l[m];
    assert After(l[k], l[m]) && k > m;
    assert l[m + 1] in Elements(joined) && l[m + 1] in listed;
    var q :| 0 <= q < |listed| && listed[q] == l[m + 1];
    forall i | 0 <= i <= m ensures listed[i] != l[m + 1] {
      assert listed[i] == listed[..m + 1][i] == l[i];
      assert l[..m + 2][i] != l[..m + 2][m + 1];
    }
    assert !After(l[m + 1], l[k]);
    assert q == m + 1;
  }

  lemma LaterDiffers(l: seq<Row>, m: nat, i: nat)
    requires Descending(l) && Identified(l) && m + 1 <= i < |l| && l[m] != l[m + 1]
    ensures l[i] != l[m]
  {
    assert !After(l[m], l[m + 1]) && (m + 1 == i || !After(l[m + 1], l[i]));
    DistinctInOrder(l[m], l[m + 1]);
  }

  lemma CursorFits(joined: seq<Row>, m: nat, x: Row, y: Row)
    requires Identified(joined) && OnlyLastRepeats(joined) && m < |OrderBy(joined)|
    requires x in joined && After(x, OrderBy(joined)[m]) && y in joined
    requires var l := OrderBy(joined);
      forall i :: 0 <= i < |l| ==> (Selected(l[i], Some(CursorOf(l[m]))) <==> m + 1 <= i)
    ensures !Between(y, OrderBy(joined)[m])
  {
    hide OrderBy, OnlyLastRepeats, After;
    var l := OrderBy(joined);
    AfterOrders();
    OrderBySorts(joined);
    OrderElements(joined);
    OneCopyEach(joined, m, x);
    var i: nat :| i < |l| && l[i] == y;
    if i <= m {
      assert i == m || !After(l[i], l[m]);
    } else {
      assert l[..m + 2][m] == l[m] && l[..m + 2][m + 1] == l[m + 1];
      LaterDiffers(l, m, i);
      DistinctInOrder(l[m], l[i]);
    }
  }

  /** With a row in between, the page that ends with `r` is not followed by the rows after it. */
  lemma GoesAstray(c: Codec, joined: seq<Row>, r: Row, x: Row, y: Row) returns (limit: nat)
    requires c.Lawful() && Identified(joined) && OnlyLastRepeats(joined)
    requires r in joined && x in joined && After(x, r) && y in joined && Between(y, r)
    ensures limit >= 1 && !ListsAll(c, joined, limit)
  {
    hide OrderBy, EncodeCursor, DecodeCursor, After, Between, OnlyLastRepeats, StartOf, StrictlyDescending;
    OrderElements(joined);
    var l := OrderBy(joined);
    var m: nat :| m < |l| && l[m] == r;
    limit := m + 1;
    PageEndingAt(c, joined, m, x);
    if ListsAll(c, joined, limit) {
      var pages :| Run(c, joined, limit, None, pages) && Finished(pages)
        && StrictlyDescending(Rows(pages)) && Elements(Rows(pages)) == Elements(joined);
      NextRowFollows(c, joined, m, x, pages);
      CursorFits(joined, m, x, y);
    }
  }

  /**
   * A row with only a sent date, later than its creation, is selected by its own cursor: with one row
   * to a page the first page comes back for ever.
   */
  lemma {:induction false} LoopsForever(c: Codec, a: Row, b: Row, n: nat) returns (pages: seq<Page>)
    requires c.Lawful() && After(b, a) && n >= 1
    requires a.internalDate.None? && a.sentDate.Some? && a.sentDate.value > a.createdAt
    ensures |pages| == n && forall k :: 0 <= k < n ==> pages[k] == Page([a], Some(EncodeCursor(c, a)))
    ensures Run(c, [a, b], 1, None, pages) && Run(c, [a, b], 1, Some(EncodeCursor(c, a)), pages)
    ensures !Finished(pages)
  {
    hide Listed, EncodeCursor;
    SamePage(c, a, b);
    var page := Page([a], Some(EncodeCursor(c, a)));
    if n == 1 {
      pages := [page];
    } else {
      var more := LoopsForever(c, a, b, n - 1);
      pages := [page] + more;
      assert pages[1..] == more;
    }
  }

  lemma SamePage(c: Codec, a: Row, b: Row)
    requires c.Lawful() && After(b, a)
    requires a.internalDate.None? && a.sentDate.Some? && a.sentDate.value > a.createdAt
    ensures Listed(c, [a, b], 1, None) == Some(Page([a], Some(EncodeCursor(c, a))))
    ensures Listed(c, [a, b], 1, Some(EncodeCursor(c, a))) == Some(Page([a], Some(EncodeCursor(c, a))))
  {
    hide EncodeCursor, DecodeCursor;
    CursorRoundTrip(c, a);
    WhereAll([a, b]);
    WhereTwo(a, b, CursorOf(a));
    OrderTwo(a, b);
    UniqueTwo(a, b);
    assert [a, b][..1] == [a];
  }

  lemma WhereTwo(a: Row, b: Row, at: Cursor)
    requires Below(a, at) && Below(b, at)
    ensures Where([a, b], Some(at)) == [a, b]
  {
    WhereSuffix([a, b], Some(at), 0);
  }

  lemma OrderTwo(a: Row, b: Row)
    requires !After(a, b)
    ensures OrderBy([a, b]) == [a, b]
  {
    hide Insert, After;
    assert [a, b][1..] == [b] && [b][1..] == [];
    InsertFront(b, []);
    InsertFront(a, [b]);
    assert OrderBy([b]) == [b];
  }

  lemma UniqueTwo(a: Row, b: Row)
    requires a != b
    ensures Unique([a, b]) == [a, b]
  {
    UniqueLength([a, b]);
  }

  // ---- What a reader sees ----

  /** The date of a message in a listing: when the server received it, or else when the row was made. */
  predicate IsDated(r: Row, at: int) {
    r.internalDate == Some(at) || (r.internalDate == None && r.createdAt == at)
  }

  /** `x` is newer than `y`, or as new with a greater id. */
  ghost predicate Newer(x: Row, y: Row) {
    forall d, e :: IsDated(x, d) && IsDated(y, e) ==> d > e || (d == e && x.id > y.id)
  }

  /** The row is older than the cursor's time stamp, or as old with a smaller id. */
  ghost predicate OlderThan(x: Row, at: Cursor) {
    forall d :: IsDated(x, d) ==> d < at.stamp || (d == at.stamp && x.id < at.id)
  }

  lemma AfterIsNewer(x: Row, y: Row, at: Cursor)
    ensures After(y, x) <==> Newer(x, y)
    ensures Below(x, at) <==> OlderThan(x, at)
  {
    assert IsDated(x, Key(x)) && IsDated(y, Key(y));
  }

  /**
   * Every page, wherever it starts, shows its rows newest first, nothing the cursor rules out, and
   * leaves out no row that is newer than one it shows.
   */
  lemma NewestFirst(c: Codec, joined: seq<Row>, limit: nat, cursor: Option<string>, page: Page)
    requires c.Lawful() && Identified(joined) && Listed(c, joined, limit, cursor) == Some(page)
    ensures var at := if cursor.None? || cursor.value == "" then None else DecodeCursor(c, cursor.value);
      && (forall x :: x in page.rows ==> x in joined && (at.Some? ==> OlderThan(x, at.value)))
      && (forall i, j :: 0 <= i < j < |page.rows| ==> Newer(page.rows[i], page.rows[j]))
      && (forall x, y :: x in joined && (at.Some? ==> OlderThan(x, at.value)) && x !in page.rows && y in page.rows ==>
            Newer(y, x))
  {
    hide Where, OrderBy, Unique, EncodeCursor, DecodeCursor, After, Below, Newer, OlderThan;
    var at := if cursor.None? || cursor.value == "" then None else DecodeCursor(c, cursor.value);
    forall x, y ensures After(y, x) <==> Newer(x, y) {
      AfterIsNewer(x, y, Cursor(0, 0));
    }
    if at.Some? {
      forall x ensures Below(x, at.value) <==> OlderThan(x, at.value) {
        AfterIsNewer(x, x, at.value);
      }
    }
    ShownInOrder(joined, at, limit);
  }

  lemma ShownInOrder(joined: seq<Row>, at: Option<Cursor>, limit: nat)
    requires Identified(joined)
    ensures var rows := Limit(Fetched(joined, at, limit), limit);
      && StrictlyDescending(rows)
      && (forall x :: x in rows ==> x in joined && Selected(x, at))
      && (forall x, y :: x in joined && Selected(x, at) && x !in rows && y in rows ==> After(x, y))
  {
    hide Where, OrderBy, Unique, After, Selected;
    RestShape(joined, at);
    OrderWhere(joined, at);
    var r := Rest(joined, at);
    var t := Limit(r, limit + 1);
    UniqueDescends(t);
    UniqueElements(t);
    var rows := Limit(Unique(t), limit);
    forall x | x in rows ensures x in t && x in r {
      assert x in Unique(t);
    }
    forall x, y | x in joined && Selected(x, at) && x !in rows && y in rows ensures After(x, y) {
      var i :| 0 <= i < |rows| && rows[i] == y;
      if x in t {
        var j :| 0 <= j < |Unique(t)| && Unique(t)[j] == x;
        assert j >= |rows|;
      } else {
        var j :| 0 <= j < |r| && r[j] == x;
        var k :| 0 <= k < |t| && t[k] == y;
        assert forall n :: 0 <= n < |t| ==> t[n] == r[n] && t[n] != x;
        assert j >= |t|;
        DistinctInOrder(y, x);
      }
    }
  }
}
