/** Mining values out of a message: candidates claim spans of the text, first come first served. */
module Mining {
  import opened Util

  datatype Kind = Otp | ResetLink | Key | Promo

  const VALUE_KINDS := [Otp, ResetLink, Key, Promo]
  const DETECTION_ORDER := [ResetLink, Otp, Key, Promo]
  const MAX_SCAN_CHARS := 20_000
  const MAX_PER_KIND := 20
  const NEAR_CHARS := 80

  datatype Find = Find(start: int, end: int, value: string, confidence: int)

  datatype Candidate = Candidate(kind: Kind, at: Find)

  datatype MinedValue = MinedValue(kind: Kind, value: string, confidence: int)

  /** What one finder reports for a text: the text itself at non-empty spans. */
  ghost predicate Honest(text: string, finds: seq<Find>) {
    forall f :: f in finds ==> 0 <= f.start < f.end <= |text| && f.value == text[f.start..f.end]
  }

  // ---- Claims ----

  predicate Overlap(a: Find, b: Find) {
    a.start < b.end && a.end > b.start
  }

  predicate Claimed(spans: seq<Find>, f: Find) {
    exists i :: 0 <= i < |spans| && Overlap(f, spans[i])
  }

  function Spans(claims: seq<Candidate>): seq<Find> {
    seq(|claims|, i requires 0 <= i < |claims| => claims[i].at)
  }

  /** The candidates that got their span, in order. */
  function Claims(candidates: seq<Candidate>): (claims: seq<Candidate>) {
    if candidates == [] then []
    else
      var n := |candidates| - 1;
      var before := Claims(candidates[..n]);
      if Claimed(Spans(before), candidates[n].at) then before else before + [candidates[n]]
  }

  /** A choice of candidates in which each is chosen exactly when no chosen one before it overlaps it. */
  ghost predicate Greedy(candidates: seq<Candidate>, pick: set<nat>) {
    && (forall i :: i in pick ==> i < |candidates|)
    && forall i: nat :: i < |candidates| ==>
      (i in pick <==> forall j: nat :: j < i && j in pick ==> !Overlap(candidates[i].at, candidates[j].at))
  }

  ghost function Picked(candidates: seq<Candidate>, pick: set<nat>): seq<Candidate> {
    if candidates == [] then []
    else
      var n := |candidates| - 1;
      Picked(candidates[..n], pick) + if n in pick then [candidates[n]] else []
  }

  lemma {:induction false} PickedElements(candidates: seq<Candidate>, pick: set<nat>)
    ensures forall c :: c in Picked(candidates, pick) <==>
      exists i: nat :: i < |candidates| && i in pick && candidates[i] == c
  {
    if candidates != [] {
      var n := |candidates| - 1;
      var init := candidates[..n];
      PickedElements(init, pick);
      forall c ensures c in Picked(candidates, pick) <==>
        exists i: nat :: i < |candidates| && i in pick && candidates[i] == c
      {
        if i: nat :| i < |candidates| && i in pick && candidates[i] == c {
          assert i < n ==> init[i] == c;
        }
        if c in Picked(init, pick) {
          var i: nat :| i < |init| && i in pick && init[i] == c;
          assert candidates[i] == c;
        }
      }
    }
  }

  /** Overlapping one of the picked candidates is overlapping one of their spans. */
  lemma ClaimedByPicked(candidates: seq<Candidate>, pick: set<nat>, f: Find)
    ensures Claimed(Spans(Picked(candidates, pick)), f) <==>
      exists j: nat :: j < |candidates| && j in pick && Overlap(f, candidates[j].at)
  {
    hide Overlap, Picked;
    var before := Picked(candidates, pick);
    PickedElements(candidates, pick);
    if Claimed(Spans(before), f) {
      var k :| 0 <= k < |before| && Overlap(f, Spans(before)[k]);
      assert before[k] in before;
    }
    if j: nat :| j < |candidates| && j in pick && Overlap(f, candidates[j].at) {
      assert candidates[j] in before;
      var k :| 0 <= k < |before| && before[k] == candidates[j];
      assert Overlap(f, Spans(before)[k]);
    }
  }

  /** The claims are the greedy choice: a candidate loses its span only to an overlapping earlier claim. */
  lemma {:induction false} ClaimsAreGreedy(candidates: seq<Candidate>, pick: set<nat>)
    requires Greedy(candidates, pick)
    ensures Claims(candidates) == Picked(candidates, pick)
  {
    hide Overlap, Claimed;
    if candidates != [] {
      var n := |candidates| - 1;
      var init, rest := candidates[..n], set i | i in pick && i < n;
      GreedyPrefix(candidates, pick);
      ClaimsAreGreedy(init, rest);
      SamePicked(init, pick, rest);
      ClaimedByPicked(init, pick, candidates[n].at);
      assert forall j: nat :: j < n ==> init[j] == candidates[j];
    }
  }

  lemma GreedyPrefix(candidates: seq<Candidate>, pick: set<nat>)
    requires Greedy(candidates, pick) && candidates != []
    ensures Greedy(candidates[..|candidates| - 1], set i | i in pick && i < |candidates| - 1)
  {
    hide Overlap;
  }

  lemma {:induction false} SamePicked(candidates: seq<Candidate>, p: set<nat>, q: set<nat>)
    requires forall i: nat :: i < |candidates| ==> (i in p <==> i in q)
    ensures Picked(candidates, p) == Picked(candidates, q)
  {
    if candidates != [] {
      SamePicked(candidates[..|candidates| - 1], p, q);
    }
  }

  /** A greedy choice always exists. */
  lemma {:induction false} GreedyExists(candidates: seq<Candidate>) returns (pick: set<nat>)
    ensures Greedy(candidates, pick)
  {
    hide Overlap;
    if candidates == [] {
      pick := {};
    } else {
      var n := |candidates| - 1;
      var init := candidates[..n];
      var before := GreedyExists(init);
      var free := forall j: nat :: j < n && j in before ==> !Overlap(candidates[n].at, candidates[j].at);
      pick := before + if free then {n} else {};
      forall i: nat | i < |candidates|
        ensures i in pick <==> forall j: nat :: j < i && j in pick ==> !Overlap(candidates[i].at, candidates[j].at)
      {
        if i < n {
          assert candidates[i] == init[i];
          assert forall j: nat :: j < i ==> (j in pick <==> j in before) && candidates[j] == init[j];
        }
      }
    }
  }

  /** Claimed spans are pairwise disjoint, and every candidate is claimed or overlaps a claim. */
  lemma {:induction false} ClaimsCover(candidates: seq<Candidate>)
    ensures forall i, j :: 0 <= i < j < |Claims(candidates)| ==>
      !Overlap(Claims(candidates)[j].at, Claims(candidates)[i].at)
    ensures forall c :: c in Claims(candidates) ==> c in candidates
    ensures forall c :: c in candidates ==>
      c in Claims(candidates) || exists d :: d in Claims(candidates) && Overlap(c.at, d.at)
  {
    hide Overlap;
    if candidates != [] {
      var n := |candidates| - 1;
      var before, last := Claims(candidates[..n]), candidates[n];
      ClaimsCover(candidates[..n]);
      assert candidates == candidates[..n] + [last];
      if Claimed(Spans(before), last.at) {
        var i :| 0 <= i < |before| && Overlap(last.at, Spans(before)[i]);
        assert before[i] in before && Overlap(last.at, before[i].at);
      } else {
        forall i | 0 <= i < |before| ensures !Overlap(last.at, before[i].at) {
          assert Spans(before)[i] == before[i].at;
        }
      }
    }
  }

  // ---- What is reported per kind ----

  predicate Reports(kept: seq<MinedValue>, value: string) {
    exists i :: 0 <= i < |kept| && kept[i].value == value
  }

  function Kept(kind: Kind, claims: seq<Candidate>): seq<MinedValue> {
    if claims == [] then []
    else
      var n := |claims| - 1;
      var before, c := Kept(kind, claims[..n]), claims[n];
      if c.kind != kind || Reports(before, c.at.value) || |before| >= MAX_PER_KIND then before
      else before + [MinedValue(kind, c.at.value, c.at.confidence)]
  }

  /** The claim at `i` is the first of its kind to carry its value. */
  ghost predicate FirstOf(claims: seq<Candidate>, i: int, m: MinedValue) {
    && 0 <= i < |claims|
    && claims[i].kind == m.kind && claims[i].at.value == m.value && claims[i].at.confidence == m.confidence
    && forall j :: 0 <= j < i ==> claims[j].kind != m.kind || claims[j].at.value != m.value
  }

  ghost predicate InOrder(claims: seq<Candidate>, x: MinedValue, y: MinedValue) {
    exists a, b :: a < b && FirstOf(claims, a, x) && FirstOf(claims, b, y)
  }

  /**
   * Per kind: at most twenty values, none twice, each with the confidence of the first claim that
   * carried it, in the order of those claims, and none left out unless twenty are already there.
   */
  ghost predicate Digest(kind: Kind, claims: seq<Candidate>, kept: seq<MinedValue>) {
    && |kept| <= MAX_PER_KIND
    && (forall i, j :: 0 <= i < j < |kept| ==> kept[i].value != kept[j].value && InOrder(claims, kept[i], kept[j]))
    && (forall m :: m in kept ==> m.kind == kind && exists i :: FirstOf(claims, i, m))
    && (forall c :: c in claims && c.kind == kind ==> Reports(kept, c.at.value) || |kept| == MAX_PER_KIND)
  }

  lemma {:induction false} KeptIsDigest(kind: Kind, claims: seq<Candidate>)
    ensures Digest(kind, claims, Kept(kind, claims))
  {
    var kept := Kept(kind, claims);
    if claims != [] {
      var n := |claims| - 1;
      var init, c := claims[..n], claims[n];
      var before := Kept(kind, init);
      KeptIsDigest(kind, init);
      assert claims == init + [c];
      FirstsRemain(init, c);
      if kept != before {
        DigestGrows(kind, init, c, before);
      } else if c.kind == kind {
        assert Reports(kept, c.at.value) || |kept| == MAX_PER_KIND;
      }
    }
  }

  lemma FirstsRemain(init: seq<Candidate>, c: Candidate)
    ensures forall i, m :: FirstOf(init, i, m) ==> FirstOf(init + [c], i, m)
    ensures forall x, y :: InOrder(init, x, y) ==> InOrder(init + [c], x, y)
  {
    forall x, y | InOrder(init, x, y) ensures InOrder(init + [c], x, y) {
      var a, b :| a < b && FirstOf(init, a, x) && FirstOf(init, b, y);
      assert FirstOf(init + [c], a, x) && FirstOf(init + [c], b, y);
    }
  }

  /** A value not reported while there is room was never claimed before. */
  lemma NewIsFirst(kind: Kind, init: seq<Candidate>, c: Candidate, before: seq<MinedValue>)
    requires Digest(kind, init, before) && c.kind == kind
    requires !Reports(before, c.at.value) && |before| < MAX_PER_KIND
    ensures FirstOf(init + [c], |init|, MinedValue(kind, c.at.value, c.at.confidence))
  {
    hide InOrder, Reports;
    var claims := init + [c];
    forall j | 0 <= j < |init| ensures claims[j].kind != kind || claims[j].at.value != c.at.value {
      assert claims[j] == init[j] && init[j] in init;
    }
  }

  lemma NewIsLast(claims: seq<Candidate>, n: nat, init: seq<Candidate>, before: seq<MinedValue>, m: MinedValue)
    requires FirstOf(claims, n, m) && n == |init|
    requires forall i, x :: FirstOf(init, i, x) ==> FirstOf(claims, i, x)
    requires forall x :: x in before ==> exists i :: FirstOf(init, i, x)
    ensures forall x :: x in before ==> InOrder(claims, x, m)
  {
    forall x | x in before ensures InOrder(claims, x, m) {
      var a :| FirstOf(init, a, x);
      assert FirstOf(claims, a, x) && a < n;
    }
  }

  lemma DigestGrows(kind: Kind, init: seq<Candidate>, c: Candidate, before: seq<MinedValue>)
    requires Digest(kind, init, before) && c.kind == kind
    requires !Reports(before, c.at.value) && |before| < MAX_PER_KIND
    ensures Digest(kind, init + [c], before + [MinedValue(kind, c.at.value, c.at.confidence)])
  {
    hide InOrder;
    var claims, m := init + [c], MinedValue(kind, c.at.value, c.at.confidence);
    FirstsRemain(init, c);
    NewIsFirst(kind, init, c, before);
    NewIsLast(claims, |init|, init, before, m);
    ReportsSnoc(before, m);
    hide FirstOf, Reports;
    ReportedApart(before, m);
  }

  lemma ReportedApart(before: seq<MinedValue>, m: MinedValue)
    requires !Reports(before, m.value)
    ensures forall i :: 0 <= i < |before| ==> before[i].value != m.value
  {
  }

  // ---- The whole digest ----

  /** Finder results per kind for one text. */
  datatype Finders = Finders(find: (Kind, string) -> seq<Find>)

  function Tagged(kind: Kind, finds: seq<Find>): seq<Candidate> {
    seq(|finds|, i requires 0 <= i < |finds| => Candidate(kind, finds[i]))
  }

  function Candidates(finders: Finders, text: string, kinds: seq<Kind>): seq<Candidate> {
    if kinds == [] then []
    else
      var last := kinds[|kinds| - 1];
      Candidates(finders, text, kinds[..|kinds| - 1]) + Tagged(last, finders.find(last, text))
  }

  function Listing(claims: seq<Candidate>, kinds: seq<Kind>): seq<MinedValue> {
    if kinds == [] then []
    else Listing(claims, kinds[..|kinds| - 1]) + Kept(kinds[|kinds| - 1], claims)
  }

  function Head(s: string, n: nat): string {
    if |s| <= n then s else s[..n]
  }

  function ScannedText(subject: Option<string>, body: Option<string>): string {
    (if subject.Some? then subject.value else "") + "\n" + Head(if body.Some? then body.value else "", MAX_SCAN_CHARS)
  }

  predicate Blank(text: string) {
    forall c :: c in text ==> c in WHITESPACE
  }

  function Mined(finders: Finders, subject: Option<string>, body: Option<string>): seq<MinedValue> {
    var text := ScannedText(subject, body);
    if (subject.None? && body.None?) || Blank(text) then []
    else Listing(Claims(Candidates(finders, text, DETECTION_ORDER)), VALUE_KINDS)
  }

  method MineValues(finders: Finders, subject: Option<string>, body: Option<string>) returns (out: seq<MinedValue>)
    ensures out == Mined(finders, subject, body)
  {
    hide Claims, Kept, Claimed, Blank, ScannedText, Head, Reports;
    if subject.None? && body.None? {
      return [];
    }
    var text := ScannedText(subject, body);
    if Blank(text) {
      return [];
    }
    var spans: seq<Find> := [];
    var seen: set<(Kind, string)> := {};
    var perKind: map<Kind, seq<MinedValue>> := map[Otp := [], ResetLink := [], Key := [], Promo := []];
    ghost var claims: seq<Candidate> := [];
    NothingTracked();
    var k := 0;
    while k < |DETECTION_ORDER|
      invariant 0 <= k <= |DETECTION_ORDER|
      invariant claims == Claims(Candidates(finders, text, DETECTION_ORDER[..k]))
      invariant Tracks(spans, seen, perKind, claims)
    {
      var kind := DETECTION_ORDER[k];
      var finds := finders.find(kind, text);
      ghost var before := Candidates(finders, text, DETECTION_ORDER[..k]);
      var i := 0;
      assert before + Tagged(kind, finds[..0]) == before;
      while i < |finds|
        invariant 0 <= i <= |finds|
        invariant claims == Claims(before + Tagged(kind, finds[..i]))
        invariant Tracks(spans, seen, perKind, claims)
      {
        var f := finds[i];
        TaggedSnoc(before, kind, finds, i);
        if !Claimed(spans, f) {
          TracksClaim(spans, seen, perKind, claims, Candidate(kind, f));
          claims := claims + [Candidate(kind, f)];
          spans := spans + [f];
          if (kind, f.value) !in seen && |perKind[kind]| < MAX_PER_KIND {
            seen := seen + {(kind, f.value)};
            perKind := perKind[kind := perKind[kind] + [MinedValue(kind, f.value, f.confidence)]];
          }
        }
        i := i + 1;
      }
      assert finds[..|finds|] == finds;
      assert DETECTION_ORDER[..k + 1][..k] == DETECTION_ORDER[..k];
      k := k + 1;
    }
    assert DETECTION_ORDER[..k] == DETECTION_ORDER;
    out := [];
    k := 0;
    while k < |VALUE_KINDS|
      invariant 0 <= k <= |VALUE_KINDS|
      invariant out == Listing(claims, VALUE_KINDS[..k])
    {
      assert VALUE_KINDS[..k + 1][..k] == VALUE_KINDS[..k];
      out := out + perKind[VALUE_KINDS[k]];
      k := k + 1;
    }
    assert VALUE_KINDS[..k] == VALUE_KINDS;
  }

  /** The working variables describe the claims so far. */
  ghost predicate Tracks(
    spans: seq<Find>, seen: set<(Kind, string)>, perKind: map<Kind, seq<MinedValue>>, claims: seq<Candidate>)
  {
    && spans == Spans(claims)
    && (forall kind: Kind :: kind in perKind && perKind[kind] == Kept(kind, claims))
    && (forall kind: Kind, value :: (kind, value) in seen <==> Reports(perKind[kind], value))
  }

  lemma NothingTracked()
    ensures Claims([]) == [] && Tracks([], {}, map[Otp := [], ResetLink := [], Key := [], Promo := []], [])
  {
    var perKind: map<Kind, seq<MinedValue>> := map[Otp := [], ResetLink := [], Key := [], Promo := []];
    forall kind: Kind ensures kind in perKind && perKind[kind] == [] {
      assert kind == Otp || kind == ResetLink || kind == Key || kind == Promo;
    }
  }

  lemma TaggedSnoc(before: seq<Candidate>, kind: Kind, finds: seq<Find>, i: nat)
    requires i < |finds|
    ensures before + Tagged(kind, finds[..i + 1]) == before + Tagged(kind, finds[..i]) + [Candidate(kind, finds[i])]
    ensures var done := before + Tagged(kind, finds[..i]);
      Claims(before + Tagged(kind, finds[..i + 1])) ==
      if Claimed(Spans(Claims(done)), finds[i]) then Claims(done) else Claims(done) + [Candidate(kind, finds[i])]
  {
    hide Claimed;
    var done := before + Tagged(kind, finds[..i]);
    var more := before + Tagged(kind, finds[..i + 1]);
    assert more == done + [Candidate(kind, finds[i])];
    assert more[..|more| - 1] == done;
  }

  lemma TracksClaim(
    spans: seq<Find>, seen: set<(Kind, string)>, perKind: map<Kind, seq<MinedValue>>,
    claims: seq<Candidate>, c: Candidate)
    requires Tracks(spans, seen, perKind, claims)
    ensures c.kind in perKind
    ensures
      var take := (c.kind, c.at.value) !in seen && |perKind[c.kind]| < MAX_PER_KIND;
      var item := MinedValue(c.kind, c.at.value, c.at.confidence);
      Tracks(
        spans + [c.at],
        if take then seen + {(c.kind, c.at.value)} else seen,
        if take then perKind[c.kind := perKind[c.kind] + [item]] else perKind,
        claims + [c])
  {
    hide Reports, Claimed;
    assert (claims + [c])[..|claims|] == claims;
    assert Spans(claims + [c]) == Spans(claims) + [c.at];
    ReportsSnoc(perKind[c.kind], MinedValue(c.kind, c.at.value, c.at.confidence));
    forall kind: Kind ensures kind in perKind && (kind != c.kind ==> Kept(kind, claims + [c]) == Kept(kind, claims)) {
    }
  }

  lemma ReportsSnoc(kept: seq<MinedValue>, m: MinedValue)
    ensures forall value :: Reports(kept + [m], value) <==> Reports(kept, value) || value == m.value
  {
    var more := kept + [m];
    forall value ensures Reports(more, value) <==> Reports(kept, value) || value == m.value {
      if Reports(kept, value) {
        var i :| 0 <= i < |kept| && kept[i].value == value;
        assert more[i].value == value;
      }
      assert more[|kept|] == m;
    }
  }

  // ---- What the digest promises ----

  lemma {:induction false} ClaimsAreHonest(finders: Finders, text: string, kinds: seq<Kind>)
    requires forall kind: Kind :: Honest(text, finders.find(kind, text))
    ensures forall c :: c in Candidates(finders, text, kinds) ==> Honest(text, [c.at])
  {
    if kinds != [] {
      ClaimsAreHonest(finders, text, kinds[..|kinds| - 1]);
      var last := kinds[|kinds| - 1];
      forall f | f in finders.find(last, text) ensures Honest(text, [f]) {
      }
    }
  }

  function Rank(kind: Kind): nat {
    match kind
    case Otp => 0
    case ResetLink => 1
    case Key => 2
    case Promo => 3
  }

  /** The four digests in `VALUE_KINDS` order. */
  lemma ListingByKind(claims: seq<Candidate>)
    ensures Listing(claims, VALUE_KINDS)
      == Kept(Otp, claims) + Kept(ResetLink, claims) + Kept(Key, claims) + Kept(Promo, claims)
  {
    hide Kept;
    var one, two, three := [Otp], [Otp, ResetLink], [Otp, ResetLink, Key];
    assert one[..0] == [] && Listing(claims, one) == Kept(Otp, claims);
    assert two[..1] == one && Listing(claims, two) == Kept(Otp, claims) + Kept(ResetLink, claims);
    assert three[..2] == two;
    assert VALUE_KINDS[..3] == three;
  }

  /**
   * Any two claims are disjoint; every candidate is claimed or overlaps a claim; every reported
   * value is the text of a claimed span of its kind; no (kind, value) is reported twice; and
   * kinds come in `VALUE_KINDS` order, each a digest of its claims.
   */
  lemma MinedIsHonest(finders: Finders, subject: Option<string>, body: Option<string>)
    requires forall kind: Kind :: Honest(ScannedText(subject, body), finders.find(kind, ScannedText(subject, body)))
    ensures
      var text := ScannedText(subject, body);
      var candidates := Candidates(finders, text, DETECTION_ORDER);
      var claims, out := Claims(candidates), Mined(finders, subject, body);
      && (forall i, j :: 0 <= i < j < |claims| ==>
        claims[i].at.end <= claims[j].at.start || claims[j].at.end <= claims[i].at.start)
      && (forall c :: c in candidates ==> c in claims || exists d :: d in claims && Overlap(c.at, d.at))
      && (forall m :: m in out ==> Backed(text, claims, m))
      && (forall i, j :: 0 <= i < j < |out| ==> Apart(out[i], out[j]))
      && (out == [] || forall kind: Kind :: Digest(kind, claims, Kept(kind, claims)))
      && (out == [] || out == Kept(Otp, claims) + Kept(ResetLink, claims) + Kept(Key, claims) + Kept(Promo, claims))
  {
    hide Candidates, Claims, Kept, Digest, Honest, ScannedText, Blank;
    var text := ScannedText(subject, body);
    var candidates := Candidates(finders, text, DETECTION_ORDER);
    var claims := Claims(candidates);
    ClaimsCover(candidates);
    ClaimsAreHonest(finders, text, DETECTION_ORDER);
    ListingByKind(claims);
    forall kind: Kind ensures Digest(kind, claims, Kept(kind, claims)) {
      KeptIsDigest(kind, claims);
    }
    forall i, j | 0 <= i < j < |claims|
      ensures claims[i].at.end <= claims[j].at.start || claims[j].at.end <= claims[i].at.start
    {
      assert !Overlap(claims[j].at, claims[i].at);
    }
    forall kind: Kind, m | m in Kept(kind, claims) ensures Backed(text, claims, m) && m.kind == kind {
      DigestBacked(kind, text, candidates, claims, m);
    }
    forall kind: Kind ensures PairwiseApart(Kept(kind, claims)) {
      DigestApart(kind, claims, Kept(kind, claims));
    }
    var a, b, c, d := Kept(Otp, claims), Kept(ResetLink, claims), Kept(Key, claims), Kept(Promo, claims);
    JoinApart(a, b, 0, 1);
    JoinApart(a + b, c, 1, 2);
    JoinApart(a + b + c, d, 2, 3);
  }

  /** A reported value is the text of a claimed span of its kind. */
  ghost predicate Backed(text: string, claims: seq<Candidate>, m: MinedValue) {
    exists c ::
      && c in claims && c.kind == m.kind
      && 0 <= c.at.start < c.at.end <= |text| && m.value == text[c.at.start..c.at.end]
  }

  predicate Apart(x: MinedValue, y: MinedValue) {
    (x.kind, x.value) != (y.kind, y.value) && Rank(x.kind) <= Rank(y.kind)
  }

  ghost predicate PairwiseApart(s: seq<MinedValue>) {
    forall i, j :: 0 <= i < j < |s| ==> Apart(s[i], s[j])
  }

  lemma DigestBacked(kind: Kind, text: string, candidates: seq<Candidate>, claims: seq<Candidate>, m: MinedValue)
    requires Digest(kind, claims, Kept(kind, claims)) && m in Kept(kind, claims)
    requires forall c :: c in claims ==> c in candidates
    requires forall c :: c in candidates ==> Honest(text, [c.at])
    ensures Backed(text, claims, m) && m.kind == kind
  {
    hide Kept;
    var i :| FirstOf(claims, i, m);
    assert claims[i] in claims && [claims[i].at][0] == claims[i].at;
  }

  lemma DigestApart(kind: Kind, claims: seq<Candidate>, kept: seq<MinedValue>)
    requires Digest(kind, claims, kept)
    ensures PairwiseApart(kept)
  {
    hide FirstOf, InOrder, Reports;
    forall i, j | 0 <= i < j < |kept| ensures Apart(kept[i], kept[j]) {
      assert kept[i] in kept && kept[j] in kept;
    }
  }

  lemma JoinApart(s: seq<MinedValue>, t: seq<MinedValue>, below: nat, rank: nat)
    requires PairwiseApart(s) && PairwiseApart(t) && below < rank
    requires forall m :: m in s ==> Rank(m.kind) <= below
    requires forall m :: m in t ==> Rank(m.kind) == rank
    ensures PairwiseApart(s + t) && forall m :: m in s + t ==> Rank(m.kind) <= rank
  {
    forall i, j | 0 <= i < j < |s + t| ensures Apart((s + t)[i], (s + t)[j]) {
      if i < |s| <= j {
        assert s[i] in s && t[j - |s|] in t;
      }
    }
  }

  // ---- Which kind wins a span ----

  /** Links are detected first, then codes, keys and promotions. */
  function Turn(kind: Kind): nat {
    match kind
    case ResetLink => 0
    case Otp => 1
    case Key => 2
    case Promo => 3
  }

  ghost predicate TakesTurns(candidates: seq<Candidate>) {
    forall i, j :: 0 <= i < j < |candidates| ==> Turn(candidates[i].kind) <= Turn(candidates[j].kind)
  }

  lemma InTurn(finders: Finders, text: string)
    ensures TakesTurns(Candidates(finders, text, DETECTION_ORDER))
    ensures forall kind: Kind, f :: f in finders.find(kind, text) ==>
      Candidate(kind, f) in Candidates(finders, text, DETECTION_ORDER)
  {
    var a, b := Tagged(ResetLink, finders.find(ResetLink, text)), Tagged(Otp, finders.find(Otp, text));
    var c, d := Tagged(Key, finders.find(Key, text)), Tagged(Promo, finders.find(Promo, text));
    var one, two, three := [ResetLink], [ResetLink, Otp], [ResetLink, Otp, Key];
    assert one[..0] == [] && Candidates(finders, text, one) == [] + a == a;
    assert two[..1] == one && Candidates(finders, text, two) == a + b;
    assert three[..2] == two && Candidates(finders, text, three) == a + b + c;
    assert DETECTION_ORDER[..3] == three && Candidates(finders, text, DETECTION_ORDER) == a + b + c + d;
    forall kind: Kind, f | f in finders.find(kind, text) ensures Candidate(kind, f) in a + b + c + d {
      var i :| 0 <= i < |finders.find(kind, text)| && finders.find(kind, text)[i] == f;
      assert Tagged(kind, finders.find(kind, text))[i] == Candidate(kind, f);
      assert Candidate(kind, f) in Tagged(kind, finders.find(kind, text));
      match kind {
        case ResetLink => assert Candidate(kind, f) in a;
        case Otp => assert Candidate(kind, f) in b;
        case Key => assert Candidate(kind, f) in c;
        case Promo => assert Candidate(kind, f) in d;
      }
    }
  }

  /** A candidate that is not claimed lost its span to a claim whose turn was not later. */
  lemma {:induction false} LosesToEarlier(candidates: seq<Candidate>, c: Candidate)
    requires TakesTurns(candidates) && c in candidates && c !in Claims(candidates)
    ensures exists d :: d in Claims(candidates) && Overlap(c.at, d.at) && Turn(d.kind) <= Turn(c.kind)
  {
    hide Overlap, Turn;
    var n := |candidates| - 1;
    var init, before := candidates[..n], Claims(candidates[..n]);
    assert candidates == init + [candidates[n]];
    assert TakesTurns(init);
    if c in init {
      LosesToEarlier(init, c);
    } else {
      ClaimsCover(init);
      var i :| 0 <= i < |before| && Overlap(c.at, Spans(before)[i]);
      assert before[i] in init && before[i] in before;
      var k :| 0 <= k < n && init[k] == before[i];
      assert candidates[k] == before[i];
    }
  }

  /** Whatever any finder reports is claimed, or its span went to a kind whose turn was not later. */
  lemma EveryFindHasItsTurn(finders: Finders, text: string, kind: Kind, f: Find)
    requires f in finders.find(kind, text)
    ensures var claims := Claims(Candidates(finders, text, DETECTION_ORDER));
      || Candidate(kind, f) in claims
      || exists d :: d in claims && Overlap(f, d.at) && Turn(d.kind) <= Turn(kind)
  {
    hide Candidates, Claims, Overlap, Turn;
    InTurn(finders, text);
    var candidates := Candidates(finders, text, DETECTION_ORDER);
    if Candidate(kind, f) !in Claims(candidates) {
      LosesToEarlier(candidates, Candidate(kind, f));
    }
  }

  // ---- What a message's values are ----

  /** The text that is searched: subject, line break, and at most 20000 characters of the body. */
  ghost predicate Searches(subject: Option<string>, body: Option<string>, text: string) {
    exists s: string, b: string ::
      && subject in {Some(s), None} && (subject.None? ==> s == "")
      && body in {Some(b), None} && (body.None? ==> b == "")
      && text == s + "\n" + if |b| <= 20000 then b else b[..20000]
  }

  predicate Covers(f: Find, at: int) {
    f.start <= at < f.end
  }

  /** Some character belongs to both spans. */
  ghost predicate Collide(f: Find, g: Find) {
    exists at :: Covers(f, at) && Covers(g, at)
  }

  ghost predicate Reported(out: seq<MinedValue>, kind: Kind, value: string) {
    exists m :: m in out && m.kind == kind && m.value == value
  }

  /** Twenty values of the kind are reported. */
  ghost predicate IsFull(out: seq<MinedValue>, kind: Kind) {
    exists ms: seq<MinedValue> :: |ms| == 20 && NoRepeats(ms) && forall m :: m in ms ==> m in out && m.kind == kind
  }

  ghost predicate Heeded(out: seq<MinedValue>, kind: Kind, f: Find) {
    Reported(out, kind, f.value) || IsFull(out, kind)
  }

  /** Another finder whose turn is not later reported a span that shares a character, and it was heeded. */
  ghost predicate Outdone(finders: Finders, text: string, out: seq<MinedValue>, kind: Kind, f: Find) {
    exists rival: Kind, g :: g in finders.find(rival, text) && Turn(rival) <= Turn(kind) && Collide(f, g)
      && Heeded(out, rival, g)
  }

  lemma OverlapIsCollision(text: string, f: Find, g: Find)
    requires Honest(text, [f]) && Honest(text, [g])
    ensures Overlap(f, g) <==> Collide(f, g)
  {
    assert [f][0] == f && [g][0] == g;
    if Overlap(f, g) {
      var at := if f.start < g.start then g.start else f.start;
      assert Covers(f, at) && Covers(g, at);
    }
  }

  lemma ClaimIsHeeded(claims: seq<Candidate>, out: seq<MinedValue>, kind: Kind, f: Find)
    requires Candidate(kind, f) in claims && forall m :: m in Kept(kind, claims) ==> m in out
    ensures Heeded(out, kind, f)
  {
    hide FirstOf, InOrder;
    var kept := Kept(kind, claims);
    KeptIsDigest(kind, claims);
    if Reports(kept, f.value) {
      var i :| 0 <= i < |kept| && kept[i].value == f.value;
      assert kept[i] in kept;
    } else {
      assert NoRepeats(kept) && |kept| == 20;
    }
  }

  /** A non-blank text is mined: the result is the four digests of its claims. */
  lemma MinedText(finders: Finders, subject: Option<string>, body: Option<string>, text: string)
    requires Searches(subject, body, text)
    ensures (forall c :: c in text ==> c in WHITESPACE) ==> Mined(finders, subject, body) == []
    ensures (exists c :: c in text && c !in WHITESPACE) ==>
      Mined(finders, subject, body) == Listing(Claims(Candidates(finders, text, DETECTION_ORDER)), VALUE_KINDS)
  {
    assert ScannedText(subject, body) == text;
    if subject.None? && body.None? {
      assert text == "\n";
    }
  }

  /**
   * Every span a finder reports in a text with something in it is heeded, or shares a character with
   * one that is and whose kind's turn is not later. Blank texts give nothing.
   */
  lemma EveryFindIsHeeded(
    finders: Finders, subject: Option<string>, body: Option<string>, text: string, kind: Kind, f: Find)
    requires Searches(subject, body, text) && f in finders.find(kind, text)
    requires forall k: Kind :: Honest(text, finders.find(k, text))
    ensures var out := Mined(finders, subject, body);
      if exists c :: c in text && c !in WHITESPACE
      then Heeded(out, kind, f) || Outdone(finders, text, out, kind, f)
      else out == []
  {
    hide Candidates, Claims, Kept, Overlap, Turn, Mined, Searches, Heeded;
    MinedText(finders, subject, body, text);
    if exists c :: c in text && c !in WHITESPACE {
      var claims, out := Claims(Candidates(finders, text, DETECTION_ORDER)), Mined(finders, subject, body);
      ListingByKind(claims);
      forall k: Kind, m | m in Kept(k, claims) ensures m in out {
        match k
        case Otp =>
        case ResetLink =>
        case Key =>
        case Promo =>
      }
      EveryFindHasItsTurn(finders, text, kind, f);
      if Candidate(kind, f) in claims {
        ClaimIsHeeded(claims, out, kind, f);
      } else {
        var d :| d in claims && Overlap(f, d.at) && Turn(d.kind) <= Turn(kind);
        ClaimIsHeeded(claims, out, d.kind, d.at);
        ClaimIsFound(finders, text, d);
        assert Honest(text, [f]) && Honest(text, [d.at]);
        OverlapIsCollision(text, f, d.at);
      }
    }
  }

  lemma ClaimIsFound(finders: Finders, text: string, c: Candidate)
    requires c in Claims(Candidates(finders, text, DETECTION_ORDER))
    ensures c.at in finders.find(c.kind, text)
  {
    hide Claims, Candidates;
    ClaimsCover(Candidates(finders, text, DETECTION_ORDER));
    CandidateIsFound(finders, text, DETECTION_ORDER, c);
  }

  lemma {:induction false} CandidateIsFound(finders: Finders, text: string, kinds: seq<Kind>, c: Candidate)
    requires c in Candidates(finders, text, kinds)
    ensures c.at in finders.find(c.kind, text)
  {
    if kinds != [] && c in Candidates(finders, text, kinds[..|kinds| - 1]) {
      CandidateIsFound(finders, text, kinds[..|kinds| - 1], c);
    }
  }

  /** Every reported value was found: some finder of its kind gave it, with its confidence. */
  lemma EveryValueWasFound(
    finders: Finders, subject: Option<string>, body: Option<string>, text: string, m: MinedValue)
    requires Searches(subject, body, text) && m in Mined(finders, subject, body)
    ensures exists f :: f in finders.find(m.kind, text) && f.value == m.value && f.confidence == m.confidence
  {
    hide Candidates, Claims, Kept, Mined, Searches;
    MinedText(finders, subject, body, text);
    var claims := Claims(Candidates(finders, text, DETECTION_ORDER));
    ListingByKind(claims);
    KeptIsDigest(Otp, claims);
    KeptIsDigest(ResetLink, claims);
    KeptIsDigest(Key, claims);
    KeptIsDigest(Promo, claims);
    var i :| FirstOf(claims, i, m);
    ClaimIsFound(finders, text, claims[i]);
  }

  // ---- Distance to a trigger word ----

  /** Characters between the candidate at `start..end` and a trigger at `s.0..s.1`; zero when they overlap. */
  function Gap(start: int, end: int, s: (int, int)): int {
    if s.1 <= start then start - s.1
    else if s.0 >= end then s.0 - end
    else 0
  }

  predicate IsDistance(d: int, p: int, q: int) {
    d >= 0 && (p - q == d || q - p == d)
  }

  /** The gap is the least distance between a position of one span and one of the other, ends included. */
  lemma GapIsLeast(start: int, end: int, s: (int, int))
    requires start <= end && s.0 <= s.1
    ensures exists p, q :: start <= p <= end && s.0 <= q <= s.1 && IsDistance(Gap(start, end, s), p, q)
    ensures forall d, p, q :: start <= p <= end && s.0 <= q <= s.1 && IsDistance(d, p, q) ==> Gap(start, end, s) <= d
  {
    var p := if s.0 >= end then end else if s.1 <= start then start else if s.0 > start then s.0 else start;
    var q := if s.1 <= start then s.1 else if s.0 >= end then s.0 else p;
    assert IsDistance(Gap(start, end, s), p, q);
  }

  /**
   * `triggers` yields the trigger words between two positions of a text of `length` characters.
   * The result is the smallest gap, never more than 80, and is absent only without triggers.
   */
  method TriggerDistance(
    triggers: (int, int) -> seq<(int, int)>, length: int, start: int, end: int, beforeOnly: bool)
    returns (best: Option<int>)
    requires 0 <= start <= end && 0 <= length
    requires forall lo, hi, s :: s in triggers(lo, hi) ==> lo <= s.0 <= s.1 <= hi
    ensures
      var lo := if start < 80 then 0 else start - 80;
      var hi := if beforeOnly then start else if length < end + 80 then length else end + 80;
      && (best.None? <==> lo >= hi || triggers(lo, hi) == [])
      && (best.Some? ==> 0 <= best.value <= 80)
      && (best.Some? ==> exists s :: s in triggers(lo, hi) && Gap(start, end, s) == best.value)
      && (best.Some? ==> forall s :: s in triggers(lo, hi) ==> best.value <= Gap(start, end, s))
      && (best.Some? && beforeOnly ==> forall s :: s in triggers(lo, hi) ==> s.1 <= start)
  {
    var windowStart := if start < NEAR_CHARS then 0 else start - NEAR_CHARS;
    var windowEnd := if beforeOnly then start else if length < end + NEAR_CHARS then length else end + NEAR_CHARS;
    best := None;
    if windowEnd <= windowStart {
      return;
    }
    var matches := triggers(windowStart, windowEnd);
    var i := 0;
    while i < |matches|
      invariant 0 <= i <= |matches|
      invariant best.None? <==> i == 0
      invariant best.Some? ==> exists j :: 0 <= j < i && Gap(start, end, matches[j]) == best.value
      invariant best.Some? ==> forall j :: 0 <= j < i ==> best.value <= Gap(start, end, matches[j])
    {
      var gap := Gap(start, end, matches[i]);
      if best.None? || gap < best.value {
        best := Some(gap);
      }
      i := i + 1;
    }
    if best.Some? {
      var j :| 0 <= j < |matches| && Gap(start, end, matches[j]) == best.value;
      assert matches[j] in triggers(windowStart, windowEnd);
    }
  }
}
