/** Shared vocabulary: optional values, decimal text, and ordered listings of finite sets. */
module Util {

  datatype Option<+T> = None | Some(value: T)

  /** The ASCII characters that Python's `strip()` removes. */
  const WHITESPACE: string := " \t\n\r\U{000B}\U{000C}\U{001C}\U{001D}\U{001E}\U{001F}"

  // ---- Decimal text of a natural number, as Python's `str(n)` ----

  const DIGITS := "0123456789"

  function Decimal(n: nat): (s: string)
    ensures s != [] && forall c :: c in s ==> c in DIGITS
    decreases n
  {
    if n < 10 then [DIGITS[n]] else Decimal(n / 10) + [DIGITS[n % 10]]
  }

  lemma DigitsDistinct(i: nat, j: nat)
    requires i < 10 && j < 10 && DIGITS[i] == DIGITS[j]
    ensures i == j
  {
  }

  lemma {:induction false} DecimalInjective(m: nat, n: nat)
    requires Decimal(m) == Decimal(n)
    ensures m == n
    decreases m
  {
    var s, t := Decimal(m), Decimal(n);
    assert s[|s| - 1] == DIGITS[m % 10] && t[|t| - 1] == DIGITS[n % 10];
    DigitsDistinct(m % 10, n % 10);
    if m >= 10 && n >= 10 {
      assert Decimal(m / 10) == s[..|s| - 1] == t[..|t| - 1] == Decimal(n / 10);
      DecimalInjective(m / 10, n / 10);
    }
  }

  /** The number a decimal text stands for. */
  function Numeral(s: string): int {
    if s == [] then 0 else Numeral(s[..|s| - 1]) * 10 + (s[|s| - 1] as int - '0' as int)
  }

  /** The decimal text of a number stands for it, has digits only, and no zero in front. */
  lemma {:induction false} DecimalStands(n: nat)
    ensures Numeral(Decimal(n)) == n && forall c :: c in Decimal(n) ==> '0' <= c <= '9'
    ensures Decimal(n)[0] == '0' ==> n == 0
    decreases n
  {
    assert forall i :: 0 <= i < 10 ==> DIGITS[i] as int == '0' as int + i;
    if n >= 10 {
      DecimalStands(n / 10);
      assert Decimal(n)[..|Decimal(n)| - 1] == Decimal(n / 10);
    } else {
      assert Decimal(n)[..0] == "";
    }
  }

  // ---- Ascending listing of a finite set, as Python's `sorted(...)` ----

  ghost predicate Ascending(s: seq<nat>) {
    forall i, j :: 0 <= i < j < |s| ==> s[i] < s[j]
  }

  /** Lexicographic order of pairs. */
  predicate NotAfter(x: (int, int), y: (int, int)) {
    x.0 < y.0 || (x.0 == y.0 && x.1 <= y.1)
  }

  /** A finite, non-empty set has an element with the least key. */
  lemma {:induction false} HasLeast(s: set<nat>, key: map<nat, (int, int)>)
    requires s != {} && s <= key.Keys
    ensures exists m :: m in s && forall x :: x in s ==> NotAfter(key[m], key[x])
    decreases s
  {
    var y :| y in s;
    if s != {y} {
      HasLeast(s - {y}, key);
      var m :| m in s - {y} && forall x :: x in s - {y} ==> NotAfter(key[m], key[x]);
      var least := if NotAfter(key[m], key[y]) then m else y;
      forall x | x in s ensures NotAfter(key[least], key[x]) {
        assert x == y || x in s - {y};
      }
      assert least in s;
    }
  }

  lemma HasMax(s: set<nat>)
    requires s != {}
    ensures exists m :: m in s && forall x :: x in s ==> x <= m
  {
    var key: map<nat, (int, int)> := map x | x in s :: (-(x as int), 0);
    HasLeast(s, key);
    var m :| m in s && forall x :: x in s ==> NotAfter(key[m], key[x]);
    forall x | x in s ensures x <= m {
      assert NotAfter(key[m], key[x]);
    }
  }

  function Max(s: set<nat>): (m: nat)
    requires s != {}
    ensures m in s && forall x :: x in s ==> x <= m
  {
    HasMax(s);
    var m :| m in s && forall x :: x in s ==> x <= m;
    m
  }

  function Sorted(s: set<nat>): (q: seq<nat>)
    ensures Ascending(q) && |q| == |s|
    ensures forall x :: x in q <==> x in s
    decreases |s|
  {
    if s == {} then []
    else
      var m := Max(s);
      Sorted(s - {m}) + [m]
  }

  function Elements<T>(q: seq<T>): set<T> {
    set x | x in q
  }

  /** The elements of a finite set in some order, each once. */
  ghost function SomeOrder<T>(s: set<T>): (q: seq<T>)
    ensures Elements(q) == s && NoRepeats(q)
    decreases |s|
  {
    if s == {} then []
    else
      var x :| x in s;
      var rest := SomeOrder(s - {x});
      ElementsCons(x, rest);
      [x] + rest
  }

  lemma ElementsCons<T>(x: T, q: seq<T>)
    ensures Elements([x] + q) == {x} + Elements(q)
    ensures NoRepeats(q) && x !in Elements(q) ==> NoRepeats([x] + q)
  {
  }

  predicate NoRepeats<T(==)>(q: seq<T>) {
    forall i, j :: 0 <= i < j < |q| ==> q[i] != q[j]
  }

  function NewAt<T(==)>(q: seq<T>, known: set<T>): set<int> {
    set i | 0 <= i < |q| && q[i] !in known
  }

  /** Positions of a list without repeats that hold something new: as many as there are new things. */
  lemma {:induction false} CountNew<T>(q: seq<T>, known: set<T>)
    requires NoRepeats(q)
    ensures |NewAt(q, known)| == |Elements(q) - known|
  {
    hide NewAt, Elements;
    if q == [] {
      NewAtNone(q, known);
    } else {
      var n := |q| - 1;
      var init, last := q[..n], q[n];
      CountNew(init, known);
      NewAtSnoc(init, last, known);
      assert q == init + [last] && last !in init;
      ElementsSnoc(init, last, known);
    }
  }

  lemma NewAtNone<T>(q: seq<T>, known: set<T>)
    requires q == []
    ensures NewAt(q, known) == {} && Elements(q) - known == {}
  {
  }

  lemma NewAtSnoc<T>(init: seq<T>, last: T, known: set<T>)
    ensures NewAt(init + [last], known) == NewAt(init, known) + (if last in known then {} else {|init|})
    ensures |init| !in NewAt(init, known)
  {
    var q := init + [last];
    forall i ensures i in NewAt(q, known) <==> i in NewAt(init, known) + (if last in known then {} else {|init|}) {
      assert 0 <= i < |init| ==> q[i] == init[i];
    }
  }

  lemma ElementsSnoc<T>(init: seq<T>, last: T, known: set<T>)
    requires last !in init
    ensures Elements(init + [last]) - known == (Elements(init) - known) + (if last in known then {} else {last})
    ensures last !in Elements(init) - known
  {
  }

  lemma {:induction false} SmallerSet<T>(a: set<T>, b: set<T>)
    requires a <= b
    ensures |a| <= |b|
    decreases a
  {
    if a != {} {
      var x :| x in a;
      SmallerSet(a - {x}, b - {x});
    }
  }

  // ---- Slices of a fixed size, as `range(0, len(xs), step)` walks them ----

  function ChunkCount(n: nat, step: nat): (k: nat)
    requires step > 0
    ensures k == 0 <==> n == 0
    decreases n
  {
    if n <= step then (if n == 0 then 0 else 1) else 1 + ChunkCount(n - step, step)
  }
}
