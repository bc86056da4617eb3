/** MIME part numbering: dotted paths given by a walk of the part tree, and extraction by path. */
module MimeParts {
  import opened Util

  type Bytes = seq<int>

  /** `payload` is the decoded content, `text` what is left when nothing could be decoded. */
  datatype Part =
    | Leaf(payload: Option<Bytes>, text: Option<Bytes>, contentType: string)
    | Multi(parts: seq<Part>)

  function ChildPath(prefix: string, index: nat): string {
    if prefix == "" then Decimal(index) else prefix + "." + Decimal(index)
  }

  /** A part that is not split and has no prefix is numbered 1. */
  function Shown(prefix: string): string {
    if prefix == "" then "1" else prefix
  }

  function Width(part: Part): nat {
    if part.Multi? then |part.parts| else 0
  }

  function WalkParts(part: Part, prefix: string): seq<(string, Part)>
    decreases part, Width(part) + 1
  {
    if part.Multi? then WalkFrom(part, prefix, 0) else [(Shown(prefix), part)]
  }

  function WalkFrom(part: Part, prefix: string, k: nat): seq<(string, Part)>
    requires part.Multi? && k <= |part.parts|
    decreases part, Width(part) - k
  {
    if k == |part.parts| then []
    else WalkParts(part.parts[k], ChildPath(prefix, k + 1)) + WalkFrom(part, prefix, k + 1)
  }

  // ---- Addresses: the positions leading to a part, counted from one ----

  type Address = seq<nat>

  function Resolve(part: Part, at: Address): Option<Part> {
    if at == [] then Some(part)
    else if part.Multi? && 1 <= at[0] <= |part.parts| then Resolve(part.parts[at[0] - 1], at[1..])
    else None
  }

  predicate IsLeaf(part: Part, at: Address) {
    Resolve(part, at).Some? && Resolve(part, at).value.Leaf?
  }

  function Text(at: Address): (s: string)
    ensures s == "" <==> at == []
  {
    if at == [] then "" else ChildPath(Text(at[..|at| - 1]), at[|at| - 1])
  }

  function PathOf(at: Address): string {
    Shown(Text(at))
  }

  /** Document order: at the first place where two addresses differ, the smaller position. */
  ghost predicate Precedes(a: Address, b: Address) {
    exists k: nat :: k < |a| && k < |b| && a[..k] == b[..k] && a[k] < b[k]
  }

  // ---- Path texts are unambiguous ----

  lemma NoDot(n: nat)
    ensures '.' !in Decimal(n)
  {
    assert '.' !in DIGITS;
  }

  lemma LastDot(x: string, d: string)
    requires '.' !in d
    ensures var s := x + "." + d;
      s[|x|] == '.' && s[..|x|] == x && s[|x| + 1..] == d && forall i :: |x| < i < |s| ==> s[i] != '.'
  {
    var s := x + "." + d;
    forall i | |x| < i < |s| ensures s[i] != '.' {
      assert s[i] == d[i - |x| - 1];
    }
  }

  lemma SplitAtLastDot(x: string, d: string, y: string, e: string)
    requires x + "." + d == y + "." + e
    requires '.' !in d && '.' !in e
    ensures x == y && d == e
  {
    LastDot(x, d);
    LastDot(y, e);
  }

  lemma {:induction false} TextInjective(a: Address, b: Address)
    requires Text(a) == Text(b)
    ensures a == b
    decreases |a|
  {
    hide Decimal;
    if a != [] && b != [] {
      var i, m, j, n := a[..|a| - 1], a[|a| - 1], b[..|b| - 1], b[|b| - 1];
      NoDot(m);
      NoDot(n);
      DotOrNot(Text(i), m, Text(j), n);
      TextInjective(i, j);
      DecimalInjective(m, n);
      assert a == i + [m] && b == j + [n];
    }
  }

  lemma DotOrNot(x: string, m: nat, y: string, n: nat)
    requires ChildPath(x, m) == ChildPath(y, n)
    ensures x == y && Decimal(m) == Decimal(n)
  {
    hide Decimal;
    NoDot(m);
    NoDot(n);
    assert x != "" ==> ChildPath(x, m)[|x|] == '.';
    assert y != "" ==> ChildPath(y, n)[|y|] == '.';
    if x != "" && y != "" {
      SplitAtLastDot(x, Decimal(m), y, Decimal(n));
    }
  }

  /** A message that is one part has the path 1; otherwise a path is its positions in decimal, with dots between. */
  lemma PathSpells(at: Address, n: nat)
    ensures PathOf([]) == "1" && PathOf([n]) == Decimal(n)
    ensures at != [] ==> PathOf(at + [n]) == PathOf(at) + "." + Decimal(n)
  {
    hide Decimal;
    assert [n][..0] == [] && (at + [n])[..|at|] == at;
  }

  // ---- The walk lists the leaves ----

  /** Entry by entry, the walk below an address shows leaves of the part, in document order. */
  ghost predicate Lists(walk: seq<(string, Part)>, part: Part, at: Address, leaves: seq<Address>) {
    && |walk| == |leaves|
    && (forall i :: 0 <= i < |leaves| ==>
      IsLeaf(part, leaves[i]) && walk[i] == (PathOf(at + leaves[i]), Resolve(part, leaves[i]).value))
    && (forall i, j :: 0 <= i < j < |leaves| ==> Precedes(leaves[i], leaves[j]))
  }

  function Below(n: nat, leaves: seq<Address>): seq<Address> {
    seq(|leaves|, i requires 0 <= i < |leaves| => [n] + leaves[i])
  }

  lemma TextSnoc(at: Address, n: nat)
    ensures Text(at + [n]) == ChildPath(Text(at), n)
  {
    assert (at + [n])[..|at|] == at;
  }

  lemma ListsBelow(part: Part, k: nat, walk: seq<(string, Part)>, at: Address, leaves: seq<Address>)
    requires part.Multi? && k < |part.parts|
    requires Lists(walk, part.parts[k], at + [k + 1], leaves)
    ensures Lists(walk, part, at, Below(k + 1, leaves))
  {
    hide PathOf, Precedes;
    var lower := Below(k + 1, leaves);
    forall i | 0 <= i < |lower|
      ensures IsLeaf(part, lower[i]) && walk[i] == (PathOf(at + lower[i]), Resolve(part, lower[i]).value)
    {
      assert lower[i][1..] == leaves[i];
      assert at + lower[i] == at + [k + 1] + leaves[i];
    }
    forall i, j | 0 <= i < j < |lower| ensures Precedes(lower[i], lower[j]) {
      PrecedesBelow(k + 1, leaves[i], leaves[j]);
    }
  }

  lemma PrecedesBelow(n: nat, a: Address, b: Address)
    requires Precedes(a, b)
    ensures Precedes([n] + a, [n] + b)
  {
    var k: nat :| k < |a| && k < |b| && a[..k] == b[..k] && a[k] < b[k];
    assert ([n] + a)[..k + 1] == [n] + a[..k] && ([n] + b)[..k + 1] == [n] + b[..k];
  }

  lemma ListsJoin(part: Part, at: Address, k: nat,
    walk: seq<(string, Part)>, leaves: seq<Address>, walk': seq<(string, Part)>, leaves': seq<Address>)
    requires Lists(walk, part, at, leaves) && Lists(walk', part, at, leaves')
    requires forall a :: a in leaves ==> a != [] && a[0] == k + 1
    requires forall a :: a in leaves' ==> a != [] && a[0] > k + 1
    ensures Lists(walk + walk', part, at, leaves + leaves')
  {
    hide PathOf, IsLeaf, Resolve;
    forall i, j | 0 <= i < |leaves| && 0 <= j < |leaves'| ensures Precedes(leaves[i], leaves'[j]) {
      assert leaves[i] in leaves && leaves'[j] in leaves';
      assert leaves[i][..0] == leaves'[j][..0];
    }
  }

  /** The walk from a prefix lists every leaf of the part once. */
  lemma {:induction false} WalkLists(part: Part, at: Address) returns (leaves: seq<Address>)
    ensures Lists(WalkParts(part, Text(at)), part, at, leaves)
    ensures forall a :: IsLeaf(part, a) ==> a in leaves
    decreases part, Width(part) + 1
  {
    hide Lists, PathOf, Text;
    if part.Multi? {
      leaves := WalkFromLists(part, at, 0);
      assert forall a :: IsLeaf(part, a) ==> a != [] && a[0] >= 1;
    } else {
      leaves := [[]];
      LeafLists(part, at);
    }
  }

  lemma LeafLists(part: Part, at: Address)
    requires part.Leaf?
    ensures Lists(WalkParts(part, Text(at)), part, at, [[]])
    ensures forall a :: IsLeaf(part, a) ==> a == []
  {
    assert at + [] == at;
  }

  lemma LeafBelow(part: Part, k: nat, inner: seq<Address>, a: Address)
    requires part.Multi? && k < |part.parts| && IsLeaf(part, a) && a != [] && a[0] == k + 1
    requires forall b :: IsLeaf(part.parts[k], b) ==> b in inner
    ensures a in Below(k + 1, inner)
  {
    assert IsLeaf(part.parts[k], a[1..]);
    var i :| 0 <= i < |inner| && inner[i] == a[1..];
    assert Below(k + 1, inner)[i] == a;
  }

  lemma {:induction false} WalkFromLists(part: Part, at: Address, k: nat) returns (leaves: seq<Address>)
    requires part.Multi? && k <= |part.parts|
    ensures Lists(WalkFrom(part, Text(at), k), part, at, leaves)
    ensures forall a :: a in leaves ==> a != [] && a[0] >= k + 1
    ensures forall a :: IsLeaf(part, a) && a[0] >= k + 1 ==> a in leaves
    decreases part, Width(part) - k
  {
    hide PathOf, Text, Decimal, ChildPath;
    if k == |part.parts| {
      leaves := [];
    } else {
      hide Lists;
      TextSnoc(at, k + 1);
      var inner := WalkLists(part.parts[k], at + [k + 1]);
      ListsBelow(part, k, WalkParts(part.parts[k], Text(at + [k + 1])), at, inner);
      var later := WalkFromLists(part, at, k + 1);
      var first := Below(k + 1, inner);
      var walk := WalkParts(part.parts[k], Text(at + [k + 1]));
      ListsJoin(part, at, k, walk, first, WalkFrom(part, Text(at), k + 1), later);
      leaves := first + later;
      forall a | IsLeaf(part, a) && a[0] >= k + 1 ensures a in leaves {
        if a[0] == k + 1 {
          LeafBelow(part, k, inner, a);
        }
      }
    }
  }

  // ---- Extraction ----

  /** A leaf without decoded payload yields its raw text, and nothing if it has none. */
  function Content(part: Part): Option<(Bytes, string)>
    requires part.Leaf?
  {
    if part.payload.Some? then Some((part.payload.value, part.contentType))
    else if part.text.Some? then Some((part.text.value, part.contentType))
    else None
  }

  /** Decoded content comes before the raw text, and a leaf with neither gives nothing. */
  ghost predicate Yields(part: Part, found: Option<(Bytes, string)>)
    requires part.Leaf?
  {
    && (forall bytes :: part.payload == Some(bytes) ==> found == Some((bytes, part.contentType)))
    && (forall bytes :: part.payload == None && part.text == Some(bytes) ==> found == Some((bytes, part.contentType)))
    && (part.payload == None && part.text == None ==> found == None)
  }

  lemma PathInjective(root: Part, a: Address, b: Address)
    requires IsLeaf(root, a) && IsLeaf(root, b) && PathOf(a) == PathOf(b)
    ensures a == b
  {
    hide Decimal, Text;
    if root.Leaf? {
      assert a == [] && b == [];
    } else {
      assert a != [] && b != [];
      TextInjective(a, b);
    }
  }

  /**
   * The walk from the root gives each leaf of the tree once, in document order, under the text
   * of its address, and no two leaves the same text.
   */
  lemma WalkIsExact(root: Part) returns (leaves: seq<Address>)
    ensures Lists(WalkParts(root, ""), root, [], leaves)
    ensures forall a :: a in leaves <==> IsLeaf(root, a)
    ensures forall i, j :: 0 <= i < j < |leaves| ==> WalkParts(root, "")[i].0 != WalkParts(root, "")[j].0
  {
    hide PathOf, Resolve, WalkParts, IsLeaf;
    leaves := WalkLists(root, []);
    forall i, j | 0 <= i < j < |leaves| ensures WalkParts(root, "")[i].0 != WalkParts(root, "")[j].0 {
      assert [] + leaves[i] == leaves[i] && [] + leaves[j] == leaves[j];
      assert Precedes(leaves[i], leaves[j]);
      if WalkParts(root, "")[i].0 == WalkParts(root, "")[j].0 {
        PathInjective(root, leaves[i], leaves[j]);
      }
    }
  }

  /** A leaf's path selects that leaf; a text that is no leaf's path selects nothing. */
  method ExtractPart(root: Part, partPath: string) returns (found: Option<(Bytes, string)>)
    ensures forall a :: IsLeaf(root, a) && PathOf(a) == partPath ==> Yields(Resolve(root, a).value, found)
    ensures (forall a :: IsLeaf(root, a) ==> PathOf(a) != partPath) ==> found == None
  {
    hide PathOf, WalkParts, Resolve, Precedes;
    ghost var leaves := WalkIsExact(root);
    var walk := WalkParts(root, "");
    found := None;
    var i := 0;
    while i < |walk|
      invariant 0 <= i <= |walk|
      invariant found == None
      invariant forall j :: 0 <= j < i ==> walk[j].0 != partPath
    {
      assert [] + leaves[i] == leaves[i];
      var (path, part) := walk[i];
      if path == partPath {
        found := Content(part);
        forall a | IsLeaf(root, a) && PathOf(a) == partPath ensures a == leaves[i] {
          PathInjective(root, a, leaves[i]);
        }
        return;
      }
      i := i + 1;
    }
    forall a | IsLeaf(root, a) ensures PathOf(a) != partPath {
      var j :| 0 <= j < |leaves| && leaves[j] == a;
      assert [] + leaves[j] == leaves[j];
    }
  }
}
