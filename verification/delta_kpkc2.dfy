/** The second delta k-clique enumerator (`kpkc2`): anchors as sorted
    vertex lists, their lexicographic order and inclusion test, the anchor
    store with offsets, the edge iterator and the anchored recursion. */
module DeltaKpkc2 {
  import opened Wrappers
  import opened Ranks
  import DeltaKpkc
  import DeltaKpkcSearch
  import opened Sorting

  /** An anchor: the vertex indices of a partial substitution. */
  type Anchor = seq<nat>

  /** The loop of `operator<` from position i on: the first differing
      position decides, otherwise the shorter anchor is smaller. */
  predicate LessFrom(a: Anchor, b: Anchor, i: nat)
    decreases |a| - i
  {
    if i >= |a| || i >= |b| then |a| < |b|
    else if a[i] != b[i] then a[i] < b[i]
    else LessFrom(a, b, i + 1)
  }

  /** `Anchor::operator<`. */
  predicate Less(a: Anchor, b: Anchor) {
    LessFrom(a, b, 0)
  }

  lemma {:induction false} LessFromIrreflexive(a: Anchor, i: nat)
    ensures !LessFrom(a, a, i)
    decreases |a| - i
  {
    if i < |a| {
      LessFromIrreflexive(a, i + 1);
    }
  }

  lemma {:induction false} LessFromTransitive(a: Anchor, b: Anchor, c: Anchor, i: nat)
    requires LessFrom(a, b, i) && LessFrom(b, c, i)
    ensures LessFrom(a, c, i)
    decreases |a| - i
  {
    if i < |a| && i < |b| && i < |c| && a[i] == b[i] && b[i] == c[i] {
      LessFromTransitive(a, b, c, i + 1);
    }
  }

  /** Distinct anchors are comparable. */
  lemma {:induction false} LessFromTotal(a: Anchor, b: Anchor, i: nat)
    requires i <= |a| && i <= |b| && a[i..] != b[i..]
    ensures LessFrom(a, b, i) || LessFrom(b, a, i)
    decreases |a| - i
  {
    if i < |a| && i < |b| && a[i] == b[i] {
      assert a[i..] == [a[i]] + a[i + 1..] && b[i..] == [b[i]] + b[i + 1..];
      LessFromTotal(a, b, i + 1);
    }
  }

  /** `<` is a strict total order on anchors. */
  lemma LessIsStrictTotal(a: Anchor, b: Anchor, c: Anchor)
    ensures !Less(a, a)
    ensures Less(a, b) && Less(b, c) ==> Less(a, c)
    ensures a != b ==> Less(a, b) || Less(b, a)
  {
    LessFromIrreflexive(a, 0);
    if Less(a, b) && Less(b, c) {
      LessFromTransitive(a, b, c, 0);
    }
    if a != b {
      assert a[0..] == a && b[0..] == b;
      LessFromTotal(a, b, 0);
    }
  }

  /** A proper prefix is smaller. */
  lemma {:induction false} ProperPrefixLess(a: Anchor, b: Anchor, i: nat)
    requires |a| < |b| && b[..|a|] == a && i <= |a|
    ensures LessFrom(a, b, i)
    decreases |a| - i
  {
    if i < |a| {
      assert a[i] == b[..|a|][i];
      ProperPrefixLess(a, b, i + 1);
    }
  }

  /** `std::includes` on two sorted ranges: walk both, skipping smaller
      elements of the left one. */
  predicate Includes(lhs: Anchor, rhs: Anchor)
    decreases |lhs| + |rhs|
  {
    if |rhs| == 0 then true
    else if |lhs| == 0 then false
    else if rhs[0] < lhs[0] then false
    else if lhs[0] < rhs[0] then Includes(lhs[1..], rhs)
    else Includes(lhs[1..], rhs[1..])
  }

  lemma StrictlySortedTail(a: seq<nat>)
    requires StrictlySorted(a) && |a| > 0
    ensures StrictlySorted(a[1..]) && forall x :: x in a[1..] ==> a[0] < x
  {
  }

  /** For strictly sorted anchors, `includes(lhs, rhs)` holds exactly when
      every vertex of rhs is a vertex of lhs. */
  lemma {:induction false} IncludesIsSubset(lhs: Anchor, rhs: Anchor)
    requires StrictlySorted(lhs) && StrictlySorted(rhs)
    ensures Includes(lhs, rhs) <==> forall x :: x in rhs ==> x in lhs
    decreases |lhs| + |rhs|
  {
    if |rhs| == 0 {
    } else if |lhs| == 0 {
      assert rhs[0] in rhs;
    } else {
      StrictlySortedTail(lhs);
      StrictlySortedTail(rhs);
      assert lhs == [lhs[0]] + lhs[1..] && rhs == [rhs[0]] + rhs[1..];
      if rhs[0] < lhs[0] {
        assert rhs[0] !in lhs;
      } else if lhs[0] < rhs[0] {
        IncludesIsSubset(lhs[1..], rhs);
      } else {
        IncludesIsSubset(lhs[1..], rhs[1..]);
        forall x | x in rhs[1..]
          ensures x in lhs <==> x in lhs[1..]
        {
        }
      }
    }
  }

  /** `get_pivot`: the first vertex of a non-empty anchor, its least
      vertex when the anchor is sorted. */
  function Pivot(a: Anchor): (r: nat)
    requires |a| > 0
    ensures r in a
    ensures Sorted(a) ==> forall x :: x in a ==> r <= x
  {
    a[0]
  }

  /** `AnchorsSet`: the anchors' vertices back to back and their offsets. */
  datatype AnchorsSet = AnchorsSet(vertices: seq<nat>, offsets: seq<nat>)

  /** The offsets start at 0, never decrease and end at the vertex count. */
  predicate ValidSet(s: AnchorsSet) {
    |s.offsets| >= 1 && s.offsets[0] == 0 && s.offsets[|s.offsets| - 1] == |s.vertices|
    && forall x, y :: 0 <= x < y < |s.offsets| ==> s.offsets[x] <= s.offsets[y]
  }

  /** `size`. */
  function Size(s: AnchorsSet): nat
    requires |s.offsets| >= 1
  {
    |s.offsets| - 1
  }

  /** `clear`: no vertices, offsets [0]. */
  function Clear(): (s: AnchorsSet)
    ensures ValidSet(s) && Size(s) == 0 && s.offsets == [0]
  {
    AnchorsSet([], [0])
  }

  /** `operator[]`: the vertices between the anchor's two offsets. */
  function At(s: AnchorsSet, n: nat): Anchor
    requires ValidSet(s) && n < Size(s)
  {
    s.vertices[s.offsets[n]..s.offsets[n + 1]]
  }

  /** `insert`: appends the anchor and a new offset, then sorts the
      appended block in place (`std::sort`, a sorted permutation). */
  function Insert(s: AnchorsSet, anchor: Anchor): (r: AnchorsSet)
    requires ValidSet(s)
    ensures ValidSet(r) && Size(r) == Size(s) + 1
    ensures At(r, Size(s)) == Sort(anchor)
    ensures forall n :: 0 <= n < Size(s) ==> At(r, n) == At(s, n)
  {
    var r := Append(s, Sort(anchor));
    AppendKeeps(s, Sort(anchor));
    r
  }

  /** The store with one more block of vertices. */
  function Append(s: AnchorsSet, block: seq<nat>): (r: AnchorsSet)
    requires ValidSet(s)
    ensures ValidSet(r) && Size(r) == Size(s) + 1
  {
    var r := AnchorsSet(s.vertices + block, s.offsets + [|s.vertices| + |block|]);
    assert forall x :: 0 <= x < |s.offsets| ==> s.offsets[x] <= s.offsets[|s.offsets| - 1];
    r
  }

  lemma AppendKeeps(s: AnchorsSet, block: seq<nat>)
    requires ValidSet(s)
    ensures At(Append(s, block), Size(s)) == block
    ensures forall n :: 0 <= n < Size(s) ==> At(Append(s, block), n) == At(s, n)
  {
    var r := Append(s, block);
    assert r.vertices[|s.vertices|..] == block;
    forall n | 0 <= n < Size(s)
      ensures At(r, n) == At(s, n)
    {
      assert s.offsets[n] <= s.offsets[n + 1] <= s.offsets[|s.offsets| - 1];
      assert r.vertices[..|s.vertices|] == s.vertices;
    }
  }

  /** Non-decreasing under `<`: no anchor is followed by a smaller one. */
  predicate OrderSorted(s: AnchorsSet, order: seq<nat>)
    requires ValidSet(s)
  {
    (forall x :: 0 <= x < |order| ==> order[x] < Size(s))
    && forall x, y :: 0 <= x < y < |order| ==> !Less(At(s, order[y]), At(s, order[x]))
  }

  /** Prepending an index whose anchor is not above any listed one. */
  lemma OrderSortedCons(s: AnchorsSet, h: nat, t: seq<nat>)
    requires ValidSet(s) && h < Size(s) && OrderSorted(s, t)
    requires forall y :: 0 <= y < |t| ==> !Less(At(s, t[y]), At(s, h))
    ensures OrderSorted(s, [h] + t)
  {
    var r := [h] + t;
    forall x, y | 0 <= x < y < |r|
      ensures !Less(At(s, r[y]), At(s, r[x]))
    {
      assert r[y] == t[y - 1];
      if x > 0 {
        assert r[x] == t[x - 1];
      }
    }
  }

  /** Insertion of index n into an order sorted by anchor. */
  function InsertOrder(s: AnchorsSet, n: nat, order: seq<nat>): (r: seq<nat>)
    requires ValidSet(s) && n < Size(s) && OrderSorted(s, order)
    ensures OrderSorted(s, r) && multiset(r) == multiset(order) + multiset{n}
    decreases |order|
  {
    if |order| == 0 then [n]
    else if !Less(At(s, order[0]), At(s, n)) then
      InsertBefore(s, n, order);
      [n] + order
    else
      assert order == [order[0]] + order[1..];
      var rest := InsertOrder(s, n, order[1..]);
      InsertAfter(s, n, order, rest);
      [order[0]] + rest
  }

  lemma InsertBefore(s: AnchorsSet, n: nat, order: seq<nat>)
    requires ValidSet(s) && n < Size(s) && OrderSorted(s, order)
    requires |order| > 0 && !Less(At(s, order[0]), At(s, n))
    ensures OrderSorted(s, [n] + order)
  {
    forall y | 0 <= y < |order|
      ensures !Less(At(s, order[y]), At(s, n))
    {
      if y > 0 {
        NotLessTransitive(At(s, n), At(s, order[0]), At(s, order[y]));
      }
    }
    OrderSortedCons(s, n, order);
  }

  lemma InsertAfter(s: AnchorsSet, n: nat, order: seq<nat>, rest: seq<nat>)
    requires ValidSet(s) && n < Size(s) && OrderSorted(s, order) && |order| > 0
    requires Less(At(s, order[0]), At(s, n))
    requires OrderSorted(s, rest) && multiset(rest) == multiset(order[1..]) + multiset{n}
    ensures OrderSorted(s, [order[0]] + rest)
  {
    forall y | 0 <= y < |rest|
      ensures !Less(At(s, rest[y]), At(s, order[0]))
    {
      assert rest[y] in multiset(rest);
      if rest[y] == n {
        LessIsStrictTotal(At(s, n), At(s, order[0]), At(s, n));
      } else {
        assert rest[y] in multiset(order[1..]);
        var z :| 0 <= z < |order[1..]| && order[1..][z] == rest[y];
        assert order[z + 1] == rest[y];
      }
    }
    OrderSortedCons(s, order[0], rest);
  }

  /** "Not smaller" is transitive, because `<` is a strict total order. */
  lemma NotLessTransitive(a: Anchor, b: Anchor, c: Anchor)
    requires !Less(b, a) && !Less(c, b)
    ensures !Less(c, a)
  {
    LessIsStrictTotal(a, b, c);
    LessIsStrictTotal(c, b, a);
    LessIsStrictTotal(c, a, b);
    LessIsStrictTotal(b, a, c);
  }

  /** The indices 0 .. n-1. */
  function Iota(n: nat): (r: seq<nat>)
    ensures |r| == n && forall x :: 0 <= x < n ==> r[x] == x
  {
    if n == 0 then [] else Iota(n - 1) + [n - 1]
  }

  /** Sorting the first n indices. */
  function SortFirst(s: AnchorsSet, n: nat): (r: seq<nat>)
    requires ValidSet(s) && n <= Size(s)
    ensures OrderSorted(s, r) && multiset(r) == multiset(Iota(n))
  {
    if n == 0 then []
    else
      assert Iota(n) == Iota(n - 1) + [n - 1];
      InsertOrder(s, n - 1, SortFirst(s, n - 1))
  }

  /** `sort(out_order)`: a permutation of 0 .. size-1 that lists the
      anchors in non-decreasing `<` order. */
  function SortOrder(s: AnchorsSet): (order: seq<nat>)
    requires ValidSet(s)
    ensures OrderSorted(s, order) && multiset(order) == multiset(Iota(Size(s)))
    ensures |order| == Size(s)
  {
    var r := SortFirst(s, Size(s));
    assert |r| == |multiset(r)| == |multiset(Iota(Size(s)))| == Size(s);
    r
  }
}
