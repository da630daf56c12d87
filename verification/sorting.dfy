/** Sorting of natural-number sequences (`std::sort`) and the removal of
    adjacent duplicates (`std::unique` followed by `erase`). */
module Sorting {
  predicate Sorted(a: seq<nat>) {
    forall x, y :: 0 <= x < y < |a| ==> a[x] <= a[y]
  }

  predicate StrictlySorted(a: seq<nat>) {
    forall x, y :: 0 <= x < y < |a| ==> a[x] < a[y]
  }

  lemma SortedCons(h: nat, t: seq<nat>)
    requires Sorted(t) && forall y :: y in t ==> h <= y
    ensures Sorted([h] + t)
  {
    var r := [h] + t;
    forall x, y | 0 <= x < y < |r|
      ensures r[x] <= r[y]
    {
      assert r[y] == t[y - 1] && t[y - 1] in t;
      if x > 0 {
        assert r[x] == t[x - 1];
      }
    }
  }

  /** Insertion of x into a sorted sequence. */
  function InsertSorted(x: nat, s: seq<nat>): (r: seq<nat>)
    requires Sorted(s)
    ensures Sorted(r) && multiset(r) == multiset(s) + multiset{x} && |r| == |s| + 1
    decreases |s|
  {
    if |s| == 0 then [x]
    else if x <= s[0] then
      HeadIsLeast(s);
      SortedCons(x, s);
      [x] + s
    else
      var rest := InsertSorted(x, s[1..]);
      InsertBehindHead(x, s, rest);
      [s[0]] + rest
  }

  /** The head of a sorted sequence is at most each of its elements. */
  lemma HeadIsLeast(s: seq<nat>)
    requires Sorted(s) && |s| > 0
    ensures forall y :: y in s ==> s[0] <= y
  {
  }

  /** The step of `InsertSorted` past the head: the head stays first. */
  lemma InsertBehindHead(x: nat, s: seq<nat>, rest: seq<nat>)
    requires Sorted(s) && |s| > 0 && s[0] < x
    requires Sorted(rest) && multiset(rest) == multiset(s[1..]) + multiset{x}
    ensures Sorted([s[0]] + rest) && multiset([s[0]] + rest) == multiset(s) + multiset{x}
  {
    HeadIsLeast(s);
    assert s == [s[0]] + s[1..];
    forall y | y in rest
      ensures s[0] <= y
    {
      assert y in multiset(rest);
      if y != x {
        assert y in multiset(s[1..]);
        assert y in s;
      }
    }
    SortedCons(s[0], rest);
  }

  /** `std::sort` on a sequence: a sorted permutation. */
  function Sort(s: seq<nat>): (r: seq<nat>)
    ensures Sorted(r) && multiset(r) == multiset(s) && |r| == |s|
    decreases |s|
  {
    if |s| == 0 then []
    else
      assert s == s[..|s| - 1] + [s[|s| - 1]];
      InsertSorted(s[|s| - 1], Sort(s[..|s| - 1]))
  }

  /** `erase(unique(...))` on a sorted sequence: drops every element equal
      to its predecessor. */
  function Unique(s: seq<nat>): (r: seq<nat>)
    requires Sorted(s)
    ensures StrictlySorted(r)
    ensures forall x :: x in r <==> x in s
    ensures |s| > 0 ==> |r| > 0 && r[0] == s[0]
    decreases |s|
  {
    if |s| <= 1 then s
    else
      var rest := Unique(s[1..]);
      if s[0] == s[1] then
        SameHeadDropped(s, rest);
        rest
      else
        DistinctHeadKept(s, rest);
        [s[0]] + rest
  }

  /** A repeated head adds nothing to the elements of the rest. */
  lemma SameHeadDropped(s: seq<nat>, rest: seq<nat>)
    requires |s| > 1 && s[0] == s[1]
    requires forall x :: x in rest <==> x in s[1..]
    ensures forall x :: x in rest <==> x in s
  {
    assert s == [s[0]] + s[1..];
  }

  /** A head below the rest is kept in front of the rest's unique
      elements. */
  lemma DistinctHeadKept(s: seq<nat>, rest: seq<nat>)
    requires Sorted(s) && |s| > 1 && s[0] != s[1]
    requires StrictlySorted(rest) && forall x :: x in rest <==> x in s[1..]
    ensures StrictlySorted([s[0]] + rest)
    ensures forall x :: x in [s[0]] + rest <==> x in s
  {
    forall x | x in rest
      ensures s[0] < x
    {
      var y :| 1 <= y < |s| && s[y] == x;
      assert s[1] <= s[y];
    }
    assert s == [s[0]] + s[1..];
    StrictCons(s[0], rest);
  }

  lemma StrictCons(h: nat, t: seq<nat>)
    requires StrictlySorted(t) && forall y :: y in t ==> h < y
    ensures StrictlySorted([h] + t)
  {
    var r := [h] + t;
    forall x, y | 0 <= x < y < |r|
      ensures r[x] < r[y]
    {
      assert r[y] == t[y - 1] && t[y - 1] in t;
      if x > 0 {
        assert r[x] == t[x - 1];
      }
    }
  }

  lemma StrictConcat(a: seq<nat>, b: seq<nat>)
    requires StrictlySorted(a) && StrictlySorted(b)
    requires forall x, y :: x in a && y in b ==> x < y
    ensures StrictlySorted(a + b)
  {
    var s := a + b;
    forall x, y | 0 <= x < y < |s|
      ensures s[x] < s[y]
    {
      if y >= |a| && x < |a| {
        assert s[x] in a && s[y] == b[y - |a|] && b[y - |a|] in b;
      } else if x >= |a| {
        assert s[x] == b[x - |a|] && s[y] == b[y - |a|];
      }
    }
  }

  /** Sorting then removing duplicates: the distinct elements, each once,
      in increasing order. */
  function SortUnique(s: seq<nat>): (r: seq<nat>)
    ensures StrictlySorted(r)
    ensures forall x :: x in r <==> x in s
  {
    var t := Sort(s);
    assert forall x :: x in t <==> x in s by {
      forall x
        ensures x in t <==> x in s
      {
        assert x in t <==> x in multiset(t);
        assert x in s <==> x in multiset(s);
      }
    }
    Unique(t)
  }
}
