/** `for_element_in_cartesian_set`: the mixed-radix odometer that visits
    every tuple of a cartesian product, the last position varying fastest.
    The callback is modelled by the list of tuples it receives, in order. */
module Cartesian {
  import opened Ranks

  /** The number of tuples: the product of the range sizes. */
  function Size<T>(ranges: seq<seq<T>>): nat
    decreases |ranges|
  {
    if |ranges| == 0 then 1 else Size(ranges[..|ranges| - 1]) * |ranges[|ranges| - 1]|
  }

  /** Every tuple of `ts` extended by every element of `last`, tuple-major. */
  function Cross<T>(ts: seq<seq<T>>, last: seq<T>): (r: seq<seq<T>>)
    ensures |r| == |ts| * |last|
    decreases |ts|
  {
    if |ts| == 0 then []
    else
      var rest := Cross(ts[1..], last);
      assert |ts| * |last| == |last| + (|ts| - 1) * |last|;
      seq(|last|, j requires 0 <= j < |last| => ts[0] + [last[j]]) + rest
  }

  /** The reference enumeration: the product of all ranges but the last,
      each tuple extended by every element of the last range. */
  function Product<T>(ranges: seq<seq<T>>): (r: seq<seq<T>>)
    ensures |r| == Size(ranges)
    decreases |ranges|
  {
    if |ranges| == 0 then [[]]
    else Cross(Product(ranges[..|ranges| - 1]), ranges[|ranges| - 1])
  }

  /** An odometer reading: one index into every range. */
  predicate ValidIndices<T>(ranges: seq<seq<T>>, idx: seq<nat>) {
    |idx| == |ranges| && forall i :: 0 <= i < |idx| ==> idx[i] < |ranges[i]|
  }

  /** The tuple a reading denotes: `tmp[i] = first[i][indices[i]]`. */
  function Tuple<T>(ranges: seq<seq<T>>, idx: seq<nat>): (r: seq<T>)
    requires ValidIndices(ranges, idx)
    ensures |r| == |ranges|
  {
    seq(|idx|, i requires 0 <= i < |idx| => ranges[i][idx[i]])
  }

  /** The mixed-radix value of a reading, the last position least
      significant. */
  function Rank<T>(ranges: seq<seq<T>>, idx: seq<nat>): nat
    requires |idx| == |ranges|
    decreases |idx|
  {
    if |idx| == 0 then 0
    else PairRank(Rank(ranges[..|ranges| - 1], idx[..|idx| - 1]), idx[|idx| - 1], |ranges[|ranges| - 1]|)
  }

  lemma PairRankBelow(a: nat, b: nat, m: nat, n: nat)
    requires a < m && b < n
    ensures PairRank(a, b, n) < m * n
  {
    assert a * n + n == (a + 1) * n <= m * n;
  }

  lemma {:induction false} CrossAt<T>(ts: seq<seq<T>>, last: seq<T>, x: nat, y: nat)
    requires x < |ts| && y < |last|
    ensures PairRank(x, y, |last|) < |Cross(ts, last)|
    ensures Cross(ts, last)[PairRank(x, y, |last|)] == ts[x] + [last[y]]
    decreases x
  {
    PairRankBelow(x, y, |ts|, |last|);
    if x > 0 {
      CrossAt(ts[1..], last, x - 1, y);
      assert PairRank(x, y, |last|) == |last| + PairRank(x - 1, y, |last|) by {
        assert x * |last| == |last| + (x - 1) * |last|;
      }
    }
  }

  lemma ValidInit<T>(ranges: seq<seq<T>>, idx: seq<nat>)
    requires ValidIndices(ranges, idx) && |idx| > 0
    ensures ValidIndices(ranges[..|ranges| - 1], idx[..|idx| - 1])
  {
  }

  /** The reading idx is at position Rank(idx) of the enumeration. */
  lemma {:induction false} ProductAt<T>(ranges: seq<seq<T>>, idx: seq<nat>)
    requires ValidIndices(ranges, idx)
    ensures Rank(ranges, idx) < Size(ranges)
    ensures Product(ranges)[Rank(ranges, idx)] == Tuple(ranges, idx)
    decreases |ranges|
  {
    if |ranges| > 0 {
      var n := |ranges| - 1;
      ValidInit(ranges, idx);
      ProductAt(ranges[..n], idx[..n]);
      CrossAt(Product(ranges[..n]), ranges[n], Rank(ranges[..n], idx[..n]), idx[n]);
      assert Tuple(ranges[..n], idx[..n]) + [ranges[n][idx[n]]] == Tuple(ranges, idx);
    }
  }

  /** Distinct readings have distinct ranks, and a lexicographically
      smaller reading ranks lower. */
  lemma {:induction false} RankOrder<T>(ranges: seq<seq<T>>, a: seq<nat>, b: seq<nat>, i: nat)
    requires ValidIndices(ranges, a) && ValidIndices(ranges, b)
    requires i < |a| && a[..i] == b[..i] && a[i] < b[i]
    ensures Rank(ranges, a) < Rank(ranges, b)
    decreases |ranges|
  {
    var n := |ranges| - 1;
    var L := |ranges[n]|;
    ValidInit(ranges, a);
    ValidInit(ranges, b);
    ProductAt(ranges[..n], a[..n]);
    if i == n {
      assert a[..n] == b[..n];
    } else {
      assert a[..n][..i] == a[..i] && b[..n][..i] == b[..i];
      RankOrder(ranges[..n], a[..n], b[..n], i);
      PairRankRowOrder(Rank(ranges[..n], a[..n]), a[n], Rank(ranges[..n], b[..n]), b[n], L);
    }
  }

  lemma RankInjective<T>(ranges: seq<seq<T>>, a: seq<nat>, b: seq<nat>)
    requires ValidIndices(ranges, a) && ValidIndices(ranges, b) && a != b
    ensures Rank(ranges, a) != Rank(ranges, b)
  {
    var i :| 0 <= i < |a| && a[i] != b[i];
    var j := FirstDifference(a, b, 0, i);
    if a[j] < b[j] {
      RankOrder(ranges, a, b, j);
    } else {
      RankOrder(ranges, b, a, j);
    }
  }

  /** The first position, from `from` on, where the readings differ. */
  function FirstDifference(a: seq<nat>, b: seq<nat>, from: nat, i: nat): (j: nat)
    requires |a| == |b| && from <= i < |a| && a[i] != b[i] && a[..from] == b[..from]
    ensures j <= i && a[..j] == b[..j] && a[j] != b[j]
    decreases i - from
  {
    if a[from] != b[from] then from
    else
      assert a[..from + 1] == a[..from] + [a[from]] && b[..from + 1] == b[..from] + [b[from]];
      FirstDifference(a, b, from + 1, i)
  }

  /** Division by the last width lands inside the prefix's size. */
  lemma QuotientBelow(m: nat, s: nat, L: nat)
    requires 0 < L && m < s * L
    ensures m / L < s
  {
    var q := m / L;
    assert q * L <= m;
    assert q * L < s * L;
  }

  /** Every position of the enumeration is reached by some reading. */
  lemma {:induction false} RankOnto<T>(ranges: seq<seq<T>>, m: nat) returns (idx: seq<nat>)
    requires m < Size(ranges)
    ensures ValidIndices(ranges, idx) && Rank(ranges, idx) == m
    decreases |ranges|
  {
    if |ranges| == 0 {
      idx := [];
    } else {
      var n := |ranges| - 1;
      var L := |ranges[n]|;
      assert L > 0;
      var x, y := m / L, m % L;
      assert m == x * L + y;
      QuotientBelow(m, Size(ranges[..n]), L);
      var init := RankOnto(ranges[..n], x);
      idx := init + [y];
      assert idx[..n] == init;
    }
  }

  /** One step of the odometer from position `pos` down: increment, and on
      overflow reset and carry into the previous position; the flag says
      the whole product is done. */
  function Advance<T>(ranges: seq<seq<T>>, idx: seq<nat>, pos: nat): (r: (seq<nat>, bool))
    requires ValidIndices(ranges, idx) && pos < |idx|
    ensures |r.0| == |idx|
    decreases pos
  {
    if idx[pos] + 1 < |ranges[pos]| then (idx[pos := idx[pos] + 1], false)
    else if pos == 0 then (idx[pos := 0], true)
    else Advance(ranges, idx[pos := 0], pos - 1)
  }

  /** The rank of the first m positions of a reading. */
  function PrefixRank<T>(ranges: seq<seq<T>>, idx: seq<nat>, m: nat): nat
    requires |idx| == |ranges| && m <= |idx|
  {
    Rank(ranges[..m], idx[..m])
  }

  lemma PrefixRankStep<T>(ranges: seq<seq<T>>, idx: seq<nat>, m: nat)
    requires |idx| == |ranges| && m < |idx|
    ensures PrefixRank(ranges, idx, m + 1) == PairRank(PrefixRank(ranges, idx, m), idx[m], |ranges[m]|)
    ensures Size(ranges[..m + 1]) == Size(ranges[..m]) * |ranges[m]|
  {
    assert ranges[..m + 1][..m] == ranges[..m] && idx[..m + 1][..m] == idx[..m];
  }

  lemma PrefixRankSame<T>(ranges: seq<seq<T>>, a: seq<nat>, b: seq<nat>, m: nat)
    requires |a| == |ranges| && |b| == |ranges| && m <= |a| && a[..m] == b[..m]
    ensures PrefixRank(ranges, a, m) == PrefixRank(ranges, b, m)
  {
  }

  /** The odometer adds one to the rank of the first pos + 1 positions,
      leaving the later ones alone, unless that prefix was at its maximum. */
  lemma {:induction false} AdvanceRank<T>(ranges: seq<seq<T>>, idx: seq<nat>, pos: nat)
    requires ValidIndices(ranges, idx) && pos < |idx|
    ensures ValidIndices(ranges, Advance(ranges, idx, pos).0)
    ensures Advance(ranges, idx, pos).0[pos + 1..] == idx[pos + 1..]
    ensures !Advance(ranges, idx, pos).1 ==>
              PrefixRank(ranges, Advance(ranges, idx, pos).0, pos + 1) == PrefixRank(ranges, idx, pos + 1) + 1
    ensures Advance(ranges, idx, pos).1 ==> PrefixRank(ranges, idx, pos + 1) + 1 == Size(ranges[..pos + 1])
    decreases pos
  {
    var (nx, done) := Advance(ranges, idx, pos);
    var L := |ranges[pos]|;
    PrefixRankStep(ranges, idx, pos);
    PrefixRankStep(ranges, nx, pos);
    if idx[pos] + 1 < L {
      assert nx[..pos] == idx[..pos];
    } else if pos == 0 {
      assert Size(ranges[..0]) == 1;
    } else {
      var reset := idx[pos := 0];
      assert reset[..pos] == idx[..pos];
      PrefixRankSame(ranges, reset, idx, pos);
      AdvanceRank(ranges, reset, pos - 1);
      assert nx[pos..] == reset[pos..];
      assert nx[pos] == reset[pos] == 0;
      var a := PrefixRank(ranges, idx, pos);
      assert PrefixRank(ranges, idx, pos + 1) + 1 == (a + 1) * L by {
        assert (a + 1) * L == a * L + L;
      }
      if !done {
        assert PrefixRank(ranges, nx, pos + 1) == (a + 1) * L;
      } else {
        assert a + 1 == Size(ranges[..pos]);
      }
    }
  }

  lemma RankZero<T>(ranges: seq<seq<T>>, idx: seq<nat>)
    requires |idx| == |ranges| && forall i :: 0 <= i < |idx| ==> idx[i] == 0
    ensures Rank(ranges, idx) == 0
    decreases |idx|
  {
    if |idx| > 0 {
      RankZero(ranges[..|ranges| - 1], idx[..|idx| - 1]);
    }
  }

  lemma {:induction false} SizeZero<T>(ranges: seq<seq<T>>, i: nat)
    requires i < |ranges| && |ranges[i]| == 0
    ensures Size(ranges) == 0
    decreases |ranges|
  {
    var n := |ranges| - 1;
    if i < n {
      SizeZero(ranges[..n], i);
    }
  }

  lemma {:induction false} SizePositive<T>(ranges: seq<seq<T>>)
    requires forall i :: 0 <= i < |ranges| ==> |ranges[i]| > 0
    ensures Size(ranges) > 0
    decreases |ranges|
  {
    if |ranges| > 0 {
      SizePositive(ranges[..|ranges| - 1]);
    }
  }

  /** The odometer itself: the callback receives exactly the reference
      enumeration. */
  method ForElementInCartesianSet<T>(ranges: seq<seq<T>>) returns (out: seq<seq<T>>)
    ensures out == Product(ranges)
  {
    var n := |ranges|;
    if n == 0 {
      out := [[]];
      return;
    }
    if exists i :: 0 <= i < n && |ranges[i]| == 0 {
      var i :| 0 <= i < n && |ranges[i]| == 0;
      SizeZero(ranges, i);
      out := [];
      return;
    }
    var idx: seq<nat> := seq(n, _ => 0);
    RankZero(ranges, idx);
    ProductAt(ranges, idx);
    out := [];
    while true
      invariant ValidIndices(ranges, idx)
      invariant Rank(ranges, idx) == |out| < Size(ranges)
      invariant out == Product(ranges)[..|out|]
      decreases Size(ranges) - |out|
    {
      var tuple := seq(n, i requires 0 <= i < n => ranges[i][idx[i]]);
      ProductAt(ranges, idx);
      out := out + [tuple];
      var step := Advance(ranges, idx, n - 1);
      AdvanceRank(ranges, idx, n - 1);
      assert ranges[..n] == ranges && idx[..n] == idx && step.0[..n] == step.0;
      if step.1 {
        return;
      }
      idx := step.0;
      ProductAt(ranges, idx);
    }
  }

  /** The tuple is denoted by some reading. */
  ghost predicate Enumerated<T>(ranges: seq<seq<T>>, t: seq<T>) {
    exists idx :: ValidIndices(ranges, idx) && t == Tuple(ranges, idx)
  }

  /** What the enumeration promises: with no ranges it is the single empty
      tuple; it is empty iff some range is empty; otherwise it lists every
      reading's tuple exactly once, Π|range| of them, in lexicographic order
      of the readings. */
  lemma ProductExact<T>(ranges: seq<seq<T>>)
    ensures |ranges| == 0 ==> Product(ranges) == [[]]
    ensures |Product(ranges)| == 0 <==> exists i :: 0 <= i < |ranges| && |ranges[i]| == 0
    ensures forall m :: 0 <= m < |Product(ranges)| ==> Enumerated(ranges, Product(ranges)[m])
  {
    if exists i :: 0 <= i < |ranges| && |ranges[i]| == 0 {
      var i :| 0 <= i < |ranges| && |ranges[i]| == 0;
      SizeZero(ranges, i);
    } else {
      SizePositive(ranges);
    }
    forall m | 0 <= m < |Product(ranges)|
      ensures Enumerated(ranges, Product(ranges)[m])
    {
      var idx := RankOnto(ranges, m);
      ProductAt(ranges, idx);
      assert ValidIndices(ranges, idx) && Product(ranges)[m] == Tuple(ranges, idx);
    }
  }
}
