/** Ranks of ordered pairs in an n-by-n grid, and the undirected edges of
    the k-partite consistency graphs ranked that way. */
module Ranks {

  /** The row-major rank of the pair (a, b) in an n-wide grid. */
  function PairRank(a: nat, b: nat, n: nat): nat {
    a * n + b
  }

  /** Scaling by n keeps the order of the factors. */
  lemma {:induction false} MulMonotone(a: nat, b: nat, n: nat)
    requires a <= b
    ensures a * n <= b * n
    decreases b - a
  {
    if a < b {
      MulMonotone(a, b - 1, n);
      assert b * n == (b - 1) * n + n;
    }
  }

  lemma PairRankBounds(a: nat, b: nat, n: nat)
    requires a < n && b < n
    ensures PairRank(a, b, n) < n * n
    ensures 1 <= a ==> n <= PairRank(a, b, n)
  {
    MulMonotone(a, n - 1, n);
    assert n * n == (n - 1) * n + n;
    if 1 <= a {
      MulMonotone(1, a, n);
    }
  }

  /** Row-major ranks are injective on pairs whose column is below n. */
  lemma PairRankInjective(a: nat, b: nat, c: nat, d: nat, n: nat)
    requires b < n && d < n
    ensures PairRank(a, b, n) == PairRank(c, d, n) <==> a == c && b == d
  {
    if a < c {
      assert (a + 1) * n <= c * n;
    } else if c < a {
      assert (c + 1) * n <= a * n;
    }
  }

  /** Ranks grow with the row: every pair of a lower row ranks below
      every pair of a higher one. */
  lemma PairRankRowOrder(a: nat, b: nat, c: nat, d: nat, n: nat)
    requires b < n && a < c
    ensures PairRank(a, b, n) < PairRank(c, d, n)
  {
    assert (a + 1) * n <= c * n;
  }

  /** An undirected edge, stored with its smaller end first. */
  datatype Edge = Edge(src: nat, dst: nat)

  function Min(a: nat, b: nat): nat { if a < b then a else b }
  function Max(a: nat, b: nat): nat { if a < b then b else a }

  /** `Edge(u, v)`: the smaller end becomes the source. */
  function MakeEdge(u: nat, v: nat): (e: Edge)
    ensures e.src <= e.dst
    ensures {e.src, e.dst} == {u, v}
  {
    if u < v then Edge(u, v) else Edge(v, u)
  }

  /** `Edge::rank(nv)`. */
  function EdgeRank(e: Edge, nv: nat): nat {
    PairRank(e.src, e.dst, nv)
  }

  /** Two edges between vertices below nv share a rank exactly when they
      join the same two vertices. */
  lemma EdgeRankInjective(u: nat, v: nat, x: nat, y: nat, nv: nat)
    requires u < nv && v < nv && x < nv && y < nv
    ensures EdgeRank(MakeEdge(u, v), nv) == EdgeRank(MakeEdge(x, y), nv) <==> {u, v} == {x, y}
  {
    var e := MakeEdge(u, v);
    var f := MakeEdge(x, y);
    PairRankInjective(e.src, e.dst, f.src, f.dst, nv);
    if {u, v} == {x, y} {
      assert e.src == f.src by {
        assert e.src in {x, y} && f.src in {u, v};
      }
    }
  }

  /** The range of `uint_t`, the source's 32-bit unsigned type for vertex
      indices and ranks. */
  const Uint32Range: nat := 0x1_0000_0000

  /** `Edge::rank(nv)` and `edge_rank(u, v)` as the source computes them,
      in `uint_t`: the product and the sum each wrap modulo 2^32. */
  function EdgeRankAsWritten(e: Edge, nv: nat): nat {
    ((e.src * nv) % Uint32Range + e.dst) % Uint32Range
  }

  /** Up to 65536 vertices the 32-bit rank never wraps and is the rank. */
  lemma EdgeRankAsWrittenAgrees(u: nat, v: nat, nv: nat)
    requires u < nv && v < nv
    ensures EdgeRankAsWritten(MakeEdge(u, v), nv) < Uint32Range
    ensures nv <= 0x1_0000 ==> EdgeRankAsWritten(MakeEdge(u, v), nv) == EdgeRank(MakeEdge(u, v), nv)
  {
    var e := MakeEdge(u, v);
    if nv <= 0x1_0000 {
      EdgeRankBound(u, v, nv);
      MulMonotone(nv, 0x1_0000, nv);
      MulMonotone(nv, 0x1_0000, 0x1_0000);
      assert e.src * nv <= EdgeRank(e, nv) < Uint32Range;
    }
  }

  /** With 65537 vertices the 32-bit rank wraps: the edges {0, 65535} and
      {65535, 65536} share a rank, and the edge of row 65535 ranks below
      the edge {1, 2} of row 1. */
  lemma EdgeRankAsWrittenWraps()
    ensures EdgeRankAsWritten(MakeEdge(0, 65535), 65537) == EdgeRankAsWritten(MakeEdge(65536, 65535), 65537) == 65535
    ensures EdgeRankAsWritten(MakeEdge(1, 2), 65537) == 65539
    ensures EdgeRank(MakeEdge(0, 65535), 65537) != EdgeRank(MakeEdge(65536, 65535), 65537)
    ensures EdgeRank(MakeEdge(1, 2), 65537) < EdgeRank(MakeEdge(65536, 65535), 65537)
  {
    assert 65535 * 65537 == Uint32Range - 1;
  }

  /** An edge between vertices below nv ranks below nv * nv. */
  lemma EdgeRankBound(u: nat, v: nat, nv: nat)
    requires u < nv && v < nv
    ensures EdgeRank(MakeEdge(u, v), nv) < nv * nv
  {
    PairRankBounds(MakeEdge(u, v).src, MakeEdge(u, v).dst, nv);
  }
}
