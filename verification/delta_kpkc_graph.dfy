/** The partition-blocked graph of the `kpkc` enumerator: vertex v of
    partition p is bit v - offset(p) of that partition's block, where the
    offsets accumulate the partitions' bit counts, and every adjacency row
    is split into the same blocks. */
module DeltaKpkcGraph {
  import opened Ranks
  import opened Sorting

  /** `GraphLayout::info`, as far as the graph reads it: the number of bits
      of every partition (so k is its length). */
  type Widths = seq<nat>

  /** The first vertex of partition p: the widths of the partitions
      before it. */
  function Off(nb: Widths, p: nat): nat
    requires p <= |nb|
  {
    if p == 0 then 0 else Off(nb, p - 1) + nb[p - 1]
  }

  lemma {:induction false} OffMonotone(nb: Widths, p: nat, q: nat)
    requires p < q <= |nb|
    ensures Off(nb, p) + nb[p] <= Off(nb, q)
    decreases q
  {
    if q > p + 1 {
      OffMonotone(nb, p, q - 1);
    }
  }

  /** The partition whose block holds vertex v, searching from p; |nb| if
      v lies past the last block. */
  function PartOf(nb: Widths, v: nat, p: nat): (r: nat)
    requires p <= |nb| && Off(nb, p) <= v
    ensures p <= r <= |nb|
    ensures r < |nb| ==> Off(nb, r) <= v < Off(nb, r) + nb[r]
    ensures r == |nb| ==> Off(nb, |nb|) <= v
    decreases |nb| - p
  {
    if p == |nb| then |nb|
    else if v < Off(nb, p + 1) then p
    else PartOf(nb, v, p + 1)
  }

  function Partition(nb: Widths, v: nat): (r: nat)
    ensures r <= |nb|
    ensures r < |nb| ==> Off(nb, r) <= v < Off(nb, r) + nb[r]
    ensures r == |nb| <==> Off(nb, |nb|) <= v
  {
    var r := PartOf(nb, v, 0);
    assert r < |nb| ==> Off(nb, r) + nb[r] <= Off(nb, |nb|) by {
      if r < |nb| {
        OffMonotone(nb, r, |nb|);
      }
    }
    r
  }

  /** Every vertex of block q is located in partition q. */
  lemma {:induction false} PartOfBlock(nb: Widths, v: nat, p: nat, q: nat)
    requires p <= q < |nb| && Off(nb, p) <= v && Off(nb, q) <= v < Off(nb, q) + nb[q]
    ensures PartOf(nb, v, p) == q
    decreases q - p
  {
    if p < q {
      OffMonotone(nb, p, q);
      PartOfBlock(nb, v, p + 1, q);
    }
  }

  lemma PartitionOfBlock(nb: Widths, q: nat, b: nat)
    requires q < |nb| && b < nb[q]
    ensures Partition(nb, Off(nb, q) + b) == q
  {
    var v := Off(nb, q) + b;
    assert Off(nb, 0) == 0;
    PartOfBlock(nb, v, 0, q);
    assert Partition(nb, v) == PartOf(nb, v, 0);
  }

  /** `Graph`: the vertex bitset, the per-partition vertex blocks and, per
      vertex, the adjacency row split into per-partition blocks. */
  datatype BlockGraph = BlockGraph(vertices: set<nat>, partitionVertices: seq<set<nat>>, adjacency: seq<seq<set<nat>>>)

  /** The graph allocated for a layout: one vertex block per partition and
      one row of k blocks per vertex. */
  predicate Shape(nb: Widths, g: BlockGraph) {
    |g.partitionVertices| == |nb| && |g.adjacency| == Off(nb, |nb|)
    && forall v :: 0 <= v < |g.adjacency| ==> |g.adjacency[v]| == |nb|
  }

  /** `reset`: clears the vertices, the vertex blocks and every adjacency
      block. */
  function Reset(nb: Widths, g: BlockGraph): (r: BlockGraph)
    requires Shape(nb, g)
    ensures Shape(nb, r) && r.vertices == {}
    ensures forall p :: 0 <= p < |nb| ==> r.partitionVertices[p] == {}
    ensures forall v, q :: 0 <= v < |r.adjacency| && 0 <= q < |nb| ==> r.adjacency[v][q] == {}
  {
    BlockGraph({}, seq(|nb|, _ => {}), seq(|g.adjacency|, _ => seq(|nb|, _ => {})))
  }

  /** `reset_vertices`: clears the vertices and vertex blocks only. */
  function ResetVertices(nb: Widths, g: BlockGraph): (r: BlockGraph)
    requires Shape(nb, g)
    ensures Shape(nb, r) && r.vertices == {} && r.adjacency == g.adjacency
    ensures forall p :: 0 <= p < |nb| ==> r.partitionVertices[p] == {}
  {
    g.(vertices := {}, partitionVertices := seq(|nb|, _ => {}))
  }

  /** `reset_adjacency_row(v)`: clears every block of row v. */
  function ResetAdjacencyRow(nb: Widths, g: BlockGraph, v: nat): (r: BlockGraph)
    requires Shape(nb, g) && v < |g.adjacency|
    ensures Shape(nb, r) && r.vertices == g.vertices && r.partitionVertices == g.partitionVertices
    ensures forall q :: 0 <= q < |nb| ==> r.adjacency[v][q] == {}
    ensures forall u :: 0 <= u < |g.adjacency| && u != v ==> r.adjacency[u] == g.adjacency[u]
  {
    g.(adjacency := g.adjacency[v := seq(|nb|, _ => {})])
  }

  /** The inner loop of `for_each_vertex`: offset + bit for the set bits
      of partition p's block from bit b on. */
  function VertexBits(nb: Widths, g: BlockGraph, p: nat, b: nat): seq<nat>
    requires Shape(nb, g) && p < |nb|
    decreases nb[p] - b
  {
    if b >= nb[p] then []
    else (if b in g.partitionVertices[p] then [Off(nb, p) + b] else []) + VertexBits(nb, g, p, b + 1)
  }

  /** The outer loop, from partition p on. */
  function VerticesFrom(nb: Widths, g: BlockGraph, p: nat): seq<nat>
    requires Shape(nb, g) && p <= |nb|
    decreases |nb| - p
  {
    if p == |nb| then [] else VertexBits(nb, g, p, 0) + VerticesFrom(nb, g, p + 1)
  }

  /** `for_each_vertex`. */
  function ForEachVertex(nb: Widths, g: BlockGraph): seq<nat>
    requires Shape(nb, g)
  {
    VerticesFrom(nb, g, 0)
  }

  /** A vertex whose bit is set in the block of its partition. */
  predicate BlockVertex(nb: Widths, g: BlockGraph, v: nat)
    requires Shape(nb, g)
  {
    var p := Partition(nb, v);
    p < |nb| && v - Off(nb, p) in g.partitionVertices[p]
  }

  lemma {:induction false} VertexBitsMembers(nb: Widths, g: BlockGraph, p: nat, b: nat)
    requires Shape(nb, g) && p < |nb|
    ensures forall v :: v in VertexBits(nb, g, p, b) <==>
              Off(nb, p) + b <= v < Off(nb, p) + nb[p] && v - Off(nb, p) in g.partitionVertices[p]
    ensures StrictlySorted(VertexBits(nb, g, p, b))
    decreases nb[p] - b
  {
    if b < nb[p] {
      VertexBitsMembers(nb, g, p, b + 1);
      var head: seq<nat> := if b in g.partitionVertices[p] then [Off(nb, p) + b] else [];
      StrictConcat(head, VertexBits(nb, g, p, b + 1));
    }
  }

  lemma {:induction false} VerticesFromMembers(nb: Widths, g: BlockGraph, p: nat)
    requires Shape(nb, g) && p <= |nb|
    ensures forall v :: v in VerticesFrom(nb, g, p) <==> Off(nb, p) <= v && BlockVertex(nb, g, v)
    ensures StrictlySorted(VerticesFrom(nb, g, p))
    decreases |nb| - p
  {
    if p < |nb| {
      VertexBitsMembers(nb, g, p, 0);
      VerticesFromMembers(nb, g, p + 1);
      forall v | Off(nb, p) <= v < Off(nb, p) + nb[p]
        ensures Partition(nb, v) == p
      {
        PartitionOfBlock(nb, p, v - Off(nb, p));
      }
      forall v | Off(nb, p) <= v && Partition(nb, v) != p
        ensures Off(nb, p + 1) <= v
      {
        var q := Partition(nb, v);
        if q < p {
          OffMonotone(nb, q, p);
        }
      }
      StrictConcat(VertexBits(nb, g, p, 0), VerticesFrom(nb, g, p + 1));
    }
  }

  /** `for_each_vertex` lists exactly the vertices whose block bit is set,
      in increasing order. */
  lemma ForEachVertexExact(nb: Widths, g: BlockGraph)
    requires Shape(nb, g)
    ensures forall v :: v in ForEachVertex(nb, g) <==> BlockVertex(nb, g, v)
    ensures StrictlySorted(ForEachVertex(nb, g))
  {
    VerticesFromMembers(nb, g, 0);
  }

  /** The innermost loop of `for_each_edge`: the edges from src to the
      set bits of the adjacency block of partition q, from bit b on, whose
      vertex bit is set too. */
  function DstEdges(nb: Widths, g: BlockGraph, src: nat, q: nat, b: nat): seq<Edge>
    requires Shape(nb, g) && src < |g.adjacency| && q < |nb|
    decreases nb[q] - b
  {
    if b >= nb[q] then []
    else (if b in g.adjacency[src][q] && b in g.partitionVertices[q] then [MakeEdge(src, Off(nb, q) + b)] else [])
         + DstEdges(nb, g, src, q, b + 1)
  }

  /** The loop over the destination partitions q from q0 on. */
  function DstFrom(nb: Widths, g: BlockGraph, src: nat, q: nat): seq<Edge>
    requires Shape(nb, g) && src < |g.adjacency| && q <= |nb|
    decreases |nb| - q
  {
    if q == |nb| then [] else DstEdges(nb, g, src, q, 0) + DstFrom(nb, g, src, q + 1)
  }

  /** The loop over the set source bits of partition p from bit b on. */
  function SrcEdges(nb: Widths, g: BlockGraph, p: nat, b: nat): seq<Edge>
    requires Shape(nb, g) && p < |nb|
    decreases nb[p] - b
  {
    if b >= nb[p] then []
    else
      OffMonotone(nb, p, |nb|);
      (if b in g.partitionVertices[p] then DstFrom(nb, g, Off(nb, p) + b, p + 1) else [])
      + SrcEdges(nb, g, p, b + 1)
  }

  /** The loop over the source partitions from p on. */
  function EdgesFrom(nb: Widths, g: BlockGraph, p: nat): seq<Edge>
    requires Shape(nb, g) && p <= |nb|
    decreases |nb| - p
  {
    if p == |nb| then [] else SrcEdges(nb, g, p, 0) + EdgesFrom(nb, g, p + 1)
  }

  /** `for_each_edge`. */
  function ForEachEdge(nb: Widths, g: BlockGraph): seq<Edge>
    requires Shape(nb, g)
  {
    EdgesFrom(nb, g, 0)
  }

  /** The destination side of an emitted edge from src: its vertex bit
      and the adjacency bit of row src are both set. */
  predicate DstOk(nb: Widths, g: BlockGraph, src: nat, dst: nat)
    requires Shape(nb, g) && src < |g.adjacency|
  {
    var q := Partition(nb, dst);
    q < |nb| && dst - Off(nb, q) in g.partitionVertices[q] && dst - Off(nb, q) in g.adjacency[src][q]
  }

  /** An edge `for_each_edge` emits: both ends are set vertices, the
      source partition comes first, and the adjacency bit is set. */
  predicate Emitted(nb: Widths, g: BlockGraph, e: Edge)
    requires Shape(nb, g)
  {
    BlockVertex(nb, g, e.src) && e.src < |g.adjacency|
    && Partition(nb, e.src) < Partition(nb, e.dst) && DstOk(nb, g, e.src, e.dst)
  }

  lemma {:induction false} DstEdgesMembers(nb: Widths, g: BlockGraph, src: nat, q: nat, b: nat, e: Edge)
    requires Shape(nb, g) && src < |g.adjacency| && q < |nb| && src < Off(nb, q)
    ensures e in DstEdges(nb, g, src, q, b) <==>
              e.src == src && Off(nb, q) + b <= e.dst < Off(nb, q) + nb[q]
              && e.dst - Off(nb, q) in g.adjacency[src][q] && e.dst - Off(nb, q) in g.partitionVertices[q]
    decreases nb[q] - b
  {
    if b < nb[q] {
      DstEdgesMembers(nb, g, src, q, b + 1, e);
      assert MakeEdge(src, Off(nb, q) + b) == Edge(src, Off(nb, q) + b);
    }
  }

  lemma {:induction false} DstFromMembers(nb: Widths, g: BlockGraph, src: nat, q: nat, e: Edge)
    requires Shape(nb, g) && src < |g.adjacency| && q <= |nb| && src < Off(nb, q)
    ensures e in DstFrom(nb, g, src, q) <==>
              e.src == src && Off(nb, q) <= e.dst && DstOk(nb, g, src, e.dst)
    decreases |nb| - q
  {
    if q < |nb| {
      DstEdgesMembers(nb, g, src, q, 0, e);
      OffMonotone(nb, q, q + 1);
      DstFromMembers(nb, g, src, q + 1, e);
      if Off(nb, q) <= e.dst < Off(nb, q + 1) {
        DstOkInBlock(nb, g, src, q, e.dst);
      }
    }
  }

  /** For a destination in block q, `DstOk` reads the bits of block q. */
  lemma DstOkInBlock(nb: Widths, g: BlockGraph, src: nat, q: nat, v: nat)
    requires Shape(nb, g) && src < |g.adjacency| && q < |nb| && Off(nb, q) <= v < Off(nb, q + 1)
    ensures DstOk(nb, g, src, v) <==> v - Off(nb, q) in g.adjacency[src][q] && v - Off(nb, q) in g.partitionVertices[q]
  {
    PartitionOfBlock(nb, q, v - Off(nb, q));
  }

  /** A vertex lies in partition q or later exactly when it is not before
      partition q's block. */
  lemma PartitionVsOff(nb: Widths, q: nat, v: nat)
    requires q <= |nb|
    ensures q <= Partition(nb, v) <==> Off(nb, q) <= v
  {
    var r := Partition(nb, v);
    if r < q {
      OffMonotone(nb, r, q);
    } else if q < r {
      OffMonotone(nb, q, r);
    }
  }

  lemma {:induction false} SrcEdgesMembers(nb: Widths, g: BlockGraph, p: nat, b: nat, e: Edge)
    requires Shape(nb, g) && p < |nb|
    ensures e in SrcEdges(nb, g, p, b) <==>
              Off(nb, p) + b <= e.src < Off(nb, p) + nb[p] && e.src - Off(nb, p) in g.partitionVertices[p]
              && e.src < |g.adjacency| && e in DstFrom(nb, g, e.src, p + 1)
    decreases nb[p] - b
  {
    OffMonotone(nb, p, |nb|);
    if b < nb[p] {
      SrcEdgesMembers(nb, g, p, b + 1, e);
      OffMonotone(nb, p, p + 1);
      DstFromSource(nb, g, Off(nb, p) + b, p + 1, e);
    }
  }

  /** The edges of the innermost loop start at src. */
  lemma {:induction false} DstEdgesSource(nb: Widths, g: BlockGraph, src: nat, q: nat, b: nat, e: Edge)
    requires Shape(nb, g) && src < |g.adjacency| && q < |nb| && src < Off(nb, q)
    ensures e in DstEdges(nb, g, src, q, b) ==> e.src == src
    decreases nb[q] - b
  {
    if b < nb[q] {
      DstEdgesSource(nb, g, src, q, b + 1, e);
      assert MakeEdge(src, Off(nb, q) + b) == Edge(src, Off(nb, q) + b);
    }
  }

  /** The edges of the destination loop start at src. */
  lemma {:induction false} DstFromSource(nb: Widths, g: BlockGraph, src: nat, q: nat, e: Edge)
    requires Shape(nb, g) && src < |g.adjacency| && q <= |nb| && src < Off(nb, q)
    ensures e in DstFrom(nb, g, src, q) ==> e.src == src
    decreases |nb| - q
  {
    if q < |nb| {
      DstEdgesSource(nb, g, src, q, 0, e);
      OffMonotone(nb, q, q + 1);
      DstFromSource(nb, g, src, q + 1, e);
    }
  }

  lemma {:induction false} EdgesFromMembers(nb: Widths, g: BlockGraph, p: nat, e: Edge)
    requires Shape(nb, g) && p <= |nb|
    ensures e in EdgesFrom(nb, g, p) <==> Off(nb, p) <= e.src && Emitted(nb, g, e)
    decreases |nb| - p
  {
    if p < |nb| {
      SrcEdgesMembers(nb, g, p, 0, e);
      EdgesFromMembers(nb, g, p + 1, e);
      PartitionVsOff(nb, p, e.src);
      PartitionVsOff(nb, p + 1, e.src);
      if Off(nb, p) <= e.src < Off(nb, p + 1) {
        SourceInBlock(nb, g, p, e);
      }
    }
  }

  /** An edge whose source lies in block p is emitted exactly when the
      destination loop from partition p + 1 emits it. */
  lemma SourceInBlock(nb: Widths, g: BlockGraph, p: nat, e: Edge)
    requires Shape(nb, g) && p < |nb| && Off(nb, p) <= e.src < Off(nb, p + 1)
    ensures e.src < |g.adjacency| && Partition(nb, e.src) == p
    ensures Emitted(nb, g, e) <==> e.src - Off(nb, p) in g.partitionVertices[p] && e in DstFrom(nb, g, e.src, p + 1)
  {
    OffMonotone(nb, p, |nb|);
    if p + 1 < |nb| {
      OffMonotone(nb, p + 1, |nb|);
    }
    PartitionVsOff(nb, p, e.src);
    PartitionVsOff(nb, p + 1, e.src);
    PartitionVsOff(nb, p + 1, e.dst);
    DstFromMembers(nb, g, e.src, p + 1, e);
  }

  /** `for_each_edge` emits exactly the edges from a set vertex of
      partition p to a set vertex of a later partition q whose adjacency
      bit is set. */
  lemma ForEachEdgeExact(nb: Widths, g: BlockGraph, e: Edge)
    requires Shape(nb, g)
    ensures e in ForEachEdge(nb, g) <==> Emitted(nb, g, e)
  {
    EdgesFromMembers(nb, g, 0, e);
  }
}
