/** The graph, edge iterator and anchored clique search of the second
    delta k-clique enumerator. The candidate tables are filled by
    `seed_from_anchor` and `update_compatible_adjacent_vertices_at_next_depth`,
    whose definitions are not part of this model: they are parameters here,
    and the update is taken to write only the candidate row of the next
    depth. The partition choice and the early-termination count are the
    ones of the first enumerator. */
module DeltaKpkc2Search {
  import opened Wrappers
  import opened Ranks
  import opened DeltaKpkc
  import opened DeltaKpkcSearch
  import DeltaKpkc2

  /** `Workspace`: candidate bits per depth and partition, the used
      partitions, the partial solution and the stack of minimal delta-edge
      ranks. */
  datatype Workspace2 = Workspace2(compatible: seq<seq<set<nat>>>, partitionBits: set<nat>,
                                   partialSolution: seq<nat>, minDeltaRanks: seq<nat>)

  /** A workspace the search can run on: k rows of k candidate sets, the
      partial solution inside the graph, and a rank on the stack for
      `min_delta_ranks.back()`. */
  predicate Shape2(cg: ConstGraph, ws: Workspace2) {
    |ws.compatible| == cg.k
    && (forall d :: 0 <= d < cg.k ==> |ws.compatible[d]| == cg.k)
    && (forall x :: 0 <= x < |ws.partialSolution| ==> ws.partialSolution[x] < cg.nv)
    && |ws.minDeltaRanks| > 0
  }

  /** The candidate update returns one candidate set per partition. */
  ghost predicate UpdateWidth(update: (nat, nat, Workspace2) -> seq<set<nat>>, k: nat) {
    forall v, d, w :: |update(v, d, w)| == k
  }

  /** A successful seed leaves a workspace the search can run on. */
  ghost predicate SeedShape(seed: (DeltaKpkc2.Anchor, Workspace2) -> Option<Workspace2>, cg: ConstGraph) {
    forall a, w :: seed(a, w).Some? ==> Shape2(cg, seed(a, w).value)
  }

  /** `contains(Vertex)`. */
  predicate ContainsVertex(g: Graph, v: nat) {
    v in g.vertices
  }

  /** `contains(Edge)`: bit dst of row src. */
  predicate ContainsEdge(g: Graph, e: Edge)
    requires e.src < |g.adjacency|
  {
    e.dst in g.adjacency[e.src]
  }

  /** The edge for a scanned pair (i, j). */
  function PairEdge(s: seq<nat>): Edge {
    if |s| == 2 then MakeEdge(s[0], s[1]) else Edge(0, 0)
  }

  /** `edges_range()`: for every row i below the vertex-bitset width, the
      set bits j > i of row i, in increasing order. */
  function EdgeList(g: Graph, nv: nat): (r: seq<Edge>)
    requires |g.adjacency| == nv
    ensures |r| == |DeltaPairs(g, nv)|
  {
    var pairs := DeltaPairs(g, nv);
    seq(|pairs|, x requires 0 <= x < |pairs| => PairEdge(pairs[x]))
  }

  /** The iterator yields exactly the pairs i < j with bit j set in row i,
      each once, in increasing rank. */
  lemma EdgeListExact(g: Graph, nv: nat, e: Edge)
    requires |g.adjacency| == nv
    ensures e in EdgeList(g, nv) <==> e.src < e.dst < nv && e.dst in g.adjacency[e.src]
    ensures forall a, b :: 0 <= a < b < |EdgeList(g, nv)| ==>
              EdgeRank(EdgeList(g, nv)[a], nv) < EdgeRank(EdgeList(g, nv)[b], nv)
  {
    var pairs := DeltaPairs(g, nv);
    var edges := EdgeList(g, nv);
    forall x | 0 <= x < |pairs|
      ensures |pairs[x]| == 2 && edges[x] == Edge(pairs[x][0], pairs[x][1])
      ensures pairs[x][0] < pairs[x][1] < nv && pairs[x][1] in g.adjacency[pairs[x][0]]
    {
      DeltaPairsExact(g, nv, pairs[x]);
    }
    if e in edges {
      var x :| 0 <= x < |edges| && edges[x] == e;
    }
    if e.src < e.dst < nv && e.dst in g.adjacency[e.src] {
      DeltaPairsExact(g, nv, [e.src, e.dst]);
      var x :| 0 <= x < |pairs| && pairs[x] == [e.src, e.dst];
      assert edges[x] == e;
    }
    DeltaPairsExact(g, nv, []);
    forall a, b | 0 <= a < b < |edges|
      ensures EdgeRank(edges[a], nv) < EdgeRank(edges[b], nv)
    {
      assert PairKey(pairs[a], nv) < PairKey(pairs[b], nv);
    }
  }

  /** For two distinct vertices, `contains(Edge(u, v))` agrees with the
      iterator. */
  lemma ContainsEdgeIffListed(g: Graph, nv: nat, u: nat, v: nat)
    requires |g.adjacency| == nv && u < nv && v < nv && u != v
    ensures ContainsEdge(g, MakeEdge(u, v)) <==> MakeEdge(u, v) in EdgeList(g, nv)
  {
    EdgeListExact(g, nv, MakeEdge(u, v));
  }

  /** The rank pushed for a new vertex: the back of the stack, lowered to
      the rank of every delta edge from a vertex of the partial solution. */
  function MinDeltaRank(rows: seq<set<nat>>, nv: nat, partial: seq<nat>, vertex: nat, back: nat): (r: nat)
    requires forall x :: 0 <= x < |partial| ==> partial[x] < |rows|
    ensures r <= back
    ensures forall x :: 0 <= x < |partial| && vertex in rows[partial[x]] ==> r <= EdgeRank(MakeEdge(partial[x], vertex), nv)
    ensures r == back || exists x :: 0 <= x < |partial| && vertex in rows[partial[x]] && r == EdgeRank(MakeEdge(partial[x], vertex), nv)
    decreases |partial|
  {
    if |partial| == 0 then back
    else
      var init := partial[..|partial| - 1];
      var src := partial[|partial| - 1];
      var m := MinDeltaRank(rows, nv, init, vertex, back);
      assert forall x :: 0 <= x < |init| ==> init[x] == partial[x];
      if vertex in rows[src] && EdgeRank(MakeEdge(src, vertex), nv) < m then EdgeRank(MakeEdge(src, vertex), nv) else m
  }

  /** `complete_from_seed(callback, depth)`: every emitted solution has k
      vertices and extends the partial solution; the partial solution, the
      rank stack and the used partitions are restored, and the candidate
      rows up to this depth are left as they were. */
  method CompleteFromSeed2(cg: ConstGraph, delta: Graph, ws: Workspace2, depth: nat,
                           update: (nat, nat, Workspace2) -> seq<set<nat>>)
    returns (r: Workspace2, out: seq<seq<nat>>)
    requires WellFormed(cg) && GraphShape(delta, cg.nv) && Shape2(cg, ws)
    requires depth < cg.k && UpdateWidth(update, cg.k)
    ensures Shape2(cg, r)
    ensures r.partialSolution == ws.partialSolution && r.minDeltaRanks == ws.minDeltaRanks
    ensures r.partitionBits == ws.partitionBits
    ensures forall d :: 0 <= d <= depth ==> r.compatible[d] == ws.compatible[d]
    ensures forall s :: s in out ==> |s| == cg.k && IsPrefix(ws.partialSolution, s)
    decreases cg.k - |ws.partialSolution|
  {
    r := ws;
    out := [];
    var best := ChooseBestPartition(ws.compatible[depth], ws.partitionBits, cg.k);
    if best.None? {
      return;
    }
    var p := best.value;
    var candidates := ws.compatible[depth][p];
    var bit := 0;
    while bit < |cg.partitions[p]|
      invariant Shape2(cg, r)
      invariant r.partialSolution == ws.partialSolution && r.minDeltaRanks == ws.minDeltaRanks
      invariant r.partitionBits == ws.partitionBits
      invariant forall d :: 0 <= d <= depth ==> r.compatible[d] == ws.compatible[d]
      invariant forall s :: s in out ==> |s| == cg.k && IsPrefix(ws.partialSolution, s)
    {
      if bit in candidates {
        var vertex := cg.partitions[p][bit];
        var m := MinDeltaRank(delta.adjacency, cg.nv, r.partialSolution, vertex, r.minDeltaRanks[|r.minDeltaRanks| - 1]);
        r := r.(minDeltaRanks := r.minDeltaRanks + [m], partialSolution := r.partialSolution + [vertex]);
        if |r.partialSolution| == cg.k {
          out := out + [r.partialSolution];
        } else if depth + 1 < cg.k {
          var next := r.(compatible := r.compatible[depth + 1 := update(vertex, depth, r)],
                         partitionBits := r.partitionBits + {p});
          if |next.partialSolution| + NumPossibleAdditions(next.compatible[depth + 1], next.partitionBits, cg.k) == cg.k {
            var sub;
            next, sub := CompleteFromSeed2(cg, delta, next, depth + 1, update);
            forall s | s in sub
              ensures IsPrefix(ws.partialSolution, s)
            {
              PrefixOfExtension(ws.partialSolution, vertex, s);
            }
            out := out + sub;
          }
          r := next.(partitionBits := next.partitionBits - {p});
        }
        r := r.(partialSolution := r.partialSolution[..|r.partialSolution| - 1],
                minDeltaRanks := r.minDeltaRanks[..|r.minDeltaRanks| - 1]);
      }
      bit := bit + 1;
    }
  }

  /** `for_each_k_clique(callback, workspace, anchor)`: a k-vertex anchor
      is emitted first; for k = 0 nothing else happens; a failed seed ends
      the call; otherwise the search runs from depth 0 and its solutions
      extend the seeded partial solution. */
  method ForEachKClique(cg: ConstGraph, delta: Graph, ws: Workspace2, anchor: DeltaKpkc2.Anchor,
                        seed: (DeltaKpkc2.Anchor, Workspace2) -> Option<Workspace2>,
                        update: (nat, nat, Workspace2) -> seq<set<nat>>)
    returns (r: Workspace2, out: seq<seq<nat>>)
    requires WellFormed(cg) && GraphShape(delta, cg.nv) && |anchor| <= cg.k
    requires SeedShape(seed, cg) && UpdateWidth(update, cg.k)
    ensures |anchor| == cg.k ==> |out| > 0 && out[0] == anchor
    ensures |anchor| < cg.k ==> anchor !in out
    ensures cg.k == 0 ==> out == [anchor] && r == ws
    ensures seed(anchor, ws).None? ==> r == ws && out == (if |anchor| == cg.k then [anchor] else [])
    ensures forall s :: s in out ==> |s| == cg.k
    ensures forall s :: s in out ==> s == anchor || (seed(anchor, ws).Some? && IsPrefix(seed(anchor, ws).value.partialSolution, s))
    ensures cg.k > 0 && seed(anchor, ws).Some? ==>
              r.partialSolution == seed(anchor, ws).value.partialSolution
              && r.minDeltaRanks == seed(anchor, ws).value.minDeltaRanks
  {
    r := ws;
    out := if |anchor| == cg.k then [anchor] else [];
    if cg.k == 0 {
      return;
    }
    var seeded := seed(anchor, ws);
    if seeded.None? {
      return;
    }
    var sub;
    r, sub := CompleteFromSeed2(cg, delta, seeded.value, 0, update);
    out := out + sub;
  }
}
