/** The delta k-partite k-clique enumerator (`DeltaKPKC`): the static
    partition layout, the full and delta graphs with bitset rows as sets,
    the per-rule workspace, and the steps of the anchored clique search. */
module DeltaKpkc {
  import opened Wrappers
  import opened Ranks

  /** `ConstGraph`: vertex count, number of partitions, the vertices of each
      partition and the partition of each vertex. */
  datatype ConstGraph = ConstGraph(nv: nat, k: nat, partitions: seq<seq<nat>>, vertexToPartition: seq<nat>)

  /** `Graph`: the set vertices and one adjacency row per vertex. */
  datatype Graph = Graph(vertices: set<nat>, adjacency: seq<set<nat>>)

  /** `Workspace`: candidate bits per depth and partition (bit b of
      partition p stands for its b-th vertex), the used partitions, the
      partial solution and the rank of the anchor edge. */
  datatype Workspace = Workspace(compatible: seq<seq<set<nat>>>, partitionBits: set<nat>, partialSolution: seq<nat>, anchorEdgeRank: nat)

  /** The enumerator: layout, delta and full graphs, workspace and the
      number of `set_next_assignment_sets` calls so far. */
  datatype Enumerator = Enumerator(layout: ConstGraph, delta: Graph, full: Graph, ws: Workspace, iteration: nat)

  /** Every listed vertex is below nv. */
  predicate PartitionsInRange(partitions: seq<seq<nat>>, nv: nat) {
    forall p, b :: 0 <= p < |partitions| && 0 <= b < |partitions[p]| ==> partitions[p][b] < nv
  }

  /** The layout as `allocate_const_graph` leaves it. */
  predicate WellFormed(cg: ConstGraph) {
    cg.k == |cg.partitions| && |cg.vertexToPartition| == cg.nv && PartitionsInRange(cg.partitions, cg.nv)
  }

  /** The bits of a bitset of the given width. */
  function AllBits(width: nat): (r: set<nat>)
    ensures forall b: nat :: b in r <==> b < width
  {
    if width == 0 then {} else AllBits(width - 1) + {width - 1}
  }

  /** A graph over nv vertices: nv rows, every bit below nv. */
  predicate GraphShape(g: Graph, nv: nat) {
    |g.adjacency| == nv
    && (forall v :: v in g.vertices ==> v < nv)
    && (forall u, v :: 0 <= u < nv && v in g.adjacency[u] ==> v < nv)
  }

  /** A workspace for the layout: k depths of k candidate bitsets, each no
      wider than its partition. */
  predicate WorkspaceShape(cg: ConstGraph, ws: Workspace) {
    cg.k == |cg.partitions|
    && |ws.compatible| == cg.k
    && (forall d :: 0 <= d < cg.k ==> |ws.compatible[d]| == cg.k)
    && (forall d, p, b :: 0 <= d < cg.k && 0 <= p < cg.k && b in ws.compatible[d][p] ==> b < |cg.partitions[p]|)
  }

  /** Writes partition index p for every vertex of `part`, in order. */
  function AssignPartition(vtp: seq<nat>, p: nat, part: seq<nat>): (r: seq<nat>)
    requires forall b :: 0 <= b < |part| ==> part[b] < |vtp|
    ensures |r| == |vtp|
    ensures forall v :: 0 <= v < |vtp| ==> r[v] == (if v in part then p else vtp[v])
    decreases |part|
  {
    if |part| == 0 then vtp
    else
      var init := part[..|part| - 1];
      assert part == init + [part[|part| - 1]];
      AssignPartition(vtp, p, init)[part[|part| - 1] := p]
  }

  /** The `vertex_to_partition` loop over the first partitions. */
  function VertexToPartition(nv: nat, partitions: seq<seq<nat>>): (r: seq<nat>)
    requires PartitionsInRange(partitions, nv)
    ensures |r| == nv
    decreases |partitions|
  {
    if |partitions| == 0 then seq(nv, _ => 0)
    else
      var init := partitions[..|partitions| - 1];
      AssignPartition(VertexToPartition(nv, init), |partitions| - 1, partitions[|partitions| - 1])
  }

  /** `allocate_const_graph`: k is the number of partitions. */
  function AllocateConstGraph(nv: nat, partitions: seq<seq<nat>>): (cg: ConstGraph)
    requires PartitionsInRange(partitions, nv)
    ensures WellFormed(cg) && cg.nv == nv && cg.k == |partitions| && cg.partitions == partitions
  {
    ConstGraph(nv, |partitions|, partitions, VertexToPartition(nv, partitions))
  }

  /** `allocate_empty_graph`: nv cleared vertex bits and nv cleared rows. */
  function AllocateEmptyGraph(cg: ConstGraph): (g: Graph)
    ensures GraphShape(g, cg.nv) && g.vertices == {}
    ensures forall v :: 0 <= v < cg.nv ==> g.adjacency[v] == {}
  {
    Graph({}, seq(cg.nv, _ => {}))
  }

  /** The `Workspace` constructor: k by k cleared candidate bitsets, no
      used partition, an empty partial solution. The anchor rank is not
      initialised by the constructor; the model starts it at 0. */
  function NewWorkspace(cg: ConstGraph): (ws: Workspace)
    requires WellFormed(cg)
    ensures WorkspaceShape(cg, ws)
    ensures ws.partitionBits == {} && ws.partialSolution == []
    ensures forall d, p :: 0 <= d < cg.k && 0 <= p < cg.k ==> ws.compatible[d][p] == {}
  {
    Workspace(seq(cg.k, _ => seq(cg.k, _ => {})), {}, [], 0)
  }

  /** The constructor from a static consistency graph, given its vertex
      count and partitions. */
  function NewEnumerator(nv: nat, partitions: seq<seq<nat>>): (e: Enumerator)
    requires PartitionsInRange(partitions, nv)
    ensures WellFormed(e.layout) && GraphShape(e.delta, nv) && GraphShape(e.full, nv)
    ensures WorkspaceShape(e.layout, e.ws) && e.iteration == 0
    ensures e.delta.vertices == {} && e.full.vertices == {}
  {
    var cg := AllocateConstGraph(nv, partitions);
    Enumerator(cg, AllocateEmptyGraph(cg), AllocateEmptyGraph(cg), NewWorkspace(cg), 0)
  }

  /** `Graph::reset`: clears the vertices and every row. */
  function ResetGraph(g: Graph): (r: Graph)
    ensures |r.adjacency| == |g.adjacency| && r.vertices == {}
    ensures forall v :: 0 <= v < |r.adjacency| ==> r.adjacency[v] == {}
  {
    Graph({}, seq(|g.adjacency|, _ => {}))
  }

  /** `DeltaKPKC::reset`: clears both graphs. */
  function Reset(e: Enumerator): (r: Enumerator)
    ensures r.layout == e.layout && r.ws == e.ws && r.iteration == e.iteration
    ensures r.delta.vertices == {} && r.full.vertices == {}
    ensures |r.full.adjacency| == |e.full.adjacency| && |r.delta.adjacency| == |e.delta.adjacency|
    ensures forall v :: 0 <= v < |r.full.adjacency| ==> r.full.adjacency[v] == {}
    ensures forall v :: 0 <= v < |r.delta.adjacency| ==> r.delta.adjacency[v] == {}
  {
    e.(delta := ResetGraph(e.delta), full := ResetGraph(e.full))
  }

  /** An edge of the consistency graph: two distinct vertices below nv. */
  predicate EdgesInRange(edges: seq<(nat, nat)>, nv: nat) {
    forall n :: 0 <= n < |edges| ==> edges[n].0 < nv && edges[n].1 < nv && edges[n].0 != edges[n].1
  }

  /** Sets both rows for every edge, in order. */
  function AddEdges(rows: seq<set<nat>>, edges: seq<(nat, nat)>): (r: seq<set<nat>>)
    requires EdgesInRange(edges, |rows|)
    ensures |r| == |rows|
    decreases |edges|
  {
    if |edges| == 0 then rows
    else
      var init := edges[..|edges| - 1];
      var (a, b) := edges[|edges| - 1];
      var r := AddEdges(rows, init);
      r[a := r[a] + {b}][b := r[b] + {a}]
  }

  /** (OLD xor NEW) and NEW, bit for bit. */
  function XorAnd(before: set<nat>, after: set<nat>): set<nat> {
    ((before - after) + (after - before)) * after
  }

  /** `set_next_assignment_sets`, given the consistent vertices and edges
      the static consistency graph computes for the assignment sets. */
  function SetNextAssignmentSets(e: Enumerator, vertices: set<nat>, edges: seq<(nat, nat)>): (r: Enumerator)
    requires WellFormed(e.layout) && GraphShape(e.delta, e.layout.nv) && GraphShape(e.full, e.layout.nv)
    requires WorkspaceShape(e.layout, e.ws)
    requires forall v :: v in vertices ==> v < e.layout.nv
    requires EdgesInRange(edges, e.layout.nv)
    ensures r.layout == e.layout && r.iteration == e.iteration + 1
    ensures WorkspaceShape(r.layout, r.ws)
    ensures r.full.vertices == vertices && |r.full.adjacency| == e.layout.nv
    ensures r.delta.vertices == vertices - e.full.vertices
    ensures |r.delta.adjacency| == e.layout.nv
    ensures forall v :: 0 <= v < e.layout.nv ==> r.delta.adjacency[v] == r.full.adjacency[v] - e.full.adjacency[v]
    ensures r.ws.partitionBits == {} && r.ws.partialSolution == e.ws.partialSolution
    ensures forall p :: 0 <= p < e.layout.k ==> r.ws.compatible[0][p] == AllBits(|e.layout.partitions[p]|)
    ensures forall d :: 1 <= d < e.layout.k ==> r.ws.compatible[d] == e.ws.compatible[d]
  {
    var nv := e.layout.nv;
    var before := e.full;
    var full := Graph(vertices, AddEdges(seq(nv, _ => {}), edges));
    var delta := Graph(XorAnd(before.vertices, full.vertices),
                       seq(nv, v requires 0 <= v < nv => XorAnd(before.adjacency[v], full.adjacency[v])));
    var depth0 := seq(e.layout.k, p requires 0 <= p < e.layout.k => AllBits(|e.layout.partitions[p]|));
    var ws := if e.layout.k == 0 then e.ws.(partitionBits := {})
              else e.ws.(compatible := e.ws.compatible[0 := depth0], partitionBits := {});
    Enumerator(e.layout, delta, full, ws, e.iteration + 1)
  }

  /** `edge_rank`: smaller end times nv plus larger end. */
  function AnchorRank(cg: ConstGraph, u: nat, v: nat): nat {
    EdgeRank(MakeEdge(u, v), cg.nv)
  }

  /** `is_delta_edge`: the delta row of the smaller end holds the larger. */
  predicate IsDeltaEdge(delta: Graph, u: nat, v: nat) {
    var e := MakeEdge(u, v);
    e.src < |delta.adjacency| && e.dst in delta.adjacency[e.src]
  }

  /** `is_vertex_compatible_with_anchor` for the anchor edge (u, v). */
  predicate CompatibleWithAnchor(cg: ConstGraph, full: Graph, delta: Graph, u: nat, v: nat, vertex: nat, anchorRank: nat)
    requires u < |full.adjacency| && v < |full.adjacency|
  {
    vertex in full.vertices
    && vertex in full.adjacency[u]
    && vertex in full.adjacency[v]
    && (!IsDeltaEdge(delta, u, vertex) || AnchorRank(cg, u, vertex) > anchorRank)
    && (!IsDeltaEdge(delta, v, vertex) || AnchorRank(cg, v, vertex) > anchorRank)
  }

  /** The depth-0 candidates of partition p for the anchor (i, j). */
  function SeedCandidates(cg: ConstGraph, full: Graph, delta: Graph, i: nat, j: nat, p: nat, anchorRank: nat): set<nat>
    requires WellFormed(cg) && GraphShape(full, cg.nv) && i < cg.nv && j < cg.nv && p < cg.k
  {
    set b | 0 <= b < |cg.partitions[p]| && CompatibleWithAnchor(cg, full, delta, i, j, cg.partitions[p][b], anchorRank)
  }

  /** `seed_from_anchor(i, j)`. */
  function SeedFromAnchor(cg: ConstGraph, full: Graph, delta: Graph, ws: Workspace, i: nat, j: nat): (r: Workspace)
    requires WellFormed(cg) && GraphShape(full, cg.nv) && WorkspaceShape(cg, ws)
    requires i < cg.nv && j < cg.nv && 1 <= cg.k
    ensures WorkspaceShape(cg, r)
    ensures r.partialSolution == [i, j] && r.anchorEdgeRank == AnchorRank(cg, i, j)
    ensures r.partitionBits == {cg.vertexToPartition[i], cg.vertexToPartition[j]}
    ensures forall p :: 0 <= p < cg.k && p in r.partitionBits ==> r.compatible[0][p] == {}
    ensures forall d :: 1 <= d < cg.k ==> r.compatible[d] == ws.compatible[d]
    ensures forall p, b :: 0 <= p < cg.k && b in r.compatible[0][p] ==>
              var w := cg.partitions[p][b];
              w in full.vertices && w in full.adjacency[i] && w in full.adjacency[j]
              && (IsDeltaEdge(delta, i, w) ==> AnchorRank(cg, i, w) > AnchorRank(cg, i, j))
              && (IsDeltaEdge(delta, j, w) ==> AnchorRank(cg, j, w) > AnchorRank(cg, i, j))
  {
    var rank := AnchorRank(cg, i, j);
    var pi := cg.vertexToPartition[i];
    var pj := cg.vertexToPartition[j];
    var depth0 := seq(cg.k, p requires 0 <= p < cg.k =>
                    if p == pi || p == pj then {} else SeedCandidates(cg, full, delta, i, j, p, rank));
    Workspace(ws.compatible[0 := depth0], {pi, pj}, [i, j], rank)
  }

  /** `choose_best_partition`: the unused partition with the fewest
      candidates, the lowest index among equals; `None` stands for the
      sentinel MAX returned when every partition is used. */
  method ChooseBestPartition(candidates: seq<set<nat>>, used: set<nat>, k: nat) returns (best: Option<nat>)
    requires |candidates| == k
    ensures best.None? <==> forall q :: 0 <= q < k ==> q in used
    ensures best.Some? ==> best.value < k && best.value !in used
    ensures best.Some? ==> forall q :: 0 <= q < k && q !in used ==> |candidates[best.value]| <= |candidates[q]|
    ensures best.Some? ==> forall q :: 0 <= q < best.value && q !in used ==> |candidates[best.value]| < |candidates[q]|
  {
    best := None;
    var p := 0;
    while p < k
      invariant p <= k
      invariant best.None? <==> forall q :: 0 <= q < p ==> q in used
      invariant best.Some? ==> best.value < p && best.value !in used
      invariant best.Some? ==> forall q :: 0 <= q < p && q !in used ==> |candidates[best.value]| <= |candidates[q]|
      invariant best.Some? ==> forall q :: 0 <= q < best.value && q !in used ==> |candidates[best.value]| < |candidates[q]|
    {
      if p !in used && (best.None? || |candidates[p]| < |candidates[best.value]|) {
        best := Some(p);
      }
      p := p + 1;
    }
  }

  /** The unused partitions among the first n that still have candidates. */
  function Possible(next: seq<set<nat>>, used: set<nat>, n: nat): set<nat>
    requires n <= |next|
  {
    set q | 0 <= q < n && q !in used && next[q] != {}
  }

  /** `num_possible_additions_at_next_depth`, counting partitions below n. */
  function NumPossibleAdditions(next: seq<set<nat>>, used: set<nat>, n: nat): (r: nat)
    requires n <= |next|
    ensures r == |Possible(next, used, n)|
    ensures r <= n
  {
    if n == 0 then
      assert Possible(next, used, 0) == {};
      0
    else
      var rest := NumPossibleAdditions(next, used, n - 1);
      if n - 1 !in used && next[n - 1] != {} then
        assert Possible(next, used, n) == Possible(next, used, n - 1) + {n - 1};
        rest + 1
      else
        assert Possible(next, used, n) == Possible(next, used, n - 1);
        rest
  }

  /** The first vertex index of partition p under the offset layout: the
      widths of the earlier partitions added up. */
  function Offset(partitions: seq<seq<nat>>, p: nat): nat
    requires p <= |partitions|
  {
    if p == 0 then 0 else Offset(partitions, p - 1) + |partitions[p - 1]|
  }

  /** Whether candidate bit b of a partition starting at `offset` survives
      the addition of `vertex`: adjacent in the full graph, and no delta
      edge to it ranks below the anchor. */
  predicate KeepsCandidate(cg: ConstGraph, full: Graph, delta: Graph, anchorRank: nat, vertex: nat, target: nat)
    requires vertex < |full.adjacency|
  {
    target in full.adjacency[vertex] && !(IsDeltaEdge(delta, vertex, target) && AnchorRank(cg, vertex, target) < anchorRank)
  }

  /** `copy_current_compatible_vertices_to_next_depth` followed by
      `update_compatible_adjacent_vertices_at_next_depth(vertex, depth)`. */
  function AdvanceCandidates(cg: ConstGraph, full: Graph, delta: Graph, ws: Workspace, vertex: nat, depth: nat): (r: Workspace)
    requires WellFormed(cg) && GraphShape(full, cg.nv) && WorkspaceShape(cg, ws)
    requires vertex < cg.nv && depth + 1 < cg.k
    ensures WorkspaceShape(cg, r)
    ensures r.partitionBits == ws.partitionBits && r.partialSolution == ws.partialSolution && r.anchorEdgeRank == ws.anchorEdgeRank
    ensures forall d :: 0 <= d < cg.k && d != depth + 1 ==> r.compatible[d] == ws.compatible[d]
    ensures forall p :: 0 <= p < cg.k && p in ws.partitionBits ==> r.compatible[depth + 1][p] == ws.compatible[depth][p]
    ensures forall p :: 0 <= p < cg.k && p !in ws.partitionBits ==> r.compatible[depth + 1][p] <= ws.compatible[depth][p]
    ensures forall p, b :: 0 <= p < cg.k && p !in ws.partitionBits ==>
              (b in r.compatible[depth + 1][p] <==>
               b in ws.compatible[depth][p] && KeepsCandidate(cg, full, delta, ws.anchorEdgeRank, vertex, b + Offset(cg.partitions, p)))
  {
    var current := ws.compatible[depth];
    var next := seq(cg.k, p requires 0 <= p < cg.k =>
                  if p in ws.partitionBits then current[p]
                  else set b | b in current[p] && KeepsCandidate(cg, full, delta, ws.anchorEdgeRank, vertex, b + Offset(cg.partitions, p)));
    ws.(compatible := ws.compatible[depth + 1 := next])
  }

  /** The last partition listing v, or 0 if none does. */
  function LastListing(partitions: seq<seq<nat>>, v: nat): nat
    decreases |partitions|
  {
    if |partitions| == 0 then 0
    else if v in partitions[|partitions| - 1] then |partitions| - 1
    else LastListing(partitions[..|partitions| - 1], v)
  }

  /** A vertex maps to the last partition listing it, or to 0. */
  lemma {:induction false} VertexToPartitionLast(nv: nat, partitions: seq<seq<nat>>, v: nat)
    requires PartitionsInRange(partitions, nv) && v < nv
    ensures VertexToPartition(nv, partitions)[v] == LastListing(partitions, v)
    decreases |partitions|
  {
    if |partitions| > 0 {
      VertexToPartitionLast(nv, partitions[..|partitions| - 1], v);
    }
  }

  /** With pairwise disjoint partitions, the last partition listing a
      vertex is the one it was taken from. */
  predicate Disjoint(partitions: seq<seq<nat>>) {
    forall p, q, v :: 0 <= p < q < |partitions| && v in partitions[p] ==> v !in partitions[q]
  }

  lemma {:induction false} LastListingOwn(partitions: seq<seq<nat>>, p: nat, v: nat)
    requires Disjoint(partitions) && p < |partitions| && v in partitions[p]
    ensures LastListing(partitions, v) == p
    decreases |partitions|
  {
    var last := |partitions| - 1;
    if p < last {
      var init := partitions[..last];
      assert v !in partitions[last];
      assert init[p] == partitions[p];
      assert Disjoint(init) by {
        forall p', q', w | 0 <= p' < q' < |init| && w in init[p']
          ensures w !in init[q']
        {
          assert init[p'] == partitions[p'] && init[q'] == partitions[q'];
        }
      }
      LastListingOwn(init, p, v);
    }
  }

  /** `allocate_const_graph` maps every listed vertex to its own
      partition when the partitions are disjoint. */
  lemma VertexToPartitionOwn(nv: nat, partitions: seq<seq<nat>>, p: nat, b: nat)
    requires PartitionsInRange(partitions, nv) && Disjoint(partitions)
    requires p < |partitions| && b < |partitions[p]|
    ensures AllocateConstGraph(nv, partitions).vertexToPartition[partitions[p][b]] == p
  {
    VertexToPartitionLast(nv, partitions, partitions[p][b]);
    LastListingOwn(partitions, p, partitions[p][b]);
  }

  /** After adding the edges to cleared rows, v is in row u exactly when
      some edge joins u and v, in either orientation. */
  lemma {:induction false} AddEdgesMembers(nv: nat, edges: seq<(nat, nat)>, u: nat, v: nat)
    requires EdgesInRange(edges, nv) && u < nv
    ensures v in AddEdges(seq(nv, _ => {}), edges)[u]
            <==> exists n :: 0 <= n < |edges| && (edges[n] == (u, v) || edges[n] == (v, u))
    decreases |edges|
  {
    if |edges| > 0 {
      var init := edges[..|edges| - 1];
      AddEdgesMembers(nv, init, u, v);
      var last := |edges| - 1;
      if exists n :: 0 <= n < |init| && (init[n] == (u, v) || init[n] == (v, u)) {
        var n :| 0 <= n < |init| && (init[n] == (u, v) || init[n] == (v, u));
        assert edges[n] == init[n];
      }
      if exists n :: 0 <= n < |edges| && (edges[n] == (u, v) || edges[n] == (v, u)) {
        var n :| 0 <= n < |edges| && (edges[n] == (u, v) || edges[n] == (v, u));
        if n < last {
          assert init[n] == edges[n];
        }
      }
    }
  }

  /** The new full graph is undirected, has no self-loops and stays
      within the nv vertices. */
  lemma FullGraphUndirected(nv: nat, edges: seq<(nat, nat)>, u: nat, v: nat)
    requires EdgesInRange(edges, nv) && u < nv && v < nv
    ensures v in AddEdges(seq(nv, _ => {}), edges)[u] <==> u in AddEdges(seq(nv, _ => {}), edges)[v]
    ensures u !in AddEdges(seq(nv, _ => {}), edges)[u]
  {
    AddEdgesMembers(nv, edges, u, v);
    AddEdgesMembers(nv, edges, v, u);
    AddEdgesMembers(nv, edges, u, u);
  }
}
