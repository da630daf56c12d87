/** The anchored recursion of `DeltaKPKC`: `complete_from_seed` and
    `for_each_new_k_clique`, with the callback modelled as the sequence of
    partial solutions it receives. */
module DeltaKpkcSearch {
  import opened Wrappers
  import opened Ranks
  import opened DeltaKpkc

  predicate IsPrefix(a: seq<nat>, b: seq<nat>) {
    |a| <= |b| && b[..|a|] == a
  }

  lemma PrefixOfExtension(a: seq<nat>, v: nat, b: seq<nat>)
    requires IsPrefix(a + [v], b)
    ensures IsPrefix(a, b)
  {
    assert b[..|a|] == b[..|a| + 1][..|a|];
  }

  /* ---------------- what a solution is ---------------- */

  /** The partitions list their vertices at consecutive indices from the
      partition's offset, as the candidate update assumes when it turns a
      bit back into a vertex. */
  predicate OffsetLayout(cg: ConstGraph) {
    forall p, b :: 0 <= p < |cg.partitions| && 0 <= b < |cg.partitions[p]| ==>
      cg.partitions[p][b] == Offset(cg.partitions, p) + b
  }

  /** Every listed vertex maps to the partition that lists it. */
  predicate OwnPartition(cg: ConstGraph) {
    forall p, b :: 0 <= p < |cg.partitions| && 0 <= b < |cg.partitions[p]| && cg.partitions[p][b] < |cg.vertexToPartition| ==>
      cg.vertexToPartition[cg.partitions[p][b]] == p
  }

  /** No edge of the full graph joins two vertices of one partition. */
  predicate KPartite(cg: ConstGraph, full: Graph) {
    forall u, v :: 0 <= u < |full.adjacency| && u < |cg.vertexToPartition| && v < |cg.vertexToPartition| && v in full.adjacency[u] ==>
      cg.vertexToPartition[u] != cg.vertexToPartition[v]
  }

  /** Every delta edge is an edge of the full graph. */
  predicate DeltaInFull(delta: Graph, full: Graph) {
    |delta.adjacency| <= |full.adjacency|
    && forall u, v :: 0 <= u < |delta.adjacency| && v in delta.adjacency[u] ==> v in full.adjacency[u]
  }

  /** The conditions under which the search emits only cliques. */
  predicate Layout(cg: ConstGraph, full: Graph, delta: Graph) {
    OffsetLayout(cg) && OwnPartition(cg) && KPartite(cg, full) && DeltaInFull(delta, full)
  }

  /** Offsets grow with the partition index. */
  lemma {:induction false} OffsetMonotone(partitions: seq<seq<nat>>, p: nat, q: nat)
    requires p <= q <= |partitions|
    ensures Offset(partitions, p) <= Offset(partitions, q)
    decreases q
  {
    if p < q {
      OffsetMonotone(partitions, p, q - 1);
    }
  }

  /** Under the offset layout the partitions are disjoint, so the layout
      `allocate_const_graph` builds maps every listed vertex to its own
      partition. */
  lemma AllocatedOwnPartition(nv: nat, partitions: seq<seq<nat>>)
    requires PartitionsInRange(partitions, nv) && OffsetLayout(AllocateConstGraph(nv, partitions))
    ensures OwnPartition(AllocateConstGraph(nv, partitions))
  {
    assert Disjoint(partitions) by {
      forall p, q, v | 0 <= p < q < |partitions| && v in partitions[p]
        ensures v !in partitions[q]
      {
        OffsetMonotone(partitions, p + 1, q);
      }
    }
    forall p, b | 0 <= p < |partitions| && 0 <= b < |partitions[p]|
      ensures AllocateConstGraph(nv, partitions).vertexToPartition[partitions[p][b]] == p
    {
      VertexToPartitionOwn(nv, partitions, p, b);
    }
  }

  /** After `set_next_assignment_sets` every delta edge is an edge of the
      new full graph. */
  lemma NextDeltaInFull(e: Enumerator, vertices: set<nat>, edges: seq<(nat, nat)>)
    requires WellFormed(e.layout) && GraphShape(e.delta, e.layout.nv) && GraphShape(e.full, e.layout.nv)
    requires WorkspaceShape(e.layout, e.ws)
    requires forall v :: v in vertices ==> v < e.layout.nv
    requires EdgesInRange(edges, e.layout.nv)
    ensures DeltaInFull(SetNextAssignmentSets(e, vertices, edges).delta, SetNextAssignmentSets(e, vertices, edges).full)
  {
    var r := SetNextAssignmentSets(e, vertices, edges);
    forall u, v | 0 <= u < |r.delta.adjacency| && v in r.delta.adjacency[u]
      ensures v in r.full.adjacency[u]
    {
      assert r.delta.adjacency[u] == r.full.adjacency[u] - e.full.adjacency[u];
    }
  }

  /** Edges that each join two partitions give a k-partite full graph. */
  lemma CrossEdgesKPartite(cg: ConstGraph, edges: seq<(nat, nat)>)
    requires WellFormed(cg) && EdgesInRange(edges, cg.nv)
    requires forall n :: 0 <= n < |edges| ==> cg.vertexToPartition[edges[n].0] != cg.vertexToPartition[edges[n].1]
    ensures KPartite(cg, Graph({}, AddEdges(seq(cg.nv, _ => {}), edges)))
  {
    var rows := AddEdges(seq(cg.nv, _ => {}), edges);
    forall u, v | 0 <= u < |rows| && u < |cg.vertexToPartition| && v < |cg.vertexToPartition| && v in rows[u]
      ensures cg.vertexToPartition[u] != cg.vertexToPartition[v]
    {
      AddEdgesMembers(cg.nv, edges, u, v);
      var n :| 0 <= n < |edges| && (edges[n] == (u, v) || edges[n] == (v, u));
    }
  }

  /** Every later vertex of `s` is adjacent in the full graph to every
      earlier one. */
  predicate IsClique(full: Graph, s: seq<nat>) {
    (forall a :: 0 <= a < |s| ==> s[a] < |full.adjacency|)
    && (forall a, b :: 0 <= b < a < |s| ==> s[a] in full.adjacency[s[b]])
  }

  /** No two vertices of `s` lie in the same partition. */
  predicate DistinctParts(cg: ConstGraph, s: seq<nat>) {
    (forall a :: 0 <= a < |s| ==> s[a] < |cg.vertexToPartition|)
    && (forall a, b :: 0 <= b < a < |s| ==> cg.vertexToPartition[s[a]] != cg.vertexToPartition[s[b]])
  }

  /** A clique of the full graph with one vertex from each of k distinct
      partitions. */
  predicate AllCliques(out: seq<seq<nat>>, cg: ConstGraph, full: Graph) {
    forall s :: s in out ==> IsClique(full, s) && DistinctParts(cg, s)
  }

  /** `w` is adjacent in the full graph to every vertex of `s`. */
  predicate Fits(full: Graph, s: seq<nat>, w: nat) {
    w < |full.adjacency| && forall a :: 0 <= a < |s| ==> s[a] < |full.adjacency| && w in full.adjacency[s[a]]
  }

  /** Every candidate of an unused partition at this depth fits the
      partial solution. */
  predicate CandidatesFit(cg: ConstGraph, full: Graph, ws: Workspace, depth: nat) {
    depth < |ws.compatible|
    && forall p, b :: 0 <= p < |ws.compatible[depth]| && p < |cg.partitions| && p !in ws.partitionBits
                      && b in ws.compatible[depth][p] && b < |cg.partitions[p]| ==>
         Fits(full, ws.partialSolution, cg.partitions[p][b])
  }

  /** The search state at a depth: the partial solution is a clique over
      distinct partitions, all marked used, and every candidate fits it. */
  predicate SearchSound(cg: ConstGraph, full: Graph, ws: Workspace, depth: nat) {
    IsClique(full, ws.partialSolution) && DistinctParts(cg, ws.partialSolution)
    && (forall a :: 0 <= a < |ws.partialSolution| && ws.partialSolution[a] < |cg.vertexToPartition| ==>
          cg.vertexToPartition[ws.partialSolution[a]] in ws.partitionBits)
    && CandidatesFit(cg, full, ws, depth)
  }

  /** `AllCliquesConcat` under the layout conditions. */
  lemma LayoutCliquesConcat(a: seq<seq<nat>>, b: seq<seq<nat>>, cg: ConstGraph, full: Graph, delta: Graph)
    requires Layout(cg, full, delta) ==> AllCliques(a, cg, full) && AllCliques(b, cg, full)
    ensures Layout(cg, full, delta) ==> AllCliques(a + b, cg, full)
  {
    if Layout(cg, full, delta) {
      AllCliquesConcat(a, b, cg, full);
    }
  }

  lemma AllCliquesConcat(a: seq<seq<nat>>, b: seq<seq<nat>>, cg: ConstGraph, full: Graph)
    requires AllCliques(a, cg, full) && AllCliques(b, cg, full)
    ensures AllCliques(a + b, cg, full)
  {
    forall s | s in a + b
      ensures IsClique(full, s) && DistinctParts(cg, s)
    {
      if s !in a {
        assert s in b;
      }
    }
  }

  /** A candidate of an unused partition extends the partial solution to
      a clique over distinct partitions, with the new vertex in p. */
  lemma ExtendClique(cg: ConstGraph, full: Graph, ws: Workspace, depth: nat, p: nat, bit: nat)
    requires WellFormed(cg) && GraphShape(full, cg.nv) && WorkspaceShape(cg, ws) && depth < cg.k
    requires p < cg.k && p !in ws.partitionBits && bit in ws.compatible[depth][p]
    requires OwnPartition(cg) && SearchSound(cg, full, ws, depth)
    ensures IsClique(full, ws.partialSolution + [cg.partitions[p][bit]])
    ensures DistinctParts(cg, ws.partialSolution + [cg.partitions[p][bit]])
    ensures forall a :: 0 <= a < |ws.partialSolution| + 1 ==>
              cg.vertexToPartition[(ws.partialSolution + [cg.partitions[p][bit]])[a]] in ws.partitionBits + {p}
  {
    var s := ws.partialSolution;
    var w := cg.partitions[p][bit];
    var t := s + [w];
    assert Fits(full, s, w);
    assert cg.vertexToPartition[w] == p;
    assert forall a :: 0 <= a < |s| ==> t[a] == s[a];
  }

  /** Seen from the next depth, the candidates left after adding a vertex
      fit the extended partial solution. */
  lemma AdvanceSound(cg: ConstGraph, full: Graph, delta: Graph, ws: Workspace, depth: nat, p: nat, bit: nat)
    requires WellFormed(cg) && GraphShape(full, cg.nv) && WorkspaceShape(cg, ws) && depth + 1 < cg.k
    requires p < cg.k && p !in ws.partitionBits && bit in ws.compatible[depth][p]
    requires Layout(cg, full, delta) && SearchSound(cg, full, ws, depth)
    ensures SearchSound(cg, full, Descend(cg, full, delta, Take(cg, ws, depth, p, bit), depth, p), depth + 1)
  {
    var w := cg.partitions[p][bit];
    var r := Take(cg, ws, depth, p, bit);
    var n := Descend(cg, full, delta, r, depth, p);
    assert n == AdvanceCandidates(cg, full, delta, r, w, depth).(partitionBits := r.partitionBits + {p});
    ExtendClique(cg, full, ws, depth, p, bit);
    forall q, b | 0 <= q < |n.compatible[depth + 1]| && q < |cg.partitions| && q !in n.partitionBits
                  && b in n.compatible[depth + 1][q] && b < |cg.partitions[q]|
      ensures Fits(full, n.partialSolution, cg.partitions[q][b])
    {
      AdvanceFits(cg, full, delta, ws, depth, p, bit, q, b);
    }
  }

  /** One candidate left at the next depth fits the extended partial
      solution: it fitted before, and the update kept it only if it is
      adjacent to the new vertex. */
  lemma AdvanceFits(cg: ConstGraph, full: Graph, delta: Graph, ws: Workspace, depth: nat, p: nat, bit: nat, q: nat, b: nat)
    requires WellFormed(cg) && GraphShape(full, cg.nv) && WorkspaceShape(cg, ws) && depth + 1 < cg.k
    requires p < cg.k && p !in ws.partitionBits && bit in ws.compatible[depth][p]
    requires OffsetLayout(cg) && CandidatesFit(cg, full, ws, depth)
    requires q < cg.k && q !in ws.partitionBits + {p}
    requires b in AdvanceCandidates(cg, full, delta, Take(cg, ws, depth, p, bit), cg.partitions[p][bit], depth).compatible[depth + 1][q]
    ensures Fits(full, ws.partialSolution + [cg.partitions[p][bit]], cg.partitions[q][b])
  {
    var w := cg.partitions[p][bit];
    var r := Take(cg, ws, depth, p, bit);
    assert b in r.compatible[depth][q] && KeepsCandidate(cg, full, delta, ws.anchorEdgeRank, w, b + Offset(cg.partitions, q));
    assert r.compatible[depth][q] == ws.compatible[depth][q];
    assert b < |cg.partitions[q]|;
    assert Fits(full, ws.partialSolution, cg.partitions[q][b]);
    assert cg.partitions[q][b] == b + Offset(cg.partitions, q);
  }

  /** Removing candidates at a depth keeps the state sound. */
  lemma SoundShrink(cg: ConstGraph, full: Graph, a: Workspace, b: Workspace, depth: nat)
    requires depth < |a.compatible| == |b.compatible| && |a.compatible[depth]| == |b.compatible[depth]|
    requires a.partialSolution == b.partialSolution && a.partitionBits == b.partitionBits
    requires forall q :: 0 <= q < |a.compatible[depth]| ==> b.compatible[depth][q] <= a.compatible[depth][q]
    requires SearchSound(cg, full, a, depth)
    ensures SearchSound(cg, full, b, depth)
  {
  }

  /** `complete_from_seed(callback, depth)`: every emitted solution has k
      vertices and extends the partial solution; the partial solution, the
      used partitions and the candidates of lower depths are restored.
      Under the layout conditions every solution is a clique of the full
      graph over distinct partitions. */
  method CompleteFromSeed(cg: ConstGraph, full: Graph, delta: Graph, ws: Workspace, depth: nat)
    returns (r: Workspace, out: seq<seq<nat>>)
    requires WellFormed(cg) && GraphShape(full, cg.nv) && WorkspaceShape(cg, ws)
    requires |ws.partialSolution| == depth + 2 && depth + 2 < cg.k
    ensures WorkspaceShape(cg, r)
    ensures r.partialSolution == ws.partialSolution && r.partitionBits == ws.partitionBits
    ensures r.anchorEdgeRank == ws.anchorEdgeRank
    ensures forall d :: 0 <= d < depth ==> r.compatible[d] == ws.compatible[d]
    ensures forall s :: s in out ==> |s| == cg.k && IsPrefix(ws.partialSolution, s)
    ensures Layout(cg, full, delta) && SearchSound(cg, full, ws, depth) ==> AllCliques(out, cg, full)
    decreases cg.k - |ws.partialSolution|, 1
  {
    r := ws;
    out := [];
    var best := ChooseBestPartition(ws.compatible[depth], ws.partitionBits, cg.k);
    if best.None? {
      return;
    }
    var p := best.value;
    var width := |cg.partitions[p]|;
    var bit := 0;
    while bit < width
      invariant WorkspaceShape(cg, r)
      invariant r.partialSolution == ws.partialSolution && r.partitionBits == ws.partitionBits
      invariant r.anchorEdgeRank == ws.anchorEdgeRank
      invariant forall d :: 0 <= d < depth ==> r.compatible[d] == ws.compatible[d]
      invariant forall q :: 0 <= q < cg.k ==> r.compatible[depth][q] <= ws.compatible[depth][q]
      invariant forall s :: s in out ==> |s| == cg.k && IsPrefix(ws.partialSolution, s)
      invariant SearchSound(cg, full, ws, depth) ==> SearchSound(cg, full, r, depth)
      invariant Layout(cg, full, delta) && SearchSound(cg, full, ws, depth) ==> AllCliques(out, cg, full)
    {
      if bit in r.compatible[depth][p] {
        var before := r;
        var sub;
        r, sub := ExtendBy(cg, full, delta, r, depth, p, bit);
        if SearchSound(cg, full, ws, depth) {
          SoundShrink(cg, full, before, r, depth);
          if Layout(cg, full, delta) {
            AllCliquesConcat(out, sub, cg, full);
          }
        }
        out := out + sub;
      }
      bit := bit + 1;
    }
  }

  /** Bit `bit` of partition p taken: removed from the candidates at this
      depth and its vertex appended to the partial solution. */
  function Take(cg: ConstGraph, ws: Workspace, depth: nat, p: nat, bit: nat): (r: Workspace)
    requires WellFormed(cg) && WorkspaceShape(cg, ws) && depth < cg.k && p < cg.k && bit in ws.compatible[depth][p]
    ensures WorkspaceShape(cg, r)
    ensures r.partialSolution == ws.partialSolution + [cg.partitions[p][bit]]
    ensures r.partitionBits == ws.partitionBits && r.anchorEdgeRank == ws.anchorEdgeRank
    ensures forall d :: 0 <= d < cg.k && d != depth ==> r.compatible[d] == ws.compatible[d]
    ensures r.compatible[depth] == ws.compatible[depth][p := ws.compatible[depth][p] - {bit}]
  {
    var row := ws.compatible[depth][p := ws.compatible[depth][p] - {bit}];
    ws.(compatible := ws.compatible[depth := row], partialSolution := ws.partialSolution + [cg.partitions[p][bit]])
  }

  /** The candidates of the next depth for the taken vertex, with its
      partition marked used. */
  function Descend(cg: ConstGraph, full: Graph, delta: Graph, taken: Workspace, depth: nat, p: nat): (r: Workspace)
    requires WellFormed(cg) && GraphShape(full, cg.nv) && WorkspaceShape(cg, taken)
    requires depth + 1 < cg.k && |taken.partialSolution| > 0 && taken.partialSolution[|taken.partialSolution| - 1] < cg.nv
    ensures WorkspaceShape(cg, r)
    ensures r.partialSolution == taken.partialSolution && r.partitionBits == taken.partitionBits + {p}
    ensures r.anchorEdgeRank == taken.anchorEdgeRank
    ensures forall d :: 0 <= d < cg.k && d != depth + 1 ==> r.compatible[d] == taken.compatible[d]
  {
    var next := AdvanceCandidates(cg, full, delta, taken, taken.partialSolution[|taken.partialSolution| - 1], depth);
    next.(partitionBits := next.partitionBits + {p})
  }

  /** One iteration of the candidate loop: take bit `bit` of partition p,
      emit the solution or search the next depth, then restore the
      workspace with the bit removed from the candidates. */
  method ExtendBy(cg: ConstGraph, full: Graph, delta: Graph, ws: Workspace, depth: nat, p: nat, bit: nat)
    returns (r: Workspace, out: seq<seq<nat>>)
    requires WellFormed(cg) && GraphShape(full, cg.nv) && WorkspaceShape(cg, ws)
    requires |ws.partialSolution| == depth + 2 && depth + 2 < cg.k
    requires p < cg.k && p !in ws.partitionBits && bit in ws.compatible[depth][p]
    ensures WorkspaceShape(cg, r)
    ensures r.partialSolution == ws.partialSolution && r.partitionBits == ws.partitionBits
    ensures r.anchorEdgeRank == ws.anchorEdgeRank
    ensures forall d :: 0 <= d < depth ==> r.compatible[d] == ws.compatible[d]
    ensures r.compatible[depth] == ws.compatible[depth][p := ws.compatible[depth][p] - {bit}]
    ensures forall s :: s in out ==> |s| == cg.k && IsPrefix(ws.partialSolution, s)
    ensures Layout(cg, full, delta) && SearchSound(cg, full, ws, depth) ==> AllCliques(out, cg, full)
    decreases cg.k - |ws.partialSolution|, 0
  {
    var vertex := cg.partitions[p][bit];
    var taken := Take(cg, ws, depth, p, bit);
    if |taken.partialSolution| == cg.k {
      out := [taken.partialSolution];
      r := taken;
      if Layout(cg, full, delta) && SearchSound(cg, full, ws, depth) {
        ExtendClique(cg, full, ws, depth, p, bit);
      }
    } else {
      if Layout(cg, full, delta) && SearchSound(cg, full, ws, depth) {
        AdvanceSound(cg, full, delta, ws, depth, p, bit);
      }
      r, out := SearchDeeper(cg, full, delta, taken, depth, p);
      forall s | s in out
        ensures IsPrefix(ws.partialSolution, s)
      {
        PrefixOfExtension(ws.partialSolution, vertex, s);
      }
    }
    r := r.(partialSolution := r.partialSolution[..|r.partialSolution| - 1]);
  }

  /** The recursive branch of the candidate loop: the next depth's
      candidates for the taken vertex, searched when enough partitions
      still have candidates, and the taken partition released again. */
  method SearchDeeper(cg: ConstGraph, full: Graph, delta: Graph, taken: Workspace, depth: nat, p: nat)
    returns (r: Workspace, out: seq<seq<nat>>)
    requires WellFormed(cg) && GraphShape(full, cg.nv) && WorkspaceShape(cg, taken)
    requires |taken.partialSolution| == depth + 3 && depth + 3 < cg.k
    requires taken.partialSolution[depth + 2] < cg.nv && p < cg.k && p !in taken.partitionBits
    ensures WorkspaceShape(cg, r)
    ensures r.partialSolution == taken.partialSolution && r.partitionBits == taken.partitionBits
    ensures r.anchorEdgeRank == taken.anchorEdgeRank
    ensures forall d :: 0 <= d <= depth ==> r.compatible[d] == taken.compatible[d]
    ensures forall s :: s in out ==> |s| == cg.k && IsPrefix(taken.partialSolution, s)
    ensures Layout(cg, full, delta) && SearchSound(cg, full, Descend(cg, full, delta, taken, depth, p), depth + 1) ==>
              AllCliques(out, cg, full)
    decreases cg.k - |taken.partialSolution|, 2
  {
    var next := Descend(cg, full, delta, taken, depth, p);
    out := [];
    if |next.partialSolution| + NumPossibleAdditions(next.compatible[depth + 1], next.partitionBits, cg.k) == cg.k {
      next, out := CompleteFromSeed(cg, full, delta, next, depth + 1);
    }
    r := next.(partitionBits := next.partitionBits - {p});
  }

  /** The delta edges (i, b) of row i with j <= b < nv, in column order. */
  function RowPairs(rows: seq<set<nat>>, nv: nat, i: nat, j: nat): seq<seq<nat>>
    requires |rows| == nv && i < nv
    decreases nv - j
  {
    if j >= nv then []
    else (if j in rows[i] then [[i, j]] else []) + RowPairs(rows, nv, i, j + 1)
  }

  /** The delta edges (a, b) with i <= a < b < nv, in the order the
      nested row scan visits them. */
  function DeltaPairsFrom(rows: seq<set<nat>>, nv: nat, i: nat): seq<seq<nat>>
    requires |rows| == nv
    decreases nv - i
  {
    if i >= nv then [] else RowPairs(rows, nv, i, i + 1) + DeltaPairsFrom(rows, nv, i + 1)
  }

  /** All delta edges of the graph, in scan order. */
  function DeltaPairs(delta: Graph, nv: nat): seq<seq<nat>>
    requires |delta.adjacency| == nv
  {
    DeltaPairsFrom(delta.adjacency, nv, 0)
  }

  /** Seeding from a delta edge gives a sound search state: the anchor is
      an edge of the full graph across two partitions, and every depth-0
      candidate is adjacent to both ends. */
  lemma SeedSound(cg: ConstGraph, full: Graph, delta: Graph, ws: Workspace, i: nat, j: nat)
    requires WellFormed(cg) && GraphShape(full, cg.nv) && WorkspaceShape(cg, ws)
    requires i < cg.nv && j < cg.nv && 1 <= cg.k
    requires Layout(cg, full, delta) && i < |delta.adjacency| && j in delta.adjacency[i]
    ensures SearchSound(cg, full, SeedFromAnchor(cg, full, delta, ws, i, j), 0)
  {
    var r := SeedFromAnchor(cg, full, delta, ws, i, j);
    assert j in full.adjacency[i];
    assert r.partialSolution[0] == i && r.partialSolution[1] == j;
  }

  /** The body of the row scan for one delta edge (i, j): the pair itself
      for k = 2, otherwise the completions of the seeded anchor. */
  method VisitAnchor(cg: ConstGraph, full: Graph, delta: Graph, ws: Workspace, i: nat, j: nat)
    returns (r: Workspace, out: seq<seq<nat>>)
    requires WellFormed(cg) && GraphShape(full, cg.nv) && WorkspaceShape(cg, ws)
    requires cg.k >= 2 && i < cg.nv && j < cg.nv
    ensures WorkspaceShape(cg, r)
    ensures forall s :: s in out ==> |s| == cg.k && s[0] == i && s[1] == j
    ensures cg.k == 2 ==> out == [[i, j]]
    ensures Layout(cg, full, delta) && i < |delta.adjacency| && j in delta.adjacency[i] ==> AllCliques(out, cg, full)
  {
    if cg.k == 2 {
      r := ws.(partialSolution := [i, j]);
      out := [[i, j]];
    } else {
      r := SeedFromAnchor(cg, full, delta, ws, i, j);
      if Layout(cg, full, delta) && i < |delta.adjacency| && j in delta.adjacency[i] {
        SeedSound(cg, full, delta, ws, i, j);
      }
      var sub;
      r, sub := CompleteFromSeed(cg, full, delta, r, 0);
      forall s | s in sub
        ensures s[0] == i && s[1] == j
      {
        assert s[..2] == [i, j];
        assert s[0] == s[..2][0] && s[1] == s[..2][1];
      }
      out := sub;
    }
  }

  /** The inner scan of row i: every set bit j > i of the delta row. */
  method ScanRow(cg: ConstGraph, full: Graph, delta: Graph, ws: Workspace, i: nat)
    returns (r: Workspace, out: seq<seq<nat>>)
    requires WellFormed(cg) && GraphShape(full, cg.nv) && GraphShape(delta, cg.nv) && WorkspaceShape(cg, ws)
    requires cg.k >= 2 && i < cg.nv
    ensures WorkspaceShape(cg, r)
    ensures AllAnchored(out, cg, delta)
    ensures forall s :: s in out ==> s[0] == i
    ensures cg.k == 2 ==> out == RowPairs(delta.adjacency, cg.nv, i, i + 1)
    ensures Layout(cg, full, delta) ==> AllCliques(out, cg, full)
  {
    r := ws;
    out := [];
    var j := i + 1;
    while j < cg.nv
      invariant i + 1 <= j <= cg.nv
      invariant WorkspaceShape(cg, r)
      invariant forall s :: s in out ==> |s| == cg.k && s[0] == i && i < s[1] < cg.nv && s[1] in delta.adjacency[i]
      invariant cg.k == 2 ==> out + RowPairs(delta.adjacency, cg.nv, i, j) == RowPairs(delta.adjacency, cg.nv, i, i + 1)
      invariant Layout(cg, full, delta) ==> AllCliques(out, cg, full)
    {
      var sub: seq<seq<nat>> := [];
      if j in delta.adjacency[i] {
        r, sub := VisitAnchor(cg, full, delta, r, i, j);
      }
      ScanRowStep(cg, delta, out, sub, i, j);
      LayoutCliquesConcat(out, sub, cg, full, delta);
      out := out + sub;
      j := j + 1;
    }
  }

  /** One column of the row scan: the solutions of a delta edge (i, j)
      extend the row's solutions, and for k = 2 they are the pair itself. */
  lemma ScanRowStep(cg: ConstGraph, delta: Graph, out: seq<seq<nat>>, sub: seq<seq<nat>>, i: nat, j: nat)
    requires GraphShape(delta, cg.nv) && cg.k >= 2 && i < j < cg.nv
    requires sub == [] || j in delta.adjacency[i]
    requires forall s :: s in sub ==> |s| == cg.k && s[0] == i && s[1] == j
    requires cg.k == 2 ==> sub == if j in delta.adjacency[i] then [[i, j]] else []
    requires forall s :: s in out ==> |s| == cg.k && s[0] == i && i < s[1] < cg.nv && s[1] in delta.adjacency[i]
    ensures forall s :: s in out + sub ==> |s| == cg.k && s[0] == i && i < s[1] < cg.nv && s[1] in delta.adjacency[i]
    ensures cg.k == 2 ==> out + RowPairs(delta.adjacency, cg.nv, i, j) == (out + sub) + RowPairs(delta.adjacency, cg.nv, i, j + 1)
  {
    forall s | s in out + sub
      ensures |s| == cg.k && s[0] == i && i < s[1] < cg.nv && s[1] in delta.adjacency[i]
    {
      if s !in out {
        assert s in sub;
      }
    }
  }

  /** Every solution has k vertices and starts with a delta edge
      (i, j), i < j < nv. */
  predicate AllAnchored(out: seq<seq<nat>>, cg: ConstGraph, delta: Graph)
    requires |delta.adjacency| == cg.nv
  {
    forall s :: s in out ==> |s| == cg.k && 2 <= |s| && s[0] < s[1] < cg.nv && s[1] in delta.adjacency[s[0]]
  }

  lemma AllAnchoredConcat(a: seq<seq<nat>>, b: seq<seq<nat>>, cg: ConstGraph, delta: Graph)
    requires |delta.adjacency| == cg.nv
    requires AllAnchored(a, cg, delta) && AllAnchored(b, cg, delta)
    ensures AllAnchored(a + b, cg, delta)
  {
    forall s | s in a + b
      ensures |s| == cg.k && 2 <= |s| && s[0] < s[1] < cg.nv && s[1] in delta.adjacency[s[0]]
    {
      if s !in a {
        assert s in b;
      }
    }
  }

  /** Appending the scan of row i to the pairs before it leaves the pairs
      of the later rows. */
  lemma ScanStep(rows: seq<set<nat>>, nv: nat, i: nat, out: seq<seq<nat>>, sub: seq<seq<nat>>, pairs: bool)
    requires |rows| == nv && i < nv
    requires pairs ==> sub == RowPairs(rows, nv, i, i + 1)
    ensures pairs ==> out + DeltaPairsFrom(rows, nv, i) == (out + sub) + DeltaPairsFrom(rows, nv, i + 1)
  {
    if pairs {
      assert DeltaPairsFrom(rows, nv, i) == sub + DeltaPairsFrom(rows, nv, i + 1);
    }
  }

  /** `for_each_new_k_clique`: for k = 2 the callback receives exactly
      the delta edges; otherwise every emitted solution has k vertices and
      starts with a delta edge (i, j), i < j, as its anchor. */
  method ForEachNewKClique(cg: ConstGraph, full: Graph, delta: Graph, ws: Workspace)
    returns (r: Workspace, out: seq<seq<nat>>)
    requires WellFormed(cg) && GraphShape(full, cg.nv) && GraphShape(delta, cg.nv) && WorkspaceShape(cg, ws)
    requires cg.k >= 2
    ensures WorkspaceShape(cg, r)
    ensures AllAnchored(out, cg, delta)
    ensures cg.k == 2 ==> out == DeltaPairs(delta, cg.nv)
    ensures Layout(cg, full, delta) ==> AllCliques(out, cg, full)
  {
    r := ws;
    out := [];
    var i := 0;
    while i < cg.nv
      invariant i <= cg.nv
      invariant WorkspaceShape(cg, r)
      invariant AllAnchored(out, cg, delta)
      invariant cg.k == 2 ==> out + DeltaPairsFrom(delta.adjacency, cg.nv, i) == DeltaPairs(delta, cg.nv)
      invariant Layout(cg, full, delta) ==> AllCliques(out, cg, full)
    {
      var sub;
      r, sub := ScanRow(cg, full, delta, r, i);
      AllAnchoredConcat(out, sub, cg, delta);
      LayoutCliquesConcat(out, sub, cg, full, delta);
      ScanStep(delta.adjacency, cg.nv, i, out, sub, cg.k == 2);
      out := out + sub;
      i := i + 1;
    }
  }

  lemma {:induction false} RowPairsMembers(rows: seq<set<nat>>, nv: nat, i: nat, j: nat, s: seq<nat>)
    requires |rows| == nv && i < nv
    ensures s in RowPairs(rows, nv, i, j) <==> |s| == 2 && s[0] == i && j <= s[1] < nv && s[1] in rows[i]
    decreases nv - j
  {
    if j < nv {
      RowPairsMembers(rows, nv, i, j + 1, s);
      if |s| == 2 && s[0] == i && s[1] == j {
        assert s == [i, j];
      }
    }
  }

  /** The scan lists exactly the delta edges (a, b) with i <= a < b. */
  lemma {:induction false} DeltaPairsFromMembers(rows: seq<set<nat>>, nv: nat, i: nat, s: seq<nat>)
    requires |rows| == nv
    ensures s in DeltaPairsFrom(rows, nv, i) <==> |s| == 2 && i <= s[0] < s[1] < nv && s[1] in rows[s[0]]
    decreases nv - i
  {
    if i < nv {
      RowPairsMembers(rows, nv, i, i + 1, s);
      DeltaPairsFromMembers(rows, nv, i + 1, s);
    }
  }

  /** The rank of a listed pair. */
  function PairKey(s: seq<nat>, nv: nat): nat {
    if |s| == 2 then PairRank(s[0], s[1], nv) else 0
  }

  /** Ranks strictly increase along the list, so no pair is listed twice. */
  predicate StrictlyRanked(pairs: seq<seq<nat>>, nv: nat) {
    forall a, b :: 0 <= a < b < |pairs| ==> PairKey(pairs[a], nv) < PairKey(pairs[b], nv)
  }

  lemma {:induction false} RowPairsRanked(rows: seq<set<nat>>, nv: nat, i: nat, j: nat)
    requires |rows| == nv && i < nv
    ensures StrictlyRanked(RowPairs(rows, nv, i, j), nv)
    decreases nv - j
  {
    if j < nv {
      var rest := RowPairs(rows, nv, i, j + 1);
      RowPairsRanked(rows, nv, i, j + 1);
      if j in rows[i] {
        var all := [[i, j]] + rest;
        forall b | 0 < b < |all|
          ensures PairKey(all[0], nv) < PairKey(all[b], nv)
        {
          assert all[b] in rest;
          RowPairsMembers(rows, nv, i, j + 1, all[b]);
        }
        assert StrictlyRanked(all, nv) by {
          forall a, b | 0 <= a < b < |all|
            ensures PairKey(all[a], nv) < PairKey(all[b], nv)
          {
            if 0 < a {
              assert all[a] == rest[a - 1] && all[b] == rest[b - 1];
            }
          }
        }
      }
    }
  }

  /** Concatenating two ranked lists whose ranks do not interleave keeps
      the ranks strictly increasing. */
  lemma RankedConcat(xs: seq<seq<nat>>, ys: seq<seq<nat>>, nv: nat)
    requires StrictlyRanked(xs, nv) && StrictlyRanked(ys, nv)
    requires forall a, b :: 0 <= a < |xs| && 0 <= b < |ys| ==> PairKey(xs[a], nv) < PairKey(ys[b], nv)
    ensures StrictlyRanked(xs + ys, nv)
  {
    var all := xs + ys;
    forall a, b | 0 <= a < b < |all|
      ensures PairKey(all[a], nv) < PairKey(all[b], nv)
    {
      if b < |xs| {
        assert all[a] == xs[a] && all[b] == xs[b];
      } else if a < |xs| {
        assert all[a] == xs[a] && all[b] == ys[b - |xs|];
      } else {
        assert all[a] == ys[a - |xs|] && all[b] == ys[b - |xs|];
      }
    }
  }

  lemma {:induction false} DeltaPairsFromRanked(rows: seq<set<nat>>, nv: nat, i: nat)
    requires |rows| == nv
    ensures StrictlyRanked(DeltaPairsFrom(rows, nv, i), nv)
    decreases nv - i
  {
    if i < nv {
      var row := RowPairs(rows, nv, i, i + 1);
      var rest := DeltaPairsFrom(rows, nv, i + 1);
      RowPairsRanked(rows, nv, i, i + 1);
      DeltaPairsFromRanked(rows, nv, i + 1);
      forall a, b | 0 <= a < |row| && 0 <= b < |rest|
        ensures PairKey(row[a], nv) < PairKey(rest[b], nv)
      {
        assert row[a] in row && rest[b] in rest;
        RowPairsMembers(rows, nv, i, i + 1, row[a]);
        DeltaPairsFromMembers(rows, nv, i + 1, rest[b]);
        PairRankRowOrder(i, row[a][1], rest[b][0], rest[b][1], nv);
      }
      RankedConcat(row, rest, nv);
    }
  }

  /** For k = 2 the enumeration emits every delta edge (i, j), i < j,
      and each exactly once: the list is strictly ordered by edge rank. */
  lemma DeltaPairsExact(delta: Graph, nv: nat, s: seq<nat>)
    requires |delta.adjacency| == nv
    ensures s in DeltaPairs(delta, nv) <==> |s| == 2 && s[0] < s[1] < nv && s[1] in delta.adjacency[s[0]]
    ensures StrictlyRanked(DeltaPairs(delta, nv), nv)
  {
    DeltaPairsFromMembers(delta.adjacency, nv, 0, s);
    DeltaPairsFromRanked(delta.adjacency, nv, 0);
  }
}
