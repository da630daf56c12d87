/** The perfect hash of vertex and edge assignments and the per-predicate
    assignment set (`PerfectAssignmentHash`, `PredicateAssignmentSet`).
    Parameter i has a domain D_i of object indices; the hash gives every
    pair [i/o] with o in D_i its own rank, plus one sentinel rank per
    parameter for the objects outside D_i, and ranks an edge as a pair of
    vertex ranks. The bitset is a set of ranks. */
module AssignmentSet {
  import opened Ranks

  /** The assignment counter is read before it is ever written; the model
      takes it to start at 0. */
  const InitialCount: nat := 0

  datatype VertexAssignment = VertexAssignment(index: nat, obj: nat)
  datatype EdgeAssignment = EdgeAssignment(firstIndex: nat, firstObject: nat, secondIndex: nat, secondObject: nat)

  /** The hash: the number of assignments, the remapping of every
      parameter (slot 0 is the sentinel of index -1) and the offsets. */
  datatype Hash = Hash(count: nat, remapping: seq<seq<nat>>, offsets: seq<nat>)

  /** Every domain object is an object index below `numObjects`. */
  predicate InRange(domains: seq<seq<nat>>, numObjects: nat) {
    forall i, k :: 0 <= i < |domains| && 0 <= k < |domains[i]| ==> domains[i][k] < numObjects
  }

  /** A domain lists no object twice. */
  predicate NoDuplicates(domain: seq<nat>) {
    forall k, l :: 0 <= k < l < |domain| ==> domain[k] != domain[l]
  }

  /** The total size of the first domains. */
  function SumLen(domains: seq<seq<nat>>): nat
    decreases |domains|
  {
    if |domains| == 0 then 0 else SumLen(domains[..|domains| - 1]) + |domains[|domains| - 1]|
  }

  /** The rank of parameter i's sentinel: the running count when the
      constructor reaches parameter i. */
  function Slot(domains: seq<seq<nat>>, i: nat): nat
    requires i <= |domains|
  {
    InitialCount + 1 + i + SumLen(domains[..i])
  }

  /** The remapping of one parameter: object o is stored at o + 1; the
      k-th domain object is renumbered k + 1, everything else 0. */
  function RemapOf(domain: seq<nat>, numObjects: nat): (r: seq<nat>)
    requires forall k :: 0 <= k < |domain| ==> domain[k] < numObjects
    ensures |r| == numObjects + 1
    decreases |domain|
  {
    if |domain| == 0 then seq(numObjects + 1, _ => 0)
    else RemapOf(domain[..|domain| - 1], numObjects)[domain[|domain| - 1] + 1 := |domain|]
  }

  /** The constructor: parameters are processed in order, each taking a
      sentinel rank and then one rank per domain object. */
  function BuildHash(domains: seq<seq<nat>>, numObjects: nat): (h: Hash)
    requires InRange(domains, numObjects)
    ensures |h.remapping| == |domains| + 1 && |h.offsets| == |domains| + 1
    ensures h.remapping[0] == [0] && h.offsets[0] == InitialCount
    ensures forall i :: 1 <= i <= |domains| ==> h.remapping[i] == RemapOf(domains[i - 1], numObjects)
    ensures forall i :: 1 <= i <= |domains| ==> h.offsets[i] == Slot(domains, i - 1)
    ensures h.count == Slot(domains, |domains|)
    decreases |domains|
  {
    if |domains| == 0 then Hash(InitialCount + 1, [[0]], [InitialCount])
    else
      var init := domains[..|domains| - 1];
      assert forall i :: 0 <= i < |init| ==> init[..i] == domains[..i];
      assert domains[..|init|] == init && init[..|init|] == init && domains[..|domains|] == domains;
      var last := domains[|domains| - 1];
      var h := BuildHash(init, numObjects);
      Hash(h.count + 1 + |last|, h.remapping + [RemapOf(last, numObjects)], h.offsets + [h.count])
  }

  /** The number of assignments, sentinels included. */
  function Count(domains: seq<seq<nat>>, numObjects: nat): nat
    requires InRange(domains, numObjects)
  {
    BuildHash(domains, numObjects).count
  }

  /** `is_valid` as far as the rank computation needs it: a parameter of
      the predicate and an object index. */
  predicate ValidVertex(domains: seq<seq<nat>>, numObjects: nat, va: VertexAssignment) {
    va.index < |domains| && va.obj < numObjects
  }

  predicate ValidEdge(domains: seq<seq<nat>>, numObjects: nat, ea: EdgeAssignment) {
    ValidVertex(domains, numObjects, VertexAssignment(ea.firstIndex, ea.firstObject))
    && ValidVertex(domains, numObjects, VertexAssignment(ea.secondIndex, ea.secondObject))
  }

  /** `get_assignment_rank(VertexAssignment)`. */
  function VertexRank(domains: seq<seq<nat>>, numObjects: nat, va: VertexAssignment): nat
    requires InRange(domains, numObjects) && ValidVertex(domains, numObjects, va)
  {
    var h := BuildHash(domains, numObjects);
    h.offsets[va.index + 1] + h.remapping[va.index + 1][va.obj + 1]
  }

  /** `get_assignment_rank(EdgeAssignment)`. */
  function EdgeRank(domains: seq<seq<nat>>, numObjects: nat, ea: EdgeAssignment): nat
    requires InRange(domains, numObjects) && ValidEdge(domains, numObjects, ea)
  {
    var j1 := VertexRank(domains, numObjects, VertexAssignment(ea.firstIndex, ea.firstObject));
    var j2 := VertexRank(domains, numObjects, VertexAssignment(ea.secondIndex, ea.secondObject));
    PairRank(j1, j2, Count(domains, numObjects))
  }

  /** A predicate's assignment set: the parameter domains, the number of
      objects and the set bits. */
  datatype PredicateAssignmentSet = PredicateAssignmentSet(domains: seq<seq<nat>>, numObjects: nat, bits: set<nat>)

  predicate Valid(s: PredicateAssignmentSet) {
    InRange(s.domains, s.numObjects)
  }

  /** `size`: the bitset holds hash.size() = N * N bits. */
  function Size(s: PredicateAssignmentSet): nat
    requires Valid(s)
  {
    Count(s.domains, s.numObjects) * Count(s.domains, s.numObjects)
  }

  /** The constructor: all bits cleared. */
  function NewSet(domains: seq<seq<nat>>, numObjects: nat): (s: PredicateAssignmentSet)
    requires InRange(domains, numObjects)
    ensures Valid(s) && s.bits == {}
  {
    PredicateAssignmentSet(domains, numObjects, {})
  }

  /** `reset`: clears every bit. */
  function Reset(s: PredicateAssignmentSet): (r: PredicateAssignmentSet)
    ensures r.domains == s.domains && r.numObjects == s.numObjects && r.bits == {}
  {
    s.(bits := {})
  }

  /** A ground atom of the predicate: one object per parameter. */
  predicate FitsAtom(s: PredicateAssignmentSet, objects: seq<nat>) {
    |objects| == |s.domains| && forall k :: 0 <= k < |objects| ==> objects[k] < s.numObjects
  }

  /** The inner loop of `insert_ground_atom`: the edges from `first` to
      every later position from `second` on. */
  function InsertEdges(s: PredicateAssignmentSet, objects: seq<nat>, first: nat, second: nat, bits: set<nat>): set<nat>
    requires Valid(s) && FitsAtom(s, objects) && first < |objects|
    decreases |objects| - second
  {
    if second >= |objects| then bits
    else
      var ea := EdgeAssignment(first, objects[first], second, objects[second]);
      InsertEdges(s, objects, first, second + 1, bits + {EdgeRank(s.domains, s.numObjects, ea)})
  }

  /** The outer loop of `insert_ground_atom`: the vertex of every position
      from `first` on, then its edges to the later positions. */
  function InsertVertices(s: PredicateAssignmentSet, objects: seq<nat>, first: nat, bits: set<nat>): set<nat>
    requires Valid(s) && FitsAtom(s, objects)
    decreases |objects| - first
  {
    if first >= |objects| then bits
    else
      var va := VertexAssignment(first, objects[first]);
      InsertVertices(s, objects, first + 1,
                     InsertEdges(s, objects, first, first + 1, bits + {VertexRank(s.domains, s.numObjects, va)}))
  }

  /** `insert_ground_atom`. */
  function InsertGroundAtom(s: PredicateAssignmentSet, objects: seq<nat>): (r: PredicateAssignmentSet)
    requires Valid(s) && FitsAtom(s, objects)
    ensures r.domains == s.domains && r.numObjects == s.numObjects && s.bits <= r.bits
  {
    InsertVerticesGrows(s, objects, 0, s.bits);
    s.(bits := InsertVertices(s, objects, 0, s.bits))
  }

  /** `operator[](VertexAssignment)`. */
  function ContainsVertex(s: PredicateAssignmentSet, va: VertexAssignment): bool
    requires Valid(s) && ValidVertex(s.domains, s.numObjects, va)
  {
    VertexRank(s.domains, s.numObjects, va) in s.bits
  }

  /** `operator[](EdgeAssignment)`. */
  function ContainsEdge(s: PredicateAssignmentSet, ea: EdgeAssignment): bool
    requires Valid(s) && ValidEdge(s.domains, s.numObjects, ea)
  {
    EdgeRank(s.domains, s.numObjects, ea) in s.bits
  }

  lemma {:induction false} InsertEdgesGrows(s: PredicateAssignmentSet, objects: seq<nat>, first: nat, second: nat, bits: set<nat>)
    requires Valid(s) && FitsAtom(s, objects) && first < |objects|
    ensures bits <= InsertEdges(s, objects, first, second, bits)
    decreases |objects| - second
  {
    if second < |objects| {
      var ea := EdgeAssignment(first, objects[first], second, objects[second]);
      InsertEdgesGrows(s, objects, first, second + 1, bits + {EdgeRank(s.domains, s.numObjects, ea)});
    }
  }

  lemma {:induction false} InsertVerticesGrows(s: PredicateAssignmentSet, objects: seq<nat>, first: nat, bits: set<nat>)
    requires Valid(s) && FitsAtom(s, objects)
    ensures bits <= InsertVertices(s, objects, first, bits)
    decreases |objects| - first
  {
    if first < |objects| {
      var va := VertexAssignment(first, objects[first]);
      var b1 := bits + {VertexRank(s.domains, s.numObjects, va)};
      InsertEdgesGrows(s, objects, first, first + 1, b1);
      InsertVerticesGrows(s, objects, first + 1, InsertEdges(s, objects, first, first + 1, b1));
    }
  }
}
