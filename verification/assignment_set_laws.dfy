/** What the perfect assignment hash guarantees and what
    `insert_ground_atom` makes the set answer. */
module AssignmentSetLaws {
  import opened AssignmentSet
  import Ranks

  /** Every parameter domain lists each object at most once. */
  predicate AllNoDuplicates(domains: seq<seq<nat>>) {
    forall i :: 0 <= i < |domains| ==> NoDuplicates(domains[i])
  }

  /** Two objects are indistinguishable at a parameter with domain `domain`:
      they are equal, or both fall outside the domain and share its
      sentinel. */
  predicate SameClass(domain: seq<nat>, a: nat, b: nat) {
    a == b || (a !in domain && b !in domain)
  }

  lemma {:induction false} SumLenSnoc(domains: seq<seq<nat>>, i: nat)
    requires i < |domains|
    ensures SumLen(domains[..i + 1]) == SumLen(domains[..i]) + |domains[i]|
  {
    assert domains[..i + 1][..i] == domains[..i];
  }

  /** Consecutive sentinels are one sentinel plus one domain apart. */
  lemma SlotStep(domains: seq<seq<nat>>, i: nat)
    requires i < |domains|
    ensures Slot(domains, i + 1) == Slot(domains, i) + 1 + |domains[i]|
  {
    SumLenSnoc(domains, i);
  }

  /** The ranks of parameter i end before the sentinel of any later one. */
  lemma {:induction false} SlotGap(domains: seq<seq<nat>>, i: nat, j: nat)
    requires i < j <= |domains|
    ensures Slot(domains, i) + |domains[i]| < Slot(domains, j)
    decreases j - i
  {
    SlotStep(domains, i);
    if i + 1 < j {
      SlotGap(domains, i + 1, j);
      SlotStep(domains, i + 1);
    }
  }

  /** The remapping stores at most |domain| and is non-zero exactly on the
      domain; the sentinel slot 0 maps to 0. */
  lemma {:induction false} RemapOfBounds(domain: seq<nat>, numObjects: nat)
    requires forall k :: 0 <= k < |domain| ==> domain[k] < numObjects
    ensures RemapOf(domain, numObjects)[0] == 0
    ensures forall j :: 1 <= j <= numObjects ==> RemapOf(domain, numObjects)[j] <= |domain|
    ensures forall j :: 1 <= j <= numObjects ==> (RemapOf(domain, numObjects)[j] > 0 <==> j - 1 in domain)
    decreases |domain|
  {
    if |domain| > 0 {
      var init := domain[..|domain| - 1];
      var last := domain[|domain| - 1];
      RemapOfBounds(init, numObjects);
      assert domain == init + [last];
      forall j | 1 <= j <= numObjects
        ensures RemapOf(domain, numObjects)[j] <= |domain|
        ensures RemapOf(domain, numObjects)[j] > 0 <==> j - 1 in domain
      {
        if j != last + 1 {
          assert RemapOf(domain, numObjects)[j] == RemapOf(init, numObjects)[j];
          assert j - 1 in domain <==> j - 1 in init;
        }
      }
    }
  }

  /** Without duplicates the k-th domain object is renumbered k + 1. */
  lemma {:induction false} RemapOfPosition(domain: seq<nat>, numObjects: nat)
    requires forall k :: 0 <= k < |domain| ==> domain[k] < numObjects
    requires NoDuplicates(domain)
    ensures forall k :: 0 <= k < |domain| ==> RemapOf(domain, numObjects)[domain[k] + 1] == k + 1
    decreases |domain|
  {
    if |domain| > 0 {
      var init := domain[..|domain| - 1];
      RemapOfPosition(init, numObjects);
      forall k | 0 <= k < |domain|
        ensures RemapOf(domain, numObjects)[domain[k] + 1] == k + 1
      {
        if k < |init| {
          assert init[k] == domain[k];
        }
      }
    }
  }

  /** The vertex rank is the parameter's sentinel plus the remapped object. */
  lemma VertexRankShape(domains: seq<seq<nat>>, numObjects: nat, va: VertexAssignment)
    requires InRange(domains, numObjects) && ValidVertex(domains, numObjects, va)
    ensures VertexRank(domains, numObjects, va) == Slot(domains, va.index) + RemapOf(domains[va.index], numObjects)[va.obj + 1]
  {
    var h := BuildHash(domains, numObjects);
    assert h.offsets[va.index + 1] == Slot(domains, va.index);
    assert h.remapping[va.index + 1] == RemapOf(domains[va.index], numObjects);
  }

  /** A vertex rank lies in its parameter's block, is the sentinel exactly
      when the object is outside the domain, and is below the count. */
  lemma VertexRankBounds(domains: seq<seq<nat>>, numObjects: nat, va: VertexAssignment)
    requires InRange(domains, numObjects) && ValidVertex(domains, numObjects, va)
    ensures Slot(domains, va.index) <= VertexRank(domains, numObjects, va) <= Slot(domains, va.index) + |domains[va.index]|
    ensures VertexRank(domains, numObjects, va) == Slot(domains, va.index) <==> va.obj !in domains[va.index]
    ensures 1 <= VertexRank(domains, numObjects, va) < Count(domains, numObjects)
  {
    VertexRankShape(domains, numObjects, va);
    RemapOfBounds(domains[va.index], numObjects);
    SlotGap(domains, va.index, |domains|);
  }

  /** Without duplicates, the k-th object of a domain ranks k + 1 after the
      sentinel. */
  lemma VertexRankPosition(domains: seq<seq<nat>>, numObjects: nat, va: VertexAssignment, k: nat)
    requires InRange(domains, numObjects) && ValidVertex(domains, numObjects, va)
    requires NoDuplicates(domains[va.index])
    requires k < |domains[va.index]| && domains[va.index][k] == va.obj
    ensures VertexRank(domains, numObjects, va) == Slot(domains, va.index) + k + 1
  {
    VertexRankShape(domains, numObjects, va);
    RemapOfPosition(domains[va.index], numObjects);
  }

  /** The hash is perfect: two vertex assignments share a rank exactly when
      they name the same parameter and indistinguishable objects. */
  lemma VertexRankEqual(domains: seq<seq<nat>>, numObjects: nat, va: VertexAssignment, vb: VertexAssignment)
    requires InRange(domains, numObjects) && AllNoDuplicates(domains)
    requires ValidVertex(domains, numObjects, va) && ValidVertex(domains, numObjects, vb)
    ensures VertexRank(domains, numObjects, va) == VertexRank(domains, numObjects, vb)
            <==> va.index == vb.index && SameClass(domains[va.index], va.obj, vb.obj)
  {
    VertexRankBounds(domains, numObjects, va);
    VertexRankBounds(domains, numObjects, vb);
    if va.index < vb.index {
      SlotGap(domains, va.index, vb.index);
    } else if vb.index < va.index {
      SlotGap(domains, vb.index, va.index);
    } else {
      var d := domains[va.index];
      if va.obj in d && vb.obj in d {
        var k :| 0 <= k < |d| && d[k] == va.obj;
        var l :| 0 <= l < |d| && d[l] == vb.obj;
        VertexRankPosition(domains, numObjects, va, k);
        VertexRankPosition(domains, numObjects, vb, l);
      }
    }
  }

  /** Edge ranks fill [N, N * N): they never collide with a vertex rank and
      fit the bitset. */
  lemma EdgeRankBounds(domains: seq<seq<nat>>, numObjects: nat, ea: EdgeAssignment)
    requires InRange(domains, numObjects) && ValidEdge(domains, numObjects, ea)
    ensures Count(domains, numObjects) <= EdgeRank(domains, numObjects, ea) < Count(domains, numObjects) * Count(domains, numObjects)
  {
    var v1 := VertexAssignment(ea.firstIndex, ea.firstObject);
    var v2 := VertexAssignment(ea.secondIndex, ea.secondObject);
    VertexRankBounds(domains, numObjects, v1);
    VertexRankBounds(domains, numObjects, v2);
    Ranks.PairRankBounds(VertexRank(domains, numObjects, v1), VertexRank(domains, numObjects, v2), Count(domains, numObjects));
  }

  /** Two edges share a rank exactly when both endpoints are
      indistinguishable, in order. */
  lemma EdgeRankEqual(domains: seq<seq<nat>>, numObjects: nat, ea: EdgeAssignment, eb: EdgeAssignment)
    requires InRange(domains, numObjects) && AllNoDuplicates(domains)
    requires ValidEdge(domains, numObjects, ea) && ValidEdge(domains, numObjects, eb)
    ensures EdgeRank(domains, numObjects, ea) == EdgeRank(domains, numObjects, eb)
            <==> ea.firstIndex == eb.firstIndex && SameClass(domains[ea.firstIndex], ea.firstObject, eb.firstObject)
                 && ea.secondIndex == eb.secondIndex && SameClass(domains[ea.secondIndex], ea.secondObject, eb.secondObject)
  {
    var a1 := VertexAssignment(ea.firstIndex, ea.firstObject);
    var a2 := VertexAssignment(ea.secondIndex, ea.secondObject);
    var b1 := VertexAssignment(eb.firstIndex, eb.firstObject);
    var b2 := VertexAssignment(eb.secondIndex, eb.secondObject);
    VertexRankBounds(domains, numObjects, a2);
    VertexRankBounds(domains, numObjects, b2);
    Ranks.PairRankInjective(VertexRank(domains, numObjects, a1), VertexRank(domains, numObjects, a2),
                      VertexRank(domains, numObjects, b1), VertexRank(domains, numObjects, b2), Count(domains, numObjects));
    VertexRankEqual(domains, numObjects, a1, b1);
    VertexRankEqual(domains, numObjects, a2, b2);
  }

  /** The rank of the atom's vertex at position i. */
  function AtomVertexRank(s: PredicateAssignmentSet, g: seq<nat>, i: nat): nat
    requires Valid(s) && FitsAtom(s, g) && i < |g|
  {
    VertexRank(s.domains, s.numObjects, VertexAssignment(i, g[i]))
  }

  /** The rank of the atom's edge from position i to position j. */
  function AtomEdgeRank(s: PredicateAssignmentSet, g: seq<nat>, i: nat, j: nat): nat
    requires Valid(s) && FitsAtom(s, g) && i < |g| && j < |g|
  {
    EdgeRank(s.domains, s.numObjects, EdgeAssignment(i, g[i], j, g[j]))
  }

  /** The inner loop adds exactly the edges from `first` to the positions
      from `second` on. */
  lemma {:induction false} InsertEdgesMembers(s: PredicateAssignmentSet, g: seq<nat>, first: nat, second: nat, bits: set<nat>, x: nat)
    requires Valid(s) && FitsAtom(s, g) && first < |g|
    ensures x in InsertEdges(s, g, first, second, bits)
            <==> x in bits || exists j :: second <= j < |g| && x == AtomEdgeRank(s, g, first, j)
    decreases |g| - second
  {
    if second < |g| {
      var e := AtomEdgeRank(s, g, first, second);
      InsertEdgesMembers(s, g, first, second + 1, bits + {e}, x);
      if x == e {
        assert second <= second < |g| && x == AtomEdgeRank(s, g, first, second);
      }
      if exists j :: second <= j < |g| && x == AtomEdgeRank(s, g, first, j) {
        var j :| second <= j < |g| && x == AtomEdgeRank(s, g, first, j);
        if j != second {
          assert second + 1 <= j < |g| && x == AtomEdgeRank(s, g, first, j);
        }
      }
    }
  }

  /** The outer loop adds exactly the vertices from `first` on and the
      ordered edges between them. */
  lemma {:induction false} InsertVerticesMembers(s: PredicateAssignmentSet, g: seq<nat>, first: nat, bits: set<nat>, x: nat)
    requires Valid(s) && FitsAtom(s, g)
    ensures x in InsertVertices(s, g, first, bits)
            <==> x in bits || AddedFrom(s, g, first, x)
    decreases |g| - first
  {
    if first < |g| {
      var b1 := bits + {AtomVertexRank(s, g, first)};
      var b2 := InsertEdges(s, g, first, first + 1, b1);
      InsertEdgesMembers(s, g, first, first + 1, b1, x);
      InsertVerticesMembers(s, g, first + 1, b2, x);
      AddedFromStep(s, g, first, x);
    }
  }

  /** The ranks added from `first` on: the vertex at `first`, its forward
      edges, and the ranks added from `first + 1` on. */
  lemma AddedFromStep(s: PredicateAssignmentSet, g: seq<nat>, first: nat, x: nat)
    requires Valid(s) && FitsAtom(s, g) && first < |g|
    ensures AddedFrom(s, g, first, x)
            <==> x == AtomVertexRank(s, g, first)
                 || (exists j :: first + 1 <= j < |g| && x == AtomEdgeRank(s, g, first, j))
                 || AddedFrom(s, g, first + 1, x)
  {
    if exists i :: first <= i < |g| && x == AtomVertexRank(s, g, i) {
      var i :| first <= i < |g| && x == AtomVertexRank(s, g, i);
      if i != first {
        assert first + 1 <= i < |g| && x == AtomVertexRank(s, g, i);
      }
    }
    if exists i, j :: first <= i < j < |g| && x == AtomEdgeRank(s, g, i, j) {
      var i, j :| first <= i < j < |g| && x == AtomEdgeRank(s, g, i, j);
      if i != first {
        assert first + 1 <= i < j < |g| && x == AtomEdgeRank(s, g, i, j);
      } else {
        assert first + 1 <= j < |g| && x == AtomEdgeRank(s, g, first, j);
      }
    }
    if exists j :: first + 1 <= j < |g| && x == AtomEdgeRank(s, g, first, j) {
      var j :| first + 1 <= j < |g| && x == AtomEdgeRank(s, g, first, j);
      assert first <= first < j < |g| && x == AtomEdgeRank(s, g, first, j);
    }
    if x == AtomVertexRank(s, g, first) {
      assert first <= first < |g| && x == AtomVertexRank(s, g, first);
    }
  }

  /** After inserting a ground atom, a vertex assignment is present exactly
      when it was before or the atom's object at that parameter is
      indistinguishable from the queried one. */
  lemma InsertedVertex(s: PredicateAssignmentSet, g: seq<nat>, va: VertexAssignment)
    requires Valid(s) && AllNoDuplicates(s.domains) && FitsAtom(s, g)
    requires ValidVertex(s.domains, s.numObjects, va)
    ensures ContainsVertex(InsertGroundAtom(s, g), va)
            <==> ContainsVertex(s, va) || SameClass(s.domains[va.index], g[va.index], va.obj)
  {
    var x := VertexRank(s.domains, s.numObjects, va);
    InsertVerticesMembers(s, g, 0, s.bits, x);
    VertexRankBounds(s.domains, s.numObjects, va);
    forall i, j | 0 <= i < j < |g|
      ensures x != AtomEdgeRank(s, g, i, j)
    {
      EdgeRankBounds(s.domains, s.numObjects, EdgeAssignment(i, g[i], j, g[j]));
    }
    forall i | 0 <= i < |g|
      ensures x == AtomVertexRank(s, g, i) <==> i == va.index && SameClass(s.domains[i], g[i], va.obj)
    {
      VertexRankEqual(s.domains, s.numObjects, VertexAssignment(i, g[i]), va);
    }
    if SameClass(s.domains[va.index], g[va.index], va.obj) {
      assert 0 <= va.index < |g| && x == AtomVertexRank(s, g, va.index);
    }
  }

  /** After inserting a ground atom, an edge assignment is present exactly
      when it was before or it runs forward between two positions whose
      objects are indistinguishable from the queried ones. */
  lemma InsertedEdge(s: PredicateAssignmentSet, g: seq<nat>, ea: EdgeAssignment)
    requires Valid(s) && AllNoDuplicates(s.domains) && FitsAtom(s, g)
    requires ValidEdge(s.domains, s.numObjects, ea)
    ensures ContainsEdge(InsertGroundAtom(s, g), ea)
            <==> ContainsEdge(s, ea)
                 || (ea.firstIndex < ea.secondIndex
                     && SameClass(s.domains[ea.firstIndex], g[ea.firstIndex], ea.firstObject)
                     && SameClass(s.domains[ea.secondIndex], g[ea.secondIndex], ea.secondObject))
  {
    var x := EdgeRank(s.domains, s.numObjects, ea);
    InsertVerticesMembers(s, g, 0, s.bits, x);
    EdgeRankBounds(s.domains, s.numObjects, ea);
    forall i | 0 <= i < |g|
      ensures x != AtomVertexRank(s, g, i)
    {
      VertexRankBounds(s.domains, s.numObjects, VertexAssignment(i, g[i]));
    }
    forall i, j | 0 <= i < j < |g|
      ensures x == AtomEdgeRank(s, g, i, j)
              <==> i == ea.firstIndex && SameClass(s.domains[i], g[i], ea.firstObject)
                   && j == ea.secondIndex && SameClass(s.domains[j], g[j], ea.secondObject)
    {
      EdgeRankEqual(s.domains, s.numObjects, EdgeAssignment(i, g[i], j, g[j]), ea);
    }
    if ea.firstIndex < ea.secondIndex
       && SameClass(s.domains[ea.firstIndex], g[ea.firstIndex], ea.firstObject)
       && SameClass(s.domains[ea.secondIndex], g[ea.secondIndex], ea.secondObject)
    {
      assert 0 <= ea.firstIndex < ea.secondIndex < |g| && x == AtomEdgeRank(s, g, ea.firstIndex, ea.secondIndex);
    }
  }

  /** Every set bit is an index of the bitset of `size()` bits. */
  predicate BitsInRange(s: PredicateAssignmentSet)
    requires Valid(s)
  {
    forall x :: x in s.bits ==> x < Size(s)
  }

  /** Inserting a ground atom only sets bits inside the bitset. */
  lemma InsertKeepsRange(s: PredicateAssignmentSet, g: seq<nat>)
    requires Valid(s) && FitsAtom(s, g) && BitsInRange(s)
    ensures BitsInRange(InsertGroundAtom(s, g))
  {
    var r := InsertGroundAtom(s, g);
    forall x | x in r.bits
      ensures x < Size(r)
    {
      InsertVerticesMembers(s, g, 0, s.bits, x);
      if exists i :: 0 <= i < |g| && x == AtomVertexRank(s, g, i) {
        var i :| 0 <= i < |g| && x == AtomVertexRank(s, g, i);
        VertexRankBounds(s.domains, s.numObjects, VertexAssignment(i, g[i]));
        SquareGrows(Count(s.domains, s.numObjects));
      } else if exists i, j :: 0 <= i < j < |g| && x == AtomEdgeRank(s, g, i, j) {
        var i, j :| 0 <= i < j < |g| && x == AtomEdgeRank(s, g, i, j);
        EdgeRankBounds(s.domains, s.numObjects, EdgeAssignment(i, g[i], j, g[j]));
      }
    }
  }

  lemma SquareGrows(n: nat)
    ensures n <= n * n || n == 0
  {
    if n > 0 {
      assert n * n == n * (n - 1) + n;
    }
  }

  /** The ranks an atom sets from position `first` on. */
  predicate AddedFrom(s: PredicateAssignmentSet, g: seq<nat>, first: nat, x: nat)
    requires Valid(s) && FitsAtom(s, g)
  {
    (exists i :: first <= i < |g| && x == AtomVertexRank(s, g, i))
    || (exists i, j :: first <= i < j < |g| && x == AtomEdgeRank(s, g, i, j))
  }

  /** The ranks an atom sets depend on the domains and the number of
      objects only, not on the bits already set. */
  lemma AddedIgnoresBits(s: PredicateAssignmentSet, bits: set<nat>, g: seq<nat>, x: nat)
    requires Valid(s) && FitsAtom(s, g)
    ensures AddedFrom(s.(bits := bits), g, 0, x) == AddedFrom(s, g, 0, x)
  {
    var t := s.(bits := bits);
    forall i | 0 <= i < |g|
      ensures AtomVertexRank(t, g, i) == AtomVertexRank(s, g, i)
    {
    }
    forall i, j | 0 <= i < j < |g|
      ensures AtomEdgeRank(t, g, i, j) == AtomEdgeRank(s, g, i, j)
    {
    }
  }

  /** Inserting the same ground atom twice sets no further bit. */
  lemma InsertIdempotent(s: PredicateAssignmentSet, g: seq<nat>)
    requires Valid(s) && FitsAtom(s, g)
    ensures InsertGroundAtom(InsertGroundAtom(s, g), g) == InsertGroundAtom(s, g)
  {
    var r := InsertGroundAtom(s, g);
    var rr := InsertGroundAtom(r, g);
    forall x
      ensures x in rr.bits <==> x in r.bits
    {
      InsertVerticesMembers(s, g, 0, s.bits, x);
      InsertVerticesMembers(r, g, 0, r.bits, x);
      AddedIgnoresBits(s, r.bits, g, x);
    }
  }

  /** The order in which ground atoms are inserted does not matter. */
  lemma InsertCommutes(s: PredicateAssignmentSet, g: seq<nat>, h: seq<nat>)
    requires Valid(s) && FitsAtom(s, g) && FitsAtom(s, h)
    ensures InsertGroundAtom(InsertGroundAtom(s, g), h) == InsertGroundAtom(InsertGroundAtom(s, h), g)
  {
    var sg := InsertGroundAtom(s, g);
    var sh := InsertGroundAtom(s, h);
    var a := InsertGroundAtom(sg, h);
    var b := InsertGroundAtom(sh, g);
    forall x
      ensures x in a.bits <==> x in b.bits
    {
      InsertVerticesMembers(s, g, 0, s.bits, x);
      InsertVerticesMembers(s, h, 0, s.bits, x);
      InsertVerticesMembers(sg, h, 0, sg.bits, x);
      InsertVerticesMembers(sh, g, 0, sh.bits, x);
      AddedIgnoresBits(s, sg.bits, h, x);
      AddedIgnoresBits(s, sh.bits, g, x);
    }
  }
}
