/** Merging datalog formalism elements into a planning repository
    (`merge_d2p`). The element merges are those of `Merge`: the datalog
    views have the same shape, and the destination tag of predicates,
    atoms and literals is the `T_DST` parameter (by default the source
    tag). Operators are stored under the planning payload their datalog
    payload maps to. */
module MergePlanning {
  import opened Wrappers
  import opened Merge
  import MergeLaws

  /** `to_planning_payload`: a datalog (ground) function expression
      payload becomes the planning one; any other payload is kept. */
  function ToPlanningPayload(p: Payload): (r: Payload)
    ensures r == LiftedExpr || r == GroundExpr
    ensures (p == LiftedExpr || p == DatalogLiftedExpr) <==> r == LiftedExpr
    ensures (p == LiftedExpr || p == GroundExpr) ==> r == p
  {
    match p
    case DatalogLiftedExpr => LiftedExpr
    case DatalogGroundExpr => GroundExpr
    case _ => p
  }

  /** `merge_d2p(FunctionExpression)` and the operator merges it reaches:
      operators go to the containers of the planning payload, where the
      merged expression is found afterwards; an expression already there
      changes nothing, and a float constant passes through. */
  function MergeExprD2P(e: SExpr, src: Payload, d: Dest): (r: (Dest, DExpr))
    ensures Extends(d, r.0)
    ensures LookupExpr(r.0, e, ToPlanningPayload(src)) == Some(r.1)
    ensures LookupExpr(d, e, ToPlanningPayload(src)).Some? ==> r == (d, LookupExpr(d, e, ToPlanningPayload(src)).value)
    ensures e.SConst? ==> r == (d, DConst(e.value))
  {
    MergeLaws.ExprMerged(e, ToPlanningPayload(src), d);
    MergeExpr(e, ToPlanningPayload(src), d)
  }

  /** A datalog expression merged into a destination that already holds
      the same planning expression finds every part and adds nothing:
      both land in the same containers. */
  lemma DatalogExprSharesPlanningEntries(e: SExpr, ground: bool, d: Dest)
    ensures var planning := if ground then GroundExpr else LiftedExpr;
            var datalog := if ground then DatalogGroundExpr else DatalogLiftedExpr;
            var (d1, x) := MergeExpr(e, planning, d);
            MergeExprD2P(e, datalog, d1) == (d1, x)
  {
    var planning := if ground then GroundExpr else LiftedExpr;
    MergeLaws.ExprMerged(e, planning, d);
    MergeLaws.ExprMerged(e, planning, MergeExpr(e, planning, d).0);
  }

  /** Merging an atom changes no container but its predicate's, the
      objects' and its own. */
  lemma AtomTouches(a: SAtom, tag: Kind, d: Dest, s: Sort)
    requires s != PredicateSort(tag) && s != ObjectSort && s != AtomSort(tag)
    ensures Container(MergeAtom(a, tag, d).0, s) == Container(d, s)
  {
    var (d1, pi, _) := MergePredicate(a.pred, tag, d);
    MergeLaws.GetOrCreateInTouches(d, PredicateE(tag, a.pred.name, a.pred.arity), s);
    MergeLaws.TermsTouchObjectsOnly(a.terms, d1, s);
    var (d2, ts) := MergeTerms(a.terms, d1);
    MergeLaws.GetOrCreateInTouches(d2, AtomE(tag, pi, ts), s);
  }

  /** `merge_d2p(Predicate)` under `T_DST`: the predicate is stored with
      its name and arity under the destination tag, and the containers of
      the source tag are left as they were. */
  lemma PredicateRetagged(pr: SPredicate, src: Kind, dst: Kind, d: Dest)
    requires src != dst
    ensures FindIn(MergePredicate(pr, dst, d).0, PredicateE(dst, pr.name, pr.arity)) == Some(MergePredicate(pr, dst, d).1)
    ensures Container(MergePredicate(pr, dst, d).0, PredicateSort(src)) == Container(d, PredicateSort(src))
  {
    MergeLaws.PredicateMerged(pr, dst, d);
    MergeLaws.GetOrCreateInTouches(d, PredicateE(dst, pr.name, pr.arity), PredicateSort(src));
  }

  /** `merge_d2p(Atom)` under `T_DST`: the atom is the stored copy under
      the destination tag; predicates and atoms of the source tag are not
      touched. */
  lemma AtomRetagged(a: SAtom, src: Kind, dst: Kind, d: Dest)
    requires src != dst
    ensures LookupAtom(MergeAtom(a, dst, d).0, a, dst) == Some(MergeAtom(a, dst, d).1)
    ensures Container(MergeAtom(a, dst, d).0, PredicateSort(src)) == Container(d, PredicateSort(src))
    ensures Container(MergeAtom(a, dst, d).0, AtomSort(src)) == Container(d, AtomSort(src))
  {
    MergeLaws.AtomMerged(a, dst, d);
    AtomTouches(a, dst, d, PredicateSort(src));
    AtomTouches(a, dst, d, AtomSort(src));
  }

  /** Merging a ground atom changes no container but its predicate's and
      its own. */
  lemma GroundAtomTouches(a: SGroundAtom, tag: Kind, d: Dest, s: Sort)
    requires s != PredicateSort(tag) && s != GroundAtomSort(tag)
    ensures Container(MergeGroundAtom(a, tag, d).0, s) == Container(d, s)
  {
    var (d1, pi, _) := MergePredicate(a.pred, tag, d);
    MergeLaws.GetOrCreateInTouches(d, PredicateE(tag, a.pred.name, a.pred.arity), s);
    MergeLaws.GetOrCreateInTouches(d1, GroundAtomE(tag, pi, a.objects), s);
  }

  /** `merge_d2p(GroundAtom)` under `T_DST`: the object list is copied
      verbatim under the retagged predicate; the source tag's containers
      are not touched. */
  lemma GroundAtomRetagged(a: SGroundAtom, src: Kind, dst: Kind, d: Dest)
    requires src != dst
    ensures LookupGroundAtom(MergeGroundAtom(a, dst, d).0, a, dst) == Some(MergeGroundAtom(a, dst, d).1)
    ensures Container(MergeGroundAtom(a, dst, d).0, PredicateSort(src)) == Container(d, PredicateSort(src))
    ensures Container(MergeGroundAtom(a, dst, d).0, GroundAtomSort(src)) == Container(d, GroundAtomSort(src))
  {
    MergeLaws.GroundAtomMerged(a, dst, d);
    GroundAtomTouches(a, dst, d, PredicateSort(src));
    GroundAtomTouches(a, dst, d, GroundAtomSort(src));
  }

  /** `merge_d2p(Literal)` under `T_DST`: the polarity is preserved and the
      literal is stored under the destination tag; literals of the source
      tag are not touched. */
  lemma LiteralRetagged(l: SLiteral, src: Kind, dst: Kind, d: Dest)
    requires src != dst
    ensures LookupLiteral(MergeLiteral(l, dst, d).0, l, dst) == Some(MergeLiteral(l, dst, d).1)
    ensures Container(MergeLiteral(l, dst, d).0, LiteralSort(src)) == Container(d, LiteralSort(src))
  {
    MergeLaws.LiteralMerged(l, dst, d);
    AtomTouches(l.atom, dst, d, LiteralSort(src));
    var (d1, ai, _) := MergeAtom(l.atom, dst, d);
    MergeLaws.GetOrCreateInTouches(d1, LiteralE(dst, l.polarity, ai), LiteralSort(src));
  }

  /** `merge_d2p(GroundLiteral)` under `T_DST`: likewise for ground
      literals. */
  lemma GroundLiteralRetagged(l: SGroundLiteral, src: Kind, dst: Kind, d: Dest)
    requires src != dst
    ensures LookupGroundLiteral(MergeGroundLiteral(l, dst, d).0, l, dst) == Some(MergeGroundLiteral(l, dst, d).1)
    ensures Container(MergeGroundLiteral(l, dst, d).0, GroundLiteralSort(src)) == Container(d, GroundLiteralSort(src))
  {
    MergeLaws.GroundLiteralMerged(l, dst, d);
    GroundAtomTouches(l.atom, dst, d, GroundLiteralSort(src));
    var (d1, ai, _) := MergeGroundAtom(l.atom, dst, d);
    MergeLaws.GetOrCreateInTouches(d1, GroundLiteralE(dst, l.polarity, ai), GroundLiteralSort(src));
  }
}
