/** What `merge_p2p` guarantees. For every element kind, `LookupX` reads a
    source element back from a destination without creating anything,
    and the merge laws relate the two: after a merge the destination holds
    a structural copy of the source element under the returned index,
    nothing stored before moves, and merging an element that is already
    stored changes nothing and reports `false`. Merging twice is therefore
    the same as merging once. */
module MergeLaws {
  import opened Wrappers
  import opened Merge

  // Lookups survive extension

  lemma TermStable(d: Dest, d2: Dest, t: STerm)
    requires Extends(d, d2) && LookupTerm(d, t).Some?
    ensures LookupTerm(d2, t) == LookupTerm(d, t)
  {
    if t.SObj? {
      assert FindIn(d, ObjectE(t.obj.name)).Some?;
    }
  }

  lemma {:induction false} TermsStable(d: Dest, d2: Dest, ts: seq<STerm>)
    requires Extends(d, d2) && LookupTerms(d, ts).Some?
    ensures LookupTerms(d2, ts) == LookupTerms(d, ts)
  {
    if |ts| > 0 {
      TermStable(d, d2, ts[0]);
      TermsStable(d, d2, ts[1..]);
    }
  }

  lemma AtomStable(d: Dest, d2: Dest, a: SAtom, tag: Kind)
    requires Extends(d, d2) && LookupAtom(d, a, tag).Some?
    ensures LookupAtom(d2, a, tag) == LookupAtom(d, a, tag)
  {
    assert FindIn(d, PredicateE(tag, a.pred.name, a.pred.arity)).Some?;
    TermsStable(d, d2, a.terms);
    assert FindIn(d, AtomE(tag, LookupPredicate(d, a.pred, tag).value, LookupTerms(d, a.terms).value)).Some?;
  }

  lemma GroundAtomStable(d: Dest, d2: Dest, a: SGroundAtom, tag: Kind)
    requires Extends(d, d2) && LookupGroundAtom(d, a, tag).Some?
    ensures LookupGroundAtom(d2, a, tag) == LookupGroundAtom(d, a, tag)
  {
    assert FindIn(d, PredicateE(tag, a.pred.name, a.pred.arity)).Some?;
    assert FindIn(d, GroundAtomE(tag, LookupPredicate(d, a.pred, tag).value, a.objects)).Some?;
  }

  lemma {:induction false} GroundAtomsStable(d: Dest, d2: Dest, atoms: seq<SGroundAtom>, tag: Kind)
    requires Extends(d, d2) && LookupGroundAtoms(d, atoms, tag).Some?
    ensures LookupGroundAtoms(d2, atoms, tag) == LookupGroundAtoms(d, atoms, tag)
  {
    if |atoms| > 0 {
      GroundAtomStable(d, d2, atoms[0], tag);
      GroundAtomsStable(d, d2, atoms[1..], tag);
    }
  }

  lemma FDRVariableStable(d: Dest, d2: Dest, v: SFDRVariable)
    requires Extends(d, d2) && LookupFDRVariable(d, v).Some?
    ensures LookupFDRVariable(d2, v) == LookupFDRVariable(d, v)
  {
    GroundAtomsStable(d, d2, v.atoms, Fluent);
    assert FindIn(d, FDRVariableE(v.domainSize, LookupGroundAtoms(d, v.atoms, Fluent).value)).Some?;
  }

  lemma LiteralStable(d: Dest, d2: Dest, l: SLiteral, tag: Kind)
    requires Extends(d, d2) && LookupLiteral(d, l, tag).Some?
    ensures LookupLiteral(d2, l, tag) == LookupLiteral(d, l, tag)
  {
    AtomStable(d, d2, l.atom, tag);
    assert FindIn(d, LiteralE(tag, l.polarity, LookupAtom(d, l.atom, tag).value)).Some?;
  }

  lemma {:induction false} LiteralsStable(d: Dest, d2: Dest, ls: seq<SLiteral>, tag: Kind)
    requires Extends(d, d2) && LookupLiterals(d, ls, tag).Some?
    ensures LookupLiterals(d2, ls, tag) == LookupLiterals(d, ls, tag)
  {
    if |ls| > 0 {
      LiteralStable(d, d2, ls[0], tag);
      LiteralsStable(d, d2, ls[1..], tag);
    }
  }

  lemma GroundLiteralStable(d: Dest, d2: Dest, l: SGroundLiteral, tag: Kind)
    requires Extends(d, d2) && LookupGroundLiteral(d, l, tag).Some?
    ensures LookupGroundLiteral(d2, l, tag) == LookupGroundLiteral(d, l, tag)
  {
    GroundAtomStable(d, d2, l.atom, tag);
    assert FindIn(d, GroundLiteralE(tag, l.polarity, LookupGroundAtom(d, l.atom, tag).value)).Some?;
  }

  lemma FunctionTermStable(d: Dest, d2: Dest, ft: SFunctionTerm, tag: Kind)
    requires Extends(d, d2) && LookupFunctionTerm(d, ft, tag).Some?
    ensures LookupFunctionTerm(d2, ft, tag) == LookupFunctionTerm(d, ft, tag)
  {
    TermsStable(d, d2, ft.terms);
    assert FindIn(d, FunctionTermE(tag, ft.func.index, LookupTerms(d, ft.terms).value)).Some?;
  }

  lemma GroundFunctionTermValueStable(d: Dest, d2: Dest, v: SGroundFunctionTermValue, tag: Kind)
    requires Extends(d, d2) && LookupGroundFunctionTermValue(d, v, tag).Some?
    ensures LookupGroundFunctionTermValue(d2, v, tag) == LookupGroundFunctionTermValue(d, v, tag)
  {
    assert FindIn(d, GroundFunctionTermE(tag, v.fterm.func.index, v.fterm.objects)).Some?;
    assert FindIn(d, GroundFunctionTermValueE(tag, LookupGroundFunctionTerm(d, v.fterm, tag).value, v.value)).Some?;
  }

  lemma {:induction false} ExprStable(d: Dest, d2: Dest, e: SExpr, p: Payload)
    requires Extends(d, d2) && LookupExpr(d, e, p).Some?
    ensures LookupExpr(d2, e, p) == LookupExpr(d, e, p)
    decreases e
  {
    match e
    case SConst(_) =>
    case SUnary(op, arg) =>
      ExprStable(d, d2, arg, p);
      assert FindIn(d, UnaryE(p, op, LookupExpr(d, arg, p).value)).Some?;
    case SBinary(op, lhs, rhs) =>
      ExprStable(d, d2, lhs, p);
      ExprStable(d, d2, rhs, p);
      assert FindIn(d, BinaryE(p, op, LookupExpr(d, lhs, p).value, LookupExpr(d, rhs, p).value)).Some?;
    case SMulti(op, args) =>
      ExprsStable(d, d2, args, p);
      assert FindIn(d, MultiE(p, op, LookupExprs(d, args, p).value)).Some?;
    case SFTerm(t, ft) =>
      FunctionTermStable(d, d2, ft, t);
    case SGFTerm(t, ft) =>
      assert FindIn(d, GroundFunctionTermE(t, ft.func.index, ft.objects)).Some?;
  }

  lemma {:induction false} ExprsStable(d: Dest, d2: Dest, es: seq<SExpr>, p: Payload)
    requires Extends(d, d2) && LookupExprs(d, es, p).Some?
    ensures LookupExprs(d2, es, p) == LookupExprs(d, es, p)
    decreases es
  {
    if |es| > 0 {
      ExprStable(d, d2, es[0], p);
      ExprsStable(d, d2, es[1..], p);
    }
  }

  lemma BoolStable(d: Dest, d2: Dest, b: SBool, p: Payload)
    requires Extends(d, d2) && LookupBool(d, b, p).Some?
    ensures LookupBool(d2, b, p) == LookupBool(d, b, p)
  {
    ExprStable(d, d2, SBinary(b.op, b.lhs, b.rhs), p);
  }

  lemma {:induction false} BoolsStable(d: Dest, d2: Dest, bs: seq<SBool>, p: Payload)
    requires Extends(d, d2) && LookupBools(d, bs, p).Some?
    ensures LookupBools(d2, bs, p) == LookupBools(d, bs, p)
  {
    if |bs| > 0 {
      BoolStable(d, d2, bs[0], p);
      BoolsStable(d, d2, bs[1..], p);
    }
  }

  lemma NumericEffectStable(d: Dest, d2: Dest, ne: SNumericEffect, tag: Kind)
    requires Extends(d, d2) && LookupNumericEffect(d, ne, tag).Some?
    ensures LookupNumericEffect(d2, ne, tag) == LookupNumericEffect(d, ne, tag)
  {
    FunctionTermStable(d, d2, ne.fterm, tag);
    ExprStable(d, d2, ne.fexpr, LiftedExpr);
    assert FindIn(d, NumericEffectE(ne.op, tag, LookupFunctionTerm(d, ne.fterm, tag).value,
                                    LookupExpr(d, ne.fexpr, LiftedExpr).value)).Some?;
  }

  lemma GroundNumericEffectStable(d: Dest, d2: Dest, ne: SGroundNumericEffect, tag: Kind)
    requires Extends(d, d2) && LookupGroundNumericEffect(d, ne, tag).Some?
    ensures LookupGroundNumericEffect(d2, ne, tag) == LookupGroundNumericEffect(d, ne, tag)
  {
    assert FindIn(d, GroundFunctionTermE(tag, ne.fterm.func.index, ne.fterm.objects)).Some?;
    ExprStable(d, d2, ne.fexpr, GroundExpr);
    assert FindIn(d, GroundNumericEffectE(ne.op, tag, LookupGroundFunctionTerm(d, ne.fterm, tag).value,
                                          LookupExpr(d, ne.fexpr, GroundExpr).value)).Some?;
  }

  lemma {:induction false} VariablesStable(d: Dest, d2: Dest, vs: seq<SVariable>)
    requires Extends(d, d2) && LookupVariables(d, vs).Some?
    ensures LookupVariables(d2, vs) == LookupVariables(d, vs)
  {
    if |vs| > 0 {
      assert FindIn(d, VariableE(vs[0].name)).Some?;
      VariablesStable(d, d2, vs[1..]);
    }
  }

  lemma ConjCondStable(d: Dest, d2: Dest, c: SConjCond)
    requires Extends(d, d2) && LookupConjCond(d, c).Some?
    ensures LookupConjCond(d2, c) == LookupConjCond(d, c)
  {
    VariablesStable(d, d2, c.variables);
    LiteralsStable(d, d2, c.statics, Static);
    LiteralsStable(d, d2, c.fluents, Fluent);
    LiteralsStable(d, d2, c.deriveds, Derived);
    BoolsStable(d, d2, c.constraints, LiftedExpr);
    assert LookupConjCondParts(d2, c) == LookupConjCondParts(d, c);
    assert FindIn(d, LookupConjCondParts(d, c).value).Some?;
  }

  lemma AxiomStable(d: Dest, d2: Dest, ax: SAxiom)
    requires Extends(d, d2) && LookupAxiom(d, ax).Some?
    ensures LookupAxiom(d2, ax) == LookupAxiom(d, ax)
  {
    VariablesStable(d, d2, ax.variables);
    ConjCondStable(d, d2, ax.body);
    AtomStable(d, d2, ax.head, Derived);
    assert FindIn(d, AxiomE(LookupVariables(d, ax.variables).value, LookupConjCond(d, ax.body).value,
                            LookupAtom(d, ax.head, Derived).value)).Some?;
  }

  // Merges

  /** `merge_p2p(Variable)`: the destination holds a variable of the same
      name under the returned index, and `true` is reported exactly when
      none was stored before. */
  lemma VariableMerged(v: SVariable, d: Dest)
    ensures Extends(d, MergeVariable(v, d).0)
    ensures LookupVariable(MergeVariable(v, d).0, v) == Some(MergeVariable(v, d).1)
    ensures LookupVariable(d, v).Some? ==> MergeVariable(v, d) == (d, LookupVariable(d, v).value, false)
    ensures MergeVariable(v, d).2 <==> LookupVariable(d, v).None?
  {
    GetOrCreateInSpec(d, VariableE(v.name));
  }

  /** `merge_p2p(Object)`: likewise for objects. */
  lemma ObjectMerged(o: SObject, d: Dest)
    ensures Extends(d, MergeObject(o, d).0)
    ensures LookupObject(MergeObject(o, d).0, o) == Some(MergeObject(o, d).1)
    ensures LookupObject(d, o).Some? ==> MergeObject(o, d) == (d, LookupObject(d, o).value, false)
    ensures MergeObject(o, d).2 <==> LookupObject(d, o).None?
  {
    GetOrCreateInSpec(d, ObjectE(o.name));
  }

  /** `merge_p2p(Binding)`: the stored binding has exactly the source's
      object indices. */
  lemma BindingMerged(objects: seq<nat>, d: Dest)
    ensures Extends(d, MergeBinding(objects, d).0)
    ensures FindIn(MergeBinding(objects, d).0, BindingE(objects)) == Some(MergeBinding(objects, d).1)
    ensures FindIn(d, BindingE(objects)).Some? ==>
              MergeBinding(objects, d) == (d, FindIn(d, BindingE(objects)).value, false)
  {
    GetOrCreateInSpec(d, BindingE(objects));
  }

  /** `merge_p2p(Term)`: a parameter passes through untouched; an object
      becomes the destination index of an object of the same name. */
  lemma TermMerged(t: STerm, d: Dest)
    ensures Extends(d, MergeTerm(t, d).0)
    ensures LookupTerm(MergeTerm(t, d).0, t) == Some(MergeTerm(t, d).1)
    ensures LookupTerm(d, t).Some? ==> MergeTerm(t, d) == (d, LookupTerm(d, t).value)
    ensures t.SParam? ==> MergeTerm(t, d) == (d, DParam(t.param))
  {
    if t.SObj? {
      ObjectMerged(t.obj, d);
    }
  }

  lemma {:induction false} TermsMerged(ts: seq<STerm>, d: Dest)
    ensures Extends(d, MergeTerms(ts, d).0)
    ensures LookupTerms(MergeTerms(ts, d).0, ts) == Some(MergeTerms(ts, d).1)
    ensures LookupTerms(d, ts).Some? ==> MergeTerms(ts, d) == (d, LookupTerms(d, ts).value)
  {
    if |ts| > 0 {
      TermMerged(ts[0], d);
      var d1 := MergeTerm(ts[0], d).0;
      TermsMerged(ts[1..], d1);
      var d2 := MergeTerms(ts[1..], d1).0;
      ExtendsTrans(d, d1, d2);
      TermStable(d1, d2, ts[0]);
    }
  }

  /** `merge_p2p(Predicate)`: the destination holds a predicate of the
      same name and arity, under the requested tag. */
  lemma PredicateMerged(pr: SPredicate, tag: Kind, d: Dest)
    ensures Extends(d, MergePredicate(pr, tag, d).0)
    ensures LookupPredicate(MergePredicate(pr, tag, d).0, pr, tag) == Some(MergePredicate(pr, tag, d).1)
    ensures LookupPredicate(d, pr, tag).Some? ==>
              MergePredicate(pr, tag, d) == (d, LookupPredicate(d, pr, tag).value, false)
    ensures MergePredicate(pr, tag, d).2 <==> LookupPredicate(d, pr, tag).None?
  {
    GetOrCreateInSpec(d, PredicateE(tag, pr.name, pr.arity));
  }

  /** `merge_p2p(Atom)`: the destination holds an atom over the stored
      copy of the predicate and the merged terms, in order. */
  lemma AtomMerged(a: SAtom, tag: Kind, d: Dest)
    ensures Extends(d, MergeAtom(a, tag, d).0)
    ensures LookupAtom(MergeAtom(a, tag, d).0, a, tag) == Some(MergeAtom(a, tag, d).1)
    ensures LookupAtom(d, a, tag).Some? ==> MergeAtom(a, tag, d) == (d, LookupAtom(d, a, tag).value, false)
  {
    PredicateMerged(a.pred, tag, d);
    var (d1, pi, _) := MergePredicate(a.pred, tag, d);
    TermsMerged(a.terms, d1);
    var (d2, ts) := MergeTerms(a.terms, d1);
    GetOrCreateInSpec(d2, AtomE(tag, pi, ts));
    var d3 := GetOrCreateIn(d2, AtomE(tag, pi, ts)).0;
    ExtendsTrans(d1, d2, d3);
    ExtendsTrans(d, d1, d3);
    TermsStable(d2, d3, a.terms);
    assert FindIn(d1, PredicateE(tag, a.pred.name, a.pred.arity)).Some?;
  }

  /** `merge_p2p(GroundAtom)`: the stored atom has the stored predicate
      and exactly the source's object indices. */
  lemma GroundAtomMerged(a: SGroundAtom, tag: Kind, d: Dest)
    ensures Extends(d, MergeGroundAtom(a, tag, d).0)
    ensures LookupGroundAtom(MergeGroundAtom(a, tag, d).0, a, tag) == Some(MergeGroundAtom(a, tag, d).1)
    ensures LookupGroundAtom(d, a, tag).Some? ==>
              MergeGroundAtom(a, tag, d) == (d, LookupGroundAtom(d, a, tag).value, false)
  {
    PredicateMerged(a.pred, tag, d);
    var (d1, pi, _) := MergePredicate(a.pred, tag, d);
    GetOrCreateInSpec(d1, GroundAtomE(tag, pi, a.objects));
    var d2 := GetOrCreateIn(d1, GroundAtomE(tag, pi, a.objects)).0;
    ExtendsTrans(d, d1, d2);
    assert FindIn(d1, PredicateE(tag, a.pred.name, a.pred.arity)).Some?;
  }

  lemma {:induction false} GroundAtomsMerged(atoms: seq<SGroundAtom>, tag: Kind, d: Dest)
    ensures Extends(d, MergeGroundAtoms(atoms, tag, d).0)
    ensures LookupGroundAtoms(MergeGroundAtoms(atoms, tag, d).0, atoms, tag) == Some(MergeGroundAtoms(atoms, tag, d).1)
    ensures LookupGroundAtoms(d, atoms, tag).Some? ==>
              MergeGroundAtoms(atoms, tag, d) == (d, LookupGroundAtoms(d, atoms, tag).value)
  {
    if |atoms| > 0 {
      GroundAtomMerged(atoms[0], tag, d);
      var d1 := MergeGroundAtom(atoms[0], tag, d).0;
      GroundAtomsMerged(atoms[1..], tag, d1);
      var d2 := MergeGroundAtoms(atoms[1..], tag, d1).0;
      ExtendsTrans(d, d1, d2);
      GroundAtomStable(d1, d2, atoms[0], tag);
    }
  }

  /** `merge_p2p(FDRVariable)`: the stored variable keeps the domain size
      and lists the stored fluent atoms in the source order. */
  lemma FDRVariableMerged(v: SFDRVariable, d: Dest)
    ensures Extends(d, MergeFDRVariable(v, d).0)
    ensures LookupFDRVariable(MergeFDRVariable(v, d).0, v) == Some(MergeFDRVariable(v, d).1)
    ensures LookupFDRVariable(d, v).Some? ==> MergeFDRVariable(v, d) == (d, LookupFDRVariable(d, v).value, false)
  {
    GroundAtomsMerged(v.atoms, Fluent, d);
    var (d1, atoms) := MergeGroundAtoms(v.atoms, Fluent, d);
    GetOrCreateInSpec(d1, FDRVariableE(v.domainSize, atoms));
    var d2 := GetOrCreateIn(d1, FDRVariableE(v.domainSize, atoms)).0;
    ExtendsTrans(d, d1, d2);
    GroundAtomsStable(d1, d2, v.atoms, Fluent);
  }

  /** `merge_p2p(FDRFact)`: the value is kept and the variable is the
      stored copy. */
  lemma FDRFactMerged(f: SFDRFact, d: Dest)
    ensures Extends(d, MergeFDRFact(f, d).0)
    ensures MergeFDRFact(f, d).1.value == f.value
    ensures LookupFDRVariable(MergeFDRFact(f, d).0, f.variable) == Some(MergeFDRFact(f, d).1.variable)
  {
    FDRVariableMerged(f.variable, d);
  }

  /** `merge_p2p(Literal)`: the stored literal has the source polarity and
      the stored copy of the atom. */
  lemma LiteralMerged(l: SLiteral, tag: Kind, d: Dest)
    ensures Extends(d, MergeLiteral(l, tag, d).0)
    ensures LookupLiteral(MergeLiteral(l, tag, d).0, l, tag) == Some(MergeLiteral(l, tag, d).1)
    ensures LookupLiteral(d, l, tag).Some? ==> MergeLiteral(l, tag, d) == (d, LookupLiteral(d, l, tag).value, false)
  {
    AtomMerged(l.atom, tag, d);
    var (d1, ai, _) := MergeAtom(l.atom, tag, d);
    GetOrCreateInSpec(d1, LiteralE(tag, l.polarity, ai));
    var d2 := GetOrCreateIn(d1, LiteralE(tag, l.polarity, ai)).0;
    ExtendsTrans(d, d1, d2);
    AtomStable(d1, d2, l.atom, tag);
  }

  lemma {:induction false} LiteralsMerged(ls: seq<SLiteral>, tag: Kind, d: Dest)
    ensures Extends(d, MergeLiterals(ls, tag, d).0)
    ensures LookupLiterals(MergeLiterals(ls, tag, d).0, ls, tag) == Some(MergeLiterals(ls, tag, d).1)
    ensures LookupLiterals(d, ls, tag).Some? ==> MergeLiterals(ls, tag, d) == (d, LookupLiterals(d, ls, tag).value)
  {
    if |ls| > 0 {
      LiteralMerged(ls[0], tag, d);
      var d1 := MergeLiteral(ls[0], tag, d).0;
      LiteralsMerged(ls[1..], tag, d1);
      var d2 := MergeLiterals(ls[1..], tag, d1).0;
      ExtendsTrans(d, d1, d2);
      LiteralStable(d1, d2, ls[0], tag);
    }
  }

  /** `merge_p2p(GroundLiteral)`: the stored literal has the source
      polarity and the stored copy of the ground atom. */
  lemma GroundLiteralMerged(l: SGroundLiteral, tag: Kind, d: Dest)
    ensures Extends(d, MergeGroundLiteral(l, tag, d).0)
    ensures LookupGroundLiteral(MergeGroundLiteral(l, tag, d).0, l, tag) == Some(MergeGroundLiteral(l, tag, d).1)
    ensures LookupGroundLiteral(d, l, tag).Some? ==>
              MergeGroundLiteral(l, tag, d) == (d, LookupGroundLiteral(d, l, tag).value, false)
  {
    GroundAtomMerged(l.atom, tag, d);
    var (d1, ai, _) := MergeGroundAtom(l.atom, tag, d);
    GetOrCreateInSpec(d1, GroundLiteralE(tag, l.polarity, ai));
    var d2 := GetOrCreateIn(d1, GroundLiteralE(tag, l.polarity, ai)).0;
    ExtendsTrans(d, d1, d2);
    GroundAtomStable(d1, d2, l.atom, tag);
  }

  /** `merge_p2p(Function)`: the destination holds a function of the same
      name and arity. */
  lemma FunctionMerged(f: SFunction, tag: Kind, d: Dest)
    ensures Extends(d, MergeFunction(f, tag, d).0)
    ensures FindIn(MergeFunction(f, tag, d).0, FunctionE(tag, f.name, f.arity)) == Some(MergeFunction(f, tag, d).1)
    ensures MergeFunction(f, tag, d).2 <==> FindIn(d, FunctionE(tag, f.name, f.arity)).None?
  {
    GetOrCreateInSpec(d, FunctionE(tag, f.name, f.arity));
  }

  /** `merge_p2p(FunctionTerm)`: the stored term lists the merged terms in
      order and refers to the function by its source index. */
  lemma FunctionTermMerged(ft: SFunctionTerm, tag: Kind, d: Dest)
    ensures Extends(d, MergeFunctionTerm(ft, tag, d).0)
    ensures LookupFunctionTerm(MergeFunctionTerm(ft, tag, d).0, ft, tag) == Some(MergeFunctionTerm(ft, tag, d).1)
    ensures LookupFunctionTerm(d, ft, tag).Some? ==>
              MergeFunctionTerm(ft, tag, d) == (d, LookupFunctionTerm(d, ft, tag).value, false)
  {
    TermsMerged(ft.terms, d);
    var (d1, ts) := MergeTerms(ft.terms, d);
    GetOrCreateInSpec(d1, FunctionTermE(tag, ft.func.index, ts));
    var d2 := GetOrCreateIn(d1, FunctionTermE(tag, ft.func.index, ts)).0;
    ExtendsTrans(d, d1, d2);
    TermsStable(d1, d2, ft.terms);
  }

  /** `merge_p2p(GroundFunctionTerm)`: the stored term has the source's
      function index and object indices, verbatim. */
  lemma GroundFunctionTermMerged(ft: SGroundFunctionTerm, tag: Kind, d: Dest)
    ensures Extends(d, MergeGroundFunctionTerm(ft, tag, d).0)
    ensures LookupGroundFunctionTerm(MergeGroundFunctionTerm(ft, tag, d).0, ft, tag) == Some(MergeGroundFunctionTerm(ft, tag, d).1)
    ensures LookupGroundFunctionTerm(d, ft, tag).Some? ==>
              MergeGroundFunctionTerm(ft, tag, d) == (d, LookupGroundFunctionTerm(d, ft, tag).value, false)
    ensures MergeGroundFunctionTerm(ft, tag, d).2 <==> LookupGroundFunctionTerm(d, ft, tag).None?
  {
    GetOrCreateInSpec(d, GroundFunctionTermE(tag, ft.func.index, ft.objects));
  }

  /** `merge_p2p(GroundFunctionTermValue)`: the value is kept and the term
      is the stored copy. */
  lemma GroundFunctionTermValueMerged(v: SGroundFunctionTermValue, tag: Kind, d: Dest)
    ensures Extends(d, MergeGroundFunctionTermValue(v, tag, d).0)
    ensures LookupGroundFunctionTermValue(MergeGroundFunctionTermValue(v, tag, d).0, v, tag)
            == Some(MergeGroundFunctionTermValue(v, tag, d).1)
    ensures LookupGroundFunctionTermValue(d, v, tag).Some? ==>
              MergeGroundFunctionTermValue(v, tag, d) == (d, LookupGroundFunctionTermValue(d, v, tag).value, false)
  {
    GroundFunctionTermMerged(v.fterm, tag, d);
    var (d1, fi, _) := MergeGroundFunctionTerm(v.fterm, tag, d);
    GetOrCreateInSpec(d1, GroundFunctionTermValueE(tag, fi, v.value));
    var d2 := GetOrCreateIn(d1, GroundFunctionTermValueE(tag, fi, v.value)).0;
    ExtendsTrans(d, d1, d2);
    assert FindIn(d1, GroundFunctionTermE(tag, v.fterm.func.index, v.fterm.objects)).Some?;
  }

  /** `merge_p2p(FunctionExpression)`: a constant passes through
      unchanged; any other expression is stored as a structural copy. */
  lemma {:induction false} ExprMerged(e: SExpr, p: Payload, d: Dest)
    ensures Extends(d, MergeExpr(e, p, d).0)
    ensures LookupExpr(MergeExpr(e, p, d).0, e, p) == Some(MergeExpr(e, p, d).1)
    ensures LookupExpr(d, e, p).Some? ==> MergeExpr(e, p, d) == (d, LookupExpr(d, e, p).value)
    ensures e.SConst? ==> MergeExpr(e, p, d) == (d, DConst(e.value))
    decreases e
  {
    match e
    case SConst(_) =>
    case SUnary(op, arg) =>
      ExprMerged(arg, p, d);
      var (d1, x) := MergeExpr(arg, p, d);
      GetOrCreateInSpec(d1, UnaryE(p, op, x));
      var d2 := GetOrCreateIn(d1, UnaryE(p, op, x)).0;
      ExtendsTrans(d, d1, d2);
      ExprStable(d1, d2, arg, p);
    case SBinary(op, lhs, rhs) =>
      ExprMerged(lhs, p, d);
      var (d1, l) := MergeExpr(lhs, p, d);
      ExprMerged(rhs, p, d1);
      var (d2, r) := MergeExpr(rhs, p, d1);
      GetOrCreateInSpec(d2, BinaryE(p, op, l, r));
      var d3 := GetOrCreateIn(d2, BinaryE(p, op, l, r)).0;
      ExtendsTrans(d1, d2, d3);
      ExtendsTrans(d, d1, d3);
      ExprStable(d1, d3, lhs, p);
      ExprStable(d2, d3, rhs, p);
    case SMulti(op, args) =>
      ExprsMerged(args, p, d);
      var (d1, xs) := MergeExprs(args, p, d);
      GetOrCreateInSpec(d1, MultiE(p, op, xs));
      var d2 := GetOrCreateIn(d1, MultiE(p, op, xs)).0;
      ExtendsTrans(d, d1, d2);
      ExprsStable(d1, d2, args, p);
    case SFTerm(t, ft) =>
      FunctionTermMerged(ft, t, d);
    case SGFTerm(t, ft) =>
      GroundFunctionTermMerged(ft, t, d);
  }

  lemma {:induction false} ExprsMerged(es: seq<SExpr>, p: Payload, d: Dest)
    ensures Extends(d, MergeExprs(es, p, d).0)
    ensures LookupExprs(MergeExprs(es, p, d).0, es, p) == Some(MergeExprs(es, p, d).1)
    ensures LookupExprs(d, es, p).Some? ==> MergeExprs(es, p, d) == (d, LookupExprs(d, es, p).value)
    decreases es
  {
    if |es| > 0 {
      ExprMerged(es[0], p, d);
      var d1 := MergeExpr(es[0], p, d).0;
      ExprsMerged(es[1..], p, d1);
      var d2 := MergeExprs(es[1..], p, d1).0;
      ExtendsTrans(d, d1, d2);
      ExprStable(d1, d2, es[0], p);
    }
  }

  /** `merge_p2p(BooleanOperator)`: the comparison keeps its operator and
      refers to the stored copy of the binary operator. */
  lemma BoolMerged(b: SBool, p: Payload, d: Dest)
    ensures Extends(d, MergeBool(b, p, d).0)
    ensures LookupBool(MergeBool(b, p, d).0, b, p) == Some(MergeBool(b, p, d).1)
    ensures LookupBool(d, b, p).Some? ==> MergeBool(b, p, d) == (d, LookupBool(d, b, p).value)
    ensures MergeBool(b, p, d).1.op == b.op
  {
    ExprMerged(SBinary(b.op, b.lhs, b.rhs), p, d);
  }

  lemma {:induction false} BoolsMerged(bs: seq<SBool>, p: Payload, d: Dest)
    ensures Extends(d, MergeBools(bs, p, d).0)
    ensures LookupBools(MergeBools(bs, p, d).0, bs, p) == Some(MergeBools(bs, p, d).1)
    ensures LookupBools(d, bs, p).Some? ==> MergeBools(bs, p, d) == (d, LookupBools(d, bs, p).value)
  {
    if |bs| > 0 {
      BoolMerged(bs[0], p, d);
      var d1 := MergeBool(bs[0], p, d).0;
      BoolsMerged(bs[1..], p, d1);
      var d2 := MergeBools(bs[1..], p, d1).0;
      ExtendsTrans(d, d1, d2);
      BoolStable(d1, d2, bs[0], p);
    }
  }

  /** `merge_p2p(NumericEffect)`: the stored effect keeps its operator and
      refers to the stored function term and expression. */
  lemma NumericEffectMerged(ne: SNumericEffect, tag: Kind, d: Dest)
    ensures Extends(d, MergeNumericEffect(ne, tag, d).0)
    ensures LookupNumericEffect(MergeNumericEffect(ne, tag, d).0, ne, tag) == Some(MergeNumericEffect(ne, tag, d).1)
    ensures LookupNumericEffect(d, ne, tag).Some? ==>
              MergeNumericEffect(ne, tag, d) == (d, LookupNumericEffect(d, ne, tag).value, false)
  {
    FunctionTermMerged(ne.fterm, tag, d);
    var (d1, fi, _) := MergeFunctionTerm(ne.fterm, tag, d);
    ExprMerged(ne.fexpr, LiftedExpr, d1);
    var (d2, x) := MergeExpr(ne.fexpr, LiftedExpr, d1);
    GetOrCreateInSpec(d2, NumericEffectE(ne.op, tag, fi, x));
    var d3 := GetOrCreateIn(d2, NumericEffectE(ne.op, tag, fi, x)).0;
    ExtendsTrans(d1, d2, d3);
    ExtendsTrans(d, d1, d3);
    FunctionTermStable(d1, d3, ne.fterm, tag);
    ExprStable(d2, d3, ne.fexpr, LiftedExpr);
  }

  /** `merge_p2p(GroundNumericEffect)`: likewise for ground effects. */
  lemma GroundNumericEffectMerged(ne: SGroundNumericEffect, tag: Kind, d: Dest)
    ensures Extends(d, MergeGroundNumericEffect(ne, tag, d).0)
    ensures LookupGroundNumericEffect(MergeGroundNumericEffect(ne, tag, d).0, ne, tag)
            == Some(MergeGroundNumericEffect(ne, tag, d).1)
    ensures LookupGroundNumericEffect(d, ne, tag).Some? ==>
              MergeGroundNumericEffect(ne, tag, d) == (d, LookupGroundNumericEffect(d, ne, tag).value, false)
  {
    GroundFunctionTermMerged(ne.fterm, tag, d);
    var (d1, fi, _) := MergeGroundFunctionTerm(ne.fterm, tag, d);
    ExprMerged(ne.fexpr, GroundExpr, d1);
    var (d2, x) := MergeExpr(ne.fexpr, GroundExpr, d1);
    GetOrCreateInSpec(d2, GroundNumericEffectE(ne.op, tag, fi, x));
    var d3 := GetOrCreateIn(d2, GroundNumericEffectE(ne.op, tag, fi, x)).0;
    ExtendsTrans(d1, d2, d3);
    ExtendsTrans(d, d1, d3);
    assert FindIn(d1, GroundFunctionTermE(tag, ne.fterm.func.index, ne.fterm.objects)).Some?;
    ExprStable(d2, d3, ne.fexpr, GroundExpr);
  }

  lemma {:induction false} VariablesMerged(vs: seq<SVariable>, d: Dest)
    ensures Extends(d, MergeVariables(vs, d).0)
    ensures LookupVariables(MergeVariables(vs, d).0, vs) == Some(MergeVariables(vs, d).1)
    ensures LookupVariables(d, vs).Some? ==> MergeVariables(vs, d) == (d, LookupVariables(d, vs).value)
  {
    if |vs| > 0 {
      VariableMerged(vs[0], d);
      var d1 := MergeVariable(vs[0], d).0;
      VariablesMerged(vs[1..], d1);
      var d2 := MergeVariables(vs[1..], d1).0;
      ExtendsTrans(d, d1, d2);
      assert FindIn(d1, VariableE(vs[0].name)).Some?;
    }
  }

  /** `merge_p2p(ConjunctiveCondition)`: the stored condition lists the
      stored variables, static, fluent and derived literals and numeric
      constraints, each in the source order. */
  lemma ConjCondMerged(c: SConjCond, d: Dest)
    ensures Extends(d, MergeConjCond(c, d).0)
    ensures LookupConjCond(MergeConjCond(c, d).0, c) == Some(MergeConjCond(c, d).1)
    ensures LookupConjCond(d, c).Some? ==> MergeConjCond(c, d) == (d, LookupConjCond(d, c).value, false)
  {
    VariablesMerged(c.variables, d);
    var (d1, vs) := MergeVariables(c.variables, d);
    LiteralsMerged(c.statics, Static, d1);
    var (d2, ss) := MergeLiterals(c.statics, Static, d1);
    LiteralsMerged(c.fluents, Fluent, d2);
    var (d3, fs) := MergeLiterals(c.fluents, Fluent, d2);
    LiteralsMerged(c.deriveds, Derived, d3);
    var (d4, ds) := MergeLiterals(c.deriveds, Derived, d3);
    BoolsMerged(c.constraints, LiftedExpr, d4);
    var (d5, bs) := MergeBools(c.constraints, LiftedExpr, d4);
    var ce := ConjCondE(vs, ss, fs, ds, bs);
    GetOrCreateInSpec(d5, ce);
    var d6 := GetOrCreateIn(d5, ce).0;
    ExtendsTrans(d4, d5, d6);
    ExtendsTrans(d3, d4, d6);
    ExtendsTrans(d2, d3, d6);
    ExtendsTrans(d1, d2, d6);
    ExtendsTrans(d, d1, d6);
    VariablesStable(d1, d6, c.variables);
    LiteralsStable(d2, d6, c.statics, Static);
    LiteralsStable(d3, d6, c.fluents, Fluent);
    LiteralsStable(d4, d6, c.deriveds, Derived);
    BoolsStable(d5, d6, c.constraints, LiftedExpr);
    assert LookupConjCondParts(d6, c) == Some(ce);
  }

  /** `merge_p2p(Axiom)`: the stored axiom lists the stored variables and
      refers to the stored body and derived head. */
  lemma AxiomMerged(ax: SAxiom, d: Dest)
    ensures Extends(d, MergeAxiom(ax, d).0)
    ensures LookupAxiom(MergeAxiom(ax, d).0, ax) == Some(MergeAxiom(ax, d).1)
    ensures LookupAxiom(d, ax).Some? ==> MergeAxiom(ax, d) == (d, LookupAxiom(d, ax).value, false)
  {
    VariablesMerged(ax.variables, d);
    var (d1, vs) := MergeVariables(ax.variables, d);
    ConjCondMerged(ax.body, d1);
    var (d2, bi, _) := MergeConjCond(ax.body, d1);
    AtomMerged(ax.head, Derived, d2);
    var (d3, hi, _) := MergeAtom(ax.head, Derived, d2);
    GetOrCreateInSpec(d3, AxiomE(vs, bi, hi));
    var d4 := GetOrCreateIn(d3, AxiomE(vs, bi, hi)).0;
    ExtendsTrans(d2, d3, d4);
    ExtendsTrans(d1, d2, d4);
    ExtendsTrans(d, d1, d4);
    VariablesStable(d1, d4, ax.variables);
    ConjCondStable(d2, d4, ax.body);
    AtomStable(d3, d4, ax.head, Derived);
  }

  /** `merge_p2p(Metric)`: the stored metric keeps the objective and
      refers to the stored ground expression. */
  lemma MetricMerged(m: SMetric, d: Dest)
    ensures Extends(d, MergeMetric(m, d).0)
    ensures LookupMetric(MergeMetric(m, d).0, m) == Some(MergeMetric(m, d).1)
    ensures LookupMetric(d, m).Some? ==> MergeMetric(m, d) == (d, LookupMetric(d, m).value, false)
  {
    ExprMerged(m.fexpr, GroundExpr, d);
    var (d1, x) := MergeExpr(m.fexpr, GroundExpr, d);
    GetOrCreateInSpec(d1, MetricE(m.objective, x));
    var d2 := GetOrCreateIn(d1, MetricE(m.objective, x)).0;
    ExtendsTrans(d, d1, d2);
    ExprStable(d1, d2, m.fexpr, GroundExpr);
  }

  // Consequences

  /** Merging an axiom a second time into the result of the first merge
      returns the same index, reports `false` and changes nothing. */
  lemma AxiomMergeIdempotent(ax: SAxiom, d: Dest)
    ensures var (d1, i, _) := MergeAxiom(ax, d);
            MergeAxiom(ax, d1) == (d1, i, false)
  {
    AxiomMerged(ax, d);
    AxiomMerged(ax, MergeAxiom(ax, d).0);
  }

  /** Merging an expression twice: the second merge returns the same
      destination expression and changes nothing. */
  lemma ExprMergeIdempotent(e: SExpr, p: Payload, d: Dest)
    ensures var (d1, x) := MergeExpr(e, p, d);
            MergeExpr(e, p, d1) == (d1, x)
  {
    ExprMerged(e, p, d);
    ExprMerged(e, p, MergeExpr(e, p, d).0);
  }

  /** `get_or_create` changes no container but the one of the element's
      type. */
  lemma GetOrCreateInTouches(d: Dest, e: Elem, s: Sort)
    requires s != SortOf(e)
    ensures Container(GetOrCreateIn(d, e).0, s) == Container(d, s)
  {
  }

  /** Merging terms changes no container but the objects'. */
  lemma {:induction false} TermsTouchObjectsOnly(ts: seq<STerm>, d: Dest, s: Sort)
    requires s != ObjectSort
    ensures Container(MergeTerms(ts, d).0, s) == Container(d, s)
  {
    if |ts| > 0 {
      var d1 := MergeTerm(ts[0], d).0;
      if ts[0].SObj? {
        GetOrCreateInTouches(d, ObjectE(ts[0].obj.name), s);
      }
      TermsTouchObjectsOnly(ts[1..], d1, s);
    }
  }

  /** A function term is stored with the function index of the source
      repository: its function is never merged, so no function container
      of the destination changes, whatever it holds. */
  lemma FunctionTermKeepsSourceIndex(ft: SFunctionTerm, tag: Kind, d: Dest, k: Kind)
    ensures Container(MergeFunctionTerm(ft, tag, d).0, FunctionSort(k)) == Container(d, FunctionSort(k))
    ensures exists ts :: FindIn(MergeFunctionTerm(ft, tag, d).0, FunctionTermE(tag, ft.func.index, ts))
                         == Some(MergeFunctionTerm(ft, tag, d).1)
  {
    TermsTouchObjectsOnly(ft.terms, d, FunctionSort(k));
    var (d1, ts) := MergeTerms(ft.terms, d);
    GetOrCreateInTouches(d1, FunctionTermE(tag, ft.func.index, ts), FunctionSort(k));
    GetOrCreateInSpec(d1, FunctionTermE(tag, ft.func.index, ts));
  }

  /** Into an empty destination, a function term whose function has
      source index 7 is stored referring to function 7 although the
      destination holds no function at all. */
  lemma FunctionIndexDangles()
    ensures var ft := SFunctionTerm(SFunction("f", 0, 7), []);
            var (d1, i, created) := MergeFunctionTerm(ft, Fluent, map[]);
            created && FindIn(d1, FunctionTermE(Fluent, 7, [])) == Some(i)
            && PR.Size(Container(d1, FunctionSort(Fluent))) == 0
  {
    var ft := SFunctionTerm(SFunction("f", 0, 7), []);
    FunctionTermKeepsSourceIndex(ft, Fluent, map[], Fluent);
    GetOrCreateInSpec(map[], FunctionTermE(Fluent, 7, []));
  }
}
