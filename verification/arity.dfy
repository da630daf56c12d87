/** `effective_arity`: how many parameter occurrences an atom, literal or
    function term carries, and the largest such count over the function
    terms of an expression. */
module Arity {
  import opened Formalism
  import opened Expressions

  /** The number of parameter terms, repeats counted; objects add 0. */
  function TermsArity(terms: seq<Term>): nat
    decreases |terms|
  {
    if |terms| == 0 then 0
    else TermsArity(terms[..|terms| - 1]) + (if terms[|terms| - 1].ParameterTerm? then 1 else 0)
  }

  /** The positions that hold a parameter. */
  function ParamPositions(terms: seq<Term>): set<nat> {
    set j | 0 <= j < |terms| && terms[j].ParameterTerm?
  }

  /** The count equals the number of parameter positions. */
  lemma {:induction false} TermsArityCountsPositions(terms: seq<Term>)
    ensures TermsArity(terms) == |ParamPositions(terms)|
    ensures TermsArity(terms) <= |terms|
    decreases |terms|
  {
    if |terms| > 0 {
      var n := |terms| - 1;
      TermsArityCountsPositions(terms[..n]);
      var before := ParamPositions(terms[..n]);
      assert forall j :: j in before ==> j < n;
      if terms[n].ParameterTerm? {
        assert ParamPositions(terms) == before + {n};
      } else {
        assert ParamPositions(terms) == before;
      }
    }
  }

  function AtomArity(a: Atom): nat {
    TermsArity(a.terms)
  }

  function LiteralArity(l: Literal): nat {
    AtomArity(l.atom)
  }

  function FunctionTermArity(f: FunctionTerm): nat {
    TermsArity(f.terms)
  }

  function Max(a: nat, b: nat): nat {
    if a < b then b else a
  }

  /** The arity of an expression: 0 for a constant, the child's for a
      unary operator, the larger side's for a binary one, the largest
      child's for a multi-operator (a fold from the first child). */
  function ExprArity(e: Expr<FunctionTerm>): nat
    requires WellFormed(e)
    decreases e, 1
  {
    match e
    case Constant(_) => 0
    case Unary(_, a) => ExprArity(a)
    case Binary(_, l, r) => Max(ExprArity(l), ExprArity(r))
    case Multi(_, args) => FoldArity(ExprArity(args[0]), e, 1)
    case Leaf(f) => FunctionTermArity(f)
  }

  function FoldArity(acc: nat, e: Expr<FunctionTerm>, from: nat): nat
    requires e.Multi? && WellFormed(e) && 1 <= from <= |e.args|
    decreases e, 0, |e.args| - from
  {
    if from == |e.args| then acc else FoldArity(Max(acc, ExprArity(e.args[from])), e, from + 1)
  }

  /** A numeric constraint's arity is that of its larger side. */
  function ConstraintArity(c: Constraint<FunctionTerm>): nat
    requires WellFormed(c.left) && WellFormed(c.right)
  {
    Max(ExprArity(c.left), ExprArity(c.right))
  }

  /** The arity of an expression bounds that of every function term in it,
      and is reached by one of them unless it is 0. */
  lemma {:induction false} ExprArityIsMaxLeaf(e: Expr<FunctionTerm>)
    requires WellFormed(e)
    ensures forall f :: f in Leaves(e) ==> FunctionTermArity(f) <= ExprArity(e)
    ensures ExprArity(e) == 0 || exists f :: f in Leaves(e) && FunctionTermArity(f) == ExprArity(e)
    decreases e, 1
  {
    match e
    case Constant(_) =>
    case Unary(_, a) => ExprArityIsMaxLeaf(a);
    case Binary(_, l, r) =>
      ExprArityIsMaxLeaf(l);
      ExprArityIsMaxLeaf(r);
    case Multi(_, args) =>
      ExprArityIsMaxLeaf(args[0]);
      FoldArityIsMaxLeaf(ExprArity(args[0]), e, 1);
      forall f ensures f in Leaves(e) <==> exists i :: 0 <= i < |args| && f in Leaves(args[i]) {
        LeavesOfMembers(args, f);
      }
    case Leaf(_) =>
  }

  /** The best arity found among the children before `from`, or the
      accumulator's witness. */
  ghost predicate Witnessed(acc: nat, args: seq<Expr<FunctionTerm>>, upTo: nat)
    requires upTo <= |args|
  {
    acc == 0 || exists i, f :: 0 <= i < upTo && f in Leaves(args[i]) && FunctionTermArity(f) == acc
  }

  lemma {:induction false} FoldArityIsMaxLeaf(acc: nat, e: Expr<FunctionTerm>, from: nat)
    requires e.Multi? && WellFormed(e) && 1 <= from <= |e.args|
    requires forall i, f :: 0 <= i < from && f in Leaves(e.args[i]) ==> FunctionTermArity(f) <= acc
    requires Witnessed(acc, e.args, from)
    ensures forall i, f :: 0 <= i < |e.args| && f in Leaves(e.args[i]) ==> FunctionTermArity(f) <= FoldArity(acc, e, from)
    ensures Witnessed(FoldArity(acc, e, from), e.args, |e.args|)
    decreases e, 0, |e.args| - from
  {
    if from < |e.args| {
      ExprArityIsMaxLeaf(e.args[from]);
      var next := Max(acc, ExprArity(e.args[from]));
      if acc < ExprArity(e.args[from]) && ExprArity(e.args[from]) != 0 {
        var f :| f in Leaves(e.args[from]) && FunctionTermArity(f) == ExprArity(e.args[from]);
        assert Witnessed(next, e.args, from + 1);
      } else if acc != 0 {
        var i, f :| 0 <= i < from && f in Leaves(e.args[i]) && FunctionTermArity(f) == acc;
        assert Witnessed(next, e.args, from + 1);
      }
      FoldArityIsMaxLeaf(next, e, from + 1);
    } else {
      if acc != 0 {
        var i, f :| 0 <= i < from && f in Leaves(e.args[i]) && FunctionTermArity(f) == acc;
      }
    }
  }
}
