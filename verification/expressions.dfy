/** Numeric function expressions, shared by the Datalog and planning
    formalisms. The leaves are function terms of type `F` (lifted terms
    with their arguments, or ground terms known by their index), the
    inner nodes arithmetic operators, and a numeric constraint compares two
    expressions. Values are floats where NaN means "undefined"; the model
    writes them as `Option<real>` with None for NaN. */
module Expressions {
  import opened Wrappers
  import opened Formalism

  datatype FactKind = Static | Fluent | Derived | Auxiliary

  datatype ArithOp = Add | Sub | Mul | Div

  datatype CmpOp = Eq | Ne | Le | Lt | Ge | Gt

  datatype Expr<F> =
    | Constant(value: real)
    | Unary(uop: ArithOp, arg: Expr<F>)
    | Binary(bop: ArithOp, lhs: Expr<F>, rhs: Expr<F>)
    | Multi(mop: ArithOp, args: seq<Expr<F>>)
    | Leaf(fterm: F)

  /** A numeric constraint (`BooleanOperator`): a comparison. */
  datatype Constraint<F> = Constraint(cop: CmpOp, left: Expr<F>, right: Expr<F>)

  /** A lifted function term: its repository index, kind, function and
      argument terms. */
  datatype FunctionTerm = FunctionTerm(kind: FactKind, index: nat, func: nat, terms: seq<Term>)

  /** A ground function term, known by its kind and repository index. */
  datatype GroundFunctionTerm = GroundFunctionTerm(kind: FactKind, index: nat)

  type Value = Option<real>

  /** The float operations (`formalism::apply`), whose definitions are not
      part of this model: how an arithmetic operator acts on values (NaN
      included) and how a comparison decides. */
  datatype Semantics = Semantics(
    unary: (ArithOp, Value) -> Value,
    binary: (ArithOp, Value, Value) -> Value,
    compare: (CmpOp, Value, Value) -> bool)

  /** A multi-operator reads its first child before folding the rest, so
      every multi-operator needs at least one child. */
  predicate WellFormed<F>(e: Expr<F>) {
    match e
    case Constant(_) => true
    case Unary(_, a) => WellFormed(a)
    case Binary(_, l, r) => WellFormed(l) && WellFormed(r)
    case Multi(_, args) => |args| > 0 && forall i :: 0 <= i < |args| ==> WellFormed(args[i])
    case Leaf(_) => true
  }

  /** The left fold `std::accumulate` performs over already evaluated
      children, combining with `op`. */
  function FoldValues(sem: Semantics, op: ArithOp, acc: Value, rest: seq<Value>): Value
    decreases |rest|
  {
    if |rest| == 0 then acc else FoldValues(sem, op, sem.binary(op, acc, rest[0]), rest[1..])
  }

  /** The function terms an expression mentions, in a set. */
  function Leaves<F>(e: Expr<F>): set<F> {
    match e
    case Constant(_) => {}
    case Unary(_, a) => Leaves(a)
    case Binary(_, l, r) => Leaves(l) + Leaves(r)
    case Multi(_, args) => LeavesOf(args)
    case Leaf(f) => {f}
  }

  function LeavesOf<F>(args: seq<Expr<F>>): set<F>
    decreases args
  {
    if |args| == 0 then {} else Leaves(args[0]) + LeavesOf(args[1..])
  }

  /** The leaves of a child are leaves of the list. */
  lemma LeavesOfPrefix<F>(args: seq<Expr<F>>, n: nat)
    requires n <= |args|
    ensures forall i :: 0 <= i < n ==> Leaves(args[i]) <= LeavesOf(args)
    decreases args
  {
    if n > 0 {
      LeavesOfPrefix(args[1..], n - 1);
      assert forall i :: 1 <= i < n ==> args[i] == args[1..][i - 1];
    }
  }

  /** The leaves of a list are the leaves of its members. */
  lemma LeavesOfMembers<F>(args: seq<Expr<F>>, f: F)
    ensures f in LeavesOf(args) <==> exists i :: 0 <= i < |args| && f in Leaves(args[i])
    decreases args
  {
    if |args| > 0 {
      LeavesOfMembers(args[1..], f);
      if exists i :: 0 <= i < |args[1..]| && f in Leaves(args[1..][i]) {
        var i :| 0 <= i < |args[1..]| && f in Leaves(args[1..][i]);
        assert args[1..][i] == args[i + 1];
      }
      if exists i :: 0 <= i < |args| && f in Leaves(args[i]) {
        var i :| 0 <= i < |args| && f in Leaves(args[i]);
        if i > 0 {
          assert args[1..][i - 1] == args[i];
        }
      }
    }
  }
}
