/** `collect_fterms`: the function terms of one kind that an expression or
    numeric constraint mentions. The collection is an unordered set
    filled during a traversal; the value-returning overload hands it back
    as a sorted list. */
module ExpressionProperties {
  import opened Formalism
  import opened Expressions
  import opened Sorting

  /** `result.insert(index)`: the set, kept as the list of its elements in
      insertion order. */
  function Insert(acc: seq<nat>, x: nat): (r: seq<nat>)
    ensures forall y :: y in r <==> y in acc || y == x
  {
    if x in acc then acc else acc + [x]
  }

  /** The traversal: constants add nothing, a function term adds its index
      iff its kind is the requested one, operators visit their children
      in order. */
  function Collect(e: Expr<FunctionTerm>, kind: FactKind, acc: seq<nat>): seq<nat>
    decreases e, 1
  {
    match e
    case Constant(_) => acc
    case Unary(_, a) => Collect(a, kind, acc)
    case Binary(_, l, r) => Collect(r, kind, Collect(l, kind, acc))
    case Multi(_, args) => CollectAll(e, kind, 0, acc)
    case Leaf(f) => if f.kind == kind then Insert(acc, f.index) else acc
  }

  function CollectAll(e: Expr<FunctionTerm>, kind: FactKind, from: nat, acc: seq<nat>): seq<nat>
    requires e.Multi? && from <= |e.args|
    decreases e, 0, |e.args| - from
  {
    if from == |e.args| then acc else CollectAll(e, kind, from + 1, Collect(e.args[from], kind, acc))
  }

  /** The indices of the requested kind among the expression's leaves. */
  function IndicesOfKind(leaves: set<FunctionTerm>, kind: FactKind): set<nat> {
    set f | f in leaves && f.kind == kind :: f.index
  }

  /** The traversal adds exactly the indices of the expression's function
      terms of the requested kind. */
  lemma {:induction false} CollectExact(e: Expr<FunctionTerm>, kind: FactKind, acc: seq<nat>, x: nat)
    ensures x in Collect(e, kind, acc) <==> x in acc || x in IndicesOfKind(Leaves(e), kind)
    decreases e, 1
  {
    match e
    case Constant(_) =>
    case Unary(_, a) => CollectExact(a, kind, acc, x);
    case Binary(_, l, r) =>
      CollectExact(l, kind, acc, x);
      CollectExact(r, kind, Collect(l, kind, acc), x);
    case Multi(_, args) =>
      CollectAllExact(e, kind, 0, acc, x);
      forall f ensures f in Leaves(e) <==> exists i :: 0 <= i < |args| && f in Leaves(args[i]) {
        LeavesOfMembers(args, f);
      }
      if x in IndicesOfKind(Leaves(e), kind) {
        var f :| f in Leaves(e) && f.kind == kind && f.index == x;
        var i :| 0 <= i < |args| && f in Leaves(args[i]);
        assert x in IndicesOfKind(Leaves(args[i]), kind);
      }
      if Later(e.args, kind, 0, x) {
        var i :| 0 <= i < |args| && x in IndicesOfKind(Leaves(args[i]), kind);
        var f :| f in Leaves(args[i]) && f.kind == kind && f.index == x;
        assert f in Leaves(e);
      }
    case Leaf(f) =>
  }

  /** Some child from position `from` on has a function term of the kind
      with index x. */
  predicate Later(args: seq<Expr<FunctionTerm>>, kind: FactKind, from: nat, x: nat) {
    exists i :: from <= i < |args| && x in IndicesOfKind(Leaves(args[i]), kind)
  }

  lemma {:induction false} CollectAllExact(e: Expr<FunctionTerm>, kind: FactKind, from: nat, acc: seq<nat>, x: nat)
    requires e.Multi? && from <= |e.args|
    ensures x in CollectAll(e, kind, from, acc) <==> x in acc || Later(e.args, kind, from, x)
    decreases e, 0, |e.args| - from
  {
    if from < |e.args| {
      CollectExact(e.args[from], kind, acc, x);
      CollectAllExact(e, kind, from + 1, Collect(e.args[from], kind, acc), x);
      if Later(e.args, kind, from, x) {
        var i :| from <= i < |e.args| && x in IndicesOfKind(Leaves(e.args[i]), kind);
        assert i == from || Later(e.args, kind, from + 1, x);
      }
    }
  }

  /** The collection of a numeric constraint: left side, then right. */
  function CollectConstraint(c: Constraint<FunctionTerm>, kind: FactKind, acc: seq<nat>): seq<nat> {
    Collect(c.right, kind, Collect(c.left, kind, acc))
  }

  /** The value-returning overload: the collected set as a sorted list. */
  function CollectSorted(c: Constraint<FunctionTerm>, kind: FactKind): (r: seq<nat>) {
    SortUnique(CollectConstraint(c, kind, []))
  }

  /** The sorted list is strictly increasing and holds exactly the indices
      of the constraint's function terms of the requested kind. */
  lemma CollectSortedExact(c: Constraint<FunctionTerm>, kind: FactKind)
    ensures StrictlySorted(CollectSorted(c, kind))
    ensures forall x :: x in CollectSorted(c, kind) <==>
              x in IndicesOfKind(Leaves(c.left), kind) || x in IndicesOfKind(Leaves(c.right), kind)
  {
    forall x ensures x in CollectSorted(c, kind) <==>
                       x in IndicesOfKind(Leaves(c.left), kind) || x in IndicesOfKind(Leaves(c.right), kind) {
      CollectExact(c.left, kind, [], x);
      CollectExact(c.right, kind, Collect(c.left, kind, []), x);
    }
  }
}
