/** Datalog applicability: ground literals, conditions and rules against
    the current fact sets, numeric expression evaluation, and the binding
    validity test the grounder runs on lifted literals and constraints
    before it materialises a ground rule. */
module DatalogApplicability {
  import opened Wrappers
  import opened Formalism
  import opened Expressions

  /** The facts of one kind: the true ground atoms and the defined ground
      function terms with their values, by repository index. */
  datatype FactSet = FactSet(atoms: set<nat>, values: map<nat, real>)

  datatype FactSets = FactSets(staticFacts: FactSet, fluentFacts: FactSet)

  /** Datalog programs have static and fluent facts only. */
  predicate HasFacts(kind: FactKind) {
    kind == Static || kind == Fluent
  }

  function Get(fs: FactSets, kind: FactKind): FactSet
    requires HasFacts(kind)
  {
    if kind == Static then fs.staticFacts else fs.fluentFacts
  }

  const AuxiliaryError := "Program does not contain auxiliary function terms."

  /** Every leaf is a static, fluent or auxiliary function term. */
  predicate KnownKinds<F(==)>(e: Expr<F>, kindOf: F -> FactKind) {
    forall f :: f in Leaves(e) ==> kindOf(f) != Derived
  }

  // ----- Evaluation of ground expressions -----

  /** A ground function term evaluates to its value, to NaN when the fact
      set does not define it, and throws when it is auxiliary. */
  function EvaluateTerm(f: GroundFunctionTerm, fs: FactSets): (r: Result<Value>)
    requires f.kind != Derived
    ensures r.Failure? <==> f.kind == Auxiliary
    ensures r.Success? ==> (r.value.None? <==> f.index !in Get(fs, f.kind).values)
  {
    if f.kind == Auxiliary then Failure(AuxiliaryError)
    else if f.index !in Get(fs, f.kind).values then Success(None)
    else Success(Some(Get(fs, f.kind).values[f.index]))
  }

  function GroundKind(f: GroundFunctionTerm): FactKind { f.kind }

  /** `evaluate` on ground expressions; a thrown exception is a Failure. */
  function Evaluate(sem: Semantics, e: Expr<GroundFunctionTerm>, fs: FactSets): Result<Value>
    requires WellFormed(e) && KnownKinds(e, GroundKind)
    decreases e, 1
  {
    match e
    case Constant(v) => Success(Some(v))
    case Unary(op, a) =>
      var x :- Evaluate(sem, a, fs);
      Success(sem.unary(op, x))
    case Binary(op, l, r) =>
      var x :- Evaluate(sem, l, fs);
      var y :- Evaluate(sem, r, fs);
      Success(sem.binary(op, x, y))
    case Multi(op, args) =>
      LeavesOfPrefix(args, 1);
      var first :- Evaluate(sem, args[0], fs);
      EvaluateFold(sem, op, first, e, 1, fs)
    case Leaf(f) =>
      assert f in Leaves(e) && GroundKind(f) != Derived;
      EvaluateTerm(f, fs)
  }

  /** `std::accumulate` over the children from position `from` on, folding
      with the multi-operator's own operator. */
  function EvaluateFold(sem: Semantics, op: ArithOp, acc: Value, e: Expr<GroundFunctionTerm>, from: nat, fs: FactSets): Result<Value>
    requires e.Multi? && WellFormed(e) && KnownKinds(e, GroundKind) && 1 <= from <= |e.args|
    decreases e, 0, |e.args| - from
  {
    if from == |e.args| then Success(acc)
    else
      LeavesOfPrefix(e.args, from + 1);
      var x :- Evaluate(sem, e.args[from], fs);
      EvaluateFold(sem, op, sem.binary(op, acc, x), e, from + 1, fs)
  }

  /** Some leaf of the expression is an auxiliary function term. */
  predicate MentionsAuxiliary(e: Expr<GroundFunctionTerm>) {
    exists f :: f in Leaves(e) && f.kind == Auxiliary
  }

  /** Evaluation throws exactly when the expression mentions an auxiliary
      function term: the exception propagates out of every operator, and
      nothing else throws. */
  lemma {:induction false} EvaluateFailsIffAuxiliary(sem: Semantics, e: Expr<GroundFunctionTerm>, fs: FactSets)
    requires WellFormed(e) && KnownKinds(e, GroundKind)
    ensures Evaluate(sem, e, fs).Failure? <==> MentionsAuxiliary(e)
    decreases e, 1
  {
    match e
    case Constant(_) =>
    case Unary(_, a) =>
      EvaluateFailsIffAuxiliary(sem, a, fs);
    case Binary(_, l, r) =>
      EvaluateFailsIffAuxiliary(sem, l, fs);
      EvaluateFailsIffAuxiliary(sem, r, fs);
    case Multi(op, args) =>
      LeavesOfPrefix(args, |args|);
      EvaluateFailsIffAuxiliary(sem, args[0], fs);
      if Evaluate(sem, args[0], fs).Success? {
        FoldFailsIffAuxiliary(sem, op, Evaluate(sem, args[0], fs).value, e, 1, fs);
      }
      forall f ensures f in Leaves(e) <==> exists i :: 0 <= i < |args| && f in Leaves(args[i]) {
        LeavesOfMembers(args, f);
      }
      if MentionsAuxiliary(args[0]) {
        var f :| f in Leaves(args[0]) && f.kind == Auxiliary;
        assert f in Leaves(e);
      }
    case Leaf(_) =>
  }

  /** Some child from position `from` on mentions an auxiliary term. */
  predicate LaterAuxiliary(args: seq<Expr<GroundFunctionTerm>>, from: nat) {
    exists i :: from <= i < |args| && MentionsAuxiliary(args[i])
  }

  lemma {:induction false} FoldFailsIffAuxiliary(sem: Semantics, op: ArithOp, acc: Value, e: Expr<GroundFunctionTerm>, from: nat, fs: FactSets)
    requires e.Multi? && WellFormed(e) && KnownKinds(e, GroundKind) && 1 <= from <= |e.args|
    ensures EvaluateFold(sem, op, acc, e, from, fs).Failure? <==> LaterAuxiliary(e.args, from)
    decreases e, 0, |e.args| - from
  {
    if from < |e.args| {
      LeavesOfPrefix(e.args, from + 1);
      EvaluateFailsIffAuxiliary(sem, e.args[from], fs);
      var x := Evaluate(sem, e.args[from], fs);
      if x.Success? {
        FoldFailsIffAuxiliary(sem, op, sem.binary(op, acc, x.value), e, from + 1, fs);
      }
      if LaterAuxiliary(e.args, from + 1) {
        var i :| from + 1 <= i < |e.args| && MentionsAuxiliary(e.args[i]);
        assert from <= i;
      }
      if LaterAuxiliary(e.args, from) {
        var i :| from <= i < |e.args| && MentionsAuxiliary(e.args[i]);
        assert i == from || LaterAuxiliary(e.args, from + 1);
      }
    }
  }

  /** A numeric constraint: the comparison of the two evaluated sides. */
  function EvaluateConstraint(sem: Semantics, c: Constraint<GroundFunctionTerm>, fs: FactSets): Result<bool>
    requires WellFormed(c.left) && WellFormed(c.right) && KnownKinds(c.left, GroundKind) && KnownKinds(c.right, GroundKind)
  {
    var x :- Evaluate(sem, c.left, fs);
    var y :- Evaluate(sem, c.right, fs);
    Success(sem.compare(c.cop, x, y))
  }

  // ----- Applicability of ground literals, conditions and rules -----

  datatype GroundLiteral = GroundLiteral(kind: FactKind, polarity: bool, atom: nat)

  /** A ground literal holds iff its atom's membership in the fact set of
      its kind agrees with its polarity. */
  function LiteralApplicable(l: GroundLiteral, fs: FactSets): bool
    requires HasFacts(l.kind)
  {
    (l.atom in Get(fs, l.kind).atoms) == l.polarity
  }

  predicate LiteralsHaveFacts(ls: seq<GroundLiteral>) {
    forall i :: 0 <= i < |ls| ==> HasFacts(ls[i].kind)
  }

  /** `std::all_of` over a literal list. */
  function LiteralsApplicable(ls: seq<GroundLiteral>, fs: FactSets): (r: bool)
    requires LiteralsHaveFacts(ls)
    decreases |ls|
  {
    if |ls| == 0 then true
    else LiteralApplicable(ls[0], fs) && LiteralsApplicable(ls[1..], fs)
  }

  /** A literal list holds iff each of its literals does; the empty list
      holds. */
  lemma {:induction false} LiteralsApplicableAll(ls: seq<GroundLiteral>, fs: FactSets)
    requires LiteralsHaveFacts(ls)
    ensures LiteralsApplicable(ls, fs) <==> forall i :: 0 <= i < |ls| ==> LiteralApplicable(ls[i], fs)
    decreases |ls|
  {
    if |ls| > 0 {
      LiteralsApplicableAll(ls[1..], fs);
      assert forall i :: 1 <= i < |ls| ==> ls[i] == ls[1..][i - 1];
    }
  }

  predicate ConstraintsWellFormed(cs: seq<Constraint<GroundFunctionTerm>>) {
    forall i :: 0 <= i < |cs| ==>
      WellFormed(cs[i].left) && WellFormed(cs[i].right) && KnownKinds(cs[i].left, GroundKind) && KnownKinds(cs[i].right, GroundKind)
  }

  /** `std::all_of` over the numeric constraints: it stops at the first
      false one, so later constraints are neither evaluated nor able to
      throw. */
  function ConstraintsApplicable(sem: Semantics, cs: seq<Constraint<GroundFunctionTerm>>, fs: FactSets): (r: Result<bool>)
    requires ConstraintsWellFormed(cs)
    decreases |cs|
  {
    if |cs| == 0 then Success(true)
    else
      var b :- EvaluateConstraint(sem, cs[0], fs);
      if !b then Success(false) else ConstraintsApplicable(sem, cs[1..], fs)
  }

  /** When no constraint throws, the list holds iff every constraint does. */
  lemma {:induction false} ConstraintsApplicableAll(sem: Semantics, cs: seq<Constraint<GroundFunctionTerm>>, fs: FactSets)
    requires ConstraintsWellFormed(cs)
    requires forall i :: 0 <= i < |cs| ==> EvaluateConstraint(sem, cs[i], fs).Success?
    ensures ConstraintsApplicable(sem, cs, fs).Success?
    ensures ConstraintsApplicable(sem, cs, fs).value <==> forall i :: 0 <= i < |cs| ==> EvaluateConstraint(sem, cs[i], fs).value
    decreases |cs|
  {
    if |cs| > 0 {
      assert forall i :: 1 <= i < |cs| ==> cs[i] == cs[1..][i - 1];
      ConstraintsApplicableAll(sem, cs[1..], fs);
    }
  }

  datatype GroundCondition = GroundCondition(
    staticLiterals: seq<GroundLiteral>,
    fluentLiterals: seq<GroundLiteral>,
    constraints: seq<Constraint<GroundFunctionTerm>>)

  predicate ConditionWellFormed(c: GroundCondition) {
    (forall i :: 0 <= i < |c.staticLiterals| ==> c.staticLiterals[i].kind == Static)
    && (forall i :: 0 <= i < |c.fluentLiterals| ==> c.fluentLiterals[i].kind == Fluent)
    && ConstraintsWellFormed(c.constraints)
  }

  /** A ground conjunctive condition: static literals, then fluent
      literals, then numeric constraints, each evaluated only if the
      previous parts held. */
  function ConditionApplicable(sem: Semantics, c: GroundCondition, fs: FactSets): (r: Result<bool>)
    requires ConditionWellFormed(c)
  {
    if !LiteralsApplicable(c.staticLiterals, fs) then Success(false)
    else if !LiteralsApplicable(c.fluentLiterals, fs) then Success(false)
    else ConstraintsApplicable(sem, c.constraints, fs)
  }

  /** The condition holds iff all three parts hold; a failed literal part
      hides every exception of the constraints. */
  lemma ConditionApplicableParts(sem: Semantics, c: GroundCondition, fs: FactSets)
    requires ConditionWellFormed(c)
    ensures ConditionApplicable(sem, c, fs) == Success(true) <==>
              (forall i :: 0 <= i < |c.staticLiterals| ==> LiteralApplicable(c.staticLiterals[i], fs))
              && (forall i :: 0 <= i < |c.fluentLiterals| ==> LiteralApplicable(c.fluentLiterals[i], fs))
              && ConstraintsApplicable(sem, c.constraints, fs) == Success(true)
    ensures !LiteralsApplicable(c.staticLiterals, fs) ==> ConditionApplicable(sem, c, fs) == Success(false)
  {
    LiteralsApplicableAll(c.staticLiterals, fs);
    LiteralsApplicableAll(c.fluentLiterals, fs);
  }

  /** A ground rule is applicable iff its body is. */
  function RuleApplicable(sem: Semantics, body: GroundCondition, fs: FactSets): Result<bool>
    requires ConditionWellFormed(body)
  {
    ConditionApplicable(sem, body, fs)
  }

  // ----- Binding validity of lifted literals and constraints -----

  /** The program repository the grounder searches (`destination.find`):
      ground atoms and ground function terms by kind, with their index. */
  datatype Destination = Destination(
    atoms: map<(FactKind, GroundAtom), nat>,
    fterms: map<(FactKind, nat, seq<nat>), nat>)

  /** `is_valid_binding` of a lifted literal: ground it under the binding;
      an atom the program has never seen is false, so only a negative
      literal is satisfied; otherwise the atom's membership must agree with
      the polarity. */
  function ValidLiteral(kind: FactKind, l: Literal, binding: seq<nat>, fs: FactSets, dest: Destination): bool
    requires HasFacts(kind) && Bound(l.atom.terms, binding)
  {
    var key := (kind, GroundAtomOf(l.atom, binding));
    if key in dest.atoms then (dest.atoms[key] in Get(fs, kind).atoms) == l.polarity
    else !l.polarity
  }

  /** The ground atoms of a kind that are currently true. */
  function TrueAtoms(kind: FactKind, fs: FactSets, dest: Destination): set<GroundAtom>
    requires HasFacts(kind)
  {
    set key | key in dest.atoms && key.0 == kind && dest.atoms[key] in Get(fs, kind).atoms :: key.1
  }

  /** A binding is valid for a literal iff the grounded atom's truth agrees
      with the literal's polarity, an unknown atom being false; and when the
      atom is known, the test is exactly the ground literal's applicability. */
  lemma ValidLiteralMeaning(kind: FactKind, l: Literal, binding: seq<nat>, fs: FactSets, dest: Destination)
    requires HasFacts(kind) && Bound(l.atom.terms, binding)
    requires forall k1, k2 :: k1 in dest.atoms && k2 in dest.atoms && dest.atoms[k1] == dest.atoms[k2] ==> k1 == k2
    ensures ValidLiteral(kind, l, binding, fs, dest) <==> (GroundAtomOf(l.atom, binding) in TrueAtoms(kind, fs, dest)) == l.polarity
    ensures (kind, GroundAtomOf(l.atom, binding)) in dest.atoms ==>
              ValidLiteral(kind, l, binding, fs, dest) ==
              LiteralApplicable(GroundLiteral(kind, l.polarity, dest.atoms[(kind, GroundAtomOf(l.atom, binding))]), fs)
  {
    var g := GroundAtomOf(l.atom, binding);
    var key := (kind, g);
    if g in TrueAtoms(kind, fs, dest) {
      var k2 :| k2 in dest.atoms && k2.0 == kind && dest.atoms[k2] in Get(fs, kind).atoms && k2.1 == g;
      assert k2 == key;
    }
    if key in dest.atoms && dest.atoms[key] in Get(fs, kind).atoms {
      assert g in TrueAtoms(kind, fs, dest);
    }
  }

  predicate LiteralsBound(ls: seq<Literal>, binding: seq<nat>) {
    forall i :: 0 <= i < |ls| ==> Bound(ls[i].atom.terms, binding)
  }

  function ValidLiterals(kind: FactKind, ls: seq<Literal>, binding: seq<nat>, fs: FactSets, dest: Destination): bool
    requires HasFacts(kind) && LiteralsBound(ls, binding)
    decreases |ls|
  {
    if |ls| == 0 then true
    else ValidLiteral(kind, ls[0], binding, fs, dest) && ValidLiterals(kind, ls[1..], binding, fs, dest)
  }

  lemma {:induction false} ValidLiteralsAll(kind: FactKind, ls: seq<Literal>, binding: seq<nat>, fs: FactSets, dest: Destination)
    requires HasFacts(kind) && LiteralsBound(ls, binding)
    ensures ValidLiterals(kind, ls, binding, fs, dest) <==> forall i :: 0 <= i < |ls| ==> ValidLiteral(kind, ls[i], binding, fs, dest)
    decreases |ls|
  {
    if |ls| > 0 {
      ValidLiteralsAll(kind, ls[1..], binding, fs, dest);
      assert forall i :: 1 <= i < |ls| ==> ls[i] == ls[1..][i - 1];
    }
  }

  function LiftedKind(f: FunctionTerm): FactKind { f.kind }

  predicate LiftedReady(e: Expr<FunctionTerm>, binding: seq<nat>) {
    WellFormed(e) && KnownKinds(e, LiftedKind) && forall f :: f in Leaves(e) ==> Bound(f.terms, binding)
  }

  /** A lifted function term under a binding: ground it, look it up in
      the program (NaN if unknown), then in the fact set (NaN if
      undefined); auxiliary terms throw. */
  function EvaluateLiftedTerm(f: FunctionTerm, binding: seq<nat>, fs: FactSets, dest: Destination): (r: Result<Value>)
    requires f.kind != Derived && Bound(f.terms, binding)
    ensures r.Failure? <==> f.kind == Auxiliary
    ensures f.kind != Auxiliary && (f.kind, f.func, Substitute(f.terms, binding)) !in dest.fterms ==> r == Success(None)
  {
    if f.kind == Auxiliary then Failure(AuxiliaryError)
    else
      var key := (f.kind, f.func, Substitute(f.terms, binding));
      if key !in dest.fterms then Success(None)
      else EvaluateTerm(GroundFunctionTerm(f.kind, dest.fterms[key]), fs)
  }

  /** `evaluate` on lifted expressions under a binding. */
  function EvaluateLifted(sem: Semantics, e: Expr<FunctionTerm>, binding: seq<nat>, fs: FactSets, dest: Destination): Result<Value>
    requires LiftedReady(e, binding)
    decreases e, 1
  {
    match e
    case Constant(v) => Success(Some(v))
    case Unary(op, a) =>
      var x :- EvaluateLifted(sem, a, binding, fs, dest);
      Success(sem.unary(op, x))
    case Binary(op, l, r) =>
      var x :- EvaluateLifted(sem, l, binding, fs, dest);
      var y :- EvaluateLifted(sem, r, binding, fs, dest);
      Success(sem.binary(op, x, y))
    case Multi(op, args) =>
      LeavesOfPrefix(args, 1);
      var first :- EvaluateLifted(sem, args[0], binding, fs, dest);
      EvaluateLiftedFold(sem, op, first, e, 1, binding, fs, dest)
    case Leaf(f) =>
      assert f in Leaves(e) && LiftedKind(f) != Derived;
      EvaluateLiftedTerm(f, binding, fs, dest)
  }

  function EvaluateLiftedFold(sem: Semantics, op: ArithOp, acc: Value, e: Expr<FunctionTerm>, from: nat,
                              binding: seq<nat>, fs: FactSets, dest: Destination): Result<Value>
    requires e.Multi? && LiftedReady(e, binding) && 1 <= from <= |e.args|
    decreases e, 0, |e.args| - from
  {
    if from == |e.args| then Success(acc)
    else
      LeavesOfPrefix(e.args, from + 1);
      var x :- EvaluateLifted(sem, e.args[from], binding, fs, dest);
      EvaluateLiftedFold(sem, op, sem.binary(op, acc, x), e, from + 1, binding, fs, dest)
  }

  /** `is_valid_binding` of a numeric constraint: its comparison under the
      binding. */
  function ValidConstraint(sem: Semantics, c: Constraint<FunctionTerm>, binding: seq<nat>, fs: FactSets, dest: Destination): Result<bool>
    requires LiftedReady(c.left, binding) && LiftedReady(c.right, binding)
  {
    var x :- EvaluateLifted(sem, c.left, binding, fs, dest);
    var y :- EvaluateLifted(sem, c.right, binding, fs, dest);
    Success(sem.compare(c.cop, x, y))
  }

  predicate ConstraintsReady(cs: seq<Constraint<FunctionTerm>>, binding: seq<nat>) {
    forall i :: 0 <= i < |cs| ==> LiftedReady(cs[i].left, binding) && LiftedReady(cs[i].right, binding)
  }

  function ValidConstraints(sem: Semantics, cs: seq<Constraint<FunctionTerm>>, binding: seq<nat>, fs: FactSets, dest: Destination): Result<bool>
    requires ConstraintsReady(cs, binding)
    decreases |cs|
  {
    if |cs| == 0 then Success(true)
    else
      var b :- ValidConstraint(sem, cs[0], binding, fs, dest);
      if !b then Success(false) else ValidConstraints(sem, cs[1..], binding, fs, dest)
  }

  datatype Condition = Condition(
    staticLiterals: seq<Literal>,
    fluentLiterals: seq<Literal>,
    constraints: seq<Constraint<FunctionTerm>>)

  predicate ConditionReady(c: Condition, binding: seq<nat>) {
    LiteralsBound(c.staticLiterals, binding) && LiteralsBound(c.fluentLiterals, binding)
    && ConstraintsReady(c.constraints, binding)
  }

  /** `is_valid_binding` of a conjunctive condition. */
  function ValidCondition(sem: Semantics, c: Condition, binding: seq<nat>, fs: FactSets, dest: Destination): Result<bool>
    requires ConditionReady(c, binding)
  {
    if !ValidLiterals(Static, c.staticLiterals, binding, fs, dest) then Success(false)
    else if !ValidLiterals(Fluent, c.fluentLiterals, binding, fs, dest) then Success(false)
    else ValidConstraints(sem, c.constraints, binding, fs, dest)
  }

  /** A binding is valid for a condition iff it is valid for every static
      and fluent literal and the constraints hold. */
  lemma ValidConditionParts(sem: Semantics, c: Condition, binding: seq<nat>, fs: FactSets, dest: Destination)
    requires ConditionReady(c, binding)
    ensures ValidCondition(sem, c, binding, fs, dest) == Success(true) <==>
              (forall i :: 0 <= i < |c.staticLiterals| ==> ValidLiteral(Static, c.staticLiterals[i], binding, fs, dest))
              && (forall i :: 0 <= i < |c.fluentLiterals| ==> ValidLiteral(Fluent, c.fluentLiterals[i], binding, fs, dest))
              && ValidConstraints(sem, c.constraints, binding, fs, dest) == Success(true)
  {
    ValidLiteralsAll(Static, c.staticLiterals, binding, fs, dest);
    ValidLiteralsAll(Fluent, c.fluentLiterals, binding, fs, dest);
  }
}
