/** Planning applicability: ground literals, FDR facts and conditions
    against a state, numeric effect checks with the per-function-term
    effect families, conditional effects and actions. */
module PlanningApplicability {
  import opened Wrappers
  import opened Expressions

  /** What a state context exposes: the task's static atoms and static
      numeric values, the state's derived atoms, FDR values and fluent
      numeric values, and the auxiliary value. */
  datatype StateContext = StateContext(
    staticAtoms: set<nat>,
    staticValues: nat -> Value,
    derivedAtoms: set<nat>,
    fdrValues: nat -> nat,
    fluentValues: nat -> Value,
    auxiliary: Value)

  function TermValue(f: GroundFunctionTerm, ctx: StateContext): Value {
    match f.kind
    case Static => ctx.staticValues(f.index)
    case Fluent => ctx.fluentValues(f.index)
    case Auxiliary => ctx.auxiliary
    case Derived => None
  }

  /** The multi-operator fold as written: whatever the operator, children
      are combined with multiplication. */
  function EvaluateAsWritten(sem: Semantics, e: Expr<GroundFunctionTerm>, ctx: StateContext): Value
    requires WellFormed(e)
    decreases e, 1
  {
    match e
    case Constant(v) => Some(v)
    case Unary(op, a) => sem.unary(op, EvaluateAsWritten(sem, a, ctx))
    case Binary(op, l, r) => sem.binary(op, EvaluateAsWritten(sem, l, ctx), EvaluateAsWritten(sem, r, ctx))
    case Multi(_, args) => FoldAsWritten(sem, EvaluateAsWritten(sem, args[0], ctx), e, 1, ctx)
    case Leaf(f) => TermValue(f, ctx)
  }

  function FoldAsWritten(sem: Semantics, acc: Value, e: Expr<GroundFunctionTerm>, from: nat, ctx: StateContext): Value
    requires e.Multi? && WellFormed(e) && 1 <= from <= |e.args|
    decreases e, 0, |e.args| - from
  {
    if from == |e.args| then acc
    else FoldAsWritten(sem, sem.binary(Mul, acc, EvaluateAsWritten(sem, e.args[from], ctx)), e, from + 1, ctx)
  }

  /** `evaluate` with the multi-operator folding with its own operator, as
      the Datalog evaluation does. */
  function Evaluate(sem: Semantics, e: Expr<GroundFunctionTerm>, ctx: StateContext): Value
    requires WellFormed(e)
    decreases e, 1
  {
    match e
    case Constant(v) => Some(v)
    case Unary(op, a) => sem.unary(op, Evaluate(sem, a, ctx))
    case Binary(op, l, r) => sem.binary(op, Evaluate(sem, l, ctx), Evaluate(sem, r, ctx))
    case Multi(op, args) => Fold(sem, op, Evaluate(sem, args[0], ctx), e, 1, ctx)
    case Leaf(f) => TermValue(f, ctx)
  }

  function Fold(sem: Semantics, op: ArithOp, acc: Value, e: Expr<GroundFunctionTerm>, from: nat, ctx: StateContext): Value
    requires e.Multi? && WellFormed(e) && 1 <= from <= |e.args|
    decreases e, 0, |e.args| - from
  {
    if from == |e.args| then acc
    else Fold(sem, op, sem.binary(op, acc, Evaluate(sem, e.args[from], ctx)), e, from + 1, ctx)
  }

  /** Every multi-operator of the expression multiplies. */
  predicate OnlyProducts(e: Expr<GroundFunctionTerm>) {
    match e
    case Constant(_) => true
    case Unary(_, a) => OnlyProducts(a)
    case Binary(_, l, r) => OnlyProducts(l) && OnlyProducts(r)
    case Multi(op, args) => op == Mul && forall i :: 0 <= i < |args| ==> OnlyProducts(args[i])
    case Leaf(_) => true
  }

  /** The two evaluations agree on every expression whose multi-operators
      all multiply. */
  lemma {:induction false} AsWrittenAgreesOnProducts(sem: Semantics, e: Expr<GroundFunctionTerm>, ctx: StateContext)
    requires WellFormed(e) && OnlyProducts(e)
    ensures EvaluateAsWritten(sem, e, ctx) == Evaluate(sem, e, ctx)
    decreases e, 1
  {
    match e
    case Constant(_) =>
    case Unary(_, a) => AsWrittenAgreesOnProducts(sem, a, ctx);
    case Binary(_, l, r) =>
      AsWrittenAgreesOnProducts(sem, l, ctx);
      AsWrittenAgreesOnProducts(sem, r, ctx);
    case Multi(op, args) =>
      AsWrittenAgreesOnProducts(sem, args[0], ctx);
      FoldAgrees(sem, EvaluateAsWritten(sem, args[0], ctx), e, 1, ctx);
    case Leaf(_) =>
  }

  lemma {:induction false} FoldAgrees(sem: Semantics, acc: Value, e: Expr<GroundFunctionTerm>, from: nat, ctx: StateContext)
    requires e.Multi? && WellFormed(e) && OnlyProducts(e) && 1 <= from <= |e.args|
    ensures FoldAsWritten(sem, acc, e, from, ctx) == Fold(sem, e.mop, acc, e, from, ctx)
    decreases e, 0, |e.args| - from
  {
    if from < |e.args| {
      AsWrittenAgreesOnProducts(sem, e.args[from], ctx);
      FoldAgrees(sem, sem.binary(Mul, acc, EvaluateAsWritten(sem, e.args[from], ctx)), e, from + 1, ctx);
    }
  }

  /** Exact arithmetic on defined values; anything with NaN is NaN. */
  function RealSemantics(): Semantics {
    Semantics(
      (op: ArithOp, x: Value) => if x.Some? && op == Sub then Some(-x.value) else x,
      (op: ArithOp, x: Value, y: Value) =>
        if x.None? || y.None? then None
        else match op
          case Add => Some(x.value + y.value)
          case Sub => Some(x.value - y.value)
          case Mul => Some(x.value * y.value)
          case Div => if y.value == 0.0 then None else Some(x.value / y.value),
      (op: CmpOp, x: Value, y: Value) => x.Some? && y.Some? && x.value == y.value)
  }

  /** The sum 2 + 3 written as a multi-operator evaluates to 6 as written
      and to 5 with the operator's own fold. */
  lemma MultiAddAsWritten(ctx: StateContext)
    ensures EvaluateAsWritten(RealSemantics(), Multi(Add, [Constant(2.0), Constant(3.0)]), ctx) == Some(6.0)
    ensures Evaluate(RealSemantics(), Multi(Add, [Constant(2.0), Constant(3.0)]), ctx) == Some(5.0)
  {
    var e: Expr<GroundFunctionTerm> := Multi(Add, [Constant(2.0), Constant(3.0)]);
    assert EvaluateAsWritten(RealSemantics(), e.args[1], ctx) == Some(3.0);
    assert FoldAsWritten(RealSemantics(), Some(6.0), e, 2, ctx) == Some(6.0);
    assert FoldAsWritten(RealSemantics(), Some(2.0), e, 1, ctx) == Some(6.0);
    assert Evaluate(RealSemantics(), e.args[1], ctx) == Some(3.0);
    assert Fold(RealSemantics(), Add, Some(5.0), e, 2, ctx) == Some(5.0);
    assert Fold(RealSemantics(), Add, Some(2.0), e, 1, ctx) == Some(5.0);
  }

  // ----- Literals, FDR facts and conditions -----

  datatype GroundLiteral = GroundLiteral(polarity: bool, atom: nat)

  datatype FDRFact = FDRFact(variable: nat, value: nat)

  /** A static literal tests the task, a derived literal the state. */
  function StaticLiteralApplicable(l: GroundLiteral, ctx: StateContext): bool {
    (l.atom in ctx.staticAtoms) == l.polarity
  }

  function DerivedLiteralApplicable(l: GroundLiteral, ctx: StateContext): bool {
    (l.atom in ctx.derivedAtoms) == l.polarity
  }

  /** An FDR fact holds iff its variable has its value in the state. */
  function FactApplicable(f: FDRFact, ctx: StateContext): bool {
    ctx.fdrValues(f.variable) == f.value
  }

  function ConstraintHolds(sem: Semantics, c: Constraint<GroundFunctionTerm>, ctx: StateContext): bool
    requires WellFormed(c.left) && WellFormed(c.right)
  {
    sem.compare(c.cop, Evaluate(sem, c.left, ctx), Evaluate(sem, c.right, ctx))
  }

  datatype FDRCondition = FDRCondition(
    staticLiterals: seq<GroundLiteral>,
    facts: seq<FDRFact>,
    derivedLiterals: seq<GroundLiteral>,
    constraints: seq<Constraint<GroundFunctionTerm>>)

  predicate ConditionWellFormed(c: FDRCondition) {
    forall i :: 0 <= i < |c.constraints| ==> WellFormed(c.constraints[i].left) && WellFormed(c.constraints[i].right)
  }

  function StaticLiteralsApplicable(ls: seq<GroundLiteral>, ctx: StateContext): bool
    decreases |ls|
  {
    |ls| == 0 || (StaticLiteralApplicable(ls[0], ctx) && StaticLiteralsApplicable(ls[1..], ctx))
  }

  function DerivedLiteralsApplicable(ls: seq<GroundLiteral>, ctx: StateContext): bool
    decreases |ls|
  {
    |ls| == 0 || (DerivedLiteralApplicable(ls[0], ctx) && DerivedLiteralsApplicable(ls[1..], ctx))
  }

  function FactsApplicable(fs: seq<FDRFact>, ctx: StateContext): bool
    decreases |fs|
  {
    |fs| == 0 || (FactApplicable(fs[0], ctx) && FactsApplicable(fs[1..], ctx))
  }

  function ConstraintsHold(sem: Semantics, cs: seq<Constraint<GroundFunctionTerm>>, ctx: StateContext): bool
    requires forall i :: 0 <= i < |cs| ==> WellFormed(cs[i].left) && WellFormed(cs[i].right)
    decreases |cs|
  {
    |cs| == 0 || (ConstraintHolds(sem, cs[0], ctx) && ConstraintsHold(sem, cs[1..], ctx))
  }

  /** The FDR conjunctive condition: static literals, fluent FDR facts,
      derived literals and numeric constraints. */
  function ConditionApplicable(sem: Semantics, c: FDRCondition, ctx: StateContext): bool
    requires ConditionWellFormed(c)
  {
    StaticLiteralsApplicable(c.staticLiterals, ctx)
    && FactsApplicable(c.facts, ctx)
    && DerivedLiteralsApplicable(c.derivedLiterals, ctx)
    && ConstraintsHold(sem, c.constraints, ctx)
  }

  lemma {:induction false} FactsAll(fs: seq<FDRFact>, ctx: StateContext)
    ensures FactsApplicable(fs, ctx) <==> forall i :: 0 <= i < |fs| ==> ctx.fdrValues(fs[i].variable) == fs[i].value
    decreases |fs|
  {
    if |fs| > 0 {
      FactsAll(fs[1..], ctx);
      assert forall i :: 1 <= i < |fs| ==> fs[i] == fs[1..][i - 1];
    }
  }

  lemma {:induction false} StaticLiteralsAll(ls: seq<GroundLiteral>, ctx: StateContext)
    ensures StaticLiteralsApplicable(ls, ctx) <==> forall i :: 0 <= i < |ls| ==> (ls[i].atom in ctx.staticAtoms) == ls[i].polarity
    decreases |ls|
  {
    if |ls| > 0 {
      StaticLiteralsAll(ls[1..], ctx);
      assert forall i :: 1 <= i < |ls| ==> ls[i] == ls[1..][i - 1];
    }
  }

  lemma {:induction false} DerivedLiteralsAll(ls: seq<GroundLiteral>, ctx: StateContext)
    ensures DerivedLiteralsApplicable(ls, ctx) <==> forall i :: 0 <= i < |ls| ==> (ls[i].atom in ctx.derivedAtoms) == ls[i].polarity
    decreases |ls|
  {
    if |ls| > 0 {
      DerivedLiteralsAll(ls[1..], ctx);
      assert forall i :: 1 <= i < |ls| ==> ls[i] == ls[1..][i - 1];
    }
  }

  lemma {:induction false} ConstraintsAll(sem: Semantics, cs: seq<Constraint<GroundFunctionTerm>>, ctx: StateContext)
    requires forall i :: 0 <= i < |cs| ==> WellFormed(cs[i].left) && WellFormed(cs[i].right)
    ensures ConstraintsHold(sem, cs, ctx) <==> forall i :: 0 <= i < |cs| ==> ConstraintHolds(sem, cs[i], ctx)
    decreases |cs|
  {
    if |cs| > 0 {
      ConstraintsAll(sem, cs[1..], ctx);
      assert forall i :: 1 <= i < |cs| ==> cs[i] == cs[1..][i - 1];
    }
  }

  /** The condition holds iff every static literal agrees with the task,
      every FDR fact with the state's value, every derived literal with the
      state, and every numeric constraint holds. */
  lemma ConditionApplicableExact(sem: Semantics, c: FDRCondition, ctx: StateContext)
    requires ConditionWellFormed(c)
    ensures ConditionApplicable(sem, c, ctx) <==>
              (forall i :: 0 <= i < |c.staticLiterals| ==> (c.staticLiterals[i].atom in ctx.staticAtoms) == c.staticLiterals[i].polarity)
              && (forall i :: 0 <= i < |c.facts| ==> ctx.fdrValues(c.facts[i].variable) == c.facts[i].value)
              && (forall i :: 0 <= i < |c.derivedLiterals| ==> (c.derivedLiterals[i].atom in ctx.derivedAtoms) == c.derivedLiterals[i].polarity)
              && (forall i :: 0 <= i < |c.constraints| ==> ConstraintHolds(sem, c.constraints[i], ctx))
  {
    StaticLiteralsAll(c.staticLiterals, ctx);
    FactsAll(c.facts, ctx);
    DerivedLiteralsAll(c.derivedLiterals, ctx);
    ConstraintsAll(sem, c.constraints, ctx);
  }

  /** `is_statically_applicable`: only the static literals are tested. */
  function StaticallyApplicable(c: FDRCondition, ctx: StateContext): (r: bool)
    ensures r <==> forall i :: 0 <= i < |c.staticLiterals| ==> (c.staticLiterals[i].atom in ctx.staticAtoms) == c.staticLiterals[i].polarity
  {
    StaticLiteralsAll(c.staticLiterals, ctx);
    StaticLiteralsApplicable(c.staticLiterals, ctx)
  }

  /** Static applicability is necessary for applicability and depends on
      the task alone: a condition that fails it fails in every state that
      shares the task's static atoms. */
  lemma StaticallyApplicableNecessary(sem: Semantics, c: FDRCondition, ctx: StateContext, other: StateContext)
    requires ConditionWellFormed(c)
    requires other.staticAtoms == ctx.staticAtoms
    ensures ConditionApplicable(sem, c, ctx) ==> StaticallyApplicable(c, ctx)
    ensures !StaticallyApplicable(c, ctx) ==> !ConditionApplicable(sem, c, other)
  {
    StaticLiteralsAll(c.staticLiterals, ctx);
    StaticLiteralsAll(c.staticLiterals, other);
  }

  // ----- Numeric effects and effect families -----

  /** The family of an effect operator; NONE marks a function term no
      effect has touched yet. */
  datatype EffectFamily = NoFamily | Family(id: nat)

  datatype EffectOp = Assign | Increase | Decrease | ScaleUp | ScaleDown

  /** How operators map to families and which families may combine on one
      function term (`Op::family`, `is_compatible_effect_family`); their
      definitions are not part of this model. */
  datatype FamilyRules = FamilyRules(family: EffectOp -> EffectFamily, compatible: (EffectFamily, EffectFamily) -> bool)

  datatype NumericEffect = NumericEffect(op: EffectOp, fterm: nat, fexpr: Expr<GroundFunctionTerm>)

  /** `resize(fterm + 1, NONE)` as written: pads a short list, but also cuts
      a longer one down to fterm + 1 entries. */
  function ResizeAsWritten(families: seq<EffectFamily>, n: nat): (r: seq<EffectFamily>)
    ensures |r| == n
  {
    if n <= |families| then families[..n] else families + seq(n - |families|, _ => NoFamily)
  }

  /** Growing the list to at least n entries, keeping every record. */
  function Grow(families: seq<EffectFamily>, n: nat): (r: seq<EffectFamily>)
    ensures |r| == if n <= |families| then |families| else n
  {
    if n <= |families| then families else families + seq(n - |families|, _ => NoFamily)
  }

  /** The family check and the definedness checks of one fluent numeric
      effect: the family is recorded once it is found compatible, even if
      a definedness check then fails. */
  function CheckEffect(sem: Semantics, rules: FamilyRules, e: NumericEffect, ctx: StateContext, sized: seq<EffectFamily>): (r: (bool, seq<EffectFamily>))
    requires WellFormed(e.fexpr) && e.fterm < |sized|
  {
    if !rules.compatible(rules.family(e.op), sized[e.fterm]) then (false, sized)
    else
      var recorded := sized[e.fterm := rules.family(e.op)];
      if e.op != Assign && ctx.fluentValues(e.fterm).None? then (false, recorded)
      else (Evaluate(sem, e.fexpr, ctx).Some?, recorded)
  }

  function EffectApplicableAsWritten(sem: Semantics, rules: FamilyRules, e: NumericEffect, ctx: StateContext, families: seq<EffectFamily>): (bool, seq<EffectFamily>)
    requires WellFormed(e.fexpr)
  {
    CheckEffect(sem, rules, e, ctx, ResizeAsWritten(families, e.fterm + 1))
  }

  /** A fluent numeric effect, with the family list only ever growing. */
  function EffectApplicable(sem: Semantics, rules: FamilyRules, e: NumericEffect, ctx: StateContext, families: seq<EffectFamily>): (r: (bool, seq<EffectFamily>))
    requires WellFormed(e.fexpr)
    ensures r.0 <==> rules.compatible(rules.family(e.op), Grow(families, e.fterm + 1)[e.fterm])
                     && (e.op == Assign || ctx.fluentValues(e.fterm).Some?)
                     && Evaluate(sem, e.fexpr, ctx).Some?
  {
    CheckEffect(sem, rules, e, ctx, Grow(families, e.fterm + 1))
  }

  /** The family list after a checked effect: every earlier record is kept
      except the effect's own term, which records the effect's family once
      the family was compatible. */
  lemma EffectKeepsFamilies(sem: Semantics, rules: FamilyRules, e: NumericEffect, ctx: StateContext, families: seq<EffectFamily>)
    requires WellFormed(e.fexpr)
    ensures var r := EffectApplicable(sem, rules, e, ctx, families);
            |r.1| >= |families| && |r.1| > e.fterm
            && (forall t :: 0 <= t < |r.1| && t != e.fterm ==> r.1[t] == if t < |families| then families[t] else NoFamily)
            && (rules.compatible(rules.family(e.op), Grow(families, e.fterm + 1)[e.fterm]) ==> r.1[e.fterm] == rules.family(e.op))
  {
  }

  predicate EffectsWellFormed(es: seq<NumericEffect>) {
    forall i :: 0 <= i < |es| ==> WellFormed(es[i].fexpr)
  }

  /** `std::all_of` over the fluent numeric effects, threading the family
      list and stopping at the first inapplicable effect. */
  function EffectsApplicable(sem: Semantics, rules: FamilyRules, es: seq<NumericEffect>, ctx: StateContext, families: seq<EffectFamily>): (r: (bool, seq<EffectFamily>))
    requires EffectsWellFormed(es)
    decreases |es|
  {
    if |es| == 0 then (true, families)
    else
      var (ok, f1) := EffectApplicable(sem, rules, es[0], ctx, families);
      if !ok then (false, f1) else EffectsApplicable(sem, rules, es[1..], ctx, f1)
  }

  function EffectsApplicableAsWritten(sem: Semantics, rules: FamilyRules, es: seq<NumericEffect>, ctx: StateContext, families: seq<EffectFamily>): (bool, seq<EffectFamily>)
    requires EffectsWellFormed(es)
    decreases |es|
  {
    if |es| == 0 then (true, families)
    else
      var (ok, f1) := EffectApplicableAsWritten(sem, rules, es[0], ctx, families);
      if !ok then (false, f1) else EffectsApplicableAsWritten(sem, rules, es[1..], ctx, f1)
  }

  /** Families under which an operator conflicts with a different one on
      the same term, and an assignment is always defined. */
  function ExampleRules(): FamilyRules {
    FamilyRules(
      (op: EffectOp) => if op == Assign then Family(0) else Family(1),
      (f: EffectFamily, recorded: EffectFamily) => recorded == NoFamily || recorded == f)
  }

  /** Two assignments: an increase on term 5, an assignment on term 2 and an
      assignment on term 5. The first and third conflict. As written, the
      second effect's resize drops the record of term 5 and all three pass;
      with a growing list the third is rejected. */
  lemma ShrinkingFamiliesAsWritten(ctx: StateContext)
    requires ctx.fluentValues(5) == Some(1.0)
    ensures var es := [NumericEffect(Increase, 5, Constant(1.0)), NumericEffect(Assign, 2, Constant(0.0)), NumericEffect(Assign, 5, Constant(0.0))];
            EffectsApplicableAsWritten(RealSemantics(), ExampleRules(), es, ctx, []).0
            && !EffectsApplicable(RealSemantics(), ExampleRules(), es, ctx, []).0
  {
    var sem, rules := RealSemantics(), ExampleRules();
    var e1, e2, e3 := NumericEffect(Increase, 5, Constant(1.0)), NumericEffect(Assign, 2, Constant(0.0)), NumericEffect(Assign, 5, Constant(0.0));
    var es := [e1, e2, e3];
    var w1 := EffectApplicableAsWritten(sem, rules, e1, ctx, []);
    assert w1.0 && w1.1[5] == Family(1) && |w1.1| == 6;
    var w2 := EffectApplicableAsWritten(sem, rules, e2, ctx, w1.1);
    assert w2.0 && |w2.1| == 3;
    var w3 := EffectApplicableAsWritten(sem, rules, e3, ctx, w2.1);
    assert ResizeAsWritten(w2.1, 6)[5] == NoFamily;
    assert w3.0;
    assert es[1..] == [e2, e3] && es[1..][1..] == [e3] && es[1..][1..][1..] == [];
    var g1 := EffectApplicable(sem, rules, e1, ctx, []);
    var g2 := EffectApplicable(sem, rules, e2, ctx, g1.1);
    assert g2.1[5] == Family(1);
    assert !EffectApplicable(sem, rules, e3, ctx, g2.1).0;
  }

  /** A conjunctive effect: the fluent numeric effects, and the auxiliary
      effect if there is one, whose expression must be defined. */
  datatype ConjunctiveEffect = ConjunctiveEffect(numericEffects: seq<NumericEffect>, auxiliaryEffect: Option<Expr<GroundFunctionTerm>>)

  predicate ConjunctiveEffectWellFormed(e: ConjunctiveEffect) {
    EffectsWellFormed(e.numericEffects) && (e.auxiliaryEffect.Some? ==> WellFormed(e.auxiliaryEffect.value))
  }

  function ConjunctiveEffectApplicable(sem: Semantics, rules: FamilyRules, e: ConjunctiveEffect, ctx: StateContext, families: seq<EffectFamily>): (bool, seq<EffectFamily>)
    requires ConjunctiveEffectWellFormed(e)
  {
    var (ok, f1) := EffectsApplicable(sem, rules, e.numericEffects, ctx, families);
    (ok && (e.auxiliaryEffect.None? || Evaluate(sem, e.auxiliaryEffect.value, ctx).Some?), f1)
  }

  datatype ConditionalEffect = ConditionalEffect(condition: FDRCondition, effect: ConjunctiveEffect)

  predicate ConditionalWellFormed(c: ConditionalEffect) {
    ConditionWellFormed(c.condition) && ConjunctiveEffectWellFormed(c.effect)
  }

  /** `is_applicable_if_fires`: the effect is checked first (recording its
      families), then the condition; the effect is fine if applicable or
      if it would not fire. */
  function ApplicableIfFires(sem: Semantics, rules: FamilyRules, c: ConditionalEffect, ctx: StateContext, families: seq<EffectFamily>): (r: (bool, seq<EffectFamily>))
    requires ConditionalWellFormed(c)
    ensures r.0 <==> ConjunctiveEffectApplicable(sem, rules, c.effect, ctx, families).0 || !ConditionApplicable(sem, c.condition, ctx)
    ensures r.1 == ConjunctiveEffectApplicable(sem, rules, c.effect, ctx, families).1
  {
    var (ok, f1) := ConjunctiveEffectApplicable(sem, rules, c.effect, ctx, families);
    (ok || !ConditionApplicable(sem, c.condition, ctx), f1)
  }

  function AllIfFires(sem: Semantics, rules: FamilyRules, cs: seq<ConditionalEffect>, ctx: StateContext, families: seq<EffectFamily>): (bool, seq<EffectFamily>)
    requires forall i :: 0 <= i < |cs| ==> ConditionalWellFormed(cs[i])
    decreases |cs|
  {
    if |cs| == 0 then (true, families)
    else
      var (ok, f1) := ApplicableIfFires(sem, rules, cs[0], ctx, families);
      if !ok then (false, f1) else AllIfFires(sem, rules, cs[1..], ctx, f1)
  }

  datatype GroundAction = GroundAction(condition: FDRCondition, effects: seq<ConditionalEffect>)

  predicate ActionWellFormed(a: GroundAction) {
    ConditionWellFormed(a.condition) && forall i :: 0 <= i < |a.effects| ==> ConditionalWellFormed(a.effects[i])
  }

  /** An action: its condition, then every conditional effect
      applicable-if-fires, all sharing one family list. */
  function ActionApplicable(sem: Semantics, rules: FamilyRules, a: GroundAction, ctx: StateContext, families: seq<EffectFamily>): (r: (bool, seq<EffectFamily>))
    requires ActionWellFormed(a)
    ensures !ConditionApplicable(sem, a.condition, ctx) ==> r == (false, families)
  {
    if !ConditionApplicable(sem, a.condition, ctx) then (false, families)
    else AllIfFires(sem, rules, a.effects, ctx, families)
  }

  /** The families recorded along a run of conditional effects, each
      starting from the list the previous one left. */
  function FamiliesAfter(sem: Semantics, rules: FamilyRules, cs: seq<ConditionalEffect>, ctx: StateContext, families: seq<EffectFamily>, n: nat): seq<EffectFamily>
    requires forall i :: 0 <= i < |cs| ==> ConditionalWellFormed(cs[i])
    requires n <= |cs|
    decreases n
  {
    if n == 0 then families
    else ApplicableIfFires(sem, rules, cs[n - 1], ctx, FamiliesAfter(sem, rules, cs, ctx, families, n - 1)).1
  }

  /** An applicable action has a holding condition and every conditional
      effect applicable-if-fires against the families its predecessors
      recorded. */
  lemma ActionApplicableMeaning(sem: Semantics, rules: FamilyRules, a: GroundAction, ctx: StateContext, families: seq<EffectFamily>)
    requires ActionWellFormed(a)
    ensures ActionApplicable(sem, rules, a, ctx, families).0 <==>
              ConditionApplicable(sem, a.condition, ctx)
              && forall i :: 0 <= i < |a.effects| ==>
                   ApplicableIfFires(sem, rules, a.effects[i], ctx, FamiliesAfter(sem, rules, a.effects, ctx, families, i)).0
  {
    AllIfFiresMeaning(sem, rules, a.effects, ctx, families, 0);
  }

  lemma {:induction false} AllIfFiresMeaning(sem: Semantics, rules: FamilyRules, cs: seq<ConditionalEffect>, ctx: StateContext, families: seq<EffectFamily>, n: nat)
    requires forall i :: 0 <= i < |cs| ==> ConditionalWellFormed(cs[i])
    requires n <= |cs|
    ensures AllIfFires(sem, rules, cs[n..], ctx, FamiliesAfter(sem, rules, cs, ctx, families, n)).0 <==>
              forall i :: n <= i < |cs| ==> ApplicableIfFires(sem, rules, cs[i], ctx, FamiliesAfter(sem, rules, cs, ctx, families, i)).0
    decreases |cs| - n
  {
    if n < |cs| {
      AllIfFiresMeaning(sem, rules, cs, ctx, families, n + 1);
      assert cs[n..][0] == cs[n] && cs[n..][1..] == cs[n + 1..];
    }
  }
}
