/** The five numeric-effect operators on a value and the value of the
    effect's expression. The source is generic in the number type; the
    model instantiates it with the reals, an exact ordered field. */
module NumericEffectOperators {
  import opened PlanningApplicability

  /** `apply(op, lhs, rhs)`; scaling down by zero has no value in a field,
      so the model asks for a non-zero right-hand side there. */
  function Apply(op: EffectOp, lhs: real, rhs: real): (r: real)
    requires op == ScaleDown ==> rhs != 0.0
    ensures op == Assign ==> r == rhs
    ensures op == Increase ==> r - rhs == lhs
    ensures op == Decrease ==> r + rhs == lhs
    ensures op == ScaleUp ==> (rhs != 0.0 ==> r / rhs == lhs) && (rhs == 0.0 ==> r == 0.0)
    ensures op == ScaleDown ==> r * rhs == lhs
    ensures op == Increase ==> (r > lhs <==> rhs > 0.0) && (r == lhs <==> rhs == 0.0)
    ensures op == Decrease ==> (r < lhs <==> rhs > 0.0) && (r == lhs <==> rhs == 0.0)
  {
    match op
    case Assign => rhs
    case Increase => lhs + rhs
    case Decrease => lhs - rhs
    case ScaleUp => MulDivCancel(lhs, rhs); lhs * rhs
    case ScaleDown => lhs / rhs
  }

  /** Dividing a product by a non-zero factor gives the other factor. */
  lemma MulDivCancel(a: real, b: real)
    ensures b != 0.0 ==> (a * b) / b == a
  {
  }

  /** The operator that undoes another one, where there is one. */
  function Inverse(op: EffectOp): (inv: EffectOp)
    requires op != Assign
    ensures inv != Assign && inv != op
    ensures (op == Increase || op == Decrease) <==> (inv == Increase || inv == Decrease)
  {
    match op
    case Increase => Decrease
    case Decrease => Increase
    case ScaleUp => ScaleDown
    case ScaleDown => ScaleUp
  }

  /** Decrease undoes increase (and back), scale-down undoes scale-up by
      the same non-zero value (and back). */
  lemma ApplyInverse(op: EffectOp, lhs: real, rhs: real)
    requires op != Assign
    requires (op == ScaleUp || op == ScaleDown) ==> rhs != 0.0
    ensures Apply(Inverse(op), Apply(op, lhs, rhs), rhs) == lhs
  {
    if op == ScaleDown {
      assert (lhs / rhs) * rhs == lhs;
    }
  }

  /** Assignment ignores the old value. */
  lemma AssignIgnoresOld(lhs1: real, lhs2: real, rhs: real)
    ensures Apply(Assign, lhs1, rhs) == Apply(Assign, lhs2, rhs) == rhs
  {
  }

  /** Two increases by a and b are one increase by a + b. */
  lemma IncreaseComposes(lhs: real, a: real, b: real)
    ensures Apply(Increase, Apply(Increase, lhs, a), b) == Apply(Increase, lhs, a + b)
  {
  }
}
