/** The rule grounder's entry points (`ground(Atom)` and
    `ground(workspaces)`): substitution of a binding into an atom, and the
    choice of the grounding procedure by the arity of the rule body. */
module Generator {
  import opened Formalism

  /** `ground(Atom)`: the object list is built term by term; the predicate
      is kept. */
  method GroundAtomLoop(a: Atom, binding: seq<nat>) returns (g: GroundAtom)
    requires Bound(a.terms, binding)
    ensures g.pred == a.pred && |g.objects| == |a.terms|
    ensures forall j :: 0 <= j < |a.terms| ==>
              g.objects[j] == (if a.terms[j].ParameterTerm? then binding[a.terms[j].param] else a.terms[j].obj)
    ensures g == GroundAtomOf(a, binding)
  {
    var objects: seq<nat> := [];
    var j := 0;
    while j < |a.terms|
      invariant j <= |a.terms| && |objects| == j
      invariant forall i :: 0 <= i < j ==>
                  objects[i] == (if a.terms[i].ParameterTerm? then binding[a.terms[i].param] else a.terms[i].obj)
    {
      match a.terms[j] {
        case ParameterTerm(k) => objects := objects + [binding[k]];
        case ObjectTerm(o) => objects := objects + [o];
      }
      j := j + 1;
    }
    g := GroundAtom(a.pred, objects);
  }

  /** Grounding keeps the arity of the atom, and bindings that agree on the
      atom's parameters give the same ground atom. */
  lemma GroundAtomRespects(a: Atom, arities: seq<nat>, b1: seq<nat>, b2: seq<nat>)
    requires Bound(a.terms, b1) && Bound(a.terms, b2)
    requires forall j :: 0 <= j < |a.terms| && a.terms[j].ParameterTerm? ==> b1[a.terms[j].param] == b2[a.terms[j].param]
    ensures FitsArity(a, arities) ==> GroundFitsArity(GroundAtomOf(a, b1), arities)
    ensures GroundAtomOf(a, b1) == GroundAtomOf(a, b2)
  {
    assert Substitute(a.terms, b1) == Substitute(a.terms, b2);
  }

  /** The procedure a rule is grounded with. */
  datatype GroundingCase = Skipped | NullaryCase | UnaryCase | GeneralCase

  /** `ground(workspaces)`: nothing when the nullary conditions fail,
      otherwise by the number of body variables. Whether the nullary
      conditions hold is a parameter. */
  function Dispatch(nullaryHold: bool, arity: nat): (c: GroundingCase)
    ensures c == Skipped <==> !nullaryHold
    ensures c == NullaryCase <==> nullaryHold && arity == 0
    ensures c == UnaryCase <==> nullaryHold && arity == 1
    ensures c == GeneralCase <==> nullaryHold && arity >= 2
  {
    if !nullaryHold then Skipped
    else if arity == 0 then NullaryCase
    else if arity == 1 then UnaryCase
    else GeneralCase
  }
}
