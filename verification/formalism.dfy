/** The index-level Datalog formalism shared by the analyses and the
    grounder: predicates, objects and rules are referred to by their index
    in the program's repository, and a term is either a rule parameter or
    an object. */
module Formalism {
  datatype Term = ParameterTerm(param: nat) | ObjectTerm(obj: nat)

  datatype Atom = Atom(pred: nat, terms: seq<Term>)

  datatype GroundAtom = GroundAtom(pred: nat, objects: seq<nat>)

  datatype Literal = Literal(polarity: bool, atom: Atom)

  /** A rule: its variables (only their number matters here), the static
      and fluent body literals and the (fluent) head. */
  datatype Rule = Rule(numVariables: nat, staticBody: seq<Literal>, fluentBody: seq<Literal>, head: Atom)

  /** The atoms of a list of literals, in order. */
  function Atoms(lits: seq<Literal>): (r: seq<Atom>)
    ensures |r| == |lits| && forall n :: 0 <= n < |lits| ==> r[n] == lits[n].atom
  {
    seq(|lits|, n requires 0 <= n < |lits| => lits[n].atom)
  }

  /** Every parameter term of the atom names one of `numVariables`
      variables. */
  predicate ParamsBelow(a: Atom, numVariables: nat) {
    forall j :: 0 <= j < |a.terms| && a.terms[j].ParameterTerm? ==> a.terms[j].param < numVariables
  }

  /** The atom's predicate is one of the listed ones and it has one term
      per parameter of that predicate. */
  predicate FitsArity(a: Atom, arities: seq<nat>) {
    a.pred < |arities| && |a.terms| == arities[a.pred]
  }

  predicate GroundFitsArity(a: GroundAtom, arities: seq<nat>) {
    a.pred < |arities| && |a.objects| == arities[a.pred]
  }

  /** Every parameter of the terms has a binding. */
  predicate Bound(terms: seq<Term>, binding: seq<nat>) {
    forall j :: 0 <= j < |terms| && terms[j].ParameterTerm? ==> terms[j].param < |binding|
  }

  /** Substitution of a binding into a term list (`ground_into_buffer`,
      `ground(Atom)`): a parameter becomes its bound object, an object
      stays. */
  function Substitute(terms: seq<Term>, binding: seq<nat>): (r: seq<nat>)
    requires Bound(terms, binding)
    ensures |r| == |terms|
  {
    seq(|terms|, j requires 0 <= j < |terms| && Bound(terms, binding) =>
      match terms[j]
      case ParameterTerm(k) => binding[k]
      case ObjectTerm(o) => o)
  }

  function GroundAtomOf(a: Atom, binding: seq<nat>): GroundAtom
    requires Bound(a.terms, binding)
  {
    GroundAtom(a.pred, Substitute(a.terms, binding))
  }
}
