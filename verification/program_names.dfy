/** The names, predicates and atoms the planning-to-datalog translation
    generates for actions, conditional effects and axioms
    (`create_applicability_name`, `create_triggered_name`,
    `create_applicability_predicate`, `create_applicability_atom`). */
module ProgramNames {
  import opened Wrappers
  import opened Strings
  import opened Formalism
  import opened PlanningRepository

  /** The name of an action's (or an axiom's) applicability predicate:
      "@", the action name (for an axiom, its head predicate's name), "_"
      and the decimal index. */
  function ApplicabilityName(name: string, index: nat): (s: string)
    ensures |s| > 0 && s[0] == '@'
  {
    "@" + name + "_" + NatToString(index)
  }

  /** The name of a conditional effect's trigger: the action's
      applicability name, "_" and the decimal index of the effect. */
  function TriggeredName(actionName: string, actionIndex: nat, effectIndex: nat): (s: string)
    ensures |s| > 0 && s[0] == '@'
    ensures HasPrefix(s, ApplicabilityName(actionName, actionIndex) + "_")
  {
    ApplicabilityName(actionName, actionIndex) + "_" + NatToString(effectIndex)
  }

  /** A numeral holds no underscore. */
  lemma NumeralHasNoUnderscore(n: nat)
    ensures '_' !in NatToString(n)
  {
    var s := NatToString(n);
    assert forall k :: 0 <= k < |s| ==> s[k] != '_';
  }

  /** The text after the last occurrence of `c` (all of `s` when `c` does
      not occur). */
  function AfterLast(s: string, c: char): (r: string)
    ensures |r| <= |s|
    decreases |s|
  {
    if |s| == 0 || s[|s| - 1] == c then [] else AfterLast(s[..|s| - 1], c) + [s[|s| - 1]]
  }

  /** A text ending in `c` followed by a suffix without `c`: the suffix is
      what follows the last `c`. */
  lemma {:induction false} AfterLastOf(p: string, c: char, d: string)
    requires c !in d
    ensures AfterLast(p + [c] + d, c) == d
    decreases |d|
  {
    var s := p + [c] + d;
    if |d| > 0 {
      var init := d[..|d| - 1];
      assert s[..|s| - 1] == p + [c] + init;
      AfterLastOf(p, c, init);
    } else {
      assert s[|s| - 1] == c;
    }
  }

  /** The applicability name determines the name and the index it was made
      from: the index is what follows the last underscore. */
  lemma ApplicabilityNameInjective(n1: string, i1: nat, n2: string, i2: nat)
    requires ApplicabilityName(n1, i1) == ApplicabilityName(n2, i2)
    ensures n1 == n2 && i1 == i2
  {
    var s := ApplicabilityName(n1, i1);
    var d1, d2 := NatToString(i1), NatToString(i2);
    NumeralHasNoUnderscore(i1);
    NumeralHasNoUnderscore(i2);
    assert s == ("@" + n1) + ['_'] + d1 && s == ("@" + n2) + ['_'] + d2;
    AfterLastOf("@" + n1, '_', d1);
    AfterLastOf("@" + n2, '_', d2);
    assert n1 == s[1..|s| - |d1| - 1] == n2;
    NatToStringInjective(i1, i2);
  }

  /** A predicate: its name and arity. */
  datatype Predicate = Predicate(name: string, arity: nat)

  /** `create_applicability_predicate`: the predicate named by the
      applicability name with the action's arity, created in (or found
      in) the destination. */
  function ApplicabilityPredicate(name: string, index: nat, arity: nat, dest: Repo<Predicate>): (res: (Repo<Predicate>, nat, bool))
    ensures Find(res.0, Predicate(ApplicabilityName(name, index), arity)) == Some(res.1)
  {
    var p := Predicate(ApplicabilityName(name, index), arity);
    GetOrCreateFinds(dest, p, p);
    GetOrCreate(dest, p)
  }

  /** The parameter list P0, ..., P(arity - 1). */
  function Parameters(arity: nat): (terms: seq<Term>)
    ensures |terms| == arity
    ensures forall i :: 0 <= i < arity ==> terms[i] == ParameterTerm(i)
    decreases arity
  {
    if arity == 0 then [] else Parameters(arity - 1) + [ParameterTerm(arity - 1)]
  }

  /** `create_applicability_atom`: the applicability predicate applied to
      P0, ..., P(arity - 1), created (or found) in the atom repository. */
  function ApplicabilityAtom(name: string, index: nat, arity: nat, preds: Repo<Predicate>, atoms: Repo<Atom>): (res: (Repo<Predicate>, Repo<Atom>, nat))
    ensures var p := Find(res.0, Predicate(ApplicabilityName(name, index), arity));
            p.Some? && Find(res.1, Atom(p.value, Parameters(arity))) == Some(res.2)
  {
    var (preds1, p, _) := ApplicabilityPredicate(name, index, arity, preds);
    var a := Atom(p, Parameters(arity));
    GetOrCreateFinds(atoms, a, a);
    var (atoms1, ai, _) := GetOrCreate(atoms, a);
    (preds1, atoms1, ai)
  }

  /** The applicability atom mentions every parameter below the arity once,
      in order, and no object. */
  lemma ApplicabilityAtomShape(arity: nat, binding: seq<nat>)
    requires |binding| == arity
    ensures Bound(Parameters(arity), binding)
    ensures Substitute(Parameters(arity), binding) == binding
  {
  }

  /** Building the applicability atom twice gives the same index, and
      the second time nothing is created. */
  lemma ApplicabilityAtomIdempotent(name: string, index: nat, arity: nat, preds: Repo<Predicate>, atoms: Repo<Atom>)
    ensures var (preds1, atoms1, i1) := ApplicabilityAtom(name, index, arity, preds, atoms);
            ApplicabilityAtom(name, index, arity, preds1, atoms1) == (preds1, atoms1, i1)
  {
    var p := Predicate(ApplicabilityName(name, index), arity);
    GetOrCreateIdempotent(preds, p);
    var (preds1, pi, _) := GetOrCreate(preds, p);
    GetOrCreateIdempotent(atoms, Atom(pi, Parameters(arity)));
  }
}
