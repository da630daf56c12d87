/** The variable-domain analysis (`compute_variable_list_per_predicate`):
    for every predicate position, the set of objects that can occur there.
    Static domains are read off the static atoms; every rule's parameter
    domains start as the universe and are cut down by the static body; the
    fluent domains start from the fluent atoms and grow by the parameter
    domains of the rules that can produce or consume them. */
module VariableDomains {
  import opened Formalism

  /** `DomainSetListList`: one object set per predicate position. */
  type Domains = seq<seq<set<nat>>>

  datatype Program = Program(
    objects: seq<nat>,
    staticArities: seq<nat>,
    fluentArities: seq<nat>,
    staticAtoms: seq<GroundAtom>,
    fluentAtoms: seq<GroundAtom>,
    rules: seq<Rule>)

  /** The table has one row per predicate and one set per parameter. */
  predicate Shape(d: Domains, arities: seq<nat>) {
    |d| == |arities| && forall p :: 0 <= p < |d| ==> |d[p]| == arities[p]
  }

  /** The well-formedness the analysis relies on for its indexing: every
      atom fits its predicate's arity, every parameter names a variable of
      its rule, and a rule's head is a fluent atom. */
  predicate WellFormedRule(r: Rule, staticArities: seq<nat>, fluentArities: seq<nat>) {
    (forall n :: 0 <= n < |r.staticBody| ==>
       FitsArity(r.staticBody[n].atom, staticArities) && ParamsBelow(r.staticBody[n].atom, r.numVariables))
    && (forall n :: 0 <= n < |r.fluentBody| ==>
       FitsArity(r.fluentBody[n].atom, fluentArities) && ParamsBelow(r.fluentBody[n].atom, r.numVariables))
    && FitsArity(r.head, fluentArities) && ParamsBelow(r.head, r.numVariables)
  }

  predicate WellFormed(prog: Program) {
    (forall n :: 0 <= n < |prog.staticAtoms| ==> GroundFitsArity(prog.staticAtoms[n], prog.staticArities))
    && (forall n :: 0 <= n < |prog.fluentAtoms| ==> GroundFitsArity(prog.fluentAtoms[n], prog.fluentArities))
    && (forall m :: 0 <= m < |prog.rules| ==> WellFormedRule(prog.rules[m], prog.staticArities, prog.fluentArities))
  }

  /** Adds `s` to the set at [p][k]; nothing else changes. */
  function Grow(d: Domains, p: nat, k: nat, s: set<nat>): (r: Domains)
    requires p < |d| && k < |d[p]|
    ensures |r| == |d| && forall q :: 0 <= q < |d| ==> |r[q]| == |d[q]|
    ensures forall q, j :: 0 <= q < |d| && 0 <= j < |d[q]| ==>
              r[q][j] == if q == p && j == k then d[q][j] + s else d[q][j]
  {
    d[p := d[p][k := d[p][k] + s]]
  }

  /** Step 1: the empty table, one set per predicate parameter. */
  function EmptyDomains(arities: seq<nat>): (r: Domains)
    ensures Shape(r, arities)
    ensures forall p, k :: 0 <= p < |r| && 0 <= k < |r[p]| ==> r[p][k] == {}
  {
    seq(|arities|, p requires 0 <= p < |arities| => seq(arities[p], _ => {}))
  }

  /** Inserts the objects of one atom, position by position. */
  function InsertObjects(d: Domains, p: nat, objects: seq<nat>): (r: Domains)
    requires p < |d| && |objects| <= |d[p]|
    ensures |r| == |d| && forall q :: 0 <= q < |d| ==> |r[q]| == |d[q]|
    decreases |objects|
  {
    if |objects| == 0 then d
    else Grow(InsertObjects(d, p, objects[..|objects| - 1]), p, |objects| - 1, {objects[|objects| - 1]})
  }

  /** Inserts the objects of every atom. */
  function InsertAtoms(d: Domains, arities: seq<nat>, atoms: seq<GroundAtom>): (r: Domains)
    requires Shape(d, arities)
    requires forall n :: 0 <= n < |atoms| ==> GroundFitsArity(atoms[n], arities)
    ensures Shape(r, arities)
    decreases |atoms|
  {
    if |atoms| == 0 then d
    else
      var a := atoms[|atoms| - 1];
      assert GroundFitsArity(a, arities);
      InsertObjects(InsertAtoms(d, arities, atoms[..|atoms| - 1]), a.pred, a.objects)
  }

  /** Object x occurs at position k of some atom of predicate p. */
  predicate OccursAt(atoms: seq<GroundAtom>, p: nat, k: nat, x: nat) {
    exists n :: 0 <= n < |atoms| && atoms[n].pred == p && k < |atoms[n].objects| && atoms[n].objects[k] == x
  }

  /** Step 1 for one kind of predicate. */
  function InitialDomains(arities: seq<nat>, atoms: seq<GroundAtom>): (r: Domains)
    requires forall n :: 0 <= n < |atoms| ==> GroundFitsArity(atoms[n], arities)
  {
    InsertAtoms(EmptyDomains(arities), arities, atoms)
  }

  lemma {:induction false} InsertObjectsMembers(d: Domains, p: nat, objects: seq<nat>, q: nat, k: nat, x: nat)
    requires p < |d| && |objects| <= |d[p]| && q < |d| && k < |d[q]|
    ensures x in InsertObjects(d, p, objects)[q][k] <==> x in d[q][k] || (q == p && k < |objects| && objects[k] == x)
    decreases |objects|
  {
    if |objects| > 0 {
      InsertObjectsMembers(d, p, objects[..|objects| - 1], q, k, x);
    }
  }

  lemma {:induction false} InsertAtomsMembers(d: Domains, arities: seq<nat>, atoms: seq<GroundAtom>, q: nat, k: nat, x: nat)
    requires Shape(d, arities)
    requires forall n :: 0 <= n < |atoms| ==> GroundFitsArity(atoms[n], arities)
    requires q < |d| && k < |d[q]|
    ensures x in InsertAtoms(d, arities, atoms)[q][k] <==> x in d[q][k] || OccursAt(atoms, q, k, x)
    decreases |atoms|
  {
    if |atoms| > 0 {
      var init := atoms[..|atoms| - 1];
      var a := atoms[|atoms| - 1];
      InsertAtomsMembers(d, arities, init, q, k, x);
      InsertObjectsMembers(InsertAtoms(d, arities, init), a.pred, a.objects, q, k, x);
      if OccursAt(atoms, q, k, x) {
        var n :| 0 <= n < |atoms| && atoms[n].pred == q && k < |atoms[n].objects| && atoms[n].objects[k] == x;
        if n < |init| {
          assert init[n] == atoms[n];
        }
      }
      if OccursAt(init, q, k, x) {
        var n :| 0 <= n < |init| && init[n].pred == q && k < |init[n].objects| && init[n].objects[k] == x;
        assert atoms[n] == init[n];
      }
    }
  }

  /** Step 1: the domain of position k of predicate p is exactly the set
      of objects found there in the atoms of p. */
  lemma InitialDomainsExact(arities: seq<nat>, atoms: seq<GroundAtom>, p: nat, k: nat, x: nat)
    requires forall n :: 0 <= n < |atoms| ==> GroundFitsArity(atoms[n], arities)
    requires p < |arities| && k < arities[p]
    ensures Shape(InitialDomains(arities, atoms), arities)
    ensures x in InitialDomains(arities, atoms)[p][k] <==> OccursAt(atoms, p, k, x)
  {
    InsertAtomsMembers(EmptyDomains(arities), arities, atoms, p, k, x);
  }

  /** Step 2 for one atom: every parameter term at position j intersects
      its parameter's domain with the predicate domain at j. */
  function RestrictTerms(pd: seq<set<nat>>, dom: seq<set<nat>>, terms: seq<Term>): (r: seq<set<nat>>)
    requires |terms| <= |dom|
    requires forall j :: 0 <= j < |terms| && terms[j].ParameterTerm? ==> terms[j].param < |pd|
    ensures |r| == |pd|
    decreases |terms|
  {
    if |terms| == 0 then pd
    else
      var t := terms[|terms| - 1];
      var r := RestrictTerms(pd, dom, terms[..|terms| - 1]);
      match t
      case ObjectTerm(_) => r
      case ParameterTerm(i) => r[i := r[i] * dom[|terms| - 1]]
  }

  /** Parameter i of the atom occurs at position j. */
  predicate ParamAt(a: Atom, j: nat, i: nat) {
    j < |a.terms| && a.terms[j] == ParameterTerm(i)
  }

  lemma {:induction false} RestrictTermsMembers(pd: seq<set<nat>>, dom: seq<set<nat>>, terms: seq<Term>, i: nat, x: nat)
    requires |terms| <= |dom|
    requires forall j :: 0 <= j < |terms| && terms[j].ParameterTerm? ==> terms[j].param < |pd|
    requires i < |pd|
    ensures x in RestrictTerms(pd, dom, terms)[i] <==>
              x in pd[i] && forall j :: 0 <= j < |terms| && terms[j] == ParameterTerm(i) ==> x in dom[j]
    decreases |terms|
  {
    if |terms| > 0 {
      var init := terms[..|terms| - 1];
      RestrictTermsMembers(pd, dom, init, i, x);
      assert forall j :: 0 <= j < |init| ==> init[j] == terms[j];
    }
  }

  /** Every parameter of every atom names one of the `n` parameters, and
      every atom fits its predicate's arity. */
  predicate AtomsFit(atoms: seq<Atom>, arities: seq<nat>, n: nat) {
    forall m :: 0 <= m < |atoms| ==> FitsArity(atoms[m], arities) && ParamsBelow(atoms[m], n)
  }

  /** Step 2 for a rule body: the restriction of every atom in order. */
  function RestrictBody(pd: seq<set<nat>>, d: Domains, arities: seq<nat>, atoms: seq<Atom>): (r: seq<set<nat>>)
    requires Shape(d, arities) && AtomsFit(atoms, arities, |pd|)
    ensures |r| == |pd|
    decreases |atoms|
  {
    if |atoms| == 0 then pd
    else
      var a := atoms[|atoms| - 1];
      RestrictTerms(RestrictBody(pd, d, arities, atoms[..|atoms| - 1]), d[a.pred], a.terms)
  }

  /** x survives the body: it lies in the static domain of every position
      where parameter i occurs in the body. */
  ghost predicate Survives(d: Domains, atoms: seq<Atom>, i: nat, x: nat)
    requires forall m :: 0 <= m < |atoms| ==> atoms[m].pred < |d| && |atoms[m].terms| <= |d[atoms[m].pred]|
  {
    forall m, j :: 0 <= m < |atoms| && 0 <= j && ParamAt(atoms[m], j, i) ==> x in d[atoms[m].pred][j]
  }

  /** x lies in the domain of every position where parameter i occurs in
      the atom. */
  ghost predicate SurvivesAtom(d: Domains, a: Atom, i: nat, x: nat)
    requires a.pred < |d| && |a.terms| <= |d[a.pred]|
  {
    forall j :: 0 <= j < |a.terms| && a.terms[j] == ParameterTerm(i) ==> x in d[a.pred][j]
  }

  /** Surviving a body is surviving its prefix and its last atom. */
  lemma SurvivesLast(d: Domains, atoms: seq<Atom>, i: nat, x: nat)
    requires |atoms| > 0
    requires forall m :: 0 <= m < |atoms| ==> atoms[m].pred < |d| && |atoms[m].terms| <= |d[atoms[m].pred]|
    ensures Survives(d, atoms, i, x) <==>
              Survives(d, atoms[..|atoms| - 1], i, x)
              && SurvivesAtom(d, atoms[|atoms| - 1], i, x)
  {
    var init := atoms[..|atoms| - 1];
    assert forall m :: 0 <= m < |init| ==> init[m] == atoms[m];
  }

  lemma {:induction false} RestrictBodyMembers(pd: seq<set<nat>>, d: Domains, arities: seq<nat>, atoms: seq<Atom>, i: nat, x: nat)
    requires Shape(d, arities) && AtomsFit(atoms, arities, |pd|) && i < |pd|
    ensures x in RestrictBody(pd, d, arities, atoms)[i] <==> x in pd[i] && Survives(d, atoms, i, x)
    decreases |atoms|
  {
    if |atoms| > 0 {
      var init := atoms[..|atoms| - 1];
      var a := atoms[|atoms| - 1];
      RestrictBodyMembers(pd, d, arities, init, i, x);
      RestrictTermsMembers(RestrictBody(pd, d, arities, init), d[a.pred], a.terms, i, x);
      SurvivesLast(d, atoms, i, x);
    }
  }

  /** Step 2: a rule's parameter domains, starting from the universe and
      restricted by the atoms of its static body. Literal polarity plays no
      part. */
  function RuleDomains(universe: set<nat>, staticDomains: Domains, staticArities: seq<nat>, rule: Rule): (r: seq<set<nat>>)
    requires Shape(staticDomains, staticArities)
    requires AtomsFit(Atoms(rule.staticBody), staticArities, rule.numVariables)
    ensures |r| == rule.numVariables
  {
    RestrictBody(seq(rule.numVariables, _ => universe), staticDomains, staticArities, Atoms(rule.staticBody))
  }

  /** Object x is in the domain of parameter i iff it is an object of the
      program and fits every static-body position where i occurs; in
      particular the domains only shrink from the universe. */
  lemma RuleDomainsExact(universe: set<nat>, staticDomains: Domains, staticArities: seq<nat>, rule: Rule, i: nat, x: nat)
    requires Shape(staticDomains, staticArities)
    requires AtomsFit(Atoms(rule.staticBody), staticArities, rule.numVariables)
    requires i < rule.numVariables
    ensures x in RuleDomains(universe, staticDomains, staticArities, rule)[i] <==>
              x in universe && Survives(staticDomains, Atoms(rule.staticBody), i, x)
  {
    RestrictBodyMembers(seq(rule.numVariables, _ => universe), staticDomains, staticArities, Atoms(rule.staticBody), i, x);
  }

  /** Step 3 for one atom: the predicate domain at every parameter
      position grows by that parameter's domain. */
  function LiftTerms(fd: Domains, p: nat, terms: seq<Term>, pd: seq<set<nat>>): (r: Domains)
    requires p < |fd| && |terms| <= |fd[p]|
    requires forall j :: 0 <= j < |terms| && terms[j].ParameterTerm? ==> terms[j].param < |pd|
    ensures |r| == |fd| && forall q :: 0 <= q < |fd| ==> |r[q]| == |fd[q]|
    decreases |terms|
  {
    if |terms| == 0 then fd
    else
      var r := LiftTerms(fd, p, terms[..|terms| - 1], pd);
      match terms[|terms| - 1]
      case ObjectTerm(_) => r
      case ParameterTerm(i) => Grow(r, p, |terms| - 1, pd[i])
  }

  lemma {:induction false} LiftTermsMembers(fd: Domains, p: nat, terms: seq<Term>, pd: seq<set<nat>>, q: nat, k: nat, x: nat)
    requires p < |fd| && |terms| <= |fd[p]|
    requires forall j :: 0 <= j < |terms| && terms[j].ParameterTerm? ==> terms[j].param < |pd|
    requires q < |fd| && k < |fd[q]|
    ensures x in LiftTerms(fd, p, terms, pd)[q][k] <==>
              x in fd[q][k] || (q == p && k < |terms| && terms[k].ParameterTerm? && x in pd[terms[k].param])
    decreases |terms|
  {
    if |terms| > 0 {
      LiftTermsMembers(fd, p, terms[..|terms| - 1], pd, q, k, x);
    }
  }

  /** Step 3 for a list of atoms sharing one set of parameter domains. */
  function LiftAtoms(fd: Domains, arities: seq<nat>, atoms: seq<Atom>, pd: seq<set<nat>>): (r: Domains)
    requires Shape(fd, arities) && AtomsFit(atoms, arities, |pd|)
    ensures Shape(r, arities)
    decreases |atoms|
  {
    if |atoms| == 0 then fd
    else
      var a := atoms[|atoms| - 1];
      LiftTerms(LiftAtoms(fd, arities, atoms[..|atoms| - 1], pd), a.pred, a.terms, pd)
  }

  /** x is carried into position k of predicate q by some atom of the list
      whose term there is a parameter whose domain holds x. */
  ghost predicate Carried(atoms: seq<Atom>, pd: seq<set<nat>>, q: nat, k: nat, x: nat) {
    exists m :: 0 <= m < |atoms| && atoms[m].pred == q && k < |atoms[m].terms|
      && atoms[m].terms[k].ParameterTerm? && atoms[m].terms[k].param < |pd| && x in pd[atoms[m].terms[k].param]
  }

  lemma {:induction false} LiftAtomsMembers(fd: Domains, arities: seq<nat>, atoms: seq<Atom>, pd: seq<set<nat>>, q: nat, k: nat, x: nat)
    requires Shape(fd, arities) && AtomsFit(atoms, arities, |pd|)
    requires q < |fd| && k < |fd[q]|
    ensures x in LiftAtoms(fd, arities, atoms, pd)[q][k] <==> x in fd[q][k] || Carried(atoms, pd, q, k, x)
    decreases |atoms|
  {
    if |atoms| > 0 {
      var init := atoms[..|atoms| - 1];
      var a := atoms[|atoms| - 1];
      LiftAtomsMembers(fd, arities, init, pd, q, k, x);
      LiftTermsMembers(LiftAtoms(fd, arities, init, pd), a.pred, a.terms, pd, q, k, x);
      if Carried(atoms, pd, q, k, x) {
        var m :| 0 <= m < |atoms| && atoms[m].pred == q && k < |atoms[m].terms|
          && atoms[m].terms[k].ParameterTerm? && atoms[m].terms[k].param < |pd| && x in pd[atoms[m].terms[k].param];
        if m < |init| {
          assert init[m] == atoms[m];
        }
      }
      if Carried(init, pd, q, k, x) {
        var m :| 0 <= m < |init| && init[m].pred == q && k < |init[m].terms|
          && init[m].terms[k].ParameterTerm? && init[m].terms[k].param < |pd| && x in pd[init[m].terms[k].param];
        assert atoms[m] == init[m];
      }
    }
  }

  /** The atoms that lift a rule's parameter domains: the fluent body in
      order, then the head. */
  function LiftedAtoms(rule: Rule): seq<Atom> {
    Atoms(rule.fluentBody) + [rule.head]
  }

  lemma LiftedAtomsFit(rule: Rule, staticArities: seq<nat>, fluentArities: seq<nat>)
    requires WellFormedRule(rule, staticArities, fluentArities)
    ensures AtomsFit(LiftedAtoms(rule), fluentArities, rule.numVariables)
    ensures AtomsFit(Atoms(rule.staticBody), staticArities, rule.numVariables)
  {
    var l := LiftedAtoms(rule);
    forall m | 0 <= m < |l|
      ensures FitsArity(l[m], fluentArities) && ParamsBelow(l[m], rule.numVariables)
    {
      if m < |rule.fluentBody| {
        assert l[m] == rule.fluentBody[m].atom;
      }
    }
  }

  /** The parameter domains of every rule, in rule order (a rule's index is
      its position in the program). */
  function AllRuleDomains(prog: Program, staticDomains: Domains): (r: seq<seq<set<nat>>>)
    requires WellFormed(prog) && Shape(staticDomains, prog.staticArities)
    ensures |r| == |prog.rules|
    ensures forall m :: 0 <= m < |r| ==> |r[m]| == prog.rules[m].numVariables
  {
    seq(|prog.rules|, m requires 0 <= m < |prog.rules| =>
      LiftedAtomsFit(prog.rules[m], prog.staticArities, prog.fluentArities);
      RuleDomains(Universe(prog), staticDomains, prog.staticArities, prog.rules[m]))
  }

  /** Step 3: every rule in turn lifts the fluent domains with its
      parameter domains. */
  function LiftRules(fd: Domains, prog: Program, rules: seq<Rule>, pds: seq<seq<set<nat>>>): (r: Domains)
    requires Shape(fd, prog.fluentArities) && |pds| == |rules|
    requires forall m :: 0 <= m < |rules| ==> WellFormedRule(rules[m], prog.staticArities, prog.fluentArities)
    requires forall m :: 0 <= m < |rules| ==> |pds[m]| == rules[m].numVariables
    ensures Shape(r, prog.fluentArities)
    decreases |rules|
  {
    if |rules| == 0 then fd
    else
      var n := |rules| - 1;
      LiftedAtomsFit(rules[n], prog.staticArities, prog.fluentArities);
      LiftAtoms(LiftRules(fd, prog, rules[..n], pds[..n]), prog.fluentArities, LiftedAtoms(rules[n]), pds[n])
  }

  /** x reaches position k of fluent predicate q through some rule. */
  ghost predicate Lifted(rules: seq<Rule>, pds: seq<seq<set<nat>>>, q: nat, k: nat, x: nat)
    requires |pds| == |rules|
  {
    exists m :: 0 <= m < |rules| && Carried(LiftedAtoms(rules[m]), pds[m], q, k, x)
  }

  lemma {:induction false} LiftRulesMembers(fd: Domains, prog: Program, rules: seq<Rule>, pds: seq<seq<set<nat>>>, q: nat, k: nat, x: nat)
    requires Shape(fd, prog.fluentArities) && |pds| == |rules|
    requires forall m :: 0 <= m < |rules| ==> WellFormedRule(rules[m], prog.staticArities, prog.fluentArities)
    requires forall m :: 0 <= m < |rules| ==> |pds[m]| == rules[m].numVariables
    requires q < |fd| && k < |fd[q]|
    ensures x in LiftRules(fd, prog, rules, pds)[q][k] <==> x in fd[q][k] || Lifted(rules, pds, q, k, x)
    decreases |rules|
  {
    if |rules| > 0 {
      var n := |rules| - 1;
      LiftedAtomsFit(rules[n], prog.staticArities, prog.fluentArities);
      LiftRulesMembers(fd, prog, rules[..n], pds[..n], q, k, x);
      LiftAtomsMembers(LiftRules(fd, prog, rules[..n], pds[..n]), prog.fluentArities, LiftedAtoms(rules[n]), pds[n], q, k, x);
      LiftedLast(rules, pds, q, k, x);
    }
  }

  /** Lifting through a list of rules is lifting through its prefix or its
      last rule. */
  lemma LiftedLast(rules: seq<Rule>, pds: seq<seq<set<nat>>>, q: nat, k: nat, x: nat)
    requires |pds| == |rules| > 0
    ensures Lifted(rules, pds, q, k, x) <==>
              Lifted(rules[..|rules| - 1], pds[..|rules| - 1], q, k, x)
              || Carried(LiftedAtoms(rules[|rules| - 1]), pds[|rules| - 1], q, k, x)
  {
    var n := |rules| - 1;
    if Lifted(rules, pds, q, k, x) {
      var m :| 0 <= m < |rules| && Carried(LiftedAtoms(rules[m]), pds[m], q, k, x);
      if m < n {
        assert rules[..n][m] == rules[m] && pds[..n][m] == pds[m];
      }
    }
    if Lifted(rules[..n], pds[..n], q, k, x) {
      var m :| 0 <= m < n && Carried(LiftedAtoms(rules[..n][m]), pds[..n][m], q, k, x);
      assert rules[..n][m] == rules[m] && pds[..n][m] == pds[m];
    }
  }

  /** The universe: every object of the program. */
  function Universe(prog: Program): set<nat> {
    set n | 0 <= n < |prog.objects| :: prog.objects[n]
  }

  /** `compute_variable_list_per_predicate`: the static and the fluent
      domains (the rule domains are only printed). */
  function Compute(prog: Program): (r: (Domains, Domains))
    requires WellFormed(prog)
    ensures Shape(r.0, prog.staticArities) && Shape(r.1, prog.fluentArities)
  {
    var staticDomains := InitialDomains(prog.staticArities, prog.staticAtoms);
    var fluentDomains := InitialDomains(prog.fluentArities, prog.fluentAtoms);
    (staticDomains, LiftRules(fluentDomains, prog, prog.rules, AllRuleDomains(prog, staticDomains)))
  }

  /** The static result: exactly the objects found at each position in the
      static atoms. */
  lemma StaticDomainsExact(prog: Program, p: nat, k: nat, x: nat)
    requires WellFormed(prog) && p < |prog.staticArities| && k < prog.staticArities[p]
    ensures x in Compute(prog).0[p][k] <==> OccursAt(prog.staticAtoms, p, k, x)
  {
    InitialDomainsExact(prog.staticArities, prog.staticAtoms, p, k, x);
  }

  /** The fluent result: an object is in the domain of a fluent position
      iff a fluent atom has it there or some rule's fluent body or head has
      a parameter there whose (statically restricted) domain holds it. In
      particular the fluent domains only grow from step 1. */
  lemma FluentDomainsExact(prog: Program, q: nat, k: nat, x: nat)
    requires WellFormed(prog) && q < |prog.fluentArities| && k < prog.fluentArities[q]
    ensures x in Compute(prog).1[q][k] <==>
              OccursAt(prog.fluentAtoms, q, k, x)
              || Lifted(prog.rules, AllRuleDomains(prog, InitialDomains(prog.staticArities, prog.staticAtoms)), q, k, x)
  {
    var staticDomains := InitialDomains(prog.staticArities, prog.staticAtoms);
    var fluentDomains := InitialDomains(prog.fluentArities, prog.fluentAtoms);
    InitialDomainsExact(prog.fluentArities, prog.fluentAtoms, q, k, x);
    LiftRulesMembers(fluentDomains, prog, prog.rules, AllRuleDomains(prog, staticDomains), q, k, x);
  }

  /** Object terms change no domain: replacing a parameter by an object
      can only shrink what an atom lifts. */
  lemma ObjectTermsLiftNothing(fd: Domains, p: nat, terms: seq<Term>, pd: seq<set<nat>>, k: nat)
    requires p < |fd| && |terms| <= |fd[p]| && k < |fd[p]|
    requires forall j :: 0 <= j < |terms| ==> terms[j].ObjectTerm?
    ensures LiftTerms(fd, p, terms, pd)[p][k] == fd[p][k]
  {
    forall x ensures x in LiftTerms(fd, p, terms, pd)[p][k] <==> x in fd[p][k] {
      LiftTermsMembers(fd, p, terms, pd, p, k, x);
    }
  }
}
