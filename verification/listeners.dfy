/** The listener maps: for every stratum, which rules must be revisited
    when facts of a fluent predicate change. Two versions exist: the inline
    one in the header registers a rule under every fluent body literal,
    keeping duplicates in a list; the one in the source file registers it
    only under positive fluent literals, in a set. */
module Listeners {
  import opened Formalism

  /** A rule of a stratum: its index in the repository and its content. */
  datatype StratumRule = StratumRule(index: nat, rule: Rule)

  type Stratum = seq<StratumRule>

  /** The rule's fluent body has a literal on predicate p (of the given
      polarity, when `positiveOnly`). */
  predicate ListensTo(rule: Rule, p: nat, positiveOnly: bool) {
    exists j :: 0 <= j < |rule.fluentBody| && rule.fluentBody[j].atom.pred == p
      && (positiveOnly ==> rule.fluentBody[j].polarity)
  }

  /** The number of fluent body literals of the rule on predicate p. */
  function Occurrences(lits: seq<Literal>, p: nat): (r: nat)
    ensures r <= |lits|
    ensures r > 0 <==> exists j :: 0 <= j < |lits| && lits[j].atom.pred == p
    decreases |lits|
  {
    if |lits| == 0 then 0
    else
      var init := lits[..|lits| - 1];
      assert forall j :: 0 <= j < |init| ==> init[j] == lits[j];
      Occurrences(init, p) + (if lits[|lits| - 1].atom.pred == p then 1 else 0)
  }

  /** The total number of fluent body literals on predicate p in the
      stratum. */
  function StratumOccurrences(st: Stratum, p: nat): nat
    decreases |st|
  {
    if |st| == 0 then 0
    else StratumOccurrences(st[..|st| - 1], p) + Occurrences(st[|st| - 1].rule.fluentBody, p)
  }

  /** The number of fluent body literals on predicate p in the rules of
      the stratum whose index is x. */
  function IndexOccurrences(st: Stratum, p: nat, x: nat): nat
    decreases |st|
  {
    if |st| == 0 then 0
    else
      var r := st[|st| - 1];
      IndexOccurrences(st[..|st| - 1], p, x) + (if r.index == x then Occurrences(r.rule.fluentBody, p) else 0)
  }

  // ----- The header version: lists, every polarity -----

  type ListMap = map<nat, seq<nat>>

  function ListAt(m: ListMap, p: nat): seq<nat> {
    if p in m then m[p] else []
  }

  /** `listeners[pred].push_back(rule)` for every fluent literal of one
      rule. */
  function AppendLiterals(m: ListMap, index: nat, lits: seq<Literal>): (r: ListMap)
    decreases |lits|
  {
    if |lits| == 0 then m
    else
      var m1 := AppendLiterals(m, index, lits[..|lits| - 1]);
      var p := lits[|lits| - 1].atom.pred;
      m1[p := ListAt(m1, p) + [index]]
  }

  /** The listener map of one stratum. */
  function ListStratum(st: Stratum): ListMap
    decreases |st|
  {
    if |st| == 0 then map[]
    else
      var r := st[|st| - 1];
      AppendLiterals(ListStratum(st[..|st| - 1]), r.index, r.rule.fluentBody)
  }

  /** `compute_listeners(strata)`: one map per stratum, in order. */
  function ComputeListListeners(strata: seq<Stratum>): (r: seq<ListMap>)
    ensures |r| == |strata|
    ensures forall i :: 0 <= i < |strata| ==> r[i] == ListStratum(strata[i])
  {
    seq(|strata|, i requires 0 <= i < |strata| => ListStratum(strata[i]))
  }

  lemma {:induction false} AppendLiteralsLists(m: ListMap, index: nat, lits: seq<Literal>, p: nat)
    ensures p in AppendLiterals(m, index, lits) <==> p in m || Occurrences(lits, p) > 0
    ensures ListAt(AppendLiterals(m, index, lits), p) == ListAt(m, p) + seq(Occurrences(lits, p), _ => index)
    decreases |lits|
  {
    if |lits| > 0 {
      var init := lits[..|lits| - 1];
      AppendLiteralsLists(m, index, init, p);
      assert forall j :: 0 <= j < |init| ==> init[j] == lits[j];
      if lits[|lits| - 1].atom.pred == p {
        var n := Occurrences(init, p);
        assert seq(n, _ => index) + [index] == seq(n + 1, _ => index);
        assert ListAt(m, p) + seq(n, _ => index) + [index] == ListAt(m, p) + seq(n + 1, _ => index);
      }
    }
  }

  /** Some rule of the stratum with index x (any index, when `anyIndex`)
      listens to p. */
  predicate Registered(st: Stratum, p: nat, x: nat, anyIndex: bool, positiveOnly: bool) {
    exists n :: 0 <= n < |st| && (anyIndex || st[n].index == x) && ListensTo(st[n].rule, p, positiveOnly)
  }

  lemma RegisteredLast(st: Stratum, p: nat, x: nat, anyIndex: bool, positiveOnly: bool)
    requires |st| > 0
    ensures Registered(st, p, x, anyIndex, positiveOnly) <==>
              Registered(st[..|st| - 1], p, x, anyIndex, positiveOnly)
              || ((anyIndex || st[|st| - 1].index == x) && ListensTo(st[|st| - 1].rule, p, positiveOnly))
  {
    var init := st[..|st| - 1];
    assert forall n :: 0 <= n < |init| ==> init[n] == st[n];
  }

  lemma RepeatMembers(n: nat, index: nat, x: nat)
    ensures x in seq(n, _ => index) <==> n > 0 && x == index
  {
    if n > 0 {
      assert seq(n, _ => index)[0] == index;
    }
  }

  lemma {:induction false} RepeatCount(n: nat, index: nat, x: nat)
    ensures multiset(seq(n, _ => index))[x] == if x == index then n else 0
  {
    if n > 0 {
      RepeatCount(n - 1, index, x);
      assert seq(n, _ => index) == seq(n - 1, _ => index) + [index];
    }
  }

  /** x is listed under p iff some rule of the stratum with index x has a
      fluent literal on p, whatever its polarity; p has an entry iff some
      rule does; and the list holds one entry per such literal, so a rule
      with several literals on p is listed that many times. */
  lemma {:induction false} ListStratumExact(st: Stratum, p: nat, x: nat)
    ensures p in ListStratum(st) <==> Registered(st, p, 0, true, false)
    ensures |ListAt(ListStratum(st), p)| == StratumOccurrences(st, p)
    ensures x in ListAt(ListStratum(st), p) <==> Registered(st, p, x, false, false)
    ensures multiset(ListAt(ListStratum(st), p))[x] == IndexOccurrences(st, p, x)
    decreases |st|
  {
    if |st| > 0 {
      var init := st[..|st| - 1];
      var r := st[|st| - 1];
      ListStratumExact(init, p, x);
      AppendLiteralsLists(ListStratum(init), r.index, r.rule.fluentBody, p);
      RegisteredLast(st, p, 0, true, false);
      RegisteredLast(st, p, x, false, false);
      RepeatMembers(Occurrences(r.rule.fluentBody, p), r.index, x);
      RepeatCount(Occurrences(r.rule.fluentBody, p), r.index, x);
      assert Occurrences(r.rule.fluentBody, p) > 0 <==> ListensTo(r.rule, p, false);
    }
  }

  // ----- The source-file version: sets, positive literals only -----

  type SetMap = map<nat, set<nat>>

  function SetAt(m: SetMap, p: nat): set<nat> {
    if p in m then m[p] else {}
  }

  /** `listeners[pred].insert(rule)` for every positive fluent literal of
      one rule. */
  function InsertPositive(m: SetMap, index: nat, lits: seq<Literal>): (r: SetMap)
    decreases |lits|
  {
    if |lits| == 0 then m
    else
      var m1 := InsertPositive(m, index, lits[..|lits| - 1]);
      var l := lits[|lits| - 1];
      if l.polarity then m1[l.atom.pred := SetAt(m1, l.atom.pred) + {index}] else m1
  }

  function SetStratum(st: Stratum): SetMap
    decreases |st|
  {
    if |st| == 0 then map[]
    else
      var r := st[|st| - 1];
      InsertPositive(SetStratum(st[..|st| - 1]), r.index, r.rule.fluentBody)
  }

  /** `compute_listeners(strata, context)`: one map per stratum, in order. */
  function ComputeSetListeners(strata: seq<Stratum>): (r: seq<SetMap>)
    ensures |r| == |strata|
    ensures forall i :: 0 <= i < |strata| ==> r[i] == SetStratum(strata[i])
  {
    seq(|strata|, i requires 0 <= i < |strata| => SetStratum(strata[i]))
  }

  lemma {:induction false} InsertPositiveSets(m: SetMap, index: nat, lits: seq<Literal>, p: nat)
    ensures p in InsertPositive(m, index, lits) <==> p in m || exists j :: 0 <= j < |lits| && lits[j].atom.pred == p && lits[j].polarity
    ensures SetAt(InsertPositive(m, index, lits), p) ==
              SetAt(m, p) + (if exists j :: 0 <= j < |lits| && lits[j].atom.pred == p && lits[j].polarity then {index} else {})
    decreases |lits|
  {
    if |lits| > 0 {
      var init := lits[..|lits| - 1];
      InsertPositiveSets(m, index, init, p);
      assert forall j :: 0 <= j < |init| ==> init[j] == lits[j];
    }
  }

  /** x is registered under p iff some rule of the stratum with index x has
      a positive fluent literal on p; negative literals register nothing. */
  lemma {:induction false} SetStratumExact(st: Stratum, p: nat, x: nat)
    ensures p in SetStratum(st) <==> Registered(st, p, 0, true, true)
    ensures x in SetAt(SetStratum(st), p) <==> Registered(st, p, x, false, true)
    decreases |st|
  {
    if |st| > 0 {
      var init := st[..|st| - 1];
      var r := st[|st| - 1];
      SetStratumExact(init, p, x);
      InsertPositiveSets(SetStratum(init), r.index, r.rule.fluentBody, p);
      RegisteredLast(st, p, 0, true, true);
      RegisteredLast(st, p, x, false, true);
    }
  }

  /** The set version registers a subset of the list version. */
  lemma SetWithinList(st: Stratum, p: nat)
    ensures forall x :: x in SetAt(SetStratum(st), p) ==> x in ListAt(ListStratum(st), p)
  {
    forall x | x in SetAt(SetStratum(st), p) ensures x in ListAt(ListStratum(st), p) {
      SetStratumExact(st, p, x);
      ListStratumExact(st, p, x);
    }
  }
}
