/** The rule workspace of the datalog grounder (`RuleWorkspace`) and the
    construction of a rule's fluent part (`create_fluent_rule`). Conditions
    and rules are stored by hash-consing in repositories, referring to
    variables, literals and constraints by index. */
module RuleWorkspace {
  import opened Wrappers
  import opened PlanningRepository

  /** A conjunctive condition: its variables, static and fluent literals
      and numeric constraints. */
  datatype Condition = Condition(variables: seq<nat>, staticLiterals: seq<nat>, fluentLiterals: seq<nat>, constraints: seq<nat>)

  /** A rule: its variables, the index of its body condition and of its
      head atom. */
  datatype RuleData = RuleData(variables: seq<nat>, body: nat, head: nat)

  /** The destination repositories of conditions and rules. */
  datatype Context = Context(conditions: Repo<Condition>, rules: Repo<RuleData>)

  /** The body of the fluent rule: the rule's variables and the fluent
      literals of its body, nothing static and no constraint. */
  function FluentCondition(rule: RuleData, body: Condition): Condition {
    Condition(rule.variables, [], body.fluentLiterals, [])
  }

  /** `create_fluent_rule`: the condition is created (or found) first, then
      the rule with the same variables and head over that condition. The
      result is the context afterwards, the rule's index and whether it was
      new. */
  function CreateFluentRule(rule: RuleData, body: Condition, ctx: Context): (res: (Context, nat, bool))
    ensures var cond := Find(res.0.conditions, FluentCondition(rule, body));
            cond.Some? && Find(res.0.rules, RuleData(rule.variables, cond.value, rule.head)) == Some(res.1)
    ensures Find(ctx.conditions, FluentCondition(rule, body)).Some? && res.0.conditions == ctx.conditions
            && Find(ctx.rules, RuleData(rule.variables, Find(ctx.conditions, FluentCondition(rule, body)).value, rule.head)).Some?
            ==> res == (ctx, Find(ctx.rules, RuleData(rule.variables, Find(ctx.conditions, FluentCondition(rule, body)).value, rule.head)).value, false)
  {
    var cond := FluentCondition(rule, body);
    var (conditions, ci, _) := GetOrCreate(ctx.conditions, cond);
    GetOrCreateFinds(ctx.conditions, cond, cond);
    var fluentRule := RuleData(rule.variables, ci, rule.head);
    var (rules, ri, created) := GetOrCreate(ctx.rules, fluentRule);
    GetOrCreateFinds(ctx.rules, fluentRule, fluentRule);
    (Context(conditions, rules), ri, created)
  }

  /** A second construction of the same fluent rule finds the first one:
      same index, nothing created, nothing changed. */
  lemma FluentRuleIdempotent(rule: RuleData, body: Condition, ctx: Context)
    ensures var (ctx1, i1, _) := CreateFluentRule(rule, body, ctx);
            CreateFluentRule(rule, body, ctx1) == (ctx1, i1, false)
  {
    var cond := FluentCondition(rule, body);
    GetOrCreateIdempotent(ctx.conditions, cond);
    var (conditions, ci, _) := GetOrCreate(ctx.conditions, cond);
    GetOrCreateIdempotent(ctx.rules, RuleData(rule.variables, ci, rule.head));
  }

  /** Building the fluent rule keeps every existing condition and rule
      where it was, and changes no lookup of other data. */
  lemma FluentRuleNothingElse(rule: RuleData, body: Condition, ctx: Context, c: Condition, d: RuleData)
    requires c != FluentCondition(rule, body)
    requires Find(CreateFluentRule(rule, body, ctx).0.conditions, FluentCondition(rule, body)).Some?
    requires d != RuleData(rule.variables, Find(CreateFluentRule(rule, body, ctx).0.conditions, FluentCondition(rule, body)).value, rule.head)
    ensures Find(CreateFluentRule(rule, body, ctx).0.conditions, c) == Find(ctx.conditions, c)
    ensures Find(CreateFluentRule(rule, body, ctx).0.rules, d) == Find(ctx.rules, d)
  {
    var cond := FluentCondition(rule, body);
    GetOrCreateFinds(ctx.conditions, cond, c);
    GetOrCreateFinds(ctx.conditions, cond, cond);
    var (conditions, ci, _) := GetOrCreate(ctx.conditions, cond);
    GetOrCreateFinds(ctx.rules, RuleData(rule.variables, ci, rule.head), d);
  }

  /** The per-rule statistics the workspace accumulates. */
  datatype Statistics = Statistics(numExecutions: nat, numGroundings: nat)

  /** A workspace: its local rule repository overlaying the program's,
      the current binding, the derived heads and the statistics. The
      consistency graph and clique workspace are not part of this model. */
  datatype Workspace = Workspace(repository: Repo<RuleData>, binding: seq<nat>, heads: set<nat>, statistics: Statistics)

  /** `RuleWorkspace::clear`: empties the local repository and the heads;
      the binding and the statistics stay. */
  function Clear(w: Workspace): (r: Workspace)
    ensures r.heads == {} && r.binding == w.binding && r.statistics == w.statistics
    ensures Size(r.repository) == ParentSize(w.repository) && ParentSize(r.repository) == ParentSize(w.repository)
    ensures forall d :: Find(r.repository, d) == (if w.repository.Child? then Find(w.repository.parent, d) else None)
  {
    var r := w.(repository := PlanningRepository.Clear(w.repository), heads := {});
    assert forall d :: Find(r.repository, d) == (if w.repository.Child? then Find(w.repository.parent, d) else None) by {
      forall d ensures Find(r.repository, d) == (if w.repository.Child? then Find(w.repository.parent, d) else None) {
        ClearFinds(w.repository, d);
      }
    }
    r
  }
}
