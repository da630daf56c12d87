/** The breadth-first search driver (`brfs`): a FIFO queue of state
    indices and a table of search nodes indexed by state. The successor
    generator and the goal test are parameters; state indices are those
    of registered states, below a bound. */
module Brfs {
  import opened Wrappers
  import IndexMixins

  datatype Status = Goal | DeadEnd | Closed | Open | New

  datatype SearchNode = SearchNode(g: nat, parent: nat, status: Status)

  /** The node a state gets when it is first looked up. */
  function DefaultNode(): SearchNode {
    SearchNode(0, IndexMixins.Max, New)
  }

  /** `get_or_create_search_node`: the table grown with default nodes until
      it has an entry for the state; existing entries are kept. */
  function GetOrCreate(nodes: seq<SearchNode>, s: nat): (r: seq<SearchNode>)
    ensures s < |r| && |r| == if s < |nodes| then |nodes| else s + 1
    ensures r[..|nodes|] == nodes
    ensures forall i :: |nodes| <= i < |r| ==> r[i] == DefaultNode()
  {
    if s < |nodes| then nodes else nodes + seq(s + 1 - |nodes|, _ => DefaultNode())
  }

  predicate IsOpen(nodes: seq<SearchNode>, s: nat) {
    s < |nodes| && nodes[s].status == Open
  }

  predicate Distinct(xs: seq<nat>) {
    forall i, j :: 0 <= i < j < |xs| ==> xs[i] != xs[j]
  }

  /** The table's shape: the initial state is open with g = 0, nodes are
      open or new, and every other open node was reached from its open
      parent by one step, with g one more than its parent's. */
  predicate Structure(nodes: seq<SearchNode>, init: nat, succ: nat -> seq<nat>, bound: nat) {
    init < |nodes| <= bound
    && nodes[init].g == 0 && nodes[init].status == Open
    && (forall s :: 0 <= s < |nodes| ==> nodes[s].status == Open || nodes[s].status == New)
    && (forall s :: 0 <= s < |nodes| && nodes[s].status == Open && s != init ==>
          IsOpen(nodes, nodes[s].parent) && s in succ(nodes[s].parent) && nodes[s].g == nodes[nodes[s].parent].g + 1)
  }

  /** Open nodes keep their entry. */
  predicate OpenStable(before: seq<SearchNode>, after: seq<SearchNode>) {
    |before| <= |after| && forall s :: 0 <= s < |before| && before[s].status == Open ==> after[s] == before[s]
  }

  /** The states ever enqueued: exactly the open ones, each once; none of
      them but the initial state has been found to be a goal. */
  ghost predicate Frontier(nodes: seq<SearchNode>, seen: seq<nat>, init: nat, goal: nat -> bool) {
    Distinct(seen)
    && (forall x :: x in seen <==> IsOpen(nodes, x))
    && (forall s :: 0 <= s < |nodes| && nodes[s].status == Open && s != init ==> !goal(s))
  }

  /** Every successor of an expanded state is open. */
  predicate ClosedUnder(nodes: seq<SearchNode>, expanded: seq<nat>, succ: nat -> seq<nat>) {
    forall j, k :: 0 <= j < |expanded| && 0 <= k < |succ(expanded[j])| ==> IsOpen(nodes, succ(expanded[j])[k])
  }

  /** A goal state other than the initial one, reached with g = length. */
  predicate GoalWitness(nodes: seq<SearchNode>, init: nat, goal: nat -> bool, length: nat) {
    exists s :: 0 <= s < |nodes| && s != init && nodes[s].status == Open && goal(s) && nodes[s].g == length
  }

  /** The successors bound: registered states only have registered
      successors. */
  predicate Bounded(succ: nat -> seq<nat>, bound: nat) {
    forall s, k :: 0 <= s < bound && 0 <= k < |succ(s)| ==> succ(s)[k] < bound
  }

  /** The number of successors of the expanded states. */
  function SumSuccessors(expanded: seq<nat>, succ: nat -> seq<nat>): nat
    decreases |expanded|
  {
    if |expanded| == 0 then 0
    else SumSuccessors(expanded[..|expanded| - 1], succ) + |succ(expanded[|expanded| - 1])|
  }

  /** Growing the table keeps its shape, its open nodes and the frontier. */
  lemma GrowKeeps(nodes: seq<SearchNode>, t: nat, init: nat, succ: nat -> seq<nat>, bound: nat, seen: seq<nat>, goal: nat -> bool)
    requires Structure(nodes, init, succ, bound) && t < bound
    ensures Structure(GetOrCreate(nodes, t), init, succ, bound) && OpenStable(nodes, GetOrCreate(nodes, t))
    ensures forall x :: IsOpen(GetOrCreate(nodes, t), x) <==> IsOpen(nodes, x)
    ensures Frontier(nodes, seen, init, goal) ==> Frontier(GetOrCreate(nodes, t), seen, init, goal)
  {
    var r := GetOrCreate(nodes, t);
    assert forall s :: 0 <= s < |nodes| ==> r[s] == nodes[s];
  }

  /** Opening a new successor t of the open state `cur` with `cur` as
      parent keeps the table's shape and every open node. */
  lemma OpenKeeps(nodes: seq<SearchNode>, t: nat, cur: nat, init: nat, succ: nat -> seq<nat>, bound: nat)
    requires Structure(nodes, init, succ, bound) && IsOpen(nodes, cur) && t in succ(cur)
    requires t < |nodes| && nodes[t].status == New
    ensures Structure(nodes[t := SearchNode(nodes[cur].g + 1, cur, Open)], init, succ, bound)
    ensures OpenStable(nodes, nodes[t := SearchNode(nodes[cur].g + 1, cur, Open)])
    ensures forall x :: IsOpen(nodes[t := SearchNode(nodes[cur].g + 1, cur, Open)], x) <==> IsOpen(nodes, x) || x == t
  {
  }

  /** Enqueueing a newly opened non-goal state keeps the frontier. */
  lemma EnqueueKeeps(nodes: seq<SearchNode>, t: nat, cur: nat, init: nat, seen: seq<nat>, goal: nat -> bool)
    requires t < |nodes| && nodes[t].status == New && IsOpen(nodes, cur) && !goal(t)
    requires Frontier(nodes, seen, init, goal)
    ensures Frontier(nodes[t := SearchNode(nodes[cur].g + 1, cur, Open)], seen + [t], init, goal)
  {
    assert t !in seen;
  }

  /** Appending one state after a concatenation. */
  lemma AppendAssoc(a: seq<nat>, b: seq<nat>, t: nat)
    ensures a + (b + [t]) == (a + b) + [t]
  {
  }

  /** Keeping open nodes is transitive. */
  lemma OpenStableTrans(a: seq<SearchNode>, b: seq<SearchNode>, c: seq<SearchNode>)
    requires OpenStable(a, b) && OpenStable(b, c)
    ensures OpenStable(a, c)
  {
  }

  /** One more generated successor: the earlier successors stay open and
      the new one is open. */
  lemma GeneratedKeeps(nodes: seq<SearchNode>, before: seq<SearchNode>, after: seq<SearchNode>, succs: seq<nat>, k: nat)
    requires k < |succs| && OpenStable(nodes, before) && OpenStable(before, after)
    requires (forall j :: 0 <= j < k ==> IsOpen(before, succs[j])) && IsOpen(after, succs[k])
    ensures OpenStable(nodes, after) && forall j :: 0 <= j < k + 1 ==> IsOpen(after, succs[j])
  {
  }

  /** Opening a new goal successor: the table keeps its shape and its open
      nodes, and the goal is reached with g one more than its parent's. */
  lemma OpenGoal(nodes: seq<SearchNode>, t: nat, cur: nat, init: nat, succ: nat -> seq<nat>, bound: nat, goal: nat -> bool)
    requires Structure(nodes, init, succ, bound) && IsOpen(nodes, cur) && t in succ(cur)
    requires t < |nodes| && nodes[t].status == New && goal(t)
    ensures var n := nodes[t := SearchNode(nodes[cur].g + 1, cur, Open)];
            Structure(n, init, succ, bound) && OpenStable(nodes, n) && IsOpen(n, cur) && IsOpen(n, t)
            && GoalWitness(n, init, goal, nodes[cur].g + 1)
  {
    OpenKeeps(nodes, t, cur, init, succ, bound);
    var n := nodes[t := SearchNode(nodes[cur].g + 1, cur, Open)];
    assert t != init && n[t].g == nodes[cur].g + 1;
  }

  /** Opening a new non-goal successor and enqueueing it: the table keeps
      its shape and its open nodes, and the frontier gains t. */
  lemma OpenNonGoal(nodes: seq<SearchNode>, t: nat, cur: nat, init: nat, succ: nat -> seq<nat>, bound: nat,
                    seen: seq<nat>, goal: nat -> bool)
    requires Structure(nodes, init, succ, bound) && IsOpen(nodes, cur) && t in succ(cur)
    requires t < |nodes| && nodes[t].status == New && !goal(t)
    requires Frontier(nodes, seen, init, goal)
    ensures var n := nodes[t := SearchNode(nodes[cur].g + 1, cur, Open)];
            Structure(n, init, succ, bound) && OpenStable(nodes, n) && IsOpen(n, cur) && IsOpen(n, t)
            && Frontier(n, seen + [t], init, goal)
  {
    OpenKeeps(nodes, t, cur, init, succ, bound);
    EnqueueKeeps(nodes, t, cur, init, seen, goal);
  }

  /** One successor t of the expanded state `cur`: its node is looked up;
      a new one is opened with `cur` as parent and g + 1, goal-tested,
      and enqueued unless it is a goal. */
  method GenerateSuccessor(nodes: seq<SearchNode>, queue: seq<nat>, ghost expanded: seq<nat>, cur: nat, t: nat,
                           init: nat, succ: nat -> seq<nat>, goal: nat -> bool, bound: nat)
    returns (nodes': seq<SearchNode>, queue': seq<nat>, plan: Option<nat>)
    requires Bounded(succ, bound) && Structure(nodes, init, succ, bound)
    requires Frontier(nodes, expanded + queue, init, goal)
    requires IsOpen(nodes, cur) && t in succ(cur)
    ensures Structure(nodes', init, succ, bound) && OpenStable(nodes, nodes')
    ensures IsOpen(nodes', cur) && IsOpen(nodes', t)
    ensures plan.None? ==> Frontier(nodes', expanded + queue', init, goal)
    ensures plan.Some? ==> GoalWitness(nodes', init, goal, plan.value) && plan.value >= 1
  {
    assert t < bound;
    var grown := GetOrCreate(nodes, t);
    GrowKeeps(nodes, t, init, succ, bound, expanded + queue, goal);
    assert IsOpen(grown, cur);
    nodes', queue', plan := grown, queue, None;
    if grown[t].status == New {
      var g := grown[cur].g + 1;
      if goal(t) {
        OpenGoal(grown, t, cur, init, succ, bound, goal);
        nodes' := grown[t := SearchNode(g, cur, Open)];
        plan := Some(g);
      } else {
        OpenNonGoal(grown, t, cur, init, succ, bound, expanded + queue, goal);
        nodes' := grown[t := SearchNode(g, cur, Open)];
        AppendAssoc(expanded, queue, t);
        queue' := queue + [t];
      }
      OpenStableTrans(nodes, grown, nodes');
    }
  }

  /** The inner loop: the successors of the expanded state `cur` in order,
      until one of them is a goal, which ends the search. */
  method ExpandState(nodes: seq<SearchNode>, queue: seq<nat>, ghost expanded: seq<nat>, cur: nat,
                     init: nat, succ: nat -> seq<nat>, goal: nat -> bool, bound: nat)
    returns (nodes': seq<SearchNode>, queue': seq<nat>, generated: nat, plan: Option<nat>)
    requires Bounded(succ, bound) && Structure(nodes, init, succ, bound)
    requires Frontier(nodes, expanded + queue, init, goal)
    requires IsOpen(nodes, cur) && cur in expanded
    ensures Structure(nodes', init, succ, bound) && OpenStable(nodes, nodes')
    ensures plan.None? ==> Frontier(nodes', expanded + queue', init, goal)
    ensures plan.None? ==> generated == |succ(cur)| && forall k :: 0 <= k < |succ(cur)| ==> IsOpen(nodes', succ(cur)[k])
    ensures plan.Some? ==> GoalWitness(nodes', init, goal, plan.value) && plan.value >= 1
  {
    var succs := succ(cur);
    nodes', queue', generated, plan := nodes, queue, 0, None;
    var k := 0;
    while k < |succs| && plan.None?
      invariant k <= |succs|
      invariant Structure(nodes', init, succ, bound) && OpenStable(nodes, nodes') && IsOpen(nodes', cur)
      invariant plan.None? ==> Frontier(nodes', expanded + queue', init, goal)
      invariant plan.None? ==> generated == k && forall j :: 0 <= j < k ==> IsOpen(nodes', succs[j])
      invariant plan.Some? ==> GoalWitness(nodes', init, goal, plan.value) && plan.value >= 1
    {
      ghost var before := nodes';
      nodes', queue', plan := GenerateSuccessor(nodes', queue', expanded, cur, succs[k], init, succ, goal, bound);
      GeneratedKeeps(nodes, before, nodes', succs, k);
      generated := generated + 1;
      k := k + 1;
    }
  }

  /** A list of distinct states below the bound is no longer than the
      bound. */
  lemma {:induction false} DistinctBelow(xs: seq<nat>, bound: nat)
    requires Distinct(xs) && forall x :: x in xs ==> x < bound
    ensures |xs| <= bound
    decreases bound
  {
    assert |xs| > 0 ==> xs[0] in xs;
    if bound > 0 {
      DistinctBelow(Without(xs, bound - 1), bound - 1);
    }
  }

  /** The list without one value. */
  function Without(xs: seq<nat>, v: nat): (r: seq<nat>)
    requires Distinct(xs)
    ensures Distinct(r) && (forall x :: x in r <==> x in xs && x != v)
    ensures |r| == if v in xs then |xs| - 1 else |xs|
    decreases |xs|
  {
    if |xs| == 0 then []
    else
      var init := xs[..|xs| - 1];
      assert xs == init + [xs[|xs| - 1]];
      var r0 := Without(init, v);
      assert xs[|xs| - 1] !in init;
      if xs[|xs| - 1] == v then r0
      else r0 + [xs[|xs| - 1]]
  }

  /** Dequeueing the head moves it to the expanded list; the frontier, a
      list of distinct registered states, is unchanged. */
  lemma DequeueKeeps(nodes: seq<SearchNode>, expanded: seq<nat>, queue: seq<nat>, init: nat, goal: nat -> bool, bound: nat)
    requires |queue| > 0 && |nodes| <= bound && Frontier(nodes, expanded + queue, init, goal)
    ensures Frontier(nodes, (expanded + [queue[0]]) + queue[1..], init, goal)
    ensures Distinct(expanded + [queue[0]]) && |expanded + [queue[0]]| <= bound
    ensures IsOpen(nodes, queue[0]) && queue[0] in expanded + [queue[0]]
  {
    assert (expanded + [queue[0]]) + queue[1..] == expanded + queue;
    DistinctBelow(expanded + queue, bound);
    assert forall i :: 0 <= i < |expanded| + 1 ==> (expanded + [queue[0]])[i] == (expanded + queue)[i];
  }

  /** After expanding `cur`, every expanded state, `cur` included, is
      still open and all their successors are open. */
  lemma ExpandKeeps(nodes: seq<SearchNode>, nodes': seq<SearchNode>, expanded: seq<nat>, cur: nat, succ: nat -> seq<nat>)
    requires OpenStable(nodes, nodes') && IsOpen(nodes, cur)
    requires forall s :: s in expanded ==> IsOpen(nodes, s)
    ensures forall s :: s in expanded + [cur] ==> IsOpen(nodes', s)
    ensures ClosedUnder(nodes, expanded, succ) && (forall k :: 0 <= k < |succ(cur)| ==> IsOpen(nodes', succ(cur)[k]))
            ==> ClosedUnder(nodes', expanded + [cur], succ)
  {
    forall s | s in expanded + [cur] ensures IsOpen(nodes', s) {
      assert s in expanded || s == cur;
    }
    if ClosedUnder(nodes, expanded, succ) && (forall k :: 0 <= k < |succ(cur)| ==> IsOpen(nodes', succ(cur)[k])) {
      forall j, k | 0 <= j < |expanded + [cur]| && 0 <= k < |succ((expanded + [cur])[j])|
        ensures IsOpen(nodes', succ((expanded + [cur])[j])[k])
      {
        if j < |expanded| {
          assert (expanded + [cur])[j] == expanded[j];
          assert IsOpen(nodes, succ(expanded[j])[k]);
        }
      }
    }
  }

  /** The successor count grows by the successors of the newly expanded
      state. */
  lemma SumSuccessorsSnoc(expanded: seq<nat>, cur: nat, succ: nat -> seq<nat>)
    ensures SumSuccessors(expanded + [cur], succ) == SumSuccessors(expanded, succ) + |succ(cur)|
  {
    assert (expanded + [cur])[..|expanded|] == expanded;
  }

  datatype Outcome = Outcome(nodes: seq<SearchNode>, expanded: seq<nat>, numGenerated: nat, plan: Option<nat>)

  /** The search loop: dequeue, expand, until the queue is empty or a goal
      successor was generated. `expanded` lists the dequeued states in
      order, so `num_expanded` is its length. */
  method BreadthFirstSearch(init: nat, succ: nat -> seq<nat>, goal: nat -> bool, bound: nat) returns (out: Outcome)
    requires init < bound && Bounded(succ, bound)
    ensures Structure(out.nodes, init, succ, bound) && Distinct(out.expanded)
    ensures forall s :: s in out.expanded ==> IsOpen(out.nodes, s)
    ensures out.plan.Some? ==> GoalWitness(out.nodes, init, goal, out.plan.value) && out.plan.value >= 1
    ensures out.plan.None? ==> ClosedUnder(out.nodes, out.expanded, succ)
    ensures out.plan.None? ==> forall s :: IsOpen(out.nodes, s) <==> s in out.expanded
    ensures out.plan.None? ==> forall s :: 0 <= s < |out.nodes| && s != init && out.nodes[s].status == Open ==> !goal(s)
    ensures out.plan.None? ==> out.numGenerated == SumSuccessors(out.expanded, succ)
  {
    var nodes := GetOrCreate([], init);
    nodes := nodes[init := SearchNode(0, nodes[init].parent, Open)];
    var queue := [init];
    var expanded: seq<nat> := [];
    var generated := 0;
    var plan: Option<nat> := None;
    assert forall x :: x in expanded + queue <==> x == init;
    while |queue| > 0 && plan.None?
      invariant Structure(nodes, init, succ, bound)
      invariant forall s :: s in expanded ==> IsOpen(nodes, s)
      invariant Distinct(expanded) && |expanded| <= bound
      invariant plan.None? ==> Frontier(nodes, expanded + queue, init, goal)
      invariant plan.None? ==> ClosedUnder(nodes, expanded, succ)
      invariant plan.None? ==> generated == SumSuccessors(expanded, succ)
      invariant plan.Some? ==> GoalWitness(nodes, init, goal, plan.value) && plan.value >= 1
      decreases bound - |expanded|
    {
      var cur := queue[0];
      ghost var before := expanded;
      DequeueKeeps(nodes, expanded, queue, init, goal, bound);
      queue := queue[1..];
      expanded := expanded + [cur];
      var nodes1, queue1, gen, found := ExpandState(nodes, queue, expanded, cur, init, succ, goal, bound);
      ExpandKeeps(nodes, nodes1, before, cur, succ);
      SumSuccessorsSnoc(before, cur, succ);
      nodes, queue, generated, plan := nodes1, queue1, generated + gen, found;
    }
    out := Outcome(nodes, expanded, generated, plan);
  }

  /** The states from the initial one to `s` along the parent links. */
  function PathTo(nodes: seq<SearchNode>, init: nat, succ: nat -> seq<nat>, bound: nat, s: nat): (path: seq<nat>)
    requires Structure(nodes, init, succ, bound) && IsOpen(nodes, s)
    ensures |path| == nodes[s].g + 1 && path[0] == init && path[|path| - 1] == s
    ensures forall i :: 0 <= i < |path| - 1 ==> path[i + 1] in succ(path[i])
    decreases nodes[s].g
  {
    if s == init then [init]
    else PathTo(nodes, init, succ, bound, nodes[s].parent) + [s]
  }

  /** A reported plan length is the length of a path of successor steps
      from the initial state to a goal state. */
  lemma PlanIsPath(nodes: seq<SearchNode>, init: nat, succ: nat -> seq<nat>, goal: nat -> bool, bound: nat, length: nat)
    requires Structure(nodes, init, succ, bound) && GoalWitness(nodes, init, goal, length)
    ensures exists path: seq<nat> :: |path| == length + 1 && path[0] == init && goal(path[length])
              && forall i :: 0 <= i < length ==> path[i + 1] in succ(path[i])
  {
    var s :| 0 <= s < |nodes| && s != init && nodes[s].status == Open && goal(s) && nodes[s].g == length;
    var path := PathTo(nodes, init, succ, bound, s);
    assert path[length] == s;
  }
}
