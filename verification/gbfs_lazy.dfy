/** The search-node table and the queue keys of lazy greedy best-first
    search (`gbfs_lazy`). Costs and heuristic values are floats that may
    be +infinity; NaN does not occur in keys and is not modelled. */
module GbfsLazy {
  import IndexMixins
  import opened Brfs

  /** A float that is finite or +infinity. */
  datatype Float = Finite(value: real) | Infinity

  predicate FloatLess(a: Float, b: Float) {
    match (a, b)
    case (Finite(x), Finite(y)) => x < y
    case (Finite(_), Infinity) => true
    case _ => false
  }

  /** The underlying integer of a node status (GOAL = 0, ..., NEW = 4). */
  function Code(s: Status): nat {
    match s
    case Goal => 0
    case DeadEnd => 1
    case Closed => 2
    case Open => 3
    case New => 4
  }

  datatype Node = Node(g: Float, parentState: nat, status: Status, preferred: bool, compatible: bool)

  /** A state's node before anything is known of it: infinite cost, no
      parent, new, neither preferred nor compatible. */
  function DefaultNode(): Node {
    Node(Infinity, IndexMixins.Max, New, false, false)
  }

  /** `get_or_create_search_node`: the table padded with default nodes
      until the index is in range, and the node at the index. */
  function GetOrCreateNode(nodes: seq<Node>, index: nat): (res: (seq<Node>, Node))
    ensures index < |res.0| && res.1 == res.0[index]
    ensures |res.0| == if index < |nodes| then |nodes| else index + 1
    ensures res.0[..|nodes|] == nodes
    ensures forall i :: |nodes| <= i < |res.0| ==> res.0[i] == DefaultNode()
  {
    var r := if index < |nodes| then nodes else nodes + seq(index + 1 - |nodes|, _ => DefaultNode());
    (r, r[index])
  }

  /** Looking a node up twice changes nothing the second time. */
  lemma GetOrCreateNodeIdempotent(nodes: seq<Node>, index: nat, other: nat)
    ensures var (r, n) := GetOrCreateNode(nodes, index);
            GetOrCreateNode(r, index) == (r, n)
            && GetOrCreateNode(r, other).1 == (if other < |nodes| then nodes[other] else DefaultNode())
  {
  }

  datatype GreedyEntry = GreedyEntry(packedState: nat, step: nat, status: Status)

  datatype ExhaustiveEntry = ExhaustiveEntry(g: Float, h: Float, packedState: nat, step: nat, status: Status)

  /** `std::tuple` order of the greedy key (step, status). */
  predicate GreedyLess(a: GreedyEntry, b: GreedyEntry) {
    a.step < b.step || (a.step == b.step && Code(a.status) < Code(b.status))
  }

  /** `std::tuple` order of the exhaustive key (h, g, step, status). */
  predicate ExhaustiveLess(a: ExhaustiveEntry, b: ExhaustiveEntry) {
    FloatLess(a.h, b.h)
    || (a.h == b.h && (FloatLess(a.g, b.g)
    || (a.g == b.g && (a.step < b.step
    || (a.step == b.step && Code(a.status) < Code(b.status))))))
  }

  /** Both key orders are strict orders, and two entries are unordered
      exactly when their keys agree; the state is not part of the key. */
  lemma KeyOrdersStrict(a: GreedyEntry, b: GreedyEntry, c: GreedyEntry, x: ExhaustiveEntry, y: ExhaustiveEntry, z: ExhaustiveEntry)
    ensures !GreedyLess(a, a) && (GreedyLess(a, b) && GreedyLess(b, c) ==> GreedyLess(a, c))
    ensures !GreedyLess(a, b) && !GreedyLess(b, a) <==> a.step == b.step && a.status == b.status
    ensures !ExhaustiveLess(x, x) && (ExhaustiveLess(x, y) && ExhaustiveLess(y, z) ==> ExhaustiveLess(x, z))
    ensures !ExhaustiveLess(x, y) && !ExhaustiveLess(y, x) <==> x.h == y.h && x.g == y.g && x.step == y.step && x.status == y.status
  {
  }

  /** The exhaustive queue prefers the smaller heuristic value whatever
      the costs; among equal heuristic values, the smaller cost. */
  lemma ExhaustivePrefersH(x: ExhaustiveEntry, y: ExhaustiveEntry)
    ensures FloatLess(x.h, y.h) ==> ExhaustiveLess(x, y)
    ensures x.h == y.h && FloatLess(x.g, y.g) ==> ExhaustiveLess(x, y)
    ensures ExhaustiveLess(x, y) ==> !FloatLess(y.h, x.h)
  {
  }
}
