/** The variable dependency graph of a conjunctive condition: one cell per
    unordered pair of its k variables, stored as a strict upper-triangular
    matrix in row-major order. Each cell lists the static literals, fluent
    literals and numeric constraints mentioning both variables of its pair. */
module VariableDependency {
  import opened Sorting

  /** 0 + 1 + ... + i. */
  function Tri(i: nat): nat {
    if i == 0 then 0 else Tri(i - 1) + i
  }

  lemma {:induction false} TriClosed(i: nat)
    ensures 2 * Tri(i) == i * (i + 1)
  {
    if i > 0 {
      TriClosed(i - 1);
      assert i * (i + 1) == (i - 1) * i + 2 * i;
    }
  }

  /** `upper_index(i, j, k)` = i*k - i*(i+1)/2 + (j - i - 1): the entries of
      rows 0 .. i-1 plus the offset of j within row i. */
  function UpperIndex(i: nat, j: nat, k: nat): int {
    i * k - (i * (i + 1)) / 2 + (j - i - 1)
  }

  /** The allocated number of cells, k*(k-1)/2 (0 for k = 0, where the
      unsigned k - 1 wraps but the product is 0). */
  function CellCount(k: nat): nat {
    if k == 0 then 0 else Tri(k - 1)
  }

  lemma CellCountClosed(k: nat)
    requires k > 0
    ensures CellCount(k) == k * (k - 1) / 2
  {
    TriClosed(k - 1);
  }

  /** The index of cell (i, i+1), the first of row i. */
  function RowStart(i: nat, k: nat): int {
    i * k - Tri(i)
  }

  lemma UpperIndexRow(i: nat, j: nat, k: nat)
    ensures UpperIndex(i, j, k) == RowStart(i, k) + j - i - 1
  {
    TriClosed(i);
  }

  lemma RowStartStep(i: nat, k: nat)
    ensures RowStart(i + 1, k) == RowStart(i, k) + k - i - 1
  {
    assert (i + 1) * k == i * k + k;
  }

  /** Row i ends before row m starts, for i < m < k. */
  lemma {:induction false} RowStartGap(i: nat, m: nat, k: nat)
    requires i < m < k
    ensures RowStart(i, k) + k - i - 1 <= RowStart(m, k)
    decreases m
  {
    RowStartStep(m - 1, k);
    if m - 1 > i {
      RowStartGap(i, m - 1, k);
    }
  }

  lemma {:induction false} RowStartNonNegative(i: nat, k: nat)
    requires i < k
    ensures 0 <= RowStart(i, k)
  {
    if i > 0 {
      RowStartGap(0, i, k);
    }
  }

  lemma RowStartEnd(k: nat)
    requires k > 0
    ensures RowStart(k - 1, k) == CellCount(k)
  {
    TriClosed(k - 1);
    assert (k - 1) * k == 2 * Tri(k - 1);
  }

  /** For 0 <= i < j < k the index lies in [0, k(k-1)/2), the allocated
      range. */
  lemma UpperIndexRange(i: nat, j: nat, k: nat)
    requires i < j < k
    ensures 0 <= UpperIndex(i, j, k) < CellCount(k)
  {
    UpperIndexRow(i, j, k);
    RowStartNonNegative(i, k);
    RowStartEnd(k);
    if i + 1 < k - 1 {
      RowStartGap(i, k - 1, k);
    } else {
      RowStartStep(i, k);
    }
  }

  /** Row-major order: a pair earlier in the row-by-row enumeration has a
      smaller index. */
  lemma UpperIndexOrder(i: nat, j: nat, x: nat, y: nat, k: nat)
    requires i < j < k && x < y < k
    requires i < x || (i == x && j < y)
    ensures UpperIndex(i, j, k) < UpperIndex(x, y, k)
  {
    UpperIndexRow(i, j, k);
    UpperIndexRow(x, y, k);
    if i < x {
      RowStartGap(i, x, k);
    }
  }

  /** Distinct pairs get distinct cells. */
  lemma UpperIndexInjective(i: nat, j: nat, x: nat, y: nat, k: nat)
    requires i < j < k && x < y < k
    ensures UpperIndex(i, j, k) == UpperIndex(x, y, k) <==> i == x && j == y
  {
    if i < x || (i == x && j < y) {
      UpperIndexOrder(i, j, x, y, k);
    } else if x < i || (x == i && y < j) {
      UpperIndexOrder(x, y, i, j, k);
    }
  }

  /** Consecutive pairs get consecutive indices: along a row, and from the
      end of row i to the start of row i + 1. */
  lemma UpperIndexConsecutive(i: nat, j: nat, k: nat)
    requires i < j < k
    ensures j + 1 < k ==> UpperIndex(i, j + 1, k) == UpperIndex(i, j, k) + 1
    ensures j + 1 == k && i + 2 < k ==> UpperIndex(i + 1, i + 2, k) == UpperIndex(i, j, k) + 1
  {
    UpperIndexRow(i, j, k);
    UpperIndexRow(i, j + 1, k);
    UpperIndexRow(i + 1, i + 2, k);
    RowStartStep(i, k);
  }

  /** Every allocated cell belongs to some pair. */
  lemma {:induction false} UpperIndexOnto(n: nat, k: nat, i: nat) returns (x: nat, y: nat)
    requires n < CellCount(k) && i < k && RowStart(i, k) <= n
    ensures x < y < k && UpperIndex(x, y, k) == n
    decreases k - i
  {
    RowStartEnd(k);
    RowStartStep(i, k);
    if n < RowStart(i + 1, k) {
      x, y := i, n - RowStart(i, k) + i + 1;
      UpperIndexRow(x, y, k);
    } else {
      x, y := UpperIndexOnto(n, k, i + 1);
    }
  }

  /** The three label lists of a cell. */
  datatype Cell = Cell(staticLabels: seq<nat>, fluentLabels: seq<nat>, numericLabels: seq<nat>)

  datatype Kind = StaticLiteral | FluentLiteral | NumericConstraint

  function Labels(c: Cell, kind: Kind): seq<nat> {
    match kind
    case StaticLiteral => c.staticLabels
    case FluentLiteral => c.fluentLabels
    case NumericConstraint => c.numericLabels
  }

  /** `push_back` on the list of the given kind. */
  function Append(c: Cell, kind: Kind, x: nat): (r: Cell)
    ensures Labels(r, kind) == Labels(c, kind) + [x]
    ensures forall other :: other != kind ==> Labels(r, other) == Labels(c, other)
  {
    match kind
    case StaticLiteral => c.(staticLabels := c.staticLabels + [x])
    case FluentLiteral => c.(fluentLabels := c.fluentLabels + [x])
    case NumericConstraint => c.(numericLabels := c.numericLabels + [x])
  }

  /** `AdjacencyMatrix`: the number of variables and the cells. */
  datatype AdjacencyMatrix = AdjacencyMatrix(k: nat, cells: seq<Cell>)

  predicate MatrixShape(m: AdjacencyMatrix) {
    |m.cells| == CellCount(m.k)
  }

  /** The constructor: k(k-1)/2 empty cells. */
  function NewMatrix(k: nat): (m: AdjacencyMatrix)
    ensures MatrixShape(m) && m.k == k
    ensures forall n :: 0 <= n < |m.cells| ==> m.cells[n] == Cell([], [], [])
  {
    AdjacencyMatrix(k, seq(CellCount(k), _ => Cell([], [], [])))
  }

  /** `get_cell(lhs, rhs)`, which asserts lhs < rhs < k. */
  function GetCell(m: AdjacencyMatrix, lhs: nat, rhs: nat): Cell
    requires MatrixShape(m) && lhs < rhs < m.k
  {
    UpperIndexRange(lhs, rhs, m.k);
    m.cells[UpperIndex(lhs, rhs, m.k)]
  }

  /** A literal or numeric constraint: its label and the parameters it
      mentions. */
  datatype Labelled = Labelled(id: nat, params: set<nat>)

  /** The collected parameters, sorted: the members of `params` in [b, k)
      in increasing order. */
  function SortedParams(params: set<nat>, k: nat, b: nat): (r: seq<nat>)
    ensures StrictlySorted(r)
    ensures forall x :: x in r <==> b <= x < k && x in params
    decreases k - b
  {
    if b >= k then []
    else
      var rest := SortedParams(params, k, b + 1);
      var head: seq<nat> := if b in params then [b] else [];
      StrictConcat(head, rest);
      head + rest
  }

  /** The parameters of a dependency are variables of the condition
      whenever a cell is touched, i.e. when it has two or more. */
  predicate FitsMatrix(k: nat, item: Labelled) {
    |item.params| >= 2 ==> forall x :: x in item.params ==> x < k
  }

  /** Appends x to the list of the given kind in cell (i, j). */
  function SetCell(m: AdjacencyMatrix, i: nat, j: nat, kind: Kind, x: nat): (r: AdjacencyMatrix)
    requires MatrixShape(m) && i < j < m.k
    ensures MatrixShape(r) && r.k == m.k
  {
    UpperIndexRange(i, j, m.k);
    var u := UpperIndex(i, j, m.k);
    m.(cells := m.cells[u := Append(m.cells[u], kind, x)])
  }

  lemma SetCellCell(m: AdjacencyMatrix, i: nat, j: nat, kind: Kind, x: nat, a: nat, b: nat)
    requires MatrixShape(m) && i < j < m.k && a < b < m.k
    ensures GetCell(SetCell(m, i, j, kind, x), a, b)
            == if i == a && j == b then Append(GetCell(m, a, b), kind, x) else GetCell(m, a, b)
  {
    UpperIndexRange(i, j, m.k);
    UpperIndexRange(a, b, m.k);
    UpperIndexInjective(i, j, a, b, m.k);
  }

  /** The inner loop: appends x to the cells (ps[i], ps[j']) for j' >= j. */
  function InsertRow(m: AdjacencyMatrix, ps: seq<nat>, i: nat, j: nat, kind: Kind, x: nat): (r: AdjacencyMatrix)
    requires MatrixShape(m) && StrictlySorted(ps) && i < |ps| && i < j
    requires forall n :: 0 <= n < |ps| ==> ps[n] < m.k
    ensures MatrixShape(r) && r.k == m.k
    decreases |ps| - j
  {
    if j >= |ps| then m
    else InsertRow(SetCell(m, ps[i], ps[j], kind, x), ps, i, j + 1, kind, x)
  }

  /** The outer loop, from row i on. */
  function InsertRows(m: AdjacencyMatrix, ps: seq<nat>, i: nat, kind: Kind, x: nat): (r: AdjacencyMatrix)
    requires MatrixShape(m) && StrictlySorted(ps)
    requires forall n :: 0 <= n < |ps| ==> ps[n] < m.k
    ensures MatrixShape(r) && r.k == m.k
    decreases |ps| - i
  {
    if i >= |ps| then m else InsertRows(InsertRow(m, ps, i, i + 1, kind, x), ps, i + 1, kind, x)
  }

  /** `insert_literal` / `insert_numeric_constraint`. */
  function Insert(m: AdjacencyMatrix, item: Labelled, kind: Kind): (r: AdjacencyMatrix)
    requires MatrixShape(m) && FitsMatrix(m.k, item)
    ensures MatrixShape(r) && r.k == m.k
  {
    var ps := SortedParams(item.params, m.k, 0);
    assert forall n :: 0 <= n < |ps| ==> ps[n] in ps;
    InsertRows(m, ps, 0, kind, item.id)
  }

  lemma {:induction false} InsertRowCell(m: AdjacencyMatrix, ps: seq<nat>, i: nat, j: nat, kind: Kind, x: nat, a: nat, b: nat)
    requires MatrixShape(m) && StrictlySorted(ps) && i < |ps| && i < j <= |ps|
    requires forall n :: 0 <= n < |ps| ==> ps[n] < m.k
    requires a < b < m.k
    ensures GetCell(InsertRow(m, ps, i, j, kind, x), a, b)
            == if a == ps[i] && b in ps[j..] then Append(GetCell(m, a, b), kind, x) else GetCell(m, a, b)
    decreases |ps| - j
  {
    if j < |ps| {
      var m1 := SetCell(m, ps[i], ps[j], kind, x);
      assert InsertRow(m, ps, i, j, kind, x) == InsertRow(m1, ps, i, j + 1, kind, x);
      SetCellCell(m, ps[i], ps[j], kind, x, a, b);
      InsertRowCell(m1, ps, i, j + 1, kind, x, a, b);
      SortedSuffix(ps, j, b);
    }
  }

  /** A value lies in a suffix of a strictly sorted list iff it is the
      suffix's head or lies further on, and the head lies no further on. */
  lemma SortedSuffix(ps: seq<nat>, j: nat, b: nat)
    requires StrictlySorted(ps) && j < |ps|
    ensures b in ps[j..] <==> b == ps[j] || b in ps[j + 1..]
    ensures ps[j] !in ps[j + 1..]
  {
    assert ps[j..] == [ps[j]] + ps[j + 1..];
    assert forall n :: j < n < |ps| ==> ps[j] < ps[n];
  }

  lemma {:induction false} InsertRowsCell(m: AdjacencyMatrix, ps: seq<nat>, i: nat, kind: Kind, x: nat, a: nat, b: nat)
    requires MatrixShape(m) && StrictlySorted(ps)
    requires forall n :: 0 <= n < |ps| ==> ps[n] < m.k
    requires a < b < m.k && i <= |ps|
    ensures GetCell(InsertRows(m, ps, i, kind, x), a, b)
            == if a in ps[i..] && b in ps then Append(GetCell(m, a, b), kind, x) else GetCell(m, a, b)
    decreases |ps| - i
  {
    if i < |ps| {
      var m1 := InsertRow(m, ps, i, i + 1, kind, x);
      InsertRowCell(m, ps, i, i + 1, kind, x, a, b);
      InsertRowsCell(m1, ps, i + 1, kind, x, a, b);
      assert ps[i..] == [ps[i]] + ps[i + 1..];
      if a == ps[i] {
        assert a !in ps[i + 1..];
        assert b in ps ==> b in ps[i + 1..];
      }
    }
  }

  /** Inserting a dependency appends its label to the cell of every pair
      a < b of its parameters, and only there, and only to the list of
      its kind. */
  lemma InsertCell(m: AdjacencyMatrix, item: Labelled, kind: Kind, a: nat, b: nat)
    requires MatrixShape(m) && FitsMatrix(m.k, item) && a < b < m.k
    ensures GetCell(Insert(m, item, kind), a, b)
            == if a in item.params && b in item.params then Append(GetCell(m, a, b), kind, item.id) else GetCell(m, a, b)
  {
    var ps := SortedParams(item.params, m.k, 0);
    assert forall n :: 0 <= n < |ps| ==> ps[n] in ps;
    InsertRowsCell(m, ps, 0, kind, item.id, a, b);
    assert ps[0..] == ps;
  }

  /** Fewer than two parameters: no cell changes. */
  lemma InsertFewParams(m: AdjacencyMatrix, item: Labelled, kind: Kind)
    requires MatrixShape(m) && FitsMatrix(m.k, item) && |item.params| < 2
    ensures Insert(m, item, kind) == m
  {
    var ps := SortedParams(item.params, m.k, 0);
    assert forall n :: 0 <= n < |ps| ==> ps[n] in ps;
    if |ps| >= 2 {
      assert ps[0] != ps[1];
      assert {ps[0], ps[1]} <= item.params;
      assert |{ps[0], ps[1]}| == 2;
      SubsetCard({ps[0], ps[1]}, item.params);
    } else if |ps| == 1 {
      assert InsertRow(m, ps, 0, 1, kind, item.id) == m;
      assert InsertRows(m, ps, 1, kind, item.id) == m;
    }
  }

  lemma SubsetCard(a: set<nat>, b: set<nat>)
    requires a <= b
    ensures |a| <= |b|
  {
    assert b == a + (b - a);
  }

  /** The loop over one kind of dependency, in order. */
  function InsertAll(m: AdjacencyMatrix, items: seq<Labelled>, kind: Kind): (r: AdjacencyMatrix)
    requires MatrixShape(m) && forall n :: 0 <= n < |items| ==> FitsMatrix(m.k, items[n])
    ensures MatrixShape(r) && r.k == m.k
    decreases |items|
  {
    if |items| == 0 then m else InsertAll(Insert(m, items[0], kind), items[1..], kind)
  }

  /** The labels of the dependencies that mention both a and b, in order. */
  function Matching(items: seq<Labelled>, a: nat, b: nat): (r: seq<nat>)
    ensures forall x :: x in r <==> exists n :: 0 <= n < |items| && items[n].id == x && a in items[n].params && b in items[n].params
  {
    if |items| == 0 then []
    else
      var rest := Matching(items[1..], a, b);
      assert forall n :: 1 <= n < |items| ==> items[n] == items[1..][n - 1];
      (if a in items[0].params && b in items[0].params then [items[0].id] else []) + rest
  }

  /** `push_back` of every element of xs, in order. */
  function AppendAll(c: Cell, kind: Kind, xs: seq<nat>): (r: Cell)
    ensures Labels(r, kind) == Labels(c, kind) + xs
    ensures forall other :: other != kind ==> Labels(r, other) == Labels(c, other)
    decreases |xs|
  {
    if |xs| == 0 then c
    else
      assert Labels(c, kind) + xs == Labels(c, kind) + [xs[0]] + xs[1..];
      AppendAll(Append(c, kind, xs[0]), kind, xs[1..])
  }

  lemma {:induction false} InsertAllCell(m: AdjacencyMatrix, items: seq<Labelled>, kind: Kind, a: nat, b: nat)
    requires MatrixShape(m) && forall n :: 0 <= n < |items| ==> FitsMatrix(m.k, items[n])
    requires a < b < m.k
    ensures GetCell(InsertAll(m, items, kind), a, b) == AppendAll(GetCell(m, a, b), kind, Matching(items, a, b))
    decreases |items|
  {
    if |items| > 0 {
      var m1 := Insert(m, items[0], kind);
      InsertCell(m, items[0], kind, a, b);
      InsertAllCell(m1, items[1..], kind, a, b);
      var rest := Matching(items[1..], a, b);
      if a in items[0].params && b in items[0].params {
        assert Matching(items, a, b) == [items[0].id] + rest;
        assert ([items[0].id] + rest)[1..] == rest;
      } else {
        assert Matching(items, a, b) == rest;
      }
    }
  }

  /** The dedup lambda: sort, then erase the duplicates, on each list. */
  function Dedup(c: Cell): (r: Cell)
    ensures StrictlySorted(r.staticLabels) && StrictlySorted(r.fluentLabels) && StrictlySorted(r.numericLabels)
    ensures forall x :: x in r.staticLabels <==> x in c.staticLabels
    ensures forall x :: x in r.fluentLabels <==> x in c.fluentLabels
    ensures forall x :: x in r.numericLabels <==> x in c.numericLabels
  {
    Cell(SortUnique(c.staticLabels), SortUnique(c.fluentLabels), SortUnique(c.numericLabels))
  }

  /** The constructor for a condition with k variables: the static
      literals, then the fluent literals, then the numeric constraints are
      inserted; then every cell is deduplicated. The dedup loop runs over
      all pairs i < j < k, which cover every cell exactly once
      (`UpperIndexInjective`, `UpperIndexOnto`). */
  function Build(k: nat, statics: seq<Labelled>, fluents: seq<Labelled>, numerics: seq<Labelled>): (m: AdjacencyMatrix)
    requires forall n :: 0 <= n < |statics| ==> FitsMatrix(k, statics[n])
    requires forall n :: 0 <= n < |fluents| ==> FitsMatrix(k, fluents[n])
    requires forall n :: 0 <= n < |numerics| ==> FitsMatrix(k, numerics[n])
    ensures MatrixShape(m) && m.k == k
  {
    var m1 := InsertAll(NewMatrix(k), statics, StaticLiteral);
    var m2 := InsertAll(m1, fluents, FluentLiteral);
    var m3 := InsertAll(m2, numerics, NumericConstraint);
    AdjacencyMatrix(k, seq(|m3.cells|, n requires 0 <= n < |m3.cells| => Dedup(m3.cells[n])))
  }

  /** After construction the cell of a < b lists, for each kind, exactly
      the labels of the dependencies of that kind that mention both a and
      b, each once, in increasing order. */
  lemma BuildCells(k: nat, statics: seq<Labelled>, fluents: seq<Labelled>, numerics: seq<Labelled>, a: nat, b: nat)
    requires forall n :: 0 <= n < |statics| ==> FitsMatrix(k, statics[n])
    requires forall n :: 0 <= n < |fluents| ==> FitsMatrix(k, fluents[n])
    requires forall n :: 0 <= n < |numerics| ==> FitsMatrix(k, numerics[n])
    requires a < b < k
    ensures var c := GetCell(Build(k, statics, fluents, numerics), a, b);
            StrictlySorted(c.staticLabels) && StrictlySorted(c.fluentLabels) && StrictlySorted(c.numericLabels)
            && (forall x :: x in c.staticLabels <==> x in Matching(statics, a, b))
            && (forall x :: x in c.fluentLabels <==> x in Matching(fluents, a, b))
            && (forall x :: x in c.numericLabels <==> x in Matching(numerics, a, b))
  {
    var m0 := NewMatrix(k);
    var m1 := InsertAll(m0, statics, StaticLiteral);
    var m2 := InsertAll(m1, fluents, FluentLiteral);
    var m3 := InsertAll(m2, numerics, NumericConstraint);
    UpperIndexRange(a, b, k);
    assert GetCell(m0, a, b) == Cell([], [], []);
    InsertAllCell(m0, statics, StaticLiteral, a, b);
    InsertAllCell(m1, fluents, FluentLiteral, a, b);
    InsertAllCell(m2, numerics, NumericConstraint, a, b);
    var c := GetCell(m3, a, b);
    assert Labels(c, StaticLiteral) == Matching(statics, a, b);
    assert Labels(c, FluentLiteral) == Matching(fluents, a, b);
    assert Labels(c, NumericConstraint) == Matching(numerics, a, b);
    var d := GetCell(Build(k, statics, fluents, numerics), a, b);
    assert d == Dedup(c);
  }
}
