/** Structural merge of planning formalism elements from one repository
    into another (`merge_p2p`). A source element is given as a resolved
    view: every reference to another element is replaced by that element's
    own view, except the function of a function term, which the source
    reads back as a plain index. The destination keeps one hash-consing
    container per element type and per tag, and every element merge ends
    in `get_or_create` on the container of its type. Tags that are
    template arguments in the source (`StaticTag`, `FluentTag`, the
    operator kind, the payload type) are explicit parameters here. */
module Merge {
  import opened Wrappers
  import PR = PlanningRepository

  /** The fact-kind tag of predicates, functions and what is built from
      them. */
  datatype Kind = Static | Fluent | Derived | Auxiliary

  /** Arithmetic and comparison operator kinds. */
  datatype Op = Add | Sub | Mul | Div | Eq | Ne | Le | Lt | Ge | Gt

  /** Numeric effect operator kinds. */
  datatype EffectOp = Assign | Increase | Decrease | ScaleUp | ScaleDown

  /** Optimisation direction of a metric. */
  datatype Objective = Minimize | Maximize

  /** The payload type an operator is instantiated with: a lifted or a
      ground function expression, of the planning or the datalog
      formalism. */
  datatype Payload = LiftedExpr | GroundExpr | DatalogLiftedExpr | DatalogGroundExpr

  // Source views

  datatype SVariable = SVariable(name: string)
  datatype SObject = SObject(name: string)
  datatype STerm = SParam(param: nat) | SObj(obj: SObject)
  datatype SPredicate = SPredicate(name: string, arity: nat)
  datatype SAtom = SAtom(pred: SPredicate, terms: seq<STerm>)
  datatype SGroundAtom = SGroundAtom(pred: SPredicate, objects: seq<nat>)
  datatype SLiteral = SLiteral(polarity: bool, atom: SAtom)
  datatype SGroundLiteral = SGroundLiteral(polarity: bool, atom: SGroundAtom)
  datatype SFDRVariable = SFDRVariable(domainSize: nat, atoms: seq<SGroundAtom>)
  datatype SFDRFact = SFDRFact(variable: SFDRVariable, value: nat)
  /** A function with the index it has in the source repository. */
  datatype SFunction = SFunction(name: string, arity: nat, index: nat)
  datatype SFunctionTerm = SFunctionTerm(func: SFunction, terms: seq<STerm>)
  datatype SGroundFunctionTerm = SGroundFunctionTerm(func: SFunction, objects: seq<nat>)
  datatype SGroundFunctionTermValue = SGroundFunctionTermValue(fterm: SGroundFunctionTerm, value: real)
  /** A function expression; a function-term leaf carries its tag. */
  datatype SExpr =
    | SConst(value: real)
    | SUnary(op: Op, arg: SExpr)
    | SBinary(op: Op, lhs: SExpr, rhs: SExpr)
    | SMulti(op: Op, args: seq<SExpr>)
    | SFTerm(tag: Kind, fterm: SFunctionTerm)
    | SGFTerm(tag: Kind, gfterm: SGroundFunctionTerm)
  /** A boolean operator: a comparison between two expressions. */
  datatype SBool = SBool(op: Op, lhs: SExpr, rhs: SExpr)
  datatype SNumericEffect = SNumericEffect(op: EffectOp, fterm: SFunctionTerm, fexpr: SExpr)
  datatype SGroundNumericEffect = SGroundNumericEffect(op: EffectOp, fterm: SGroundFunctionTerm, fexpr: SExpr)
  datatype SConjCond = SConjCond(variables: seq<SVariable>, statics: seq<SLiteral>, fluents: seq<SLiteral>,
                                 deriveds: seq<SLiteral>, constraints: seq<SBool>)
  datatype SAxiom = SAxiom(variables: seq<SVariable>, body: SConjCond, head: SAtom)
  datatype SMetric = SMetric(objective: Objective, fexpr: SExpr)

  // Destination data

  datatype DTerm = DParam(param: nat) | DObject(index: nat)
  datatype DExpr =
    | DConst(value: real)
    | DUnary(op: Op, index: nat)
    | DBinary(op: Op, index: nat)
    | DMulti(op: Op, index: nat)
    | DFTerm(tag: Kind, index: nat)
    | DGFTerm(tag: Kind, index: nat)
  datatype DBool = DBool(op: Op, index: nat)
  datatype DFDRFact = DFDRFact(variable: nat, value: nat)

  /** The data stored in the destination repository. */
  datatype Elem =
    | VariableE(name: string)
    | ObjectE(name: string)
    | BindingE(objects: seq<nat>)
    | PredicateE(tag: Kind, name: string, arity: nat)
    | AtomE(tag: Kind, pred: nat, terms: seq<DTerm>)
    | GroundAtomE(tag: Kind, pred: nat, objects: seq<nat>)
    | FDRVariableE(domainSize: nat, atoms: seq<nat>)
    | LiteralE(tag: Kind, polarity: bool, atom: nat)
    | GroundLiteralE(tag: Kind, polarity: bool, atom: nat)
    | FunctionE(tag: Kind, name: string, arity: nat)
    | FunctionTermE(tag: Kind, func: nat, terms: seq<DTerm>)
    | GroundFunctionTermE(tag: Kind, func: nat, objects: seq<nat>)
    | GroundFunctionTermValueE(tag: Kind, fterm: nat, value: real)
    | UnaryE(payload: Payload, op: Op, arg: DExpr)
    | BinaryE(payload: Payload, op: Op, lhs: DExpr, rhs: DExpr)
    | MultiE(payload: Payload, op: Op, args: seq<DExpr>)
    | NumericEffectE(effect: EffectOp, tag: Kind, fterm: nat, fexpr: DExpr)
    | GroundNumericEffectE(effect: EffectOp, tag: Kind, fterm: nat, fexpr: DExpr)
    | ConjCondE(variables: seq<nat>, statics: seq<nat>, fluents: seq<nat>, deriveds: seq<nat>, constraints: seq<DBool>)
    | AxiomE(variables: seq<nat>, body: nat, head: nat)
    | MetricE(objective: Objective, fexpr: DExpr)

  /** The container an element type is stored in. */
  datatype Sort =
    | VariableSort | ObjectSort | BindingSort
    | PredicateSort(tag: Kind) | AtomSort(tag: Kind) | GroundAtomSort(tag: Kind) | FDRVariableSort
    | LiteralSort(tag: Kind) | GroundLiteralSort(tag: Kind)
    | FunctionSort(tag: Kind) | FunctionTermSort(tag: Kind) | GroundFunctionTermSort(tag: Kind)
    | GroundFunctionTermValueSort(tag: Kind)
    | UnarySort(payload: Payload, op: Op) | BinarySort(payload: Payload, op: Op) | MultiSort(payload: Payload, op: Op)
    | NumericEffectSort(effect: EffectOp, tag: Kind) | GroundNumericEffectSort(effect: EffectOp, tag: Kind)
    | ConjCondSort | AxiomSort | MetricSort

  function SortOf(e: Elem): Sort {
    match e
    case VariableE(_) => VariableSort
    case ObjectE(_) => ObjectSort
    case BindingE(_) => BindingSort
    case PredicateE(t, _, _) => PredicateSort(t)
    case AtomE(t, _, _) => AtomSort(t)
    case GroundAtomE(t, _, _) => GroundAtomSort(t)
    case FDRVariableE(_, _) => FDRVariableSort
    case LiteralE(t, _, _) => LiteralSort(t)
    case GroundLiteralE(t, _, _) => GroundLiteralSort(t)
    case FunctionE(t, _, _) => FunctionSort(t)
    case FunctionTermE(t, _, _) => FunctionTermSort(t)
    case GroundFunctionTermE(t, _, _) => GroundFunctionTermSort(t)
    case GroundFunctionTermValueE(t, _, _) => GroundFunctionTermValueSort(t)
    case UnaryE(p, o, _) => UnarySort(p, o)
    case BinaryE(p, o, _, _) => BinarySort(p, o)
    case MultiE(p, o, _) => MultiSort(p, o)
    case NumericEffectE(o, t, _, _) => NumericEffectSort(o, t)
    case GroundNumericEffectE(o, t, _, _) => GroundNumericEffectSort(o, t)
    case ConjCondE(_, _, _, _, _) => ConjCondSort
    case AxiomE(_, _, _) => AxiomSort
    case MetricE(_, _) => MetricSort
  }

  /** The destination: one repository per element type; a type with no
      entry has an empty root container. */
  type Dest = map<Sort, PR.Repo<Elem>>

  function Container(d: Dest, s: Sort): PR.Repo<Elem> {
    if s in d then d[s] else PR.Root([])
  }

  /** `find` on the container of the element's type. */
  function FindIn(d: Dest, e: Elem): Option<nat> {
    PR.Find(Container(d, SortOf(e)), e)
  }

  /** `get_or_create` on the container of the element's type. */
  function GetOrCreateIn(d: Dest, e: Elem): (Dest, nat, bool) {
    var (r, i, created) := PR.GetOrCreate(Container(d, SortOf(e)), e);
    if created then (d[SortOf(e) := r], i, true) else (d, i, false)
  }

  /** Every element found in `d` is found under the same index in `d2`. */
  ghost predicate Extends(d: Dest, d2: Dest) {
    forall e :: FindIn(d, e).Some? ==> FindIn(d2, e) == FindIn(d, e)
  }

  lemma ExtendsTrans(d1: Dest, d2: Dest, d3: Dest)
    requires Extends(d1, d2) && Extends(d2, d3)
    ensures Extends(d1, d3)
  {
  }

  /** `get_or_create` moves nothing that is stored, finds the element
      under the returned index afterwards, and returns an element already
      stored with `false` and an unchanged destination. */
  lemma GetOrCreateInSpec(d: Dest, e: Elem)
    ensures Extends(d, GetOrCreateIn(d, e).0)
    ensures FindIn(GetOrCreateIn(d, e).0, e) == Some(GetOrCreateIn(d, e).1)
    ensures FindIn(d, e).Some? ==> GetOrCreateIn(d, e) == (d, FindIn(d, e).value, false)
    ensures FindIn(d, e).None? ==> GetOrCreateIn(d, e).2
  {
    var r := Container(d, SortOf(e));
    forall y: Elem
      ensures PR.Find(PR.GetOrCreate(r, e).0, y) == if y == e then Some(PR.GetOrCreate(r, e).1) else PR.Find(r, y)
    {
      PR.GetOrCreateFinds(r, e, y);
    }
  }

  // Common

  /** `merge_p2p(Variable)`: the name is copied. */
  function MergeVariable(v: SVariable, d: Dest): (Dest, nat, bool) {
    GetOrCreateIn(d, VariableE(v.name))
  }

  function LookupVariable(d: Dest, v: SVariable): Option<nat> {
    FindIn(d, VariableE(v.name))
  }

  /** `merge_p2p(Object)`: the name is copied. */
  function MergeObject(o: SObject, d: Dest): (Dest, nat, bool) {
    GetOrCreateIn(d, ObjectE(o.name))
  }

  function LookupObject(d: Dest, o: SObject): Option<nat> {
    FindIn(d, ObjectE(o.name))
  }

  /** `merge_p2p(Binding)`: the object indices are copied verbatim. */
  function MergeBinding(objects: seq<nat>, d: Dest): (Dest, nat, bool) {
    GetOrCreateIn(d, BindingE(objects))
  }

  /** `merge_p2p(Term)`: a parameter passes through; an object is merged
      and replaced by its destination index. */
  function MergeTerm(t: STerm, d: Dest): (Dest, DTerm) {
    match t
    case SParam(p) => (d, DParam(p))
    case SObj(o) => var (d1, i, _) := MergeObject(o, d); (d1, DObject(i))
  }

  function LookupTerm(d: Dest, t: STerm): Option<DTerm> {
    match t
    case SParam(p) => Some(DParam(p))
    case SObj(o) => if LookupObject(d, o).Some? then Some(DObject(LookupObject(d, o).value)) else None
  }

  /** The terms of a list, merged left to right. */
  function MergeTerms(ts: seq<STerm>, d: Dest): (Dest, seq<DTerm>) {
    if |ts| == 0 then (d, [])
    else
      var (d1, t) := MergeTerm(ts[0], d);
      var (d2, rest) := MergeTerms(ts[1..], d1);
      (d2, [t] + rest)
  }

  function LookupTerms(d: Dest, ts: seq<STerm>): Option<seq<DTerm>> {
    if |ts| == 0 then Some([])
    else if LookupTerm(d, ts[0]).Some? && LookupTerms(d, ts[1..]).Some? then
      Some([LookupTerm(d, ts[0]).value] + LookupTerms(d, ts[1..]).value)
    else None
  }

  // Propositional

  /** `merge_p2p(Predicate)`: name and arity are copied into the
      container of tag `tag`. */
  function MergePredicate(p: SPredicate, tag: Kind, d: Dest): (Dest, nat, bool) {
    GetOrCreateIn(d, PredicateE(tag, p.name, p.arity))
  }

  function LookupPredicate(d: Dest, p: SPredicate, tag: Kind): Option<nat> {
    FindIn(d, PredicateE(tag, p.name, p.arity))
  }

  /** `merge_p2p(Atom)`: the predicate, then the terms in order. */
  function MergeAtom(a: SAtom, tag: Kind, d: Dest): (Dest, nat, bool) {
    var (d1, pi, _) := MergePredicate(a.pred, tag, d);
    var (d2, ts) := MergeTerms(a.terms, d1);
    GetOrCreateIn(d2, AtomE(tag, pi, ts))
  }

  function LookupAtom(d: Dest, a: SAtom, tag: Kind): Option<nat> {
    if LookupPredicate(d, a.pred, tag).Some? && LookupTerms(d, a.terms).Some? then
      FindIn(d, AtomE(tag, LookupPredicate(d, a.pred, tag).value, LookupTerms(d, a.terms).value))
    else None
  }

  /** `merge_p2p(GroundAtom)`: the predicate is merged, the object indices
      are copied verbatim. */
  function MergeGroundAtom(a: SGroundAtom, tag: Kind, d: Dest): (Dest, nat, bool) {
    var (d1, pi, _) := MergePredicate(a.pred, tag, d);
    GetOrCreateIn(d1, GroundAtomE(tag, pi, a.objects))
  }

  function LookupGroundAtom(d: Dest, a: SGroundAtom, tag: Kind): Option<nat> {
    if LookupPredicate(d, a.pred, tag).Some? then
      FindIn(d, GroundAtomE(tag, LookupPredicate(d, a.pred, tag).value, a.objects))
    else None
  }

  function MergeGroundAtoms(atoms: seq<SGroundAtom>, tag: Kind, d: Dest): (Dest, seq<nat>) {
    if |atoms| == 0 then (d, [])
    else
      var (d1, i, _) := MergeGroundAtom(atoms[0], tag, d);
      var (d2, rest) := MergeGroundAtoms(atoms[1..], tag, d1);
      (d2, [i] + rest)
  }

  function LookupGroundAtoms(d: Dest, atoms: seq<SGroundAtom>, tag: Kind): Option<seq<nat>> {
    if |atoms| == 0 then Some([])
    else if LookupGroundAtom(d, atoms[0], tag).Some? && LookupGroundAtoms(d, atoms[1..], tag).Some? then
      Some([LookupGroundAtom(d, atoms[0], tag).value] + LookupGroundAtoms(d, atoms[1..], tag).value)
    else None
  }

  /** `merge_p2p(FDRVariable)`: the domain size is kept, the fluent atoms
      are merged in order. */
  function MergeFDRVariable(v: SFDRVariable, d: Dest): (Dest, nat, bool) {
    var (d1, atoms) := MergeGroundAtoms(v.atoms, Fluent, d);
    GetOrCreateIn(d1, FDRVariableE(v.domainSize, atoms))
  }

  function LookupFDRVariable(d: Dest, v: SFDRVariable): Option<nat> {
    if LookupGroundAtoms(d, v.atoms, Fluent).Some? then
      FindIn(d, FDRVariableE(v.domainSize, LookupGroundAtoms(d, v.atoms, Fluent).value))
    else None
  }

  /** `merge_p2p(FDRFact)`: the variable is merged, the value kept. */
  function MergeFDRFact(f: SFDRFact, d: Dest): (Dest, DFDRFact) {
    var (d1, vi, _) := MergeFDRVariable(f.variable, d);
    (d1, DFDRFact(vi, f.value))
  }

  /** `merge_p2p(Literal)`: the polarity is kept, the atom merged. */
  function MergeLiteral(l: SLiteral, tag: Kind, d: Dest): (Dest, nat, bool) {
    var (d1, ai, _) := MergeAtom(l.atom, tag, d);
    GetOrCreateIn(d1, LiteralE(tag, l.polarity, ai))
  }

  function LookupLiteral(d: Dest, l: SLiteral, tag: Kind): Option<nat> {
    if LookupAtom(d, l.atom, tag).Some? then FindIn(d, LiteralE(tag, l.polarity, LookupAtom(d, l.atom, tag).value))
    else None
  }

  function MergeLiterals(ls: seq<SLiteral>, tag: Kind, d: Dest): (Dest, seq<nat>) {
    if |ls| == 0 then (d, [])
    else
      var (d1, i, _) := MergeLiteral(ls[0], tag, d);
      var (d2, rest) := MergeLiterals(ls[1..], tag, d1);
      (d2, [i] + rest)
  }

  function LookupLiterals(d: Dest, ls: seq<SLiteral>, tag: Kind): Option<seq<nat>> {
    if |ls| == 0 then Some([])
    else if LookupLiteral(d, ls[0], tag).Some? && LookupLiterals(d, ls[1..], tag).Some? then
      Some([LookupLiteral(d, ls[0], tag).value] + LookupLiterals(d, ls[1..], tag).value)
    else None
  }

  /** `merge_p2p(GroundLiteral)`: the polarity is kept, the atom merged. */
  function MergeGroundLiteral(l: SGroundLiteral, tag: Kind, d: Dest): (Dest, nat, bool) {
    var (d1, ai, _) := MergeGroundAtom(l.atom, tag, d);
    GetOrCreateIn(d1, GroundLiteralE(tag, l.polarity, ai))
  }

  function LookupGroundLiteral(d: Dest, l: SGroundLiteral, tag: Kind): Option<nat> {
    if LookupGroundAtom(d, l.atom, tag).Some? then
      FindIn(d, GroundLiteralE(tag, l.polarity, LookupGroundAtom(d, l.atom, tag).value))
    else None
  }

  // Numeric

  /** `merge_p2p(Function)`: name and arity are copied. */
  function MergeFunction(f: SFunction, tag: Kind, d: Dest): (Dest, nat, bool) {
    GetOrCreateIn(d, FunctionE(tag, f.name, f.arity))
  }

  /** `merge_p2p(FunctionTerm)`: the terms are merged in order; the
      function is not merged, its source index is copied as it is. */
  function MergeFunctionTerm(ft: SFunctionTerm, tag: Kind, d: Dest): (Dest, nat, bool) {
    var (d1, ts) := MergeTerms(ft.terms, d);
    GetOrCreateIn(d1, FunctionTermE(tag, ft.func.index, ts))
  }

  function LookupFunctionTerm(d: Dest, ft: SFunctionTerm, tag: Kind): Option<nat> {
    if LookupTerms(d, ft.terms).Some? then FindIn(d, FunctionTermE(tag, ft.func.index, LookupTerms(d, ft.terms).value))
    else None
  }

  /** `merge_p2p(GroundFunctionTerm)`: the source function index and the
      object indices are copied verbatim. */
  function MergeGroundFunctionTerm(ft: SGroundFunctionTerm, tag: Kind, d: Dest): (Dest, nat, bool) {
    GetOrCreateIn(d, GroundFunctionTermE(tag, ft.func.index, ft.objects))
  }

  function LookupGroundFunctionTerm(d: Dest, ft: SGroundFunctionTerm, tag: Kind): Option<nat> {
    FindIn(d, GroundFunctionTermE(tag, ft.func.index, ft.objects))
  }

  /** `merge_p2p(GroundFunctionTermValue)`: the term is merged, the value
      kept. */
  function MergeGroundFunctionTermValue(v: SGroundFunctionTermValue, tag: Kind, d: Dest): (Dest, nat, bool) {
    var (d1, fi, _) := MergeGroundFunctionTerm(v.fterm, tag, d);
    GetOrCreateIn(d1, GroundFunctionTermValueE(tag, fi, v.value))
  }

  function LookupGroundFunctionTermValue(d: Dest, v: SGroundFunctionTermValue, tag: Kind): Option<nat> {
    if LookupGroundFunctionTerm(d, v.fterm, tag).Some? then
      FindIn(d, GroundFunctionTermValueE(tag, LookupGroundFunctionTerm(d, v.fterm, tag).value, v.value))
    else None
  }

  /** `merge_p2p(FunctionExpression)` and the operator merges it reaches:
      a constant passes through; an operator merges its children left to
      right and is stored in the container of its shape, operator and
      payload; a function term is merged under its own tag. */
  function MergeExpr(e: SExpr, p: Payload, d: Dest): (Dest, DExpr) {
    match e
    case SConst(v) => (d, DConst(v))
    case SUnary(op, arg) =>
      var (d1, a) := MergeExpr(arg, p, d);
      var (d2, i, _) := GetOrCreateIn(d1, UnaryE(p, op, a));
      (d2, DUnary(op, i))
    case SBinary(op, lhs, rhs) =>
      var (d1, l) := MergeExpr(lhs, p, d);
      var (d2, r) := MergeExpr(rhs, p, d1);
      var (d3, i, _) := GetOrCreateIn(d2, BinaryE(p, op, l, r));
      (d3, DBinary(op, i))
    case SMulti(op, args) =>
      var (d1, xs) := MergeExprs(args, p, d);
      var (d2, i, _) := GetOrCreateIn(d1, MultiE(p, op, xs));
      (d2, DMulti(op, i))
    case SFTerm(t, ft) =>
      var (d1, i, _) := MergeFunctionTerm(ft, t, d);
      (d1, DFTerm(t, i))
    case SGFTerm(t, ft) =>
      var (d1, i, _) := MergeGroundFunctionTerm(ft, t, d);
      (d1, DGFTerm(t, i))
  }

  function MergeExprs(es: seq<SExpr>, p: Payload, d: Dest): (Dest, seq<DExpr>) {
    if |es| == 0 then (d, [])
    else
      var (d1, e) := MergeExpr(es[0], p, d);
      var (d2, rest) := MergeExprs(es[1..], p, d1);
      (d2, [e] + rest)
  }

  function LookupExpr(d: Dest, e: SExpr, p: Payload): Option<DExpr> {
    match e
    case SConst(v) => Some(DConst(v))
    case SUnary(op, arg) =>
      if LookupExpr(d, arg, p).None? then None
      else if FindIn(d, UnaryE(p, op, LookupExpr(d, arg, p).value)).None? then None
      else Some(DUnary(op, FindIn(d, UnaryE(p, op, LookupExpr(d, arg, p).value)).value))
    case SBinary(op, lhs, rhs) =>
      if LookupExpr(d, lhs, p).None? || LookupExpr(d, rhs, p).None? then None
      else
        var be := BinaryE(p, op, LookupExpr(d, lhs, p).value, LookupExpr(d, rhs, p).value);
        if FindIn(d, be).None? then None else Some(DBinary(op, FindIn(d, be).value))
    case SMulti(op, args) =>
      if LookupExprs(d, args, p).None? then None
      else if FindIn(d, MultiE(p, op, LookupExprs(d, args, p).value)).None? then None
      else Some(DMulti(op, FindIn(d, MultiE(p, op, LookupExprs(d, args, p).value)).value))
    case SFTerm(t, ft) =>
      if LookupFunctionTerm(d, ft, t).None? then None else Some(DFTerm(t, LookupFunctionTerm(d, ft, t).value))
    case SGFTerm(t, ft) =>
      if LookupGroundFunctionTerm(d, ft, t).None? then None else Some(DGFTerm(t, LookupGroundFunctionTerm(d, ft, t).value))
  }

  function LookupExprs(d: Dest, es: seq<SExpr>, p: Payload): Option<seq<DExpr>> {
    if |es| == 0 then Some([])
    else if LookupExpr(d, es[0], p).Some? && LookupExprs(d, es[1..], p).Some? then
      Some([LookupExpr(d, es[0], p).value] + LookupExprs(d, es[1..], p).value)
    else None
  }

  /** `merge_p2p(BooleanOperator)`: the comparison is merged as a binary
      operator. */
  function MergeBool(b: SBool, p: Payload, d: Dest): (Dest, DBool) {
    var (d1, e) := MergeExpr(SBinary(b.op, b.lhs, b.rhs), p, d);
    (d1, DBool(b.op, e.index))
  }

  function LookupBool(d: Dest, b: SBool, p: Payload): Option<DBool> {
    if LookupExpr(d, SBinary(b.op, b.lhs, b.rhs), p).None? then None
    else Some(DBool(b.op, LookupExpr(d, SBinary(b.op, b.lhs, b.rhs), p).value.index))
  }

  function MergeBools(bs: seq<SBool>, p: Payload, d: Dest): (Dest, seq<DBool>) {
    if |bs| == 0 then (d, [])
    else
      var (d1, b) := MergeBool(bs[0], p, d);
      var (d2, rest) := MergeBools(bs[1..], p, d1);
      (d2, [b] + rest)
  }

  function LookupBools(d: Dest, bs: seq<SBool>, p: Payload): Option<seq<DBool>> {
    if |bs| == 0 then Some([])
    else if LookupBool(d, bs[0], p).Some? && LookupBools(d, bs[1..], p).Some? then
      Some([LookupBool(d, bs[0], p).value] + LookupBools(d, bs[1..], p).value)
    else None
  }

  /** `merge_p2p(NumericEffect)`: the function term, then the lifted
      expression. */
  function MergeNumericEffect(ne: SNumericEffect, tag: Kind, d: Dest): (Dest, nat, bool) {
    var (d1, fi, _) := MergeFunctionTerm(ne.fterm, tag, d);
    var (d2, e) := MergeExpr(ne.fexpr, LiftedExpr, d1);
    GetOrCreateIn(d2, NumericEffectE(ne.op, tag, fi, e))
  }

  function LookupNumericEffect(d: Dest, ne: SNumericEffect, tag: Kind): Option<nat> {
    if LookupFunctionTerm(d, ne.fterm, tag).Some? && LookupExpr(d, ne.fexpr, LiftedExpr).Some? then
      FindIn(d, NumericEffectE(ne.op, tag, LookupFunctionTerm(d, ne.fterm, tag).value, LookupExpr(d, ne.fexpr, LiftedExpr).value))
    else None
  }

  /** `merge_p2p(GroundNumericEffect)`: the ground function term, then the
      ground expression. */
  function MergeGroundNumericEffect(ne: SGroundNumericEffect, tag: Kind, d: Dest): (Dest, nat, bool) {
    var (d1, fi, _) := MergeGroundFunctionTerm(ne.fterm, tag, d);
    var (d2, e) := MergeExpr(ne.fexpr, GroundExpr, d1);
    GetOrCreateIn(d2, GroundNumericEffectE(ne.op, tag, fi, e))
  }

  function LookupGroundNumericEffect(d: Dest, ne: SGroundNumericEffect, tag: Kind): Option<nat> {
    if LookupGroundFunctionTerm(d, ne.fterm, tag).Some? && LookupExpr(d, ne.fexpr, GroundExpr).Some? then
      FindIn(d, GroundNumericEffectE(ne.op, tag, LookupGroundFunctionTerm(d, ne.fterm, tag).value,
                                     LookupExpr(d, ne.fexpr, GroundExpr).value))
    else None
  }

  // Composite

  function MergeVariables(vs: seq<SVariable>, d: Dest): (Dest, seq<nat>) {
    if |vs| == 0 then (d, [])
    else
      var (d1, i, _) := MergeVariable(vs[0], d);
      var (d2, rest) := MergeVariables(vs[1..], d1);
      (d2, [i] + rest)
  }

  function LookupVariables(d: Dest, vs: seq<SVariable>): Option<seq<nat>> {
    if |vs| == 0 then Some([])
    else if LookupVariable(d, vs[0]).Some? && LookupVariables(d, vs[1..]).Some? then
      Some([LookupVariable(d, vs[0]).value] + LookupVariables(d, vs[1..]).value)
    else None
  }

  /** `merge_p2p(ConjunctiveCondition)`: variables, static, fluent and
      derived literals, then numeric constraints, each list in order. */
  function MergeConjCond(c: SConjCond, d: Dest): (Dest, nat, bool) {
    var (d1, vs) := MergeVariables(c.variables, d);
    var (d2, ss) := MergeLiterals(c.statics, Static, d1);
    var (d3, fs) := MergeLiterals(c.fluents, Fluent, d2);
    var (d4, ds) := MergeLiterals(c.deriveds, Derived, d3);
    var (d5, bs) := MergeBools(c.constraints, LiftedExpr, d4);
    GetOrCreateIn(d5, ConjCondE(vs, ss, fs, ds, bs))
  }

  /** The parts of a condition as stored in `d`, when all are. */
  function LookupConjCondParts(d: Dest, c: SConjCond): Option<Elem> {
    var vs := LookupVariables(d, c.variables);
    var ss := LookupLiterals(d, c.statics, Static);
    var fs := LookupLiterals(d, c.fluents, Fluent);
    var ds := LookupLiterals(d, c.deriveds, Derived);
    var bs := LookupBools(d, c.constraints, LiftedExpr);
    if vs.Some? && ss.Some? && fs.Some? && ds.Some? && bs.Some? then
      Some(ConjCondE(vs.value, ss.value, fs.value, ds.value, bs.value))
    else None
  }

  function LookupConjCond(d: Dest, c: SConjCond): Option<nat> {
    if LookupConjCondParts(d, c).Some? then FindIn(d, LookupConjCondParts(d, c).value) else None
  }

  /** `merge_p2p(Axiom)`: variables, body, then the derived head. */
  function MergeAxiom(ax: SAxiom, d: Dest): (Dest, nat, bool) {
    var (d1, vs) := MergeVariables(ax.variables, d);
    var (d2, bi, _) := MergeConjCond(ax.body, d1);
    var (d3, hi, _) := MergeAtom(ax.head, Derived, d2);
    GetOrCreateIn(d3, AxiomE(vs, bi, hi))
  }

  function LookupAxiom(d: Dest, ax: SAxiom): Option<nat> {
    if LookupVariables(d, ax.variables).Some? && LookupConjCond(d, ax.body).Some? && LookupAtom(d, ax.head, Derived).Some? then
      FindIn(d, AxiomE(LookupVariables(d, ax.variables).value, LookupConjCond(d, ax.body).value,
                       LookupAtom(d, ax.head, Derived).value))
    else None
  }

  /** `merge_p2p(Metric)`: the objective is kept, the ground expression
      merged. */
  function MergeMetric(m: SMetric, d: Dest): (Dest, nat, bool) {
    var (d1, e) := MergeExpr(m.fexpr, GroundExpr, d);
    GetOrCreateIn(d1, MetricE(m.objective, e))
  }

  function LookupMetric(d: Dest, m: SMetric): Option<nat> {
    if LookupExpr(d, m.fexpr, GroundExpr).Some? then FindIn(d, MetricE(m.objective, LookupExpr(d, m.fexpr, GroundExpr).value))
    else None
  }
}
