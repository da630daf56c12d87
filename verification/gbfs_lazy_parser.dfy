/** The property record the lazy-GBFS log parser produces
    (`GBFSLazyParser`): the registered patterns, searched over the whole
    log, followed by the derived-attribute functions in their registration
    order and, last, the reader of the Datalog summary sections. */
module GbfsLazyParser {
  import opened Wrappers
  import opened Strings
  import opened LogPatterns
  import DatalogSummaries

  const UnsolvableText := "Task is unsolvable!"
  const InvalidText := "Plan invalid"

  const LengthToks: seq<Tok> := [Lit("[GBFS] Plan length: "), Capture]
  const NsToks: seq<Tok> := [Lit("[Search] Search time: "), Digits, Lit(" ms ("), Capture, Lit(" ns)")]
  const ExpandedToks: seq<Tok> := [Lit("[Search] Number of expanded states: "), Capture]

  /** The patterns in registration order. */
  const Patterns: seq<Pattern> := [
    IntPattern("cost", [Lit("[GBFS] Plan cost: "), Capture]),
    IntPattern("length", LengthToks),
    IntPattern("initial_h_value", [Lit("[GBFS] Start node h_value: "), Capture]),
    IntPattern("search_time_ms", [Lit("[Search] Search time: "), Capture, Lit(" ms")]),
    IntPattern("search_time_ns", NsToks),
    IntPattern("num_expanded", ExpandedToks),
    IntPattern("num_generated", [Lit("[Search] Number of generated states: "), Capture]),
    IntPattern("total_time_ms", [Lit("[Total] Total time: "), Capture, Lit(" ms")]),
    IntPattern("peak_memory_usage_bytes", [Lit("[Total] Peak memory usage: "), Capture, Lit(" bytes")]),
    StrPattern("unsolvable", UnsolvableText),
    StrPattern("invalid", InvalidText),
    IntPattern("num_objects", [Lit("Num objects: "), Capture])
  ]

  /* ---------------- derived attributes ---------------- */

  /** The number a numeric value denotes; strings and infinity have none
      here (the converted keys always hold integers). */
  function AsReal(v: Value): Option<real> {
    match v
    case Int(i) => Some(i as real)
    case Real(r) => Some(r)
    case _ => None
  }

  /** `x / y` on exact numbers. */
  function Ratio(x: real, y: real): real
    requires y != 0.0
  {
    x / y
  }

  /** Python's true division of two stored values. */
  function Divide(x: Value, y: Value): (r: Result<Value>)
    ensures r.Success? <==> AsReal(x).Some? && AsReal(y).Some? && AsReal(y).value != 0.0
    ensures r.Success? ==> r.value == Real(Ratio(AsReal(x).value, AsReal(y).value))
  {
    match (AsReal(x), AsReal(y))
    case (Some(a), Some(b)) => if b == 0.0 then Failure("ZeroDivisionError") else Success(Real(Ratio(a, b)))
    case _ => Failure("TypeError")
  }

  /** Python truthiness of a stored value. */
  predicate Truthy(v: Value) {
    match v
    case Int(i) => i != 0
    case Real(r) => r != 0.0
    case Inf => true
    case Str(s) => |s| > 0
  }

  function Flag(b: bool): Value {
    Int(if b then 1 else 0)
  }

  /** `process_invalid`: the key becomes 1 when it was present, else 0. */
  function ProcessInvalid(props: Props): (r: Props)
    ensures "invalid" in r && r["invalid"] == Flag("invalid" in props)
    ensures forall k :: k != "invalid" ==> (k in r <==> k in props) && (k in props ==> r[k] == props[k])
  {
    props["invalid" := Flag("invalid" in props)]
  }

  /** `process_unsolvable`: the key becomes 1 when it was present, else 0. */
  function ProcessUnsolvable(props: Props): (r: Props)
    ensures "unsolvable" in r && r["unsolvable"] == Flag("unsolvable" in props)
    ensures forall k :: k != "unsolvable" ==> (k in r <==> k in props) && (k in props ==> r[k] == props[k])
  {
    props["unsolvable" := Flag("unsolvable" in props)]
  }

  /** `target = source / divisor` when `source` is present; otherwise the
      record is unchanged. */
  function Convert(props: Props, source: string, target: string, divisor: int): (r: Result<Props>)
    requires divisor != 0
    ensures source !in props ==> r == Success(props)
    ensures source in props ==>
      (r.Success? <==> AsReal(props[source]).Some?)
    ensures source in props && r.Success? ==>
      r.value == props[target := Real(Ratio(AsReal(props[source]).value, divisor as real))]
  {
    if source in props then
      var v :- Divide(props[source], Int(divisor));
      Success(props[target := v])
    else Success(props)
  }

  /** The keys the derived attributes read numbers from. */
  const ReadKeys: set<string> :=
    {"search_time_ms", "total_time_ms", "search_time_ns", "num_expanded", "peak_memory_usage_bytes"}

  /** Every value the derived attributes read is a number. */
  predicate Numeric(props: Props) {
    forall k :: k in props && k in ReadKeys ==> AsReal(props[k]).Some?
  }

  /** On a numeric record a conversion succeeds, keeps the record numeric
      and changes only its target key. */
  lemma ConvertNumeric(props: Props, source: string, target: string, divisor: int)
    requires divisor != 0 && source in ReadKeys && Numeric(props)
    ensures Convert(props, source, target, divisor).Success?
    ensures Numeric(Convert(props, source, target, divisor).value)
    ensures forall k :: k != target ==>
      (k in Convert(props, source, target, divisor).value <==> k in props) &&
      (k in props ==> Convert(props, source, target, divisor).value[k] == props[k])
  {
  }

  /** `add_search_time`: milliseconds to seconds. */
  function AddSearchTime(props: Props): Result<Props> {
    Convert(props, "search_time_ms", "search_time", 1000)
  }

  /** `add_total_time`: milliseconds to seconds. */
  function AddTotalTime(props: Props): Result<Props> {
    Convert(props, "total_time_ms", "total_time", 1000)
  }

  /** `add_memory`: bytes to megabytes. */
  function AddMemory(props: Props): Result<Props> {
    Convert(props, "peak_memory_usage_bytes", "memory", 1000000)
  }

  /** `add_search_time_us_per_expanded`: nanoseconds per expansion, in
      microseconds. Nothing guards the lookup of `num_expanded` or the
      division by it: a missing key and a zero count are failures. */
  function AddSearchTimeUsPerExpanded(props: Props): (r: Result<Props>)
    ensures "search_time_ns" !in props ==> r == Success(props)
    ensures "search_time_ns" in props && "num_expanded" !in props ==> r.Failure?
    ensures Numeric(props) ==>
      (r.Failure? <==> ("search_time_ns" in props &&
                        ("num_expanded" !in props || AsReal(props["num_expanded"]).value == 0.0)))
    ensures Numeric(props) && r.Success? ==> Numeric(r.value)
    ensures r.Success? ==> forall k :: k != "search_time_us_per_expanded" ==>
        (k in r.value <==> k in props) && (k in props ==> r.value[k] == props[k])
  {
    if "search_time_ns" in props then
      var us :- Divide(props["search_time_ns"], Int(1000));
      if "num_expanded" !in props then Failure("KeyError: num_expanded")
      else
        var v :- Divide(us, props["num_expanded"]);
        Success(props["search_time_us_per_expanded" := v])
    else Success(props)
  }

  /** `add_coverage`: 1 when a plan length was found or the task was
      reported unsolvable, else 0. */
  function AddCoverage(props: Props): (r: Props)
    ensures "coverage" in r
    ensures r["coverage"] == Int(1) <==> "length" in props || ("unsolvable" in props && Truthy(props["unsolvable"]))
    ensures r["coverage"] == Int(0) <==> !("length" in props || ("unsolvable" in props && Truthy(props["unsolvable"])))
    ensures forall k :: k != "coverage" ==> (k in r <==> k in props) && (k in props ==> r[k] == props[k])
  {
    var covered := "length" in props || ("unsolvable" in props && Truthy(props["unsolvable"]));
    props["coverage" := Flag(covered)]
  }

  /** The derived-attribute functions in registration order; the first
      failure ends the run. */
  function Derive(props: Props): Result<Props> {
    var p1 := ProcessInvalid(props);
    var p2 := ProcessUnsolvable(p1);
    var p3 :- AddSearchTime(p2);
    var p4 :- AddTotalTime(p3);
    var p5 :- AddSearchTimeUsPerExpanded(p4);
    var p6 :- AddMemory(p5);
    Success(AddCoverage(p6))
  }

  /** The parser on one log, given the record the run already has:
      patterns, derived attributes, then the summary sections. */
  function ParseGbfsLazy(start: Props, content: string): Result<Props> {
    var props := ApplyPatterns(start, Patterns, content);
    var derived :- Derive(props);
    Success(DatalogSummaries.ParseDatalogSummaries(content, derived))
  }

  /* ---------------- properties of the whole parser ---------------- */

  lemma PatternKeysDistinct()
    ensures DistinctKeys(Patterns)
  {
  }

  /** Only the two flag patterns record strings. */
  lemma StrPatternKeys()
    ensures forall i :: 0 <= i < |Patterns| && Patterns[i].StrPattern? ==>
              Patterns[i].key == "unsolvable" || Patterns[i].key == "invalid"
  {
  }

  /** Every key the patterns add, outside the two flags, holds an
      integer. */
  lemma PatternValuesAreInts(start: Props, text: string)
    ensures forall k :: k in ApplyPatterns(start, Patterns, text) && k !in start && k != "unsolvable" && k != "invalid" ==>
              ApplyPatterns(start, Patterns, text)[k].Int?
  {
    PatternKeysDistinct();
    ApplyPatternsFill(start, Patterns, text);
    StrPatternKeys();
  }

  /** Every key the derived attributes read is written by an integer
      pattern. */
  lemma ReadKeysArePatternKeys()
    ensures forall k :: k in ReadKeys ==> IsKeyOf(Patterns, k) && k != "unsolvable" && k != "invalid"
  {
    assert Patterns[3].key == "search_time_ms" && Patterns[4].key == "search_time_ns";
    assert Patterns[5].key == "num_expanded" && Patterns[7].key == "total_time_ms";
    assert Patterns[8].key == "peak_memory_usage_bytes";
  }

  /** When the values the derived attributes read are integers, the record
      stays numeric through the two flag functions, which write only the
      flags. */
  lemma FlagsMakeNumeric(props: Props)
    requires forall k :: k in props && k in ReadKeys ==> props[k].Int?
    ensures Numeric(ProcessUnsolvable(ProcessInvalid(props)))
  {
  }

  /** The failure condition of the derived attributes: on a numeric record
      only the per-expansion time can fail, when there is a nanosecond
      search time and the expansion count is missing or zero. */
  lemma DeriveFailsIff(props: Props)
    requires Numeric(ProcessUnsolvable(ProcessInvalid(props)))
    ensures Derive(props).Failure? <==>
      "search_time_ns" in props && ("num_expanded" !in props || AsReal(props["num_expanded"]).value == 0.0)
  {
    var p2 := ProcessUnsolvable(ProcessInvalid(props));
    ConvertNumeric(p2, "search_time_ms", "search_time", 1000);
    var p3 := AddSearchTime(p2).value;
    ConvertNumeric(p3, "total_time_ms", "total_time", 1000);
    var p4 := AddTotalTime(p3).value;
    if AddSearchTimeUsPerExpanded(p4).Success? {
      ConvertNumeric(AddSearchTimeUsPerExpanded(p4).value, "peak_memory_usage_bytes", "memory", 1000000);
    }
  }

  /** The keys the derived attributes write. */
  const DerivedKeys: set<string> :=
    {"search_time", "total_time", "search_time_us_per_expanded", "memory", "coverage"}

  /** A successful derivation leaves every key it does not write as the
      two flag functions left it. */
  lemma DeriveKeeps(props: Props, key: string)
    requires key !in DerivedKeys && Derive(props).Success?
    ensures key in Derive(props).value <==> key in ProcessUnsolvable(ProcessInvalid(props))
    ensures key in Derive(props).value ==> Derive(props).value[key] == ProcessUnsolvable(ProcessInvalid(props))[key]
  {
    var p2 := ProcessUnsolvable(ProcessInvalid(props));
    var p3 := AddSearchTime(p2).value;
    var p4 := AddTotalTime(p3).value;
    var p5 := AddSearchTimeUsPerExpanded(p4).value;
    var p6 := AddMemory(p5).value;
    assert (key in p3 <==> key in p2) && (key in p3 ==> p3[key] == p2[key]);
    assert (key in p4 <==> key in p3) && (key in p4 ==> p4[key] == p3[key]);
    assert (key in p6 <==> key in p5) && (key in p6 ==> p6[key] == p5[key]);
    assert Derive(props).value == AddCoverage(p6);
  }

  /** On success the derived record flags coverage, invalidity and
      unsolvability from the keys the patterns left. */
  lemma DeriveFlags(props: Props)
    requires Derive(props).Success?
    ensures "coverage" in Derive(props).value && "invalid" in Derive(props).value
    ensures Derive(props).value["coverage"] == Flag("length" in props || "unsolvable" in props)
    ensures Derive(props).value["invalid"] == Flag("invalid" in props)
  {
    DeriveKeeps(props, "length");
    DeriveKeeps(props, "unsolvable");
    DeriveKeeps(props, "invalid");
  }

  /** The record the patterns produce from a log. */
  function PatternProps(start: Props, content: string): Props {
    ApplyPatterns(start, Patterns, content)
  }

  /** Each pattern's key, as found by that pattern. */
  lemma RecordAt(start: Props, content: string, i: nat)
    requires KeysFree(start, Patterns) && i < |Patterns|
    ensures Patterns[i].key in PatternProps(start, content) <==> Found(Patterns[i], content).Some?
    ensures Found(Patterns[i], content).Some? ==> PatternProps(start, content)[Patterns[i].key] == Found(Patterns[i], content).value
  {
    PatternKeysDistinct();
    ApplyPatternsFill(start, Patterns, content);
    assert IsKeyOf(Patterns, Patterns[i].key);
  }

  lemma LengthRecorded(start: Props, content: string)
    requires KeysFree(start, Patterns)
    ensures "length" in PatternProps(start, content) <==> Search(LengthToks, content).Some?
  {
    RecordAt(start, content, 1);
  }

  lemma UnsolvableRecorded(start: Props, content: string)
    requires KeysFree(start, Patterns)
    ensures "unsolvable" in PatternProps(start, content) <==> FirstMatchAt([Lit(UnsolvableText)], content).Some?
  {
    RecordAt(start, content, 9);
  }

  lemma InvalidRecorded(start: Props, content: string)
    requires KeysFree(start, Patterns)
    ensures "invalid" in PatternProps(start, content) <==> FirstMatchAt([Lit(InvalidText)], content).Some?
  {
    RecordAt(start, content, 10);
  }

  lemma NsRecorded(start: Props, content: string)
    requires KeysFree(start, Patterns)
    ensures "search_time_ns" in PatternProps(start, content) <==> Search(NsToks, content).Some?
  {
    RecordAt(start, content, 4);
  }

  lemma ExpandedRecorded(start: Props, content: string)
    requires KeysFree(start, Patterns)
    ensures "num_expanded" in PatternProps(start, content) <==> Search(ExpandedToks, content).Some?
    ensures "num_expanded" in PatternProps(start, content) ==>
              PatternProps(start, content)["num_expanded"] == Int(Search(ExpandedToks, content).value)
  {
    RecordAt(start, content, 5);
  }

  /** When the run's record holds none of the pattern keys, the values
      the derived attributes read are numbers. */
  lemma PatternRecordNumeric(start: Props, content: string)
    requires KeysFree(start, Patterns)
    ensures Numeric(ProcessUnsolvable(ProcessInvalid(PatternProps(start, content))))
  {
    PatternValuesAreInts(start, content);
    ReadKeysArePatternKeys();
    FlagsMakeNumeric(PatternProps(start, content));
  }

  /** The parser fails exactly when the log reports a nanosecond search
      time but no expansion count, or an expansion count of zero. */
  lemma ParseFailsIff(start: Props, content: string)
    requires KeysFree(start, Patterns)
    ensures ParseGbfsLazy(start, content).Failure? <==>
      Search(NsToks, content).Some? && (Search(ExpandedToks, content).None? || Search(ExpandedToks, content) == Some(0))
  {
    NsRecorded(start, content);
    ExpandedRecorded(start, content);
    PatternRecordNumeric(start, content);
    DeriveFailsIff(PatternProps(start, content));
  }

  /** Keys outside the section namespaces. */
  lemma PlainKeys()
    ensures !DatalogSummaries.IsSectionKey("coverage")
    ensures !DatalogSummaries.IsSectionKey("invalid")
  {
    DatalogSummaries.UnprefixedKey("coverage");
    DatalogSummaries.UnprefixedKey("invalid");
  }

  /** On success, coverage is 1 exactly when the log reports a plan length
      or says the task is unsolvable, and `invalid` is 1 exactly when it
      reports an invalid plan; the summary sections cannot overwrite
      either. */
  lemma ParseFlags(start: Props, content: string)
    requires KeysFree(start, Patterns) && ParseGbfsLazy(start, content).Success?
    ensures "coverage" in ParseGbfsLazy(start, content).value && "invalid" in ParseGbfsLazy(start, content).value
    ensures ParseGbfsLazy(start, content).value["coverage"]
         == Flag(Search(LengthToks, content).Some? || FirstMatchAt([Lit(UnsolvableText)], content).Some?)
    ensures ParseGbfsLazy(start, content).value["invalid"] == Flag(FirstMatchAt([Lit(InvalidText)], content).Some?)
  {
    var props := PatternProps(start, content);
    LengthRecorded(start, content);
    UnsolvableRecorded(start, content);
    InvalidRecorded(start, content);
    PatternRecordNumeric(start, content);
    DeriveFlags(props);
    PlainKeys();
    DatalogSummaries.ParseKeepsOtherKeys(content, Derive(props).value);
  }
}
