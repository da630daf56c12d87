/** The section-scoped reader of Datalog statistics summaries in a planner
    log (`parse_datalog_summaries`). A `[<name>] Summary` marker line sets
    the current section; statistic lines inside a known section are written
    to the record under `<prefix>_<suffix>`; everything else is skipped.
    The line shapes are written as sequences of pieces (literal words,
    optional and mandatory whitespace, captured digit runs) plus three
    special steps: `.*<word>` (last occurrence), a decimal and `inf`. */
module DatalogSummaries {
  import opened Wrappers
  import opened Strings
  import opened LogPatterns

  /** Section titles and the key prefixes they map to. */
  const SectionMap: map<string, string> :=
    map["Successor generator" := "succgen", "Axiom evaluator" := "axiom", "FFHeuristic" := "ff"]

  const ProgTag := "[ProgramStatistics]"
  const RuleTag := "[AggregatedRuleStatistics]"

  /** Keys the section reader may write: those under a mapped prefix. */
  predicate IsSectionKey(k: string) {
    exists name :: name in SectionMap && HasPrefix(k, SectionMap[name] + "_")
  }

  /* ---------------- pieces ---------------- */

  /** A literal word, `\s*` or `\s+`. */
  datatype Piece = Word(w: string) | Blank | Blanks1

  /** `w` at the start of `s`, letter case ignored when `ci` holds. */
  predicate MatchWord(w: string, s: string, ci: bool) {
    |w| <= |s| && (if ci then EqualsIgnoreCase(s[..|w|], w) else s[..|w|] == w)
  }

  /** Matches the pieces at the start of `s` and returns the text after
      them; whitespace is consumed greedily. */
  function Skip(ps: seq<Piece>, s: string, ci: bool): (r: Option<string>)
    ensures r.Some? ==> |r.value| <= |s| && r.value == s[|s| - |r.value|..]
    decreases |ps|
  {
    if |ps| == 0 then Some(s)
    else match ps[0]
      case Word(w) => if MatchWord(w, s, ci) then Skip(ps[1..], s[|w|..], ci) else None
      case Blank => Skip(ps[1..], SkipSpaces(s), ci)
      case Blanks1 => if |s| > 0 && IsSpace(s[0]) then Skip(ps[1..], SkipSpaces(s), ci) else None
  }

  /** `(\d+)`: the number at the start of `s` and the text after it. */
  function ReadNum(s: string): (r: Option<(nat, string)>)
    ensures r.Some? ==> |r.value.1| < |s| && r.value.1 == s[|s| - |r.value.1|..]
    ensures r.Some? ==> |r.value.1| == 0 || !IsDigit(r.value.1[0])
    ensures r.None? <==> |s| == 0 || !IsDigit(s[0])
  {
    var n := DigitRunLength(s);
    if n == 0 then None else Some((DigitsValue(s[..n]), s[n..]))
  }

  /** `\s*$` */
  predicate AtEnd(s: string) {
    SkipSpaces(s) == ""
  }

  /** A word greedy matching cannot run into: non-empty, not starting with
      whitespace or a digit. */
  predicate GoodWord(w: string) {
    |w| > 0 && !IsSpace(w[0]) && !IsDigit(w[0])
  }

  /** Piece sequences for which greedy matching is exact: good words and
      no two adjacent whitespace pieces. */
  predicate WellFormed(ps: seq<Piece>) {
    (forall i :: 0 <= i < |ps| && ps[i].Word? ==> GoodWord(ps[i].w))
    && (forall i :: 0 <= i < |ps| - 1 ==> ps[i].Word? || ps[i + 1].Word?)
  }

  /** The text a piece sequence denotes with one space for each gap. */
  function Render(ps: seq<Piece>): string
    decreases |ps|
  {
    if |ps| == 0 then ""
    else (if ps[0].Word? then ps[0].w else " ") + Render(ps[1..])
  }

  /** What may follow the rendered pieces without changing the match:
      after a trailing gap, no further whitespace. */
  predicate Fits(ps: seq<Piece>, rest: string) {
    |ps| == 0 || |rest| == 0 || ps[|ps| - 1].Word? || !IsSpace(rest[0])
  }

  lemma RenderStart(ps: seq<Piece>)
    requires |ps| > 0 && WellFormed(ps)
    ensures |Render(ps)| > 0
    ensures ps[0].Word? ==> !IsSpace(Render(ps)[0]) && !IsDigit(Render(ps)[0])
  {
    if ps[0].Word? {
      assert Render(ps)[0] == ps[0].w[0];
    }
  }

  lemma WellFormedTail(ps: seq<Piece>)
    requires |ps| > 0 && WellFormed(ps)
    ensures WellFormed(ps[1..])
  {
    assert forall i :: 0 <= i < |ps[1..]| ==> ps[1..][i] == ps[i + 1];
  }

  /** A word followed by any text matches the word and leaves that text. */
  lemma MatchWordPrefix(w: string, x: string, ci: bool)
    ensures MatchWord(w, w + x, ci) && (w + x)[|w|..] == x
  {
    assert (w + x)[..|w|] == w;
  }

  lemma FitsTail(ps: seq<Piece>, rest: string)
    requires |ps| > 0 && Fits(ps, rest)
    ensures Fits(ps[1..], rest)
  {
    if |ps| > 1 {
      assert ps[1..][|ps| - 2] == ps[|ps| - 1];
    }
  }

  /** After a gap of a well-formed sequence, the remaining text does not
      start with whitespace. */
  lemma AfterGap(ps: seq<Piece>, rest: string)
    requires |ps| > 0 && WellFormed(ps) && Fits(ps, rest) && !ps[0].Word?
    ensures var x := Render(ps[1..]) + rest; |x| > 0 ==> !IsSpace(x[0])
  {
    if |ps| > 1 {
      WellFormedTail(ps);
      RenderStart(ps[1..]);
    }
  }

  lemma SkipWordStep(ps: seq<Piece>, rest: string, ci: bool)
    requires |ps| > 0 && ps[0].Word?
    requires Skip(ps[1..], Render(ps[1..]) + rest, ci) == Some(rest)
    ensures Skip(ps, Render(ps) + rest, ci) == Some(rest)
  {
    var x := Render(ps[1..]) + rest;
    assert Render(ps) + rest == ps[0].w + x;
    MatchWordPrefix(ps[0].w, x, ci);
  }

  lemma SkipGapStep(ps: seq<Piece>, rest: string, ci: bool)
    requires |ps| > 0 && !ps[0].Word?
    requires var x := Render(ps[1..]) + rest; |x| > 0 ==> !IsSpace(x[0])
    requires Skip(ps[1..], Render(ps[1..]) + rest, ci) == Some(rest)
    ensures Skip(ps, Render(ps) + rest, ci) == Some(rest)
  {
    var x := Render(ps[1..]) + rest;
    assert Render(ps) + rest == " " + x;
    SkipSpacesPrefix(" ", x);
  }

  /** Matching the rendering of a well-formed piece sequence consumes it
      exactly, in either letter-case mode. */
  lemma {:induction false} SkipRendered(ps: seq<Piece>, rest: string, ci: bool)
    requires WellFormed(ps) && Fits(ps, rest)
    ensures Skip(ps, Render(ps) + rest, ci) == Some(rest)
    decreases |ps|
  {
    if |ps| > 0 {
      WellFormedTail(ps);
      FitsTail(ps, rest);
      SkipRendered(ps[1..], rest, ci);
      if ps[0].Word? {
        SkipWordStep(ps, rest, ci);
      } else {
        AfterGap(ps, rest);
        SkipGapStep(ps, rest, ci);
      }
    }
  }

  /** A numeral followed by a non-digit is read back as its number. */
  lemma ReadNumOfNumeral(n: nat, rest: string)
    requires |rest| == 0 || !IsDigit(rest[0])
    ensures ReadNum(NatToString(n) + rest) == Some((n, rest))
  {
    var d := NatToString(n);
    DigitRunOfNumeral(d, rest);
    NatToStringRoundTrip(n);
    assert (d + rest)[..|d|] == d && (d + rest)[|d|..] == rest;
  }

  /* ---------------- the special steps ---------------- */

  /** The text after the LAST occurrence of `w` in `s`: `.*w`. Taking the
      last occurrence is exact for the patterns below, whose tails cannot
      match `w`'s final character, so backtracking to an earlier occurrence
      never succeeds where the last one fails. */
  function AfterLast(s: string, w: string, ci: bool): (r: Option<string>)
    requires |w| > 0
    ensures r.Some? ==> |w| + |r.value| <= |s| && r.value == s[|s| - |r.value|..]
    ensures r.Some? ==> MatchWord(w, s[|s| - |r.value| - |w|..], ci)
    ensures r.Some? ==> forall j :: |s| - |r.value| - |w| < j <= |s| ==> !MatchWord(w, s[j..], ci)
    ensures r.None? ==> forall j :: 0 <= j <= |s| ==> !MatchWord(w, s[j..], ci)
    decreases |s|
  {
    if |s| == 0 then
      assert s[0..] == s;
      None
    else
      var later := AfterLast(s[1..], w, ci);
      assert forall j :: 1 <= j <= |s| ==> s[j..] == s[1..][j - 1..];
      assert s[0..] == s;
      if later.Some? then later
      else if MatchWord(w, s, ci) then Some(s[|w|..])
      else None
  }

  /** A word cannot occur where its last character would fall on a
      character that differs from it (in either case mode). */
  lemma NoWordEndingIn(s: string, w: string, ci: bool, from: nat)
    requires |w| > 0 && from <= |s|
    requires forall i :: from <= i < |s| ==> Lower(s[i]) != Lower(w[|w| - 1])
    ensures forall j :: 0 <= j <= |s| && from <= j + |w| - 1 ==> !MatchWord(w, s[j..], ci)
  {
    forall j | 0 <= j <= |s| && from <= j + |w| - 1 && |w| <= |s[j..]|
      ensures !MatchWord(w, s[j..], ci)
    {
      assert s[j..][..|w|][|w| - 1] == s[j + |w| - 1];
    }
  }

  /** `.*w` stops at the final occurrence of `w` when nothing after it can
      end another occurrence. */
  lemma {:induction false} AfterLastOfFinal(a: string, w: string, b: string, ci: bool)
    requires |w| > 0
    requires forall i :: 0 <= i < |b| ==> Lower(b[i]) != Lower(w[|w| - 1])
    ensures AfterLast(a + w + b, w, ci) == Some(b)
    decreases |a|
  {
    var s := a + w + b;
    if |a| == 0 {
      assert s == w + b;
      MatchWordPrefix(w, b, ci);
      var t := s[1..];
      assert t == w[1..] + b;
      NoWordEndingIn(t, w, ci, |w| - 1);
      assert AfterLast(t, w, ci).None?;
    } else {
      assert s[1..] == a[1..] + w + b;
      AfterLastOfFinal(a[1..], w, b, ci);
    }
  }

  function Pow10(n: nat): (p: nat)
    ensures p > 0
  {
    if n == 0 then 1 else 10 * Pow10(n - 1)
  }

  /** The number `<whole>.<frac>` with `digits` digits after the point. */
  function Decimal(whole: nat, frac: nat, digits: nat): real {
    whole as real + frac as real / Pow10(digits) as real
  }

  /** `\s*([0-9]*\.?[0-9]+)\s*$`, read with Python's `float`: a digit run,
      or an optional digit run, a point and a non-empty digit run. */
  function DecimalTail(rest: string): Option<real> {
    var t := SkipSpaces(rest);
    var a := DigitRunLength(t);
    if a < |t| && t[a] == '.' then
      var f := t[a + 1..];
      var b := DigitRunLength(f);
      if b > 0 && AtEnd(f[b..]) then
        Some(Decimal(DigitsValue(t[..a]), DigitsValue(f[..b]), b))
      else None
    else if a > 0 && AtEnd(t[a..]) then Some(DigitsValue(t[..a]) as real)
    else None
  }

  /** `\s*(inf|[0-9]*\.?[0-9]+)\s*$` case-insensitively; `inf` in any
      letter case is the infinite value. */
  function SkewTail(rest: string): Option<Value> {
    var t := SkipSpaces(rest);
    if |t| >= 3 && EqualsIgnoreCase(t[..3], "inf") && AtEnd(t[3..]) then Some(Inf)
    else match DecimalTail(rest)
      case None => None
      case Some(x) => Some(Real(x))
  }

  lemma SpaceThenText(t: string)
    requires |t| > 0 && !IsSpace(t[0])
    ensures SkipSpaces(" " + t) == t
  {
    SkipSpacesPrefix(" ", t);
  }

  lemma SpacePointText(d: string, f: string)
    requires |d| > 0 && !IsSpace(d[0])
    ensures SkipSpaces(" " + d + "." + f) == d + "." + f
  {
    assert " " + d + "." + f == " " + (d + "." + f);
    SpaceThenText(d + "." + f);
  }

  /** A whole digit run is one run, with nothing after it. */
  lemma WholeRun(d: string)
    requires AllDigits(d)
    ensures DigitRunLength(d) == |d| && d[..|d|] == d && d[|d|..] == ""
  {
    DigitRunOfNumeral(d, "");
    assert d + "" == d;
  }

  /** A printed whole number is read as itself. */
  lemma DecimalOfWhole(whole: nat)
    ensures DecimalTail(" " + NatToString(whole)) == Some(whole as real)
  {
    var d := NatToString(whole);
    NatToStringRoundTrip(whole);
    SpaceThenText(d);
    WholeRun(d);
  }

  /** A digit run, a point and a text: the run ends at the point. */
  lemma RunThenPoint(d: string, f: string)
    requires AllDigits(d)
    ensures var t := d + "." + f;
            DigitRunLength(t) == |d| && t[..|d|] == d && t[|d|] == '.' && t[|d| + 1..] == f
  {
    var t := d + "." + f;
    assert t == d + ("." + f);
    DigitRunOfNumeral(d, "." + f);
    assert t[..|d|] == d && t[|d| + 1..] == f;
  }

  /** `inf` is recognised as the infinite skew in any letter case. */
  lemma SkewTailInfinite(ws: string, word: string)
    requires forall i :: 0 <= i < |ws| ==> IsSpace(ws[i])
    requires EqualsIgnoreCase(word, "inf")
    ensures SkewTail(ws + word) == Some(Inf)
  {
    assert !IsSpace(word[0]) by {
      assert Lower(word[0]) == 'i';
    }
    SkipSpacesPrefix(ws, word);
    assert word[..3] == word;
  }

  /* ---------------- the statistic patterns ---------------- */

  /** The shape of one statistic line. */
  datatype Shape =
    | Count(tag: string, caption: string)
    | Timed(tag: string, caption: string, unit: string)
    | Fraction(tag: string)
    | Skew(tag: string, first: string, second: string, caption: string)

  /** A pattern with the suffixes it writes: the main one and, for timed
      lines, the one for the nanosecond figure. */
  datatype Rule = Rule(shape: Shape, key: string, nsKey: string)

  /** The patterns in the order they are tried. */
  const Rules: seq<Rule> := [
    Rule(Count(ProgTag, "Num executions:"), "prog_num_exec", ""),
    Rule(Timed(ProgTag, "T_par", "ms"), "prog_par_ms", "prog_par_ns"),
    Rule(Timed(ProgTag, "T_total", "ms"), "prog_T_total_ms", "prog_T_total_ns"),
    Rule(Timed(ProgTag, "T_avg", "us"), "prog_T_avg_us", "prog_T_avg_ns"),
    Rule(Fraction(ProgTag), "prog_par_frac", ""),
    Rule(Count(RuleTag, "Number of executions:"), "rule_num_exec", ""),
    Rule(Count(RuleTag, "Number of bindings:"), "rule_num_bindings", ""),
    Rule(Count(RuleTag, "Number of samples:"), "rule_samples", ""),
    Rule(Timed(RuleTag, "T_initialize", "ms"), "rule_T_init_ms", "rule_T_init_ns"),
    Rule(Timed(RuleTag, "T_generate", "ms"), "rule_T_generate_ms", "rule_T_generate_ns"),
    Rule(Timed(RuleTag, "T_pending", "ms"), "rule_T_pending_ms", "rule_T_pending_ns"),
    Rule(Timed(RuleTag, "T_total", "ms"), "rule_T_total_ms", "rule_T_total_ns"),
    Rule(Fraction(RuleTag), "rule_par_frac", ""),
    Rule(Skew(RuleTag, "T_total_max", "T_total_med", "Total skew:"), "rule_total_skew", ""),
    Rule(Skew(RuleTag, "T_avg_max", "T_avg_med", "Average skew:"), "rule_avg_skew", "")
  ]

  /** `<tag>\s+<caption>\s*`, before the count */
  function CountHead(tag: string, caption: string): seq<Piece> {
    [Word(tag), Blanks1, Word(caption), Blank]
  }

  /** `<tag>\s+<caption>\s*-`, before `.*:` */
  function TimedHead(tag: string, caption: string): seq<Piece> {
    [Word(tag), Blanks1, Word(caption), Blank, Word("-")]
  }

  /** `\s*<unit>` after the figure */
  function UnitPieces(unit: string): seq<Piece> {
    [Blank, Word(unit)]
  }

  /** `\s*\(\s*` and `\s*ns\s*\)` around the nanosecond figure */
  const NsOpen: seq<Piece> := [Blank, Word("("), Blank]
  const NsClose: seq<Piece> := [Blank, Word("ns"), Blank, Word(")")]

  /** `<tag>`, whitespace, `T_par`, a slash, `T_total`, a dash and
      `Parallel fraction:`, with optional whitespace between them */
  function FractionHead(tag: string): seq<Piece> {
    [Word(tag), Blanks1, Word("T_par"), Blank, Word("/"), Blank, Word("T_total"), Blank, Word("-"), Blank,
     Word("Parallel fraction:")]
  }

  /** `<tag>`, whitespace, `<first>`, a slash and `<second>`, before
      `.*<caption>` */
  function SkewHead(tag: string, first: string, second: string): seq<Piece> {
    [Word(tag), Blanks1, Word(first), Blank, Word("/"), Blank, Word(second)]
  }

  /** `\s*(\d+)\s*$` */
  function FinalNum(s: string): Option<nat> {
    match ReadNum(SkipSpaces(s))
    case None => None
    case Some((n, tail)) => if AtEnd(tail) then Some(n) else None
  }

  function CountWrites(key: string, tag: string, caption: string, line: string): Option<seq<(string, Value)>> {
    match Skip(CountHead(tag, caption), line, false)
    case None => None
    case Some(rest) =>
      match FinalNum(rest)
      case None => None
      case Some(n) => Some([(key, Int(n))])
  }

  /** The optional group `\s*\(\s*(\d+)\s*ns\s*\)` followed by `\s*$`. */
  function NsFigure(s: string): Option<nat> {
    match Skip(NsOpen, s, false)
    case None => None
    case Some(x) =>
      match ReadNum(x)
      case None => None
      case Some((n, y)) =>
        match Skip(NsClose, y, false)
        case None => None
        case Some(z) => if AtEnd(z) then Some(n) else None
  }

  /** After the unit: the nanosecond group then the end, or just the end. */
  function NsSuffix(s: string): Option<Option<nat>> {
    match NsFigure(s)
    case Some(ns) => Some(Some(ns))
    case None => if AtEnd(s) then Some(None) else None
  }

  /** After the colon: `\s*(\d+)\s*<unit>` and the nanosecond suffix. */
  function TimedTail(unit: string, s: string): Option<(nat, Option<nat>)> {
    match ReadNum(SkipSpaces(s))
    case None => None
    case Some((n, x)) =>
      match Skip(UnitPieces(unit), x, false)
      case None => None
      case Some(y) =>
        match NsSuffix(y)
        case None => None
        case Some(ns) => Some((n, ns))
  }

  function TimedWrites(key: string, nsKey: string, tag: string, caption: string, unit: string, line: string)
    : Option<seq<(string, Value)>>
  {
    match Skip(TimedHead(tag, caption), line, false)
    case None => None
    case Some(rest) =>
      match AfterLast(rest, ":", false)
      case None => None
      case Some(u) =>
        match TimedTail(unit, u)
        case None => None
        case Some((n, ns)) => Some([(key, Int(n))] + (if ns.Some? then [(nsKey, Int(ns.value))] else []))
  }

  function FractionWrites(key: string, tag: string, line: string): Option<seq<(string, Value)>> {
    match Skip(FractionHead(tag), line, true)
    case None => None
    case Some(rest) =>
      match DecimalTail(rest)
      case None => None
      case Some(x) => Some([(key, Real(x))])
  }

  function SkewWrites(key: string, tag: string, first: string, second: string, caption: string, line: string)
    : Option<seq<(string, Value)>>
  {
    if |caption| == 0 then None
    else match Skip(SkewHead(tag, first, second), line, true)
      case None => None
      case Some(rest) =>
        match AfterLast(rest, caption, true)
        case None => None
        case Some(tail) =>
          match SkewTail(tail)
          case None => None
          case Some(v) => Some([(key, v)])
  }

  /** The (suffix, value) writes a line produces under one rule, or `None`
      when the line does not have the rule's shape. */
  function RuleWrites(rule: Rule, line: string): Option<seq<(string, Value)>> {
    match rule.shape
    case Count(tag, caption) => CountWrites(rule.key, tag, caption, line)
    case Timed(tag, caption, unit) => TimedWrites(rule.key, rule.nsKey, tag, caption, unit, line)
    case Fraction(tag) => FractionWrites(rule.key, tag, line)
    case Skew(tag, first, second, caption) => SkewWrites(rule.key, tag, first, second, caption, line)
  }

  /** The writes of the first rule that matches; none when no rule does. */
  function FirstRuleWrites(rules: seq<Rule>, line: string): (r: seq<(string, Value)>)
    ensures |r| > 0 ==> exists i :: 0 <= i < |rules| && RuleWrites(rules[i], line) == Some(r)
  {
    if |rules| == 0 then []
    else match RuleWrites(rules[0], line)
      case Some(w) => w
      case None =>
        var r := FirstRuleWrites(rules[1..], line);
        assert |r| > 0 ==>
          (exists i :: 0 <= i < |rules[1..]| && RuleWrites(rules[1..][i], line) == Some(r));
        r
  }

  /** The writes taken are those of the least rule that matches, and a
      line that no rule matches writes nothing. */
  lemma {:induction false} FirstRuleWritesLeast(rules: seq<Rule>, line: string, i: nat)
    ensures i < |rules| && RuleWrites(rules[i], line).Some? && (forall j :: 0 <= j < i ==> RuleWrites(rules[j], line).None?)
            ==> FirstRuleWrites(rules, line) == RuleWrites(rules[i], line).value
    ensures (forall j :: 0 <= j < |rules| ==> RuleWrites(rules[j], line).None?) ==> FirstRuleWrites(rules, line) == []
    decreases |rules|
  {
    if |rules| > 0 {
      var tail := rules[1..];
      assert forall j :: 0 <= j < |tail| ==> tail[j] == rules[j + 1];
      if i > 0 {
        FirstRuleWritesLeast(tail, line, i - 1);
      } else {
        FirstRuleWritesLeast(tail, line, 0);
      }
    }
  }

  function LineWrites(line: string): seq<(string, Value)> {
    FirstRuleWrites(Rules, line)
  }

  /* ---------------- round trips of the statistic shapes ---------------- */

  lemma CountHeadWellFormed(tag: string, caption: string)
    requires GoodWord(tag) && GoodWord(caption)
    ensures WellFormed(CountHead(tag, caption))
  {
  }

  lemma TimedHeadWellFormed(tag: string, caption: string)
    requires GoodWord(tag) && GoodWord(caption)
    ensures WellFormed(TimedHead(tag, caption))
  {
  }

  lemma UnitWellFormed(unit: string)
    requires GoodWord(unit)
    ensures WellFormed(UnitPieces(unit))
  {
  }

  lemma NsWellFormed()
    ensures WellFormed(NsOpen) && WellFormed(NsClose)
  {
  }

  lemma FractionHeadWellFormed(tag: string)
    requires GoodWord(tag)
    ensures WellFormed(FractionHead(tag))
  {
  }

  lemma SkewHeadWellFormed(tag: string, first: string, second: string)
    requires GoodWord(tag) && GoodWord(first) && GoodWord(second)
    ensures WellFormed(SkewHead(tag, first, second))
  {
  }

  /** A printed number at the end of a line is read back. */
  lemma FinalNumOfNumeral(n: nat)
    ensures FinalNum(NatToString(n)) == Some(n)
  {
    var d := NatToString(n);
    assert !IsSpace(d[0]);
    SkipSpacesPrefix("", d);
    assert "" + d == d;
    ReadNumOfNumeral(n, "");
    assert d + "" == d;
  }

  /** A count line rendered with single spaces (`<tag> <caption> <n>`)
      reads back `n`. */
  lemma CountLineRoundTrip(key: string, tag: string, caption: string, n: nat)
    requires GoodWord(tag) && GoodWord(caption)
    ensures CountWrites(key, tag, caption, Render(CountHead(tag, caption)) + NatToString(n))
         == Some([(key, Int(n))])
  {
    CountHeadWellFormed(tag, caption);
    SkipRendered(CountHead(tag, caption), NatToString(n), false);
    FinalNumOfNumeral(n);
  }

  /** The nanosecond group rendered with single spaces: ` ( <ns> ns )`. */
  function NsText(ns: Option<nat>): string {
    if ns.Some? then Render(NsOpen) + NatToString(ns.value) + Render(NsClose) else ""
  }

  /** The text after the colon rendered with single spaces: the figure, the
      unit and optionally the nanosecond group. */
  function TimedTailText(unit: string, main: nat, ns: Option<nat>): string {
    " " + NatToString(main) + Render(UnitPieces(unit)) + NsText(ns)
  }

  lemma EmptyAtEnd()
    ensures AtEnd("")
  {
  }

  lemma NsOpenSkipped(n: nat)
    ensures var d := NatToString(n);
            Skip(NsOpen, Render(NsOpen) + (d + Render(NsClose)), false) == Some(d + Render(NsClose))
  {
    NsWellFormed();
    SkipRendered(NsOpen, NatToString(n) + Render(NsClose), false);
  }

  lemma NsNumberRead(n: nat)
    ensures ReadNum(NatToString(n) + Render(NsClose)) == Some((n, Render(NsClose)))
  {
    NsRendered();
    ReadNumOfNumeral(n, Render(NsClose));
  }

  lemma NsFigureSteps(s: string, x: string, n: nat, y: string)
    requires Skip(NsOpen, s, false) == Some(x)
    requires ReadNum(x) == Some((n, y))
    requires Skip(NsClose, y, false) == Some("")
    ensures NsFigure(s) == Some(n)
  {
    EmptyAtEnd();
  }

  lemma NsTextParts(n: nat)
    ensures NsText(Some(n)) == Render(NsOpen) + (NatToString(n) + Render(NsClose))
  {
  }

  lemma NsFigureOfParts(n: nat)
    ensures NsFigure(Render(NsOpen) + (NatToString(n) + Render(NsClose))) == Some(n)
  {
    var d := NatToString(n);
    var close := Render(NsClose);
    NsOpenSkipped(n);
    NsNumberRead(n);
    NsWellFormed();
    SkipWhole(NsClose);
    NsFigureSteps(Render(NsOpen) + (d + close), d + close, n, close);
  }

  /** The rendered nanosecond group is read back as its figure. */
  lemma NsFigureOfRendered(n: nat)
    ensures NsFigure(NsText(Some(n))) == Some(n)
  {
    NsTextParts(n);
    NsFigureOfParts(n);
  }

  /** A well-formed sequence matches its own rendering and leaves nothing. */
  lemma SkipWhole(ps: seq<Piece>)
    requires WellFormed(ps)
    ensures Skip(ps, Render(ps), false) == Some("")
  {
    SkipRendered(ps, "", false);
    assert Render(ps) + "" == Render(ps);
  }

  lemma NsSuffixOfRendered(ns: Option<nat>)
    ensures NsSuffix(NsText(ns)) == Some(ns)
  {
    if ns.Some? {
      NsFigureOfRendered(ns.value);
    }
  }

  /** After the colon, the rendered figure, unit and nanosecond group are
      read back exactly. */
  lemma TimedTailRoundTrip(unit: string, main: nat, ns: Option<nat>)
    requires GoodWord(unit)
    ensures TimedTail(unit, TimedTailText(unit, main, ns)) == Some((main, ns))
  {
    TimedTailParts(unit, main, ns);
    TimedTailOfParts(unit, main, ns);
  }

  lemma TimedTailParts(unit: string, main: nat, ns: Option<nat>)
    ensures TimedTailText(unit, main, ns) == " " + (NatToString(main) + (Render(UnitPieces(unit)) + NsText(ns)))
  {
  }

  lemma TimedTailSteps(unit: string, s: string, n: nat, x: string, y: string, ns: Option<nat>)
    requires ReadNum(SkipSpaces(s)) == Some((n, x))
    requires Skip(UnitPieces(unit), x, false) == Some(y)
    requires NsSuffix(y) == Some(ns)
    ensures TimedTail(unit, s) == Some((n, ns))
  {
  }

  lemma TimedTailOfParts(unit: string, main: nat, ns: Option<nat>)
    requires GoodWord(unit)
    ensures TimedTail(unit, " " + (NatToString(main) + (Render(UnitPieces(unit)) + NsText(ns)))) == Some((main, ns))
  {
    var d := NatToString(main);
    var x := Render(UnitPieces(unit)) + NsText(ns);
    SpaceThenText(d + x);
    UnitRendered(unit);
    ReadNumOfNumeral(main, x);
    UnitWellFormed(unit);
    SkipRendered(UnitPieces(unit), NsText(ns), false);
    NsSuffixOfRendered(ns);
    TimedTailSteps(unit, " " + (d + x), main, x, NsText(ns), ns);
  }

  /** Digits, single spaces and the words of a rendered unit and
      nanosecond group: no colon. */
  lemma NoColonInTail(unit: string, main: nat, ns: Option<nat>)
    requires ':' !in unit
    ensures forall i :: 0 <= i < |TimedTailText(unit, main, ns)| ==> Lower(TimedTailText(unit, main, ns)[i]) != ':'
  {
    var d := NatToString(main);
    assert forall i :: 0 <= i < |d| ==> IsDigit(d[i]);
    UnitRendered(unit);
    if ns.Some? {
      var e := NatToString(ns.value);
      assert forall i :: 0 <= i < |e| ==> IsDigit(e[i]);
      NsRendered();
    }
  }

  lemma UnitRendered(unit: string)
    ensures Render(UnitPieces(unit)) == " " + unit
  {
    assert UnitPieces(unit)[1..] == [Word(unit)];
    assert Render([Word(unit)]) == unit;
  }

  lemma NsRendered()
    ensures Render(NsOpen) == " ( " && Render(NsClose) == " ns )"
  {
    assert NsOpen[1..][1..] == [Blank];
    assert Render(NsOpen[1..][1..]) == " ";
    assert NsOpen[1..] == [Word("("), Blank];
    assert NsClose[1..][1..][1..] == [Word(")")];
    assert Render(NsClose[1..][1..][1..]) == ")";
    assert NsClose[1..][1..] == [Blank, Word(")")];
    assert NsClose[1..] == [Word("ns"), Blank, Word(")")];
  }

  /** The part of a timed line after its head: any text, then the last
      colon and the figures. */
  lemma TimedRestRoundTrip(unit: string, text: string, main: nat, ns: Option<nat>)
    requires ':' !in unit
    ensures AfterLast(text + ":" + TimedTailText(unit, main, ns), ":", false) == Some(TimedTailText(unit, main, ns))
  {
    NoColonInTail(unit, main, ns);
    AfterLastOfFinal(text, ":", TimedTailText(unit, main, ns), false);
  }

  /** A timed line rendered with single spaces (head, any caption text, a
      colon, the figure, the unit and optionally the nanosecond group) is
      read back exactly: the main figure always, the nanosecond figure only
      when it is present. */
  lemma TimedLineRoundTrip(key: string, nsKey: string, tag: string, caption: string, unit: string,
                           text: string, main: nat, ns: Option<nat>)
    requires GoodWord(tag) && GoodWord(caption) && GoodWord(unit) && ':' !in unit
    ensures TimedWrites(key, nsKey, tag, caption, unit,
                        Render(TimedHead(tag, caption)) + (text + ":" + TimedTailText(unit, main, ns)))
            == Some([(key, Int(main))] + (if ns.Some? then [(nsKey, Int(ns.value))] else []))
  {
    TimedHeadWellFormed(tag, caption);
    SkipRendered(TimedHead(tag, caption), text + ":" + TimedTailText(unit, main, ns), false);
    TimedRestRoundTrip(unit, text, main, ns);
    TimedTailRoundTrip(unit, main, ns);
  }

  /** A printed `<whole>.<digits>` is read as the number it denotes. */
  lemma DecimalOfDigits(d: string, f: string)
    requires |d| > 0 && AllDigits(d) && |f| > 0 && AllDigits(f)
    ensures DecimalTail(" " + d + "." + f) == Some(Decimal(DigitsValue(d), DigitsValue(f), |f|))
  {
    assert !IsSpace(d[0]);
    SpacePointText(d, f);
    RunThenPoint(d, f);
    WholeRun(f);
  }

  /** A parallel-fraction line rendered with single spaces and a decimal
      point is read back as the decimal it shows, in any letter case. */
  lemma FractionLineRoundTrip(key: string, tag: string, whole: nat, frac: string)
    requires GoodWord(tag) && |frac| > 0 && AllDigits(frac)
    ensures FractionWrites(key, tag, Render(FractionHead(tag)) + (" " + NatToString(whole) + "." + frac))
         == Some([(key, Real(Decimal(whole, DigitsValue(frac), |frac|)))])
  {
    FractionHeadWellFormed(tag);
    SkipRendered(FractionHead(tag), " " + NatToString(whole) + "." + frac, true);
    DecimalOfDigits(NatToString(whole), frac);
    NatToStringRoundTrip(whole);
  }

  lemma InfAfterCaption(text: string, caption: string, word: string)
    requires |caption| > 0 && Lower(caption[|caption| - 1]) == ':'
    requires EqualsIgnoreCase(word, "inf")
    ensures AfterLast(text + caption + (" " + word), caption, true) == Some(" " + word)
  {
    var tail := " " + word;
    assert forall i :: 0 <= i < 3 ==> Lower(word[i]) == Lower("inf"[i]);
    assert forall i :: 0 <= i < |tail| ==> Lower(tail[i]) != ':';
    AfterLastOfFinal(text, caption, tail, true);
  }

  /** A skew line whose figure is `inf` (any letter case) records the
      infinite value, whatever text stands between the head and the
      caption. */
  lemma SkewLineInfinite(key: string, tag: string, first: string, second: string, caption: string,
                         text: string, word: string)
    requires GoodWord(tag) && GoodWord(first) && GoodWord(second) && |caption| > 0
    requires Lower(caption[|caption| - 1]) == ':'
    requires EqualsIgnoreCase(word, "inf")
    ensures SkewWrites(key, tag, first, second, caption,
                       Render(SkewHead(tag, first, second)) + (text + caption + (" " + word))) == Some([(key, Inf)])
  {
    SkewHeadWellFormed(tag, first, second);
    SkipRendered(SkewHead(tag, first, second), text + caption + (" " + word), true);
    InfAfterCaption(text, caption, word);
    SkewTailInfinite(" ", word);
  }

  /** When the first rule matches, its writes are taken. */
  lemma FirstRuleWins(rules: seq<Rule>, line: string)
    requires |rules| > 0 && RuleWrites(rules[0], line).Some?
    ensures FirstRuleWrites(rules, line) == RuleWrites(rules[0], line).value
  {
  }

  /** The first pattern reads a rendered `Num executions` line; it is tried
      before every other pattern. */
  lemma ProgramExecutionsLine(n: nat)
    ensures LineWrites(Render(CountHead(ProgTag, "Num executions:")) + NatToString(n))
         == [("prog_num_exec", Int(n))]
  {
    var line := Render(CountHead(ProgTag, "Num executions:")) + NatToString(n);
    CountLineRoundTrip("prog_num_exec", ProgTag, "Num executions:", n);
    assert Rules[0] == Rule(Count(ProgTag, "Num executions:"), "prog_num_exec", "");
    FirstRuleWins(Rules, line);
  }

  /* ---------------- the section state machine ---------------- */

  /** `^\[([^\]]+)\]\s+Summary$`: the section title of a marker line. */
  function SectionName(line: string): (r: Option<string>)
    ensures r.Some? ==> |r.value| > 0 && ']' !in r.value
    ensures r.Some? ==> HasPrefix(line, "[" + r.value + "]")
  {
    if |line| == 0 || line[0] != '[' then None
    else
      var e := CloseBracket(line[1..]);
      if e == 0 || e == |line| - 1 then None
      else
        var rest := line[e + 2..];
        if |rest| > 0 && IsSpace(rest[0]) && SkipSpaces(rest) == "Summary" then
          assert line[..|"[" + line[1..e + 1] + "]"|] == "[" + line[1..e + 1] + "]";
          Some(line[1..e + 1])
        else None
  }

  /** Index of the first `]` in `s` (|s| when there is none). */
  function CloseBracket(s: string): (n: nat)
    ensures n <= |s| && ']' !in s[..n]
    ensures n < |s| ==> s[n] == ']'
  {
    if |s| == 0 || s[0] == ']' then 0
    else
      var n := 1 + CloseBracket(s[1..]);
      assert s[..n] == [s[0]] + s[1..][..n - 1];
      n
  }

  /** The key prefix a section title selects; unknown titles select none. */
  function SectionPrefix(name: string): Option<string> {
    if name in SectionMap then Some(SectionMap[name]) else None
  }

  /** Writes every (suffix, value) pair under `prefix_suffix`, in order. */
  function PutAll(props: Props, prefix: string, writes: seq<(string, Value)>): (r: Props)
    ensures forall k :: !HasPrefix(k, prefix + "_") ==> (k in r <==> k in props)
    ensures forall k :: !HasPrefix(k, prefix + "_") && k in props ==> r[k] == props[k]
    ensures forall k :: k in props ==> k in r
    ensures forall i :: 0 <= i < |writes| ==> prefix + "_" + writes[i].0 in r
    decreases |writes|
  {
    if |writes| == 0 then props
    else
      var key := prefix + "_" + writes[0].0;
      assert key[..|prefix + "_"|] == prefix + "_";
      PutAll(props[key := writes[0].1], prefix, writes[1..])
  }

  /** One line of input: the new cursor and record. */
  function Step(cur: Option<string>, props: Props, raw: string): (Option<string>, Props) {
    var line := Strip(raw);
    if line == "" then (cur, props)
    else match SectionName(line)
      case Some(name) => (SectionPrefix(name), props)
      case None =>
        match cur
        case None => (cur, props)
        case Some(prefix) => (cur, PutAll(props, prefix, LineWrites(line)))
  }

  function Run(cur: Option<string>, props: Props, lines: seq<string>): Props
    decreases |lines|
  {
    if |lines| == 0 then props
    else
      var (cur', props') := Step(cur, props, lines[0]);
      Run(cur', props', lines[1..])
  }

  /** `parse_datalog_summaries(content, props)`: no section is open at the
      start. */
  function ParseDatalogSummaries(content: string, props: Props): Props {
    Run(None, props, SplitLines(content))
  }

  /* ---------------- properties of the state machine ---------------- */

  predicate ValidCursor(cur: Option<string>) {
    cur.Some? ==> exists name :: name in SectionMap && SectionMap[name] == cur.value
  }

  ghost predicate KeepsOtherKeys(before: Props, after: Props) {
    forall k :: !IsSectionKey(k) ==> (k in after <==> k in before) && (k in before ==> after[k] == before[k])
  }

  /** A key whose first letter starts none of the prefixes is not a
      section key. */
  lemma UnprefixedKey(k: string)
    requires |k| > 0 && k[0] != 's' && k[0] != 'a' && k[0] != 'f'
    ensures !IsSectionKey(k)
  {
    forall name | name in SectionMap
      ensures !HasPrefix(k, SectionMap[name] + "_")
    {
      assert name == "Successor generator" || name == "Axiom evaluator" || name == "FFHeuristic";
      assert (SectionMap[name] + "_")[0] == SectionMap[name][0];
    }
  }

  /** Writing under a mapped prefix touches section keys only. */
  lemma PutAllKeepsOtherKeys(props: Props, prefix: string, writes: seq<(string, Value)>)
    requires ValidCursor(Some(prefix))
    ensures KeepsOtherKeys(props, PutAll(props, prefix, writes))
  {
    var name :| name in SectionMap && SectionMap[name] == prefix;
    forall k | HasPrefix(k, prefix + "_")
      ensures IsSectionKey(k)
    {
      assert HasPrefix(k, SectionMap[name] + "_");
    }
  }

  lemma StepKeepsOtherKeys(cur: Option<string>, props: Props, raw: string)
    requires ValidCursor(cur)
    ensures ValidCursor(Step(cur, props, raw).0)
    ensures KeepsOtherKeys(props, Step(cur, props, raw).1)
  {
    var line := Strip(raw);
    if line != "" {
      match SectionName(line)
      case Some(name) =>
        if name in SectionMap {
          assert SectionMap[name] == SectionPrefix(name).value;
        }
      case None =>
        if cur.Some? {
          PutAllKeepsOtherKeys(props, cur.value, LineWrites(line));
        }
    }
  }

  /** Keys outside the three section namespaces are never touched. */
  lemma {:induction false} RunKeepsOtherKeys(cur: Option<string>, props: Props, lines: seq<string>)
    requires ValidCursor(cur)
    ensures KeepsOtherKeys(props, Run(cur, props, lines))
    decreases |lines|
  {
    if |lines| > 0 {
      var (cur', props') := Step(cur, props, lines[0]);
      StepKeepsOtherKeys(cur, props, lines[0]);
      RunKeepsOtherKeys(cur', props', lines[1..]);
    }
  }

  lemma ParseKeepsOtherKeys(content: string, props: Props)
    ensures KeepsOtherKeys(props, ParseDatalogSummaries(content, props))
  {
    RunKeepsOtherKeys(None, props, SplitLines(content));
  }

  /** While no known section has been opened, nothing is written. */
  lemma {:induction false} NoKnownSectionNoWrites(lines: seq<string>, props: Props)
    requires forall i :: 0 <= i < |lines| ==>
               SectionName(Strip(lines[i])).None? || SectionPrefix(SectionName(Strip(lines[i])).value).None?
    ensures Run(None, props, lines) == props
    decreases |lines|
  {
    if |lines| > 0 {
      var (cur', props') := Step(None, props, lines[0]);
      assert cur' == None && props' == props;
      assert forall i :: 0 <= i < |lines[1..]| ==> lines[1..][i] == lines[i + 1];
      NoKnownSectionNoWrites(lines[1..], props);
    }
  }

  lemma SectionNameOfMarker(name: string, ws: string)
    requires |name| > 0 && ']' !in name
    requires |ws| > 0 && forall i :: 0 <= i < |ws| ==> IsSpace(ws[i])
    ensures SectionName("[" + name + "]" + ws + "Summary") == Some(name)
  {
    var line := "[" + name + "]" + ws + "Summary";
    var tail := ws + "Summary";
    assert line[1..] == name + "]" + tail;
    CloseBracketAfter(name, tail);
    assert CloseBracket(line[1..]) == |name|;
    assert line[1..|name| + 1] == name;
    assert line[|name| + 2..] == tail;
    SkipSpacesPrefix(ws, "Summary");
    assert SkipSpaces(line[|name| + 2..]) == "Summary";
  }

  lemma {:induction false} CloseBracketAfter(name: string, rest: string)
    requires ']' !in name
    ensures CloseBracket(name + "]" + rest) == |name|
    decreases |name|
  {
    if |name| > 0 {
      assert (name + "]" + rest)[1..] == name[1..] + "]" + rest;
      CloseBracketAfter(name[1..], rest);
    } else {
      assert (name + "]" + rest)[0] == ']';
    }
  }

  /** A marker line, stripped, selects the section its title maps to:
      a known title opens its namespace, an unknown one closes the current
      section so that nothing is written until the next known marker. */
  lemma MarkerSetsCursor(cur: Option<string>, props: Props, name: string)
    requires |name| > 0 && ']' !in name
    ensures Step(cur, props, "[" + name + "] Summary") == (SectionPrefix(name), props)
  {
    var line := "[" + name + "] Summary";
    assert line == "[" + name + "]" + " " + "Summary";
    assert line[0] == '[' && line[|line| - 1] == 'y';
    assert Strip(line) == line;
    SectionNameOfMarker(name, " ");
  }
}
