/** The property record the ground-task log parser produces
    (`GroundTaskParser`): four grounding counts and the grounding time,
    each taken from its first occurrence in the log, followed by the one
    derived function, which adds a constant attribute. */
module GroundTaskParser {
  import opened Wrappers
  import opened Strings
  import opened LogPatterns

  const FluentText := "Num fluent atoms: "
  const DerivedText := "Num derived atoms: "
  const ActionsText := "Num ground actions: "
  const AxiomsText := "Num ground axioms: "
  const TimeText := "Total task grounding time: "
  const MsText := " ms"

  const TimeToks: seq<Tok> := [Lit(TimeText), Capture, Lit(MsText)]

  /** The patterns in registration order; only the grounding time needs a
      unit after its number. */
  const GroundPatterns: seq<Pattern> := [
    IntPattern("num_fluent_atoms", [Lit(FluentText), Capture]),
    IntPattern("num_derived_atoms", [Lit(DerivedText), Capture]),
    IntPattern("num_ground_actions", [Lit(ActionsText), Capture]),
    IntPattern("num_ground_axioms", [Lit(AxiomsText), Capture]),
    IntPattern("total_task_grounding_time", TimeToks)
  ]

  /** `add_dummy_attribute`: sets the attribute to 1 whatever the log
      says. */
  function AddDummyAttribute(content: string, props: Props): (r: Props)
    ensures "dummy_attribute" in r && r["dummy_attribute"] == Int(1)
    ensures forall k :: k != "dummy_attribute" ==> (k in r <==> k in props) && (k in props ==> r[k] == props[k])
  {
    props["dummy_attribute" := Int(1)]
  }

  /** The derived functions in registration order: just the one. */
  function Derive(content: string, props: Props): (r: Props)
    ensures r == AddDummyAttribute(content, props)
  {
    AddDummyAttribute(content, props)
  }

  /** The parser on one log, given the record the run already has. */
  function ParseGroundTask(start: Props, content: string): Props {
    Derive(content, ApplyPatterns(start, GroundPatterns, content))
  }

  lemma GroundKeysDistinct()
    ensures DistinctKeys(GroundPatterns)
  {
  }

  /** Every pattern is an integer pattern, on a key other than the dummy
      attribute. */
  lemma GroundPatternsAreInts()
    ensures forall i :: 0 <= i < |GroundPatterns| ==>
              GroundPatterns[i].IntPattern? && GroundPatterns[i].key != "dummy_attribute"
  {
  }

  /** The keys of the five patterns. */
  const GroundKeys: set<string> :=
    {"num_fluent_atoms", "num_derived_atoms", "num_ground_actions", "num_ground_axioms", "total_task_grounding_time"}

  lemma GroundKeysOfPatterns()
    ensures forall k :: IsKeyOf(GroundPatterns, k) <==> k in GroundKeys
  {
    assert GroundPatterns[0].key == "num_fluent_atoms" && GroundPatterns[1].key == "num_derived_atoms";
    assert GroundPatterns[2].key == "num_ground_actions" && GroundPatterns[3].key == "num_ground_axioms";
    assert GroundPatterns[4].key == "total_task_grounding_time";
  }

  /** The parsed record: each count's key is present exactly when it was
      already there or its pattern occurs, and then holds the captured
      integer if the pattern occurs; the dummy attribute is always 1;
      every other key is left as it was. */
  lemma ParseRecord(start: Props, content: string)
    ensures forall i :: 0 <= i < |GroundPatterns| ==>
              (GroundPatterns[i].key in ParseGroundTask(start, content) <==>
               GroundPatterns[i].key in start || Search(GroundPatterns[i].toks, content).Some?)
    ensures forall i :: 0 <= i < |GroundPatterns| && Search(GroundPatterns[i].toks, content).Some? ==>
              ParseGroundTask(start, content)[GroundPatterns[i].key] == Int(Search(GroundPatterns[i].toks, content).value)
    ensures ParseGroundTask(start, content)["dummy_attribute"] == Int(1)
    ensures forall k :: k != "dummy_attribute" && k !in GroundKeys ==>
              (k in ParseGroundTask(start, content) <==> k in start) &&
              (k in start ==> ParseGroundTask(start, content)[k] == start[k])
  {
    GroundKeysDistinct();
    GroundPatternsAreInts();
    GroundKeysOfPatterns();
    ApplyPatternsFill(start, GroundPatterns, content);
  }

  /** After the grounding-time literal and its number, the pattern matches
      exactly when the unit ` ms` follows. */
  lemma {:induction false} TimeNeedsUnit(n: nat, rest: string)
    requires |rest| > 0 ==> !IsDigit(rest[0])
    ensures MatchToks(TimeToks, TimeText + NatToString(n) + rest).Some? <==> HasPrefix(rest, MsText)
    ensures HasPrefix(rest, MsText) ==> MatchToks(TimeToks, TimeText + NatToString(n) + rest) == Some(Some(n))
  {
    var d := NatToString(n);
    var s := TimeText + d + rest;
    assert s[..|TimeText|] == TimeText;
    assert s[|TimeText|..] == d + rest;
    DigitRunOfNumeral(d, rest);
    assert (d + rest)[..|d|] == d && (d + rest)[|d|..] == rest;
    NatToStringRoundTrip(n);
    assert TimeToks[1..] == [Capture, Lit(MsText)];
    assert [Capture, Lit(MsText)][1..] == [Lit(MsText)];
    assert [Lit(MsText)][1..] == [];
    assert MatchToks([Lit(MsText)], rest).Some? <==> HasPrefix(rest, MsText);
    assert MatchToks(TimeToks, s) == MatchToks([Capture, Lit(MsText)], d + rest);
  }

  /* ---------------- the log shown in the parser's documentation ---------------- */

  /** One count line of the log. */
  function Line(lit: string, n: nat): string {
    lit + NatToString(n) + "\n"
  }

  /** The grounding-time line, with its unit. */
  function TimeLine(n: nat): string {
    TimeText + NatToString(n) + MsText + "\n"
  }

  /** A log in the documented layout: the five lines in order. */
  function GroundLog(fluent: nat, derived: nat, actions: nat, axioms: nat, time: nat): string {
    Line(FluentText, fluent) + Line(DerivedText, derived) + Line(ActionsText, actions)
    + Line(AxiomsText, axioms) + TimeLine(time)
  }

  /** A character that is neither a digit nor a newline and is missing
      from the literal is missing from the whole line. */
  lemma LineLacks(lit: string, n: nat, c: char)
    requires c !in lit && !IsDigit(c) && c != '\n'
    ensures c !in Line(lit, n)
  {
    var d := NatToString(n);
    assert forall i :: 0 <= i < |d| ==> d[i] != c;
  }

  /** A pattern that starts with a literal and matches at the start of
      `s` is found there, provided one character of the literal (the one
      at offset `m`) occurs neither in `pre` nor earlier in the literal. */
  lemma SearchFindsAfter(lit: string, m: nat, rest: seq<Tok>, pre: string, s: string)
    requires m < |lit| && lit[m] !in pre && lit[m] !in lit[..m]
    requires |lit| <= |s| && s[..|lit|] == lit
    requires MatchToks([Lit(lit)] + rest, s).Some?
    ensures Search([Lit(lit)] + rest, pre + s) == MatchToks([Lit(lit)] + rest, s).value
  {
    assert s[..m] == lit[..m];
    NoMatchBefore(lit, m, rest, pre, s);
    SearchFindsAtPrefixEnd([Lit(lit)] + rest, pre, s);
  }

  /** A count line followed by more log captures its number. */
  lemma LineMatches(lit: string, n: nat, more: string)
    ensures MatchToks([Lit(lit)] + [Capture], Line(lit, n) + more) == Some(Some(n))
    ensures |lit| <= |Line(lit, n) + more| && (Line(lit, n) + more)[..|lit|] == lit
  {
    assert Line(lit, n) + more == lit + NatToString(n) + ("\n" + more);
    assert [Lit(lit)] + [Capture] == [Lit(lit), Capture];
    MatchLiteralThenNumber(lit, n, "\n" + more);
  }

  /** A count line is found after any text lacking the literal's
      character at offset `m`. */
  lemma LineFoundAfter(lit: string, m: nat, pre: string, n: nat, more: string)
    requires m < |lit| && lit[m] !in pre && lit[m] !in lit[..m]
    ensures Search([Lit(lit), Capture], pre + (Line(lit, n) + more)) == Some(n)
  {
    LineMatches(lit, n, more);
    SearchFindsAfter(lit, m, [Capture], pre, Line(lit, n) + more);
    assert [Lit(lit)] + [Capture] == [Lit(lit), Capture];
  }

  /** The time line captures its number. */
  lemma TimeLineMatches(n: nat)
    ensures MatchToks(TimeToks, TimeLine(n)) == Some(Some(n))
    ensures |TimeText| <= |TimeLine(n)| && TimeLine(n)[..|TimeText|] == TimeText
  {
    assert TimeLine(n) == TimeText + NatToString(n) + (MsText + "\n");
    assert (MsText + "\n")[..|MsText|] == MsText;
    TimeNeedsUnit(n, MsText + "\n");
  }

  /** The characters that tell each literal apart from the lines before
      it. */
  lemma DerivedDistinct()
    ensures DerivedText[4] == 'd' && 'd' !in FluentText && 'd' !in DerivedText[..4]
  {
  }

  lemma ActionsDistinct()
    ensures ActionsText[4] == 'g' && 'g' !in FluentText && 'g' !in DerivedText && 'g' !in ActionsText[..4]
  {
  }

  lemma AxiomsDistinct()
    ensures AxiomsText[12] == 'x' && 'x' !in FluentText && 'x' !in DerivedText && 'x' !in ActionsText
    ensures 'x' !in AxiomsText[..12]
  {
  }

  lemma TimeDistinct()
    ensures TimeText[0] == 'T' && 'T' !in FluentText && 'T' !in DerivedText && 'T' !in ActionsText
    ensures 'T' !in AxiomsText
  {
  }

  lemma FluentFound(a: nat, b: nat, c: nat, d: nat, e: nat)
    ensures Search([Lit(FluentText), Capture], GroundLog(a, b, c, d, e)) == Some(a)
  {
    var more := Line(DerivedText, b) + Line(ActionsText, c) + Line(AxiomsText, d) + TimeLine(e);
    assert GroundLog(a, b, c, d, e) == [] + (Line(FluentText, a) + more);
    LineFoundAfter(FluentText, 0, [], a, more);
  }

  lemma DerivedFound(a: nat, b: nat, c: nat, d: nat, e: nat)
    ensures Search([Lit(DerivedText), Capture], GroundLog(a, b, c, d, e)) == Some(b)
  {
    var pre := Line(FluentText, a);
    var more := Line(ActionsText, c) + Line(AxiomsText, d) + TimeLine(e);
    assert GroundLog(a, b, c, d, e) == pre + (Line(DerivedText, b) + more);
    DerivedDistinct();
    LineLacks(FluentText, a, 'd');
    LineFoundAfter(DerivedText, 4, pre, b, more);
  }

  lemma ActionsFound(a: nat, b: nat, c: nat, d: nat, e: nat)
    ensures Search([Lit(ActionsText), Capture], GroundLog(a, b, c, d, e)) == Some(c)
  {
    var pre := Line(FluentText, a) + Line(DerivedText, b);
    var more := Line(AxiomsText, d) + TimeLine(e);
    assert GroundLog(a, b, c, d, e) == pre + (Line(ActionsText, c) + more);
    ActionsDistinct();
    LineLacks(FluentText, a, 'g');
    LineLacks(DerivedText, b, 'g');
    LineFoundAfter(ActionsText, 4, pre, c, more);
  }

  lemma AxiomsFound(a: nat, b: nat, c: nat, d: nat, e: nat)
    ensures Search([Lit(AxiomsText), Capture], GroundLog(a, b, c, d, e)) == Some(d)
  {
    var pre := Line(FluentText, a) + Line(DerivedText, b) + Line(ActionsText, c);
    assert GroundLog(a, b, c, d, e) == pre + (Line(AxiomsText, d) + TimeLine(e));
    AxiomsDistinct();
    LineLacks(FluentText, a, 'x');
    LineLacks(DerivedText, b, 'x');
    LineLacks(ActionsText, c, 'x');
    LineFoundAfter(AxiomsText, 12, pre, d, TimeLine(e));
  }

  lemma TimeFound(a: nat, b: nat, c: nat, d: nat, e: nat)
    ensures Search(TimeToks, GroundLog(a, b, c, d, e)) == Some(e)
  {
    var pre := Line(FluentText, a) + Line(DerivedText, b) + Line(ActionsText, c) + Line(AxiomsText, d);
    TimeDistinct();
    LineLacks(FluentText, a, 'T');
    LineLacks(DerivedText, b, 'T');
    LineLacks(ActionsText, c, 'T');
    LineLacks(AxiomsText, d, 'T');
    TimeLineMatches(e);
    assert TimeToks == [Lit(TimeText)] + [Capture, Lit(MsText)];
    SearchFindsAfter(TimeText, 0, [Capture, Lit(MsText)], pre, TimeLine(e));
  }

  /** Whatever the log, when the five patterns capture these numbers the
      record is exactly them plus the dummy attribute. */
  lemma RecordOfCaptures(start: Props, content: string, a: nat, b: nat, c: nat, d: nat, e: nat)
    requires Search([Lit(FluentText), Capture], content) == Some(a)
    requires Search([Lit(DerivedText), Capture], content) == Some(b)
    requires Search([Lit(ActionsText), Capture], content) == Some(c)
    requires Search([Lit(AxiomsText), Capture], content) == Some(d)
    requires Search(TimeToks, content) == Some(e)
    ensures ParseGroundTask(start, content) == start + map[
      "num_fluent_atoms" := Int(a), "num_derived_atoms" := Int(b),
      "num_ground_actions" := Int(c), "num_ground_axioms" := Int(d),
      "total_task_grounding_time" := Int(e), "dummy_attribute" := Int(1)]
  {
    FluentRecorded(start, content, a);
    DerivedRecorded(start, content, b);
    ActionsRecorded(start, content, c);
    AxiomsRecorded(start, content, d);
    TimeRecorded(start, content, e);
    RecordOfKeys(start, content, a, b, c, d, e);
  }

  /** A record holding the five counts holds nothing else but the dummy
      attribute. */
  lemma RecordOfKeys(start: Props, content: string, a: nat, b: nat, c: nat, d: nat, e: nat)
    requires "num_fluent_atoms" in ParseGroundTask(start, content) && ParseGroundTask(start, content)["num_fluent_atoms"] == Int(a)
    requires "num_derived_atoms" in ParseGroundTask(start, content) && ParseGroundTask(start, content)["num_derived_atoms"] == Int(b)
    requires "num_ground_actions" in ParseGroundTask(start, content) && ParseGroundTask(start, content)["num_ground_actions"] == Int(c)
    requires "num_ground_axioms" in ParseGroundTask(start, content) && ParseGroundTask(start, content)["num_ground_axioms"] == Int(d)
    requires "total_task_grounding_time" in ParseGroundTask(start, content) && ParseGroundTask(start, content)["total_task_grounding_time"] == Int(e)
    ensures ParseGroundTask(start, content) == start + map[
      "num_fluent_atoms" := Int(a), "num_derived_atoms" := Int(b),
      "num_ground_actions" := Int(c), "num_ground_axioms" := Int(d),
      "total_task_grounding_time" := Int(e), "dummy_attribute" := Int(1)]
  {
    RecordKeys(start, content);
    DummyRecorded(start, content);
  }

  lemma FluentRecorded(start: Props, content: string, v: nat)
    requires Search([Lit(FluentText), Capture], content) == Some(v)
    ensures "num_fluent_atoms" in ParseGroundTask(start, content) && ParseGroundTask(start, content)["num_fluent_atoms"] == Int(v)
  {
    KeyRecorded(start, content, 0, "num_fluent_atoms", [Lit(FluentText), Capture], v);
  }

  lemma DerivedRecorded(start: Props, content: string, v: nat)
    requires Search([Lit(DerivedText), Capture], content) == Some(v)
    ensures "num_derived_atoms" in ParseGroundTask(start, content) && ParseGroundTask(start, content)["num_derived_atoms"] == Int(v)
  {
    KeyRecorded(start, content, 1, "num_derived_atoms", [Lit(DerivedText), Capture], v);
  }

  lemma ActionsRecorded(start: Props, content: string, v: nat)
    requires Search([Lit(ActionsText), Capture], content) == Some(v)
    ensures "num_ground_actions" in ParseGroundTask(start, content) && ParseGroundTask(start, content)["num_ground_actions"] == Int(v)
  {
    KeyRecorded(start, content, 2, "num_ground_actions", [Lit(ActionsText), Capture], v);
  }

  lemma AxiomsRecorded(start: Props, content: string, v: nat)
    requires Search([Lit(AxiomsText), Capture], content) == Some(v)
    ensures "num_ground_axioms" in ParseGroundTask(start, content) && ParseGroundTask(start, content)["num_ground_axioms"] == Int(v)
  {
    KeyRecorded(start, content, 3, "num_ground_axioms", [Lit(AxiomsText), Capture], v);
  }

  lemma TimeRecorded(start: Props, content: string, v: nat)
    requires Search(TimeToks, content) == Some(v)
    ensures "total_task_grounding_time" in ParseGroundTask(start, content) && ParseGroundTask(start, content)["total_task_grounding_time"] == Int(v)
  {
    KeyRecorded(start, content, 4, "total_task_grounding_time", TimeToks, v);
  }

  /** One pattern's key, as that pattern captured it. */
  lemma KeyRecorded(start: Props, content: string, i: nat, key: string, toks: seq<Tok>, v: nat)
    requires i < |GroundPatterns| && GroundPatterns[i] == IntPattern(key, toks)
    requires Search(toks, content) == Some(v)
    ensures key in ParseGroundTask(start, content) && ParseGroundTask(start, content)[key] == Int(v)
  {
    ParseRecord(start, content);
  }

  lemma DummyRecorded(start: Props, content: string)
    ensures "dummy_attribute" in ParseGroundTask(start, content)
    ensures ParseGroundTask(start, content)["dummy_attribute"] == Int(1)
  {
  }

  /** A parse adds no key other than the five counts and the dummy
      attribute, and changes no other key. */
  lemma RecordKeys(start: Props, content: string)
    ensures forall k :: k !in GroundKeys && k != "dummy_attribute" ==>
              (k in ParseGroundTask(start, content) <==> k in start) &&
              (k in start ==> ParseGroundTask(start, content)[k] == start[k])
  {
    ParseRecord(start, content);
  }

  /** A log in the documented layout parses to exactly its five numbers
      and the dummy attribute; the documented example gives 90901, 0,
      180600, 0 and 5049. */
  lemma DocumentedLog(start: Props, a: nat, b: nat, c: nat, d: nat, e: nat)
    ensures ParseGroundTask(start, GroundLog(a, b, c, d, e)) == start + map[
      "num_fluent_atoms" := Int(a), "num_derived_atoms" := Int(b),
      "num_ground_actions" := Int(c), "num_ground_axioms" := Int(d),
      "total_task_grounding_time" := Int(e), "dummy_attribute" := Int(1)]
  {
    FluentFound(a, b, c, d, e);
    DerivedFound(a, b, c, d, e);
    ActionsFound(a, b, c, d, e);
    AxiomsFound(a, b, c, d, e);
    TimeFound(a, b, c, d, e);
    RecordOfCaptures(start, GroundLog(a, b, c, d, e), a, b, c, d, e);
  }
}
