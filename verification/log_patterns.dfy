/** The record a log parser fills, and the whole-text search behind each
    registered pattern: a pattern registered for a key looks for its first
    occurrence anywhere in the log; when there is none, the key stays
    absent. Patterns are written as literal pieces and digit runs instead
    of regular expressions. */
module LogPatterns {
  import opened Wrappers
  import opened Strings

  /** A property value: Python `int`, `float` (exact here), `float("inf")`
      and `str`. */
  datatype Value = Int(i: int) | Real(r: real) | Inf | Str(s: string)

  type Props = map<string, Value>

  /** One piece of a search pattern: a literal, an uncaptured `\d+`, or the
      single captured `(\d+)`. */
  datatype Tok = Lit(s: string) | Digits | Capture

  /** Matches `toks` at the start of `s`. `None` when there is no match,
      otherwise the value of the captured digits (if the pattern has a
      capture). Digit runs are taken greedily, which is exact because no
      literal in the patterns starts with a digit. */
  function MatchToks(toks: seq<Tok>, s: string): (r: Option<Option<nat>>)
    decreases |toks|
  {
    if |toks| == 0 then Some(None)
    else match toks[0]
      case Lit(l) =>
        if |l| <= |s| && s[..|l|] == l then MatchToks(toks[1..], s[|l|..]) else None
      case Digits =>
        var n := DigitRunLength(s);
        if n == 0 then None else MatchToks(toks[1..], s[n..])
      case Capture =>
        var n := DigitRunLength(s);
        if n == 0 then None
        else if MatchToks(toks[1..], s[n..]).None? then None
        else Some(Some(DigitsValue(s[..n])))
  }

  /** The leftmost position of `text` from which `p` holds of the rest. */
  function FirstWhere(p: string -> bool, text: string): Option<nat>
    decreases |text|
  {
    if p(text) then Some(0)
    else if |text| == 0 then None
    else
      var r := FirstWhere(p, text[1..]);
      if r.Some? then Some(r.value + 1) else None
  }

  /** `FirstWhere` finds the leftmost position: `p` holds there and at no
      earlier position, and `None` means it holds nowhere. */
  lemma {:induction false} FirstWhereLeftmost(p: string -> bool, text: string)
    ensures FirstWhere(p, text).Some? ==> FirstWhere(p, text).value <= |text| && p(text[FirstWhere(p, text).value..])
    ensures FirstWhere(p, text).Some? ==> forall j :: 0 <= j < FirstWhere(p, text).value ==> !p(text[j..])
    ensures FirstWhere(p, text).None? ==> forall j :: 0 <= j <= |text| ==> !p(text[j..])
    decreases |text|
  {
    assert text[0..] == text;
    if !p(text) && |text| > 0 {
      FirstWhereLeftmost(p, text[1..]);
      assert forall j :: 1 <= j <= |text| ==> text[j..] == text[1..][j - 1..];
    }
  }

  /** Whether `toks` matches at the start of a text. */
  function Matches(toks: seq<Tok>): string -> bool {
    s => MatchToks(toks, s).Some?
  }

  /** The leftmost position of `text` at which `toks` matches. */
  function FirstMatchAt(toks: seq<Tok>, text: string): Option<nat> {
    FirstWhere(Matches(toks), text)
  }

  /** The capture of the first occurrence, or `None` when the pattern does
      not occur or has no capture. */
  function Search(toks: seq<Tok>, text: string): Option<nat> {
    FirstWhereLeftmost(Matches(toks), text);
    match FirstMatchAt(toks, text)
    case None => None
    case Some(i) => MatchToks(toks, text[i..]).value
  }

  /** A reported capture is the capture of a real occurrence. */
  lemma SearchOccurs(toks: seq<Tok>, text: string)
    ensures Search(toks, text).Some? ==>
              exists j :: 0 <= j <= |text| && MatchToks(toks, text[j..]) == Some(Search(toks, text))
  {
    FirstWhereLeftmost(Matches(toks), text);
  }

  /** `add_pattern(key, regex, type=int)`: the key receives the captured
      integer of the first occurrence; otherwise `props` is unchanged. */
  function AddIntPattern(props: Props, key: string, toks: seq<Tok>, text: string): (r: Props)
    ensures key in r <==> key in props || Search(toks, text).Some?
    ensures Search(toks, text).Some? ==> r[key] == Int(Search(toks, text).value)
    ensures forall k :: k in props && k != key ==> k in r && r[k] == props[k]
    ensures forall k :: k in r && k != key ==> k in props
  {
    match Search(toks, text)
    case Some(v) => props[key := Int(v)]
    case None => props
  }

  /** `add_pattern(key, "(literal)", type=str)`: the key receives the
      literal itself when it occurs in the text. */
  function AddStrPattern(props: Props, key: string, literal: string, text: string): (r: Props)
    ensures key in r <==> key in props || FirstMatchAt([Lit(literal)], text).Some?
    ensures FirstMatchAt([Lit(literal)], text).Some? ==> r[key] == Str(literal)
    ensures forall k :: k in props && k != key ==> k in r && r[k] == props[k]
    ensures forall k :: k in r && k != key ==> k in props
  {
    if FirstMatchAt([Lit(literal)], text).Some? then props[key := Str(literal)] else props
  }

  /** A registered pattern: an integer capture, or a literal recorded as a
      string when it occurs. */
  datatype Pattern = IntPattern(key: string, toks: seq<Tok>) | StrPattern(key: string, literal: string)

  /** What a pattern finds in the text, as the value it records. */
  function Found(p: Pattern, text: string): Option<Value> {
    match p
    case IntPattern(_, toks) => (match Search(toks, text) case Some(v) => Some(Int(v)) case None => None)
    case StrPattern(_, literal) => if FirstMatchAt([Lit(literal)], text).Some? then Some(Str(literal)) else None
  }

  function ApplyPattern(props: Props, p: Pattern, text: string): (r: Props)
    ensures p.key in r <==> p.key in props || Found(p, text).Some?
    ensures Found(p, text).Some? ==> r[p.key] == Found(p, text).value
    ensures forall k :: k != p.key ==> (k in r <==> k in props) && (k in props ==> r[k] == props[k])
  {
    match p
    case IntPattern(key, toks) => AddIntPattern(props, key, toks, text)
    case StrPattern(key, literal) => AddStrPattern(props, key, literal, text)
  }

  /** All patterns, applied in order. */
  function ApplyPatterns(props: Props, ps: seq<Pattern>, text: string): Props
    decreases |ps|
  {
    if |ps| == 0 then props
    else ApplyPattern(ApplyPatterns(props, ps[..|ps| - 1], text), ps[|ps| - 1], text)
  }

  predicate DistinctKeys(ps: seq<Pattern>) {
    forall i, j :: 0 <= i < j < |ps| ==> ps[i].key != ps[j].key
  }

  /** `k` is the key of one of the patterns. */
  predicate IsKeyOf(ps: seq<Pattern>, k: string) {
    exists i :: 0 <= i < |ps| && ps[i].key == k
  }

  /** The record holds none of the patterns' keys. */
  predicate KeysFree(props: Props, ps: seq<Pattern>) {
    forall k :: k in props ==> !IsKeyOf(ps, k)
  }

  /** Each pattern's key is present exactly when it was already there or
      the pattern occurs, and then holds what the pattern found or else
      what was there; every other key is left as it was. */
  lemma ApplyPatternsFill(start: Props, ps: seq<Pattern>, text: string)
    requires DistinctKeys(ps)
    ensures forall i :: 0 <= i < |ps| ==>
              (ps[i].key in ApplyPatterns(start, ps, text) <==> ps[i].key in start || Found(ps[i], text).Some?)
    ensures forall i :: 0 <= i < |ps| && Found(ps[i], text).Some? ==>
              ApplyPatterns(start, ps, text)[ps[i].key] == Found(ps[i], text).value
    ensures forall i :: 0 <= i < |ps| && Found(ps[i], text).None? && ps[i].key in start ==>
              ApplyPatterns(start, ps, text)[ps[i].key] == start[ps[i].key]
    ensures forall k :: !IsKeyOf(ps, k) ==>
              (k in ApplyPatterns(start, ps, text) <==> k in start) &&
              (k in start ==> ApplyPatterns(start, ps, text)[k] == start[k])
  {
    forall i | 0 <= i < |ps| {
      ApplyPatternsAt(start, ps, text, i);
    }
    forall k | !IsKeyOf(ps, k) {
      ApplyPatternsOther(start, ps, text, k);
    }
  }

  /** One pattern's key after all patterns: only that pattern wrote it. */
  lemma {:induction false} ApplyPatternsAt(start: Props, ps: seq<Pattern>, text: string, i: nat)
    requires DistinctKeys(ps) && i < |ps|
    ensures ps[i].key in ApplyPatterns(start, ps, text) <==> ps[i].key in start || Found(ps[i], text).Some?
    ensures Found(ps[i], text).Some? ==> ApplyPatterns(start, ps, text)[ps[i].key] == Found(ps[i], text).value
    ensures Found(ps[i], text).None? && ps[i].key in start ==>
              ApplyPatterns(start, ps, text)[ps[i].key] == start[ps[i].key]
    decreases |ps|
  {
    var init := ps[..|ps| - 1];
    assert forall j :: 0 <= j < |init| ==> init[j] == ps[j];
    if i == |ps| - 1 {
      assert !IsKeyOf(init, ps[i].key);
      ApplyPatternsOther(start, init, text, ps[i].key);
    } else {
      assert DistinctKeys(init);
      ApplyPatternsAt(start, init, text, i);
    }
  }

  /** A key no pattern writes keeps its place and value. */
  lemma {:induction false} ApplyPatternsOther(start: Props, ps: seq<Pattern>, text: string, k: string)
    requires !IsKeyOf(ps, k)
    ensures k in ApplyPatterns(start, ps, text) <==> k in start
    ensures k in start ==> ApplyPatterns(start, ps, text)[k] == start[k]
    decreases |ps|
  {
    if |ps| > 0 {
      var init := ps[..|ps| - 1];
      assert forall j :: 0 <= j < |init| ==> init[j] == ps[j];
      assert ps[|ps| - 1].key != k;
      ApplyPatternsOther(start, init, text, k);
    }
  }

  /** A literal followed by a numeral and by text that does not continue
      the digit run is matched by `literal (\d+)`, capturing that number. */
  lemma {:induction false} MatchLiteralThenNumber(l: string, n: nat, rest: string)
    requires |rest| > 0 ==> !IsDigit(rest[0])
    ensures MatchToks([Lit(l), Capture], l + NatToString(n) + rest) == Some(Some(n))
  {
    var s := l + NatToString(n) + rest;
    var d := NatToString(n);
    assert s[..|l|] == l;
    var t := s[|l|..];
    assert t == d + rest;
    DigitRunOfNumeral(d, rest);
    assert t[..|d|] == d;
    NatToStringRoundTrip(n);
    assert [Lit(l), Capture][1..] == [Capture];
    assert [Capture][1..] == [];
  }

  /** The digit run at the start of `d + rest` is exactly `d`. */
  lemma {:induction false} DigitRunOfNumeral(d: string, rest: string)
    requires AllDigits(d)
    requires |rest| > 0 ==> !IsDigit(rest[0])
    ensures DigitRunLength(d + rest) == |d|
    decreases |d|
  {
    if |d| > 0 {
      assert (d + rest)[1..] == d[1..] + rest;
      DigitRunOfNumeral(d[1..], rest);
    }
  }

  /** A literal whose character at offset `m` occurs neither in `pre` nor
      in the first `m` characters of `s` cannot match anywhere inside
      `pre + s` before `s` starts. */
  lemma {:induction false} NoMatchBefore(l: string, m: nat, rest: seq<Tok>, pre: string, s: string)
    requires m < |l| && l[m] !in pre && l[m] !in s[..if m < |s| then m else |s|]
    ensures forall j :: 0 <= j < |pre| ==> MatchToks([Lit(l)] + rest, (pre + s)[j..]).None?
  {
    forall j | 0 <= j < |pre|
      ensures MatchToks([Lit(l)] + rest, (pre + s)[j..]).None?
    {
      var t := (pre + s)[j..];
      if m < |t| {
        if j + m < |pre| {
          assert t[m] == pre[j + m];
        } else {
          var k := j + m - |pre|;
          assert t[m] == s[k];
          assert s[..if m < |s| then m else |s|][k] == s[k];
        }
        assert t[m] != l[m];
        assert |l| <= |t| ==> t[..|l|][m] == t[m];
      }
      assert ([Lit(l)] + rest)[0] == Lit(l);
    }
  }

  /** `p` holds at none of the first n positions. */
  predicate NoneBefore(p: string -> bool, text: string, n: nat)
    requires n <= |text|
  {
    forall j :: 0 <= j < n ==> !p(text[j..])
  }

  /** When `p` holds at none of the first n positions, the first position
      where it holds is the first one of the text from n on, shifted by n. */
  lemma FirstWhereSkips(p: string -> bool, text: string, n: nat)
    requires n <= |text| && NoneBefore(p, text, n)
    ensures FirstWhere(p, text).Some? <==> FirstWhere(p, text[n..]).Some?
    ensures FirstWhere(p, text[n..]).Some? ==> FirstWhere(p, text) == Some(n + FirstWhere(p, text[n..]).value)
  {
    var q := FirstWhere(p, text[n..]);
    if q.Some? {
      FirstWhereSkipsFound(p, text, n, q.value);
    } else {
      FirstWhereSkipsMissing(p, text, n);
    }
  }

  /** The case where `p` holds somewhere from n on. */
  lemma FirstWhereSkipsFound(p: string -> bool, text: string, n: nat, i: nat)
    requires n <= |text| && NoneBefore(p, text, n)
    requires FirstWhere(p, text[n..]) == Some(i)
    ensures FirstWhere(p, text) == Some(n + i)
  {
    FirstWhereLeftmost(p, text[n..]);
    DropDrop(text, n, i);
    NoneBeforeJoin(p, text, n, i);
    LeftmostUnique(p, text, FirstWhere(p, text), n + i);
  }

  /** Nothing before n, then nothing in the next i positions: nothing
      before n + i. */
  lemma NoneBeforeJoin(p: string -> bool, text: string, n: nat, i: nat)
    requires n + i <= |text| && NoneBefore(p, text, n) && NoneBefore(p, text[n..], i)
    ensures NoneBefore(p, text, n + i)
  {
    forall j | n <= j < n + i
      ensures !p(text[j..])
    {
      DropDrop(text, n, j - n);
    }
  }

  /** The case where `p` holds nowhere from n on. */
  lemma FirstWhereSkipsMissing(p: string -> bool, text: string, n: nat)
    requires n <= |text| && NoneBefore(p, text, n)
    requires FirstWhere(p, text[n..]).None?
    ensures FirstWhere(p, text).None?
  {
    FirstWhereLeftmost(p, text[n..]);
    forall j | 0 <= j <= |text|
      ensures !p(text[j..])
    {
      if n <= j {
        DropDrop(text, n, j - n);
      }
    }
    NowhereMissing(p, text);
  }

  /** A test that holds at no position is never found. */
  lemma NowhereMissing(p: string -> bool, text: string)
    requires forall j :: 0 <= j <= |text| ==> !p(text[j..])
    ensures FirstWhere(p, text).None?
  {
    FirstWhereLeftmost(p, text);
  }

  /** A position where `p` holds with no earlier one is where `FirstWhere`
      stops. */
  lemma LeftmostUnique(p: string -> bool, text: string, r: Option<nat>, k: nat)
    requires r == FirstWhere(p, text)
    requires k <= |text| && p(text[k..]) && NoneBefore(p, text, k)
    ensures r == Some(k)
  {
    FirstWhereLeftmost(p, text);
  }

  /** No match inside `pre`, as the search sees it. */
  lemma NoMatchInPrefix(toks: seq<Tok>, pre: string, s: string)
    requires forall j :: 0 <= j < |pre| ==> MatchToks(toks, (pre + s)[j..]).None?
    ensures NoneBefore(Matches(toks), pre + s, |pre|)
  {
  }

  /** When `p` holds nowhere inside `pre`, the first position where it
      holds in `pre + s` is the first one in `s`, shifted by `|pre|`. */
  lemma FirstWhereSkipsPrefix(p: string -> bool, pre: string, s: string)
    requires NoneBefore(p, pre + s, |pre|)
    ensures FirstWhere(p, pre + s).Some? <==> FirstWhere(p, s).Some?
    ensures FirstWhere(p, s).Some? ==> FirstWhere(p, pre + s) == Some(|pre| + FirstWhere(p, s).value)
  {
    DropAfterPrefix(pre, s, 0);
    FirstWhereSkips(p, pre + s, |pre|);
  }

  /** A match at the start of `s` is, seen from `pre + s`, a match at
      position `|pre|`. */
  lemma MatchAfterPrefix(toks: seq<Tok>, pre: string, s: string)
    requires MatchToks(toks, s).Some?
    ensures Matches(toks)((pre + s)[|pre|..])
  {
    DropAfterPrefix(pre, s, 0);
  }

  /** The first match of `pre + s` lies at `|pre|` when the search sees
      none inside `pre` and one right after it. */
  lemma FirstMatchAfterPrefix(toks: seq<Tok>, pre: string, s: string)
    requires NoneBefore(Matches(toks), pre + s, |pre|)
    requires Matches(toks)((pre + s)[|pre|..])
    ensures FirstMatchAt(toks, pre + s) == Some(|pre|)
  {
    LeftmostUnique(Matches(toks), pre + s, FirstWhere(Matches(toks), pre + s), |pre|);
  }

  /** When nothing matches inside `pre` and the pattern matches at the
      start of `s`, searching `pre + s` reports the capture at `s`. */
  lemma SearchFindsAtPrefixEnd(toks: seq<Tok>, pre: string, s: string)
    requires forall j :: 0 <= j < |pre| ==> MatchToks(toks, (pre + s)[j..]).None?
    requires MatchToks(toks, s).Some?
    ensures FirstMatchAt(toks, pre + s) == Some(|pre|)
    ensures Search(toks, pre + s) == MatchToks(toks, s).value
  {
    NoMatchInPrefix(toks, pre, s);
    MatchAfterPrefix(toks, pre, s);
    FirstMatchAfterPrefix(toks, pre, s);
    DropAfterPrefix(pre, s, 0);
  }

  /** Dropping twice drops the sum. */
  lemma DropDrop(text: string, n: nat, i: nat)
    requires n + i <= |text|
    ensures text[n..][i..] == text[n + i..]
  {
  }

  /** Dropping past a prefix drops from what follows it. */
  lemma DropAfterPrefix(pre: string, s: string, i: nat)
    requires i <= |s|
    ensures (pre + s)[|pre| + i..] == s[i..]
  {
  }
}
