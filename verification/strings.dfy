/** Decimal numerals and the ASCII character classes used by the text
    formats of the model (log lines, generated predicate names, graph
    dumps). */
module Strings {

  predicate IsDigit(c: char) {
    '0' <= c <= '9'
  }

  /** The characters Python's `\s` and `str.strip` treat as whitespace,
      restricted to ASCII. */
  predicate IsSpace(c: char) {
    c == ' ' || c == '\t' || c == '\n' || c == '\r' || c == '\U{0B}' || c == '\U{0C}'
  }

  predicate AllDigits(s: string) {
    forall i :: 0 <= i < |s| ==> IsDigit(s[i])
  }

  function DigitValue(c: char): nat
    requires IsDigit(c)
  {
    (c - '0') as nat
  }

  function DigitChar(d: nat): (c: char)
    requires d < 10
    ensures IsDigit(c) && DigitValue(c) == d
  {
    ('0' as int + d) as char
  }

  /** The value of a run of decimal digits, most significant first
      (Python's `int(...)` on a `\d+` group). */
  function DigitsValue(s: string): nat
    requires AllDigits(s)
  {
    if |s| == 0 then 0 else DigitsValue(s[..|s| - 1]) * 10 + DigitValue(s[|s| - 1])
  }

  /** The decimal numeral of `n` without leading zeros (`std::to_string`,
      `str`, `fmt`'s `{}` on an unsigned integer). */
  function NatToString(n: nat): (s: string)
    ensures |s| > 0 && AllDigits(s)
    ensures |s| > 1 ==> s[0] != '0'
    decreases n
  {
    if n < 10 then [DigitChar(n)] else NatToString(n / 10) + [DigitChar(n % 10)]
  }

  /** Reading back a numeral gives the number it was written from. */
  lemma {:induction false} NatToStringRoundTrip(n: nat)
    ensures DigitsValue(NatToString(n)) == n
    decreases n
  {
    if n >= 10 {
      var s := NatToString(n);
      var p := NatToString(n / 10);
      assert s[..|s| - 1] == p;
      NatToStringRoundTrip(n / 10);
    }
  }

  /** Different numbers are written differently. */
  lemma NatToStringInjective(m: nat, n: nat)
    requires NatToString(m) == NatToString(n)
    ensures m == n
  {
    NatToStringRoundTrip(m);
    NatToStringRoundTrip(n);
  }

  /** `s` starts with `p`. */
  predicate HasPrefix(s: string, p: string) {
    |p| <= |s| && s[..|p|] == p
  }

  /** The leading run of whitespace of `s` is dropped (`\s*` before a token
      that does not start with whitespace). */
  function SkipSpaces(s: string): (r: string)
    ensures |r| <= |s| && r == s[|s| - |r|..]
    ensures |r| > 0 ==> !IsSpace(r[0])
    ensures forall i :: 0 <= i < |s| - |r| ==> IsSpace(s[i])
  {
    if |s| > 0 && IsSpace(s[0]) then SkipSpaces(s[1..]) else s
  }

  /** Number of leading decimal digits of `s`. */
  function DigitRunLength(s: string): (n: nat)
    ensures n <= |s| && AllDigits(s[..n])
    ensures n < |s| ==> !IsDigit(s[n])
  {
    if |s| > 0 && IsDigit(s[0]) then
      var n := 1 + DigitRunLength(s[1..]);
      assert s[..n] == [s[0]] + s[1..][..n - 1];
      n
    else 0
  }

  /** Python's `str.strip()`: leading and trailing whitespace removed. */
  function Strip(s: string): (r: string)
    ensures |r| > 0 ==> !IsSpace(r[0]) && !IsSpace(r[|r| - 1])
    ensures forall i :: 0 <= i < |r| ==> r[i] in s
  {
    var t := SkipSpaces(s);
    StripEnd(t)
  }

  function StripEnd(s: string): (r: string)
    ensures |r| <= |s| && r == s[..|r|]
    ensures |r| > 0 ==> !IsSpace(r[|r| - 1])
    ensures |r| > 0 && |s| > 0 && !IsSpace(s[0]) ==> !IsSpace(r[0])
    ensures forall k :: |r| <= k < |s| ==> IsSpace(s[k])
  {
    if |s| > 0 && IsSpace(s[|s| - 1]) then StripEnd(s[..|s| - 1]) else s
  }

  /** `Strip` keeps one slice of its input: only whitespace lies before
      and after the slice, and the slice neither starts nor ends with
      whitespace. */
  lemma StripIsTrimmedSlice(s: string)
    ensures StripStart(s) + |Strip(s)| <= |s|
    ensures Strip(s) == s[StripStart(s)..StripStart(s) + |Strip(s)|]
    ensures forall k :: 0 <= k < StripStart(s) ==> IsSpace(s[k])
    ensures forall k :: StripStart(s) + |Strip(s)| <= k < |s| ==> IsSpace(s[k])
    ensures |Strip(s)| > 0 ==> !IsSpace(Strip(s)[0]) && !IsSpace(Strip(s)[|Strip(s)| - 1])
  {
    StripSlice(s);
    StripTrailing(s);
  }

  lemma StripSlice(s: string)
    ensures StripStart(s) + |Strip(s)| <= |s|
    ensures Strip(s) == s[StripStart(s)..StripStart(s) + |Strip(s)|]
  {
    var t := SkipSpaces(s);
    var r := StripEnd(t);
    assert Strip(s) == r;
    SliceOfSuffix(s, t, StripStart(s), r);
  }

  lemma StripTrailing(s: string)
    ensures forall k :: StripStart(s) + |Strip(s)| <= k < |s| ==> IsSpace(s[k])
  {
    var t := SkipSpaces(s);
    SpacesAfterSuffix(s, t, StripStart(s), |StripEnd(t)|);
  }

  /** A prefix of a suffix is a slice. */
  lemma SliceOfSuffix(s: string, t: string, i: nat, r: string)
    requires i <= |s| && t == s[i..]
    requires |r| <= |t| && r == t[..|r|]
    ensures i + |r| <= |s| && r == s[i..i + |r|]
  {
  }

  /** Whitespace at the end of a suffix is whitespace at the end of the whole. */
  lemma SpacesAfterSuffix(s: string, t: string, i: nat, m: nat)
    requires i <= |s| && t == s[i..]
    requires forall k :: m <= k < |t| ==> IsSpace(t[k])
    ensures forall k :: i + m <= k < |s| ==> IsSpace(s[k])
  {
    forall k | i + m <= k < |s|
      ensures IsSpace(s[k])
    {
      assert s[k] == t[k - i];
    }
  }

  /** Where the slice `Strip` keeps begins: after the leading whitespace. */
  function StripStart(s: string): nat {
    |s| - |SkipSpaces(s)|
  }

  /** `content.splitlines()` for '\n'-separated text: the pieces between
      newline characters, without a trailing empty piece. */
  function SplitLines(s: string): (lines: seq<string>)
    ensures forall k :: 0 <= k < |lines| ==> '\n' !in lines[k]
    decreases |s|
  {
    if |s| == 0 then []
    else
      var n := NewlineIndex(s);
      NewlineIndexFirst(s);
      if n == |s| then [s] else [s[..n]] + SplitLines(s[n + 1..])
  }

  /** Joining the lines with newlines gives the text back, less the
      final newline when the text ends with one. */
  lemma {:induction false} SplitLinesJoin(s: string)
    ensures if |s| > 0 && s[|s| - 1] == '\n' then Join(SplitLines(s), "\n") + "\n" == s
            else Join(SplitLines(s), "\n") == s
    decreases |s|
  {
    if |s| > 0 {
      var n := NewlineIndex(s);
      NewlineIndexFirst(s);
      if n == |s| {
        assert s[..n] == s;
        assert s[|s| - 1] in s[..n];
      } else {
        var t := s[n + 1..];
        assert s == s[..n] + "\n" + t;
        if |t| > 0 {
          SplitLinesJoin(t);
          JoinCons(s[..n], SplitLines(t), "\n");
          JoinLineStep(s, s[..n], t, Join(SplitLines(t), "\n"));
        }
      }
    }
  }

  lemma JoinCons(a: string, rest: seq<string>, sep: string)
    requires |rest| > 0
    ensures Join([a] + rest, sep) == a + sep + Join(rest, sep)
  {
    assert ([a] + rest)[1..] == rest;
  }

  /** One line in front of text whose join law holds keeps the law. */
  lemma JoinLineStep(s: string, a: string, t: string, j: string)
    requires s == a + "\n" + t && |t| > 0
    requires if t[|t| - 1] == '\n' then j + "\n" == t else j == t
    ensures if s[|s| - 1] == '\n' then a + "\n" + j + "\n" == s else a + "\n" + j == s
  {
    assert s[|s| - 1] == t[|t| - 1];
  }

  /** The position of the first newline, or the length when there is none. */
  function NewlineIndex(s: string): (n: nat)
    ensures n <= |s|
  {
    if |s| == 0 then 0
    else if s[0] == '\n' then 0
    else 1 + NewlineIndex(s[1..])
  }

  /** `NewlineIndex` stops at the first newline: none before it, and a
      newline there unless it is the length. */
  lemma {:induction false} NewlineIndexFirst(s: string)
    ensures '\n' !in s[..NewlineIndex(s)]
    ensures NewlineIndex(s) < |s| ==> s[NewlineIndex(s)] == '\n'
    decreases |s|
  {
    if |s| > 0 && s[0] != '\n' {
      NewlineIndexFirst(s[1..]);
      var n := NewlineIndex(s);
      assert s[..n] == [s[0]] + s[1..][..n - 1];
    }
  }

  /** Joining with a separator, as `fmt::join` and `str.join` do. */
  function Join(parts: seq<string>, sep: string): string
  {
    if |parts| == 0 then ""
    else if |parts| == 1 then parts[0]
    else parts[0] + sep + Join(parts[1..], sep)
  }

  /** ASCII lower-casing, used for the case-insensitive patterns. */
  function Lower(c: char): char {
    if 'A' <= c <= 'Z' then (c as int + 32) as char else c
  }

  predicate EqualsIgnoreCase(a: string, b: string) {
    |a| == |b| && forall i :: 0 <= i < |a| ==> Lower(a[i]) == Lower(b[i])
  }

  /** `SkipSpaces` drops exactly a leading run of whitespace. */
  lemma {:induction false} SkipSpacesPrefix(ws: string, s: string)
    requires forall i :: 0 <= i < |ws| ==> IsSpace(ws[i])
    requires |s| > 0 ==> !IsSpace(s[0])
    ensures SkipSpaces(ws + s) == s
    decreases |ws|
  {
    if |ws| > 0 {
      assert (ws + s)[1..] == ws[1..] + s;
      SkipSpacesPrefix(ws[1..], s);
    } else {
      assert ws + s == s;
    }
  }

  /** Text with no whitespace at either end is left as it is by `Strip`. */
  lemma StripOfTrimmed(s: string)
    requires |s| > 0 && !IsSpace(s[0]) && !IsSpace(s[|s| - 1])
    ensures Strip(s) == s
  {
  }
}
