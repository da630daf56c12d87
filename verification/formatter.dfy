/** The text forms of the grounder's assignments, consistency-graph
    vertices and edges, and of a whole static consistency graph in
    Graphviz syntax (`print` in the datalog formatter). */
module Formatter {
  import opened Wrappers
  import opened Strings

  datatype VertexAssignment = VertexAssignment(index: nat, obj: nat)
  datatype EdgeAssignment = EdgeAssignment(firstIndex: nat, firstObject: nat, secondIndex: nat, secondObject: nat)

  /** A consistency-graph vertex: its own index, and the parameter and
      object it assigns. */
  datatype Vertex = Vertex(index: nat, parameterIndex: nat, objectIndex: nat)
  datatype Edge = Edge(src: Vertex, dst: Vertex)

  /** "[index/object]". */
  function VertexAssignmentText(a: VertexAssignment): string {
    "[" + NatToString(a.index) + "/" + NatToString(a.obj) + "]"
  }

  /** "[i1/o1, i2/o2]". */
  function EdgeAssignmentText(a: EdgeAssignment): string {
    "[" + NatToString(a.firstIndex) + "/" + NatToString(a.firstObject) + ", "
      + NatToString(a.secondIndex) + "/" + NatToString(a.secondObject) + "]"
  }

  /** "[parameter/object]". */
  function VertexText(v: Vertex): string {
    "[" + NatToString(v.parameterIndex) + "/" + NatToString(v.objectIndex) + "]"
  }

  /** "[src, dst]" with both ends in vertex format. */
  function EdgeText(e: Edge): string {
    "[" + VertexText(e.src) + ", " + VertexText(e.dst) + "]"
  }

  /** One graph node: n<index> [label="<vertex>"]; */
  function VertexLine(v: Vertex): string {
    "n" + NatToString(v.index) + " [label=\"" + VertexText(v) + "\"];"
  }

  /** One graph edge: n<src> -- n<dst>; */
  function EdgeLine(e: Edge): string {
    "n" + NatToString(e.src.index) + " -- n" + NatToString(e.dst.index) + ";"
  }

  function VertexLines(vs: seq<Vertex>): (r: seq<string>)
    ensures |r| == |vs| && forall k :: 0 <= k < |vs| ==> r[k] == VertexLine(vs[k])
  {
    seq(|vs|, k requires 0 <= k < |vs| => VertexLine(vs[k]))
  }

  function EdgeLines(es: seq<Edge>): (r: seq<string>)
    ensures |r| == |es| && forall k :: 0 <= k < |es| ==> r[k] == EdgeLine(es[k])
  {
    seq(|es|, k requires 0 <= k < |es| => EdgeLine(es[k]))
  }

  /** The graph: a header, an empty line, the vertex lines, an empty line,
      the edge lines and the closing brace, separated by newlines. */
  function GraphText(vs: seq<Vertex>, es: seq<Edge>): string {
    "graph Tree {\n\n" + Join(VertexLines(vs), "\n") + "\n\n" + Join(EdgeLines(es), "\n") + "\n}"
  }

  /** A numeral followed by text that does not start with a digit: the
      digit run is the numeral. */
  lemma {:induction false} DigitRunOf(d: string, rest: string)
    requires AllDigits(d) && (|rest| > 0 ==> !IsDigit(rest[0]))
    ensures DigitRunLength(d + rest) == |d|
    decreases |d|
  {
    if |d| > 0 {
      assert (d + rest)[1..] == d[1..] + rest;
      DigitRunOf(d[1..], rest);
    } else {
      assert d + rest == rest;
    }
  }

  /** Reads "[a/b]" back into (a, b). */
  function ParsePair(s: string): (r: Option<(nat, nat)>) {
    if |s| < 2 || s[0] != '[' || s[|s| - 1] != ']' then None
    else
      var inner := s[1..|s| - 1];
      var k := DigitRunLength(inner);
      if k == 0 || k == |inner| || inner[k] != '/' then None
      else
        var rest := inner[k + 1..];
        if |rest| == 0 || !AllDigits(rest) then None
        else Some((DigitsValue(inner[..k]), DigitsValue(rest)))
  }

  /** The vertex-assignment text reads back as the assignment, so
      different assignments print differently; a vertex prints as the
      assignment of its parameter and object. */
  lemma VertexAssignmentRoundTrip(a: VertexAssignment, v: Vertex)
    ensures ParsePair(VertexAssignmentText(a)) == Some((a.index, a.obj))
    ensures VertexText(v) == VertexAssignmentText(VertexAssignment(v.parameterIndex, v.objectIndex))
  {
    var s := VertexAssignmentText(a);
    var i, o := NatToString(a.index), NatToString(a.obj);
    assert s[1..|s| - 1] == i + ("/" + o);
    DigitRunOf(i, "/" + o);
    assert (i + ("/" + o))[..|i|] == i;
    assert (i + ("/" + o))[|i| + 1..] == o;
    NatToStringRoundTrip(a.index);
    NatToStringRoundTrip(a.obj);
  }

  /** Printing different vertex assignments gives different texts. */
  lemma VertexAssignmentTextInjective(a: VertexAssignment, b: VertexAssignment)
    requires VertexAssignmentText(a) == VertexAssignmentText(b)
    ensures a == b
  {
    VertexAssignmentRoundTrip(a, Vertex(0, 0, 0));
    VertexAssignmentRoundTrip(b, Vertex(0, 0, 0));
  }

  /** The first newline of a text whose first line is `a`. */
  lemma {:induction false} NewlineAt(a: string, b: string)
    requires '\n' !in a
    ensures NewlineIndex(a + ("\n" + b)) == |a|
    decreases |a|
  {
    if |a| > 0 {
      assert (a + ("\n" + b))[1..] == a[1..] + ("\n" + b);
      assert a[0] in a;
      NewlineAt(a[1..], b);
    }
  }

  lemma SplitCons(a: string, b: string)
    requires '\n' !in a
    ensures SplitLines(a + ("\n" + b)) == [a] + SplitLines(b)
  {
    NewlineAt(a, b);
    var s := a + ("\n" + b);
    assert s[..|a|] == a && s[|a| + 1..] == b;
  }

  /** Splitting lines joined by newlines and followed by more text gives
      the lines back, then the lines of that text. */
  lemma SplitJoin(lines: seq<string>, rest: string)
    requires |lines| > 0 && forall k :: 0 <= k < |lines| ==> '\n' !in lines[k]
    ensures SplitLines(Join(lines, "\n") + ("\n" + rest)) == lines + SplitLines(rest)
  {
    JoinIsLinesThen(lines, rest);
    SplitLinesThen(lines, rest);
  }

  /** Each line followed by a newline, then `rest`. */
  function LinesThen(lines: seq<string>, rest: string): string
    decreases |lines|
  {
    if |lines| == 0 then rest else lines[0] + ("\n" + LinesThen(lines[1..], rest))
  }

  /** Splitting each line followed by a newline, then more text, gives the
      lines back, then the lines of that text. */
  lemma SplitLinesThen(lines: seq<string>, rest: string)
    requires forall k :: 0 <= k < |lines| ==> '\n' !in lines[k]
    ensures SplitLines(LinesThen(lines, rest)) == lines + SplitLines(rest)
  {
    SplitConsAll();
    SplitLinesThenBy(SplitLines, lines, rest);
  }

  /** `SplitCons` for every first line and every rest. */
  lemma SplitConsAll()
    ensures forall a, b :: '\n' !in a ==> SplitLines(a + ("\n" + b)) == [a] + SplitLines(b)
  {
    forall a, b | '\n' !in a
      ensures SplitLines(a + ("\n" + b)) == [a] + SplitLines(b)
    {
      SplitCons(a, b);
    }
  }

  /** The induction behind `SplitLinesThen`, for any splitter that splits
      off a first line ending in a newline. */
  lemma {:induction false} SplitLinesThenBy(split: string -> seq<string>, lines: seq<string>, rest: string)
    requires forall k :: 0 <= k < |lines| ==> '\n' !in lines[k]
    requires forall a, b :: '\n' !in a ==> split(a + ("\n" + b)) == [a] + split(b)
    ensures split(LinesThen(lines, rest)) == lines + split(rest)
    decreases |lines|
  {
    if |lines| > 0 {
      SplitLinesThenBy(split, lines[1..], rest);
      assert lines == [lines[0]] + lines[1..];
    }
  }

  /** Joining by newlines and appending a newline and `rest` is putting a
      newline after each line, then `rest`. */
  lemma {:induction false} JoinIsLinesThen(lines: seq<string>, rest: string)
    requires |lines| > 0
    ensures Join(lines, "\n") + ("\n" + rest) == LinesThen(lines, rest)
    decreases |lines|
  {
    if |lines| == 1 {
      assert LinesThen(lines[1..], rest) == rest;
    } else {
      JoinThenRest(lines, rest);
      JoinIsLinesThen(lines[1..], rest);
    }
  }

  /** Joined lines followed by more text: the first line, a newline, and
      the other lines joined and followed by that text. */
  lemma JoinThenRest(lines: seq<string>, rest: string)
    requires |lines| > 1
    ensures Join(lines, "\n") + ("\n" + rest) == lines[0] + ("\n" + (Join(lines[1..], "\n") + ("\n" + rest)))
  {
    assert Join(lines, "\n") == lines[0] + "\n" + Join(lines[1..], "\n");
    Regroup(lines[0], "\n", Join(lines[1..], "\n"), "\n" + rest);
  }

  /** Concatenation regrouped to the right. */
  lemma Regroup(a: string, b: string, c: string, d: string)
    ensures a + b + c + d == a + (b + (c + d))
  {
  }

  lemma NumeralNoNewline(n: nat)
    ensures '\n' !in NatToString(n)
  {
    var s := NatToString(n);
    assert forall k :: 0 <= k < |s| ==> s[k] != '\n';
  }

  lemma LinesNoNewline(vs: seq<Vertex>, es: seq<Edge>)
    ensures forall k :: 0 <= k < |vs| ==> '\n' !in VertexLine(vs[k])
    ensures forall k :: 0 <= k < |es| ==> '\n' !in EdgeLine(es[k])
  {
    forall k | 0 <= k < |vs| ensures '\n' !in VertexLine(vs[k]) {
      NumeralNoNewline(vs[k].index);
      NumeralNoNewline(vs[k].parameterIndex);
      NumeralNoNewline(vs[k].objectIndex);
    }
    forall k | 0 <= k < |es| ensures '\n' !in EdgeLine(es[k]) {
      NumeralNoNewline(es[k].src.index);
      NumeralNoNewline(es[k].dst.index);
    }
  }

  /** A section of the dump: its lines, or one empty line when there are
      none. */
  function Section(lines: seq<string>): (r: seq<string>)
    ensures |r| > 0 && Join(r, "\n") == Join(lines, "\n")
  {
    if |lines| == 0 then [""] else lines
  }

  /** Joining two non-empty lists is joining each and putting the separator
      between. */
  lemma {:induction false} JoinAppend(a: seq<string>, b: seq<string>, sep: string)
    requires |a| > 0 && |b| > 0
    ensures Join(a + b, sep) == Join(a, sep) + sep + Join(b, sep)
    decreases |a|
  {
    if |a| > 1 {
      assert (a + b)[1..] == a[1..] + b;
      JoinAppend(a[1..], b, sep);
    } else {
      assert (a + b)[1..] == b;
    }
  }

  /** The dump's lines: the header, an empty line, the vertex section, an
      empty line, the edge section and the closing brace. */
  function DumpLines(vs: seq<Vertex>, es: seq<Edge>): seq<string> {
    ["graph Tree {", ""] + Section(VertexLines(vs)) + [""] + Section(EdgeLines(es)) + ["}"]
  }

  /** The graph dump is its lines joined by newlines. */
  lemma GraphTextJoin(vs: seq<Vertex>, es: seq<Edge>)
    ensures GraphText(vs, es) == Join(DumpLines(vs, es), "\n")
  {
    var V, E := Section(VertexLines(vs)), Section(EdgeLines(es));
    DumpJoin("graph Tree {", V, E, "}");
    DumpLiterals();
  }

  /** The fixed parts of the dump, as header or brace plus newlines. */
  lemma DumpLiterals()
    ensures "graph Tree {\n\n" == "graph Tree {" + "\n\n"
    ensures "\n}" == "\n" + "}"
  {
  }

  /** Lines framed by a header, empty separator lines and a closing line,
      joined by newlines. */
  lemma DumpJoin(h: string, V: seq<string>, E: seq<string>, c: string)
    requires |V| > 0 && |E| > 0
    ensures Join([h, ""] + V + [""] + E + [c], "\n") == h + "\n\n" + Join(V, "\n") + "\n\n" + Join(E, "\n") + ("\n" + c)
  {
    var X := [h, ""] + V;
    var Y := X + [""];
    var Z := Y + E;
    JoinAppend([h, ""], V, "\n");
    JoinAppend(X, [""], "\n");
    JoinAppend(Y, E, "\n");
    JoinAppend(Z, [c], "\n");
    assert Join([h, ""], "\n") == h + "\n" + "";
    assert Join([""], "\n") == "" && Join([c], "\n") == c;
    EmptyLineBetween(h, Join(V, "\n"));
    EmptyLineBetween(Join(X, "\n"), Join(E, "\n"));
    Regroup(Join(Z, "\n"), "\n", c, "");
    assert c + "" == c;
  }

  /** A newline, an empty line and a newline are two newlines. */
  lemma EmptyLineBetween(x: string, y: string)
    ensures x + "\n" + "" + "\n" + y == x + "\n\n" + y
  {
    assert x + "\n" + "" == x + "\n";
  }

  /** No line of the dump holds a newline. */
  lemma DumpLinesNoNewline(vs: seq<Vertex>, es: seq<Edge>)
    ensures forall k :: 0 <= k < |DumpLines(vs, es)| ==> '\n' !in DumpLines(vs, es)[k]
  {
    LinesNoNewline(vs, es);
    var V, E := Section(VertexLines(vs)), Section(EdgeLines(es));
    assert forall k :: 0 <= k < |V| ==> '\n' !in V[k];
    assert forall k :: 0 <= k < |E| ==> '\n' !in E[k];
  }

  /** The graph dump, line by line: the header, an empty line, one line
      per vertex in order, an empty line, one line per edge in order, and
      the closing brace. */
  lemma GraphTextLines(vs: seq<Vertex>, es: seq<Edge>)
    ensures SplitLines(GraphText(vs, es)) == DumpLines(vs, es)
  {
    var L := DumpLines(vs, es);
    var body := L[..|L| - 1];
    assert L == body + ["}"];
    DumpLinesNoNewline(vs, es);
    assert forall k :: 0 <= k < |body| ==> body[k] == L[k];
    GraphTextJoin(vs, es);
    JoinAppend(body, ["}"], "\n");
    var jb := Join(body, "\n");
    assert GraphText(vs, es) == jb + ("\n" + "}");
    SplitJoin(body, "}");
    SplitOfBrace();
  }

  lemma SplitOfBrace()
    ensures SplitLines("}") == ["}"]
  {
  }
}
