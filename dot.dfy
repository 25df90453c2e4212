/**
 * The Graphviz DOT text both scripts produce. A graph fragment is a
 * sequence of statements, one per output line: a node declaration
 * `"<id>" [label="<first 7 characters of id>"];` or an undirected edge
 * `"<a>" -- "<b>" [label="<label>"];`, each indented by four spaces per
 * nesting level. The finished file wraps the fragment in `graph git {` and `}`.
 */
module Dot {
  import opened Text

  datatype Stmt =
    | Node(level: nat, id: string)
    | Edge(level: nat, src: string, dst: string, name: string)

  /** Python `'    ' * level`. */
  function Indent(level: nat): (r: string)
    ensures |r| == 4 * level
    ensures forall i :: 0 <= i < |r| ==> r[i] == ' '
  {
    if level == 0 then "" else "    " + Indent(level - 1)
  }

  /**
   * The text of a statement, without its line break: the indent, then the
   * quoted id and its first seven characters as the label for a node, or
   * the two quoted ends joined by `--` and the quoted label for an edge.
   */
  function Line(st: Stmt): (r: string)
    ensures SingleLine(st) ==> '\n' !in r
  {
    match st
    case Node(level, id) =>
      Indent(level) + "\"" + id + "\" [label=\"" + Take(id, 7) + "\"];"
    case Edge(level, src, dst, name) =>
      Indent(level) + "\"" + src + "\" -- \"" + dst + "\" [label=\"" + name + "\"];"
  }

  /**
   * Every line starts with its indent and ends with `"];`; apart from the
   * indent, a node line adds 14 characters to its id and label, an edge
   * line 20 characters to its two ends and label.
   */
  lemma LineShape(st: Stmt)
    ensures var r := Line(st);
            (st.Node? ==> |r| == 4 * st.level + |st.id| + |Take(st.id, 7)| + 14) &&
            (st.Edge? ==> |r| == 4 * st.level + |st.src| + |st.dst| + |st.name| + 20) &&
            r[..4 * st.level] == Indent(st.level) &&
            r[|r| - 3..] == "\"];"
  {
  }

  function Render(st: Stmt): string
  {
    Line(st) + "\n"
  }

  /** The statements rendered one after the other. */
  function RenderAll(ss: seq<Stmt>): string
  {
    if ss == [] then "" else Render(ss[0]) + RenderAll(ss[1..])
  }

  /** The line each statement is expected to occupy, in order. */
  function Lines(ss: seq<Stmt>): (ls: seq<string>)
    ensures |ls| == |ss|
  {
    seq(|ss|, i requires 0 <= i < |ss| => Line(ss[i]))
  }

  /** No identifier or label of the statement contains a line break. */
  predicate SingleLine(st: Stmt)
  {
    match st
    case Node(_, id) => '\n' !in id
    case Edge(_, src, dst, name) => '\n' !in src && '\n' !in dst && '\n' !in name
  }

  const OpenLine: string := "graph git {"
  const CloseLine: string := "}"

  /** The finished `.dot` file around a rendered fragment: `graph git {\n` + body + `}\n`. */
  function Envelope(body: string): (r: string)
    ensures |r| == |body| + 14
    ensures r[..12] == OpenLine + "\n"
    ensures r[12..|r| - 2] == body
    ensures r[|r| - 2..] == CloseLine + "\n"
  {
    Framed(OpenLine, body, CloseLine)
  }

  /** `body` between an opening and a closing line, each ended by a line break. */
  function Framed(open: string, body: string, close: string): (r: string)
    ensures |r| == |open| + |body| + |close| + 2
    ensures r[..|open| + 1] == open + "\n"
    ensures r[|open| + 1..|r| - |close| - 1] == body
    ensures r[|r| - |close| - 1..] == close + "\n"
  {
    open + "\n" + (body + (close + "\n"))
  }

  lemma {:induction false} RenderAllConcat(a: seq<Stmt>, b: seq<Stmt>)
    ensures RenderAll(a + b) == RenderAll(a) + RenderAll(b)
  {
    if a == [] {
      assert a + b == b;
    } else {
      assert (a + b)[1..] == a[1..] + b;
      RenderAllConcat(a[1..], b);
    }
  }

  lemma RenderAllSingle(st: Stmt)
    ensures RenderAll([st]) == Render(st)
  {
    assert [st][1..] == [];
  }

  /** Lines each followed by a line break. */
  function Terminated(ls: seq<string>): string
  {
    if ls == [] then "" else ls[0] + "\n" + Terminated(ls[1..])
  }

  /** The lines of all statements but the first are the lines after the first. */
  lemma LinesTail(ss: seq<Stmt>)
    requires ss != []
    ensures Lines(ss)[1..] == Lines(ss[1..])
  {
    forall i | 0 <= i < |ss| - 1
      ensures Lines(ss)[1..][i] == Lines(ss[1..])[i]
    {
      assert ss[1..][i] == ss[i + 1];
    }
  }

  /** Rendering is writing each statement's line followed by a line break. */
  lemma {:induction false} RenderAllTerminated(ss: seq<Stmt>)
    ensures RenderAll(ss) == Terminated(Lines(ss))
  {
    if ss != [] {
      var ls := Lines(ss);
      RenderAllTerminated(ss[1..]);
      LinesTail(ss);
      assert ls[0] == Line(ss[0]);
      assert RenderAll(ss) == Render(ss[0]) + RenderAll(ss[1..]);
      assert Terminated(ls) == ls[0] + "\n" + Terminated(ls[1..]);
    }
  }

  /** Splitting terminated single lines, then whatever follows, gives those lines back first. */
  lemma {:induction false} TerminatedSplit(ls: seq<string>, t: string)
    requires forall i :: 0 <= i < |ls| ==> '\n' !in ls[i]
    ensures Split(Terminated(ls) + t, '\n') == ls + Split(t, '\n')
  {
    if ls == [] {
      assert Terminated(ls) + t == t;
    } else {
      var rest := Terminated(ls[1..]);
      assert Terminated(ls) + t == ls[0] + ['\n'] + (rest + t);
      SplitAtFirstSeparator(ls[0], '\n', rest + t);
      TerminatedSplit(ls[1..], t);
      assert ls == [ls[0]] + ls[1..];
    }
  }

  /**
   * Rendered statements occupy exactly one line each: splitting the output
   * on line breaks yields the statements' lines in order, followed by the
   * lines of whatever comes after.
   */
  lemma RenderedLines(ss: seq<Stmt>, t: string)
    requires forall i :: 0 <= i < |ss| ==> SingleLine(ss[i])
    ensures Split(RenderAll(ss) + t, '\n') == Lines(ss) + Split(t, '\n')
  {
    assert forall i :: 0 <= i < |ss| ==> '\n' !in Lines(ss)[i];
    RenderAllTerminated(ss);
    TerminatedSplit(Lines(ss), t);
  }

  /** Lines framed by an opening and a closing line split back into all three parts. */
  lemma FramedLines(ss: seq<Stmt>, open: string, close: string)
    requires forall i :: 0 <= i < |ss| ==> SingleLine(ss[i])
    requires '\n' !in open && '\n' !in close
    ensures Split(Framed(open, RenderAll(ss), close), '\n') == [open] + (Lines(ss) + [close, ""])
  {
    SplitAtFirstSeparator(open, '\n', RenderAll(ss) + (close + ['\n']));
    RenderedLines(ss, close + ['\n']);
    SplitTerminated(close, '\n');
  }

  /** The opening and closing lines of the file are single lines. */
  lemma FrameIsSingleLine()
    ensures '\n' !in OpenLine && '\n' !in CloseLine
  {
  }

  /**
   * A finished file is the opening line, one line per statement in order,
   * the closing brace, and the empty remainder after the final line break.
   */
  lemma EnvelopeLines(ss: seq<Stmt>)
    requires forall i :: 0 <= i < |ss| ==> SingleLine(ss[i])
    ensures Split(Envelope(RenderAll(ss)), '\n') == [OpenLine] + (Lines(ss) + [CloseLine, ""])
  {
    FrameIsSingleLine();
    FramedLines(ss, OpenLine, CloseLine);
  }
}
