/**
 * CodeToMarkdown's output side: the state machine that turns classified
 * lines into Markdown. Code sits between two fences of 100 backticks;
 * comments indented by t > 0 sit inside an indenting div; unindented
 * comments are written as they are.
 */
module CodeToMarkdown {
  import opened PyText
  import SC = SourceClassifier
  import CR = CodeToRest

  /** The fence around code: 100 backticks. */
  function Fence(): (r: string)
    ensures |r| == 100 && forall k :: 0 <= k < |r| ==> r[k] == '`'
  {
    seq(100, _ => '`')
  }

  /** One out_file.write call of _generate_markdown or _exit_state. */
  datatype Write =
    | FenceLine
    | DivOpen(t: nat)
    | DivClose
    | Line(s: string)

  function WriteText(w: Write): string
  {
    match w
    case FenceLine => Fence() + "\n"
    case DivOpen(t) => "\n<div class=\"CodeChat-indent\" style=\"margin-left:" + HalfStr(t) + "em;\">\n\n"
    case DivClose => "\n</div>\n\n"
    case Line(s) => s
  }

  /** The file's text after the writes ws. */
  function Text(ws: seq<Write>): string
  {
    if ws == [] then "" else Text(ws[..|ws| - 1]) + WriteText(ws[|ws| - 1])
  }

  lemma Assoc<T>(a: seq<T>, b: seq<T>, c: seq<T>)
    ensures a + (b + c) == (a + b) + c
  {
  }

  /** The text of writes done one after the other is the texts in order. */
  lemma {:induction false} TextAppend(a: seq<Write>, b: seq<Write>)
    ensures Text(a + b) == Text(a) + Text(b)
    decreases |b|
  {
    if b == [] {
      assert a + b == a;
    } else {
      var n := |b| - 1;
      assert (a + b)[..|a + b| - 1] == a + b[..n];
      TextAppend(a, b[..n]);
      Assoc(Text(a), Text(b[..n]), WriteText(b[n]));
    }
  }

  /** What _exit_state writes when the state t is left. */
  function ExitWrites(t: int): (r: seq<Write>)
    ensures |r| <= 1
  {
    if t == -1 then [FenceLine]
    else if t > 0 then [DivClose]
    else []
  }

  /** What entering the state t writes; an unindented comment needs nothing. */
  function EnterWrites(t: int): (r: seq<Write>)
    ensures |r| <= 1
  {
    if t == -1 then [FenceLine]
    else if t > 0 then [DivOpen(t)]
    else []
  }

  /** What a change from state `current` to state t writes: nothing without a change. */
  function Marker(current: int, t: int): seq<Write>
  {
    if current != t then ExitWrites(current) + EnterWrites(t) else []
  }

  /** Everything written for lines[i..] in state `current`, the final exit included. */
  function Generated(lines: seq<SC.Classified>, i: nat, current: int): seq<Write>
    decreases |lines| - i
  {
    if |lines| <= i then ExitWrites(current)
    else Marker(current, lines[i].ctype) + ([Line(lines[i].s)] + Generated(lines, i + 1, lines[i].ctype))
  }

  method Put(out: string, ghost ws: seq<Write>, w: Write) returns (out': string, ghost ws': seq<Write>)
    requires out == Text(ws)
    ensures ws' == ws + [w] && out' == Text(ws')
  {
    out' := out + WriteText(w);
    ws' := ws + [w];
    assert ws'[..|ws'| - 1] == ws;
  }

  /** _exit_state: the ending fence after code, the closing div after an indented comment. */
  method ExitState(t: int, out: string, ghost ws: seq<Write>) returns (out': string, ghost ws': seq<Write>)
    requires out == Text(ws)
    ensures ws' == ws + ExitWrites(t) && out' == Text(ws')
  {
    if t == -1 {
      out', ws' := Put(out, ws, FenceLine);
    } else if t > 0 {
      out', ws' := Put(out, ws, DivClose);
    } else {
      out', ws' := out, ws;
      assert ws + [] == ws;
    }
  }

  /** A change of state: exit the old state, then the opening fence or div of the new one. */
  method ChangeState(current: int, t: int, out: string, ghost ws: seq<Write>) returns (out': string, ghost ws': seq<Write>)
    requires out == Text(ws)
    ensures ws' == ws + Marker(current, t) && out' == Text(ws')
  {
    if current != t {
      var mid;
      ghost var ws1;
      mid, ws1 := ExitState(current, out, ws);
      if t == -1 {
        out', ws' := Put(mid, ws1, FenceLine);
      } else if t > 0 {
        out', ws' := Put(mid, ws1, DivOpen(t));
      } else {
        out', ws' := mid, ws1;
        assert ws1 + [] == ws1;
      }
      Assoc(ws, ExitWrites(current), EnterWrites(t));
    } else {
      out', ws' := out, ws;
      assert ws + [] == ws;
    }
  }

  predicate Progress(lines: seq<SC.Classified>, i: nat, current: int, writes: seq<Write>)
  {
    i <= |lines| && writes + Generated(lines, i, current) == Generated(lines, 0, -2)
  }

  lemma Assoc4<T>(a: seq<T>, b: seq<T>, c: seq<T>, d: seq<T>)
    ensures a + b + c + d == a + (b + (c + d))
  {
  }

  lemma ProgressStep(lines: seq<SC.Classified>, i: nat, current: int, writes: seq<Write>, marked: seq<Write>, writes': seq<Write>)
    requires Progress(lines, i, current, writes) && i < |lines|
    requires marked == writes + Marker(current, lines[i].ctype)
    requires writes' == marked + [Line(lines[i].s)]
    ensures Progress(lines, i + 1, lines[i].ctype, writes')
  {
    Assoc4(writes, Marker(current, lines[i].ctype), [Line(lines[i].s)], Generated(lines, i + 1, lines[i].ctype));
  }

  lemma ProgressStart(lines: seq<SC.Classified>)
    ensures Progress(lines, 0, -2, [])
  {
    assert [] + Generated(lines, 0, -2) == Generated(lines, 0, -2);
  }

  lemma ProgressDone(lines: seq<SC.Classified>, current: int, writes: seq<Write>, final: seq<Write>)
    requires Progress(lines, |lines|, current, writes)
    requires final == writes + ExitWrites(current)
    ensures final == Generated(lines, 0, -2)
  {
  }

  /** One pass of _generate_markdown's loop: change state if the type changed, then write the line verbatim. */
  method GenerateLine(lines: seq<SC.Classified>, i: nat, current: int, out: string, ghost writes: seq<Write>)
    returns (out': string, ghost writes': seq<Write>)
    requires i < |lines| && Progress(lines, i, current, writes) && out == Text(writes)
    ensures Progress(lines, i + 1, lines[i].ctype, writes') && out' == Text(writes')
  {
    var mid;
    ghost var marked;
    mid, marked := ChangeState(current, lines[i].ctype, out, writes);
    out', writes' := Put(mid, marked, Line(lines[i].s));
    ProgressStep(lines, i, current, writes, marked, writes');
  }

  /**
   * _generate_markdown: starting in state -2, write markers only when the
   * type changes, every line as it is, and exit the last state at the end.
   * The line counter of the source is only used for debugging output.
   */
  method GenerateMarkdown(lines: seq<SC.Classified>) returns (out: string)
    ensures out == Text(Generated(lines, 0, -2))
  {
    out := "";
    ghost var writes: seq<Write> := [];
    var currentType := -2;
    var i := 0;
    ProgressStart(lines);
    while i < |lines|
      invariant out == Text(writes)
      invariant Progress(lines, i, currentType, writes)
    {
      out, writes := GenerateLine(lines, i, currentType, out, writes);
      currentType := lines[i].ctype;
      i := i + 1;
    }
    ghost var last := writes;
    out, writes := ExitState(currentType, out, writes);
    ProgressDone(lines, currentType, last, writes);
  }

  // ---------------------------------------------------------------------
  // Balanced markers
  // ---------------------------------------------------------------------

  /** Where a reader of the writes is: outside, inside a fenced block, inside a div, or lost. */
  datatype Phase = Outside | InCode | InDiv | Broken

  /** One write read in a phase: fences and divs must open and close in turn, lines go anywhere. */
  function Step(p: Phase, w: Write): Phase
  {
    match w
    case Line(_) => p
    case FenceLine => if p == Outside then InCode else if p == InCode then Outside else Broken
    case DivOpen(_) => if p == Outside then InDiv else Broken
    case DivClose => if p == InDiv then Outside else Broken
  }

  /** The phase after reading ws from phase p. */
  function After(p: Phase, ws: seq<Write>): Phase
  {
    if ws == [] then p else Step(After(p, ws[..|ws| - 1]), ws[|ws| - 1])
  }

  lemma {:induction false} AfterAppend(p: Phase, a: seq<Write>, b: seq<Write>)
    ensures After(p, a + b) == After(After(p, a), b)
    decreases |b|
  {
    if b == [] {
      assert a + b == a;
    } else {
      var n := |b| - 1;
      assert (a + b)[..|a + b| - 1] == a + b[..n];
      AfterAppend(p, a, b[..n]);
    }
  }

  /** The phase the machine's writes leave a reader in while the machine is in state t. */
  function PhaseOf(t: int): Phase
  {
    if t == -1 then InCode else if t > 0 then InDiv else Outside
  }

  lemma AfterSingle(p: Phase, w: Write)
    ensures After(p, [w]) == Step(p, w)
  {
    assert [w][..0] == [];
  }

  lemma MarkerPhase(current: int, t: int)
    ensures After(PhaseOf(current), Marker(current, t)) == PhaseOf(t)
  {
    if current != t {
      AfterAppend(PhaseOf(current), ExitWrites(current), EnterWrites(t));
      if current == -1 || current > 0 {
        AfterSingle(PhaseOf(current), ExitWrites(current)[0]);
      }
      if t == -1 || t > 0 {
        AfterSingle(After(PhaseOf(current), ExitWrites(current)), EnterWrites(t)[0]);
      }
    }
  }

  /** From state `current`, the writes for lines[i..] close every fence and div they open, and the one open in `current`. */
  lemma {:induction false} GeneratedCloses(lines: seq<SC.Classified>, i: nat, current: int)
    ensures After(PhaseOf(current), Generated(lines, i, current)) == Outside
    decreases |lines| - i
  {
    if |lines| <= i {
      if current == -1 || current > 0 {
        AfterSingle(PhaseOf(current), ExitWrites(current)[0]);
      }
    } else {
      var t := lines[i].ctype;
      var m := Marker(current, t);
      var rest := Generated(lines, i + 1, t);
      MarkerPhase(current, t);
      AfterAppend(PhaseOf(current), m, [Line(lines[i].s)] + rest);
      AfterAppend(PhaseOf(t), [Line(lines[i].s)], rest);
      AfterSingle(PhaseOf(t), Line(lines[i].s));
      GeneratedCloses(lines, i + 1, t);
    }
  }

  /** Fences and divs balance: read from the start, the Markdown opens and closes them in turn and ends outside both. */
  lemma MarkdownBalanced(lines: seq<SC.Classified>)
    ensures After(Outside, Generated(lines, 0, -2)) == Outside
  {
    GeneratedCloses(lines, 0, -2);
  }

  /** The strings the lines contribute: the Line writes, in order. */
  function Lines(ws: seq<Write>): seq<string>
  {
    if ws == [] then [] else Lines(ws[..|ws| - 1]) + (if ws[|ws| - 1].Line? then [ws[|ws| - 1].s] else [])
  }

  lemma {:induction false} LinesAppend(a: seq<Write>, b: seq<Write>)
    ensures Lines(a + b) == Lines(a) + Lines(b)
    decreases |b|
  {
    if b == [] {
      assert a + b == a;
    } else {
      var n := |b| - 1;
      assert (a + b)[..|a + b| - 1] == a + b[..n];
      LinesAppend(a, b[..n]);
      Assoc(Lines(a), Lines(b[..n]), if b[n].Line? then [b[n].s] else []);
    }
  }

  /** The strings of lines[i..]. */
  function Strings(lines: seq<SC.Classified>, i: nat): seq<string>
    decreases |lines| - i
  {
    if |lines| <= i then [] else [lines[i].s] + Strings(lines, i + 1)
  }

  lemma MarkersHaveNoLines(current: int, t: int)
    ensures Lines(Marker(current, t)) == []
  {
    LinesAppend(ExitWrites(current), EnterWrites(t));
  }

  lemma LinesStep(m: seq<Write>, x: string, rest: seq<Write>)
    requires Lines(m) == []
    ensures Lines(m + ([Line(x)] + rest)) == [x] + Lines(rest)
  {
    LinesAppend(m, [Line(x)] + rest);
    LinesAppend([Line(x)], rest);
    assert [Line(x)][..0] == [];
  }

  /** Every line string is written verbatim and in order; everything else written is a marker. */
  lemma {:induction false} GeneratedLines(lines: seq<SC.Classified>, i: nat, current: int)
    ensures Lines(Generated(lines, i, current)) == Strings(lines, i)
    decreases |lines| - i
  {
    if i < |lines| {
      var t := lines[i].ctype;
      MarkersHaveNoLines(current, t);
      LinesStep(Marker(current, t), lines[i].s, Generated(lines, i + 1, t));
      GeneratedLines(lines, i + 1, t);
    } else if current == -1 || current > 0 {
      assert ExitWrites(current)[..0] == [];
    }
  }

  // ---------------------------------------------------------------------
  // The output as blocks, one per run of equal types
  // ---------------------------------------------------------------------

  function Render(b: CR.Block): seq<Write>
  {
    EnterWrites(b.ctype) + Emits(b.body) + ExitWrites(b.ctype)
  }

  function Emits(lines: seq<SC.Classified>): seq<Write>
  {
    if lines == [] then [] else [Line(lines[0].s)] + Emits(lines[1..])
  }

  function RenderAll(bs: seq<CR.Block>): seq<Write>
  {
    if bs == [] then [] else Render(bs[0]) + RenderAll(bs[1..])
  }

  lemma EmitsCons(lines: seq<SC.Classified>, i: nat, j: nat)
    requires i < j <= |lines|
    ensures Emits(lines[i..j]) == [Line(lines[i].s)] + Emits(lines[i + 1..j])
  {
    assert lines[i..j][1..] == lines[i + 1..j];
  }

  /** Inside a run the machine only writes the lines. */
  lemma {:induction false} ContinueRun(lines: seq<SC.Classified>, i: nat, j: nat, t: int)
    requires i <= j <= |lines|
    requires forall k :: i <= k < j ==> lines[k].ctype == t
    ensures Generated(lines, i, t) == Emits(lines[i..j]) + Generated(lines, j, t)
    decreases j - i
  {
    if i < j {
      ContinueRun(lines, i + 1, j, t);
      EmitsCons(lines, i, j);
      Assoc([Line(lines[i].s)], Emits(lines[i + 1..j]), Generated(lines, j, t));
    } else {
      assert Emits(lines[i..j]) == [];
    }
  }

  lemma Switch(lines: seq<SC.Classified>, i: nat, current: int)
    requires i < |lines|
    ensures Generated(lines, i, current) == Marker(current, lines[i].ctype) + Generated(lines, i, lines[i].ctype)
  {
    assert [] + ([Line(lines[i].s)] + Generated(lines, i + 1, lines[i].ctype)) == [Line(lines[i].s)] + Generated(lines, i + 1, lines[i].ctype);
  }

  lemma EnterRun(lines: seq<SC.Classified>, i: nat, current: int, j: nat)
    requires i < |lines| && current != lines[i].ctype && j == CR.RunEnd(lines, i, lines[i].ctype)
    ensures Generated(lines, i, current)
         == (ExitWrites(current) + EnterWrites(lines[i].ctype)) + (Emits(lines[i..j]) + Generated(lines, j, lines[i].ctype))
  {
    CR.RunEndExact(lines, i, lines[i].ctype);
    ContinueRun(lines, i, j, lines[i].ctype);
    Switch(lines, i, current);
  }

  lemma RenderAllHead(lines: seq<SC.Classified>, i: nat, j: nat)
    requires i < |lines| && j == CR.RunEnd(lines, i, lines[i].ctype)
    ensures RenderAll(CR.Partition(lines, i))
         == ((EnterWrites(lines[i].ctype) + Emits(lines[i..j])) + ExitWrites(lines[i].ctype)) + RenderAll(CR.Partition(lines, j))
  {
    CR.PartitionStep(lines, i, j);
    CR.TailOf(CR.Block(lines[i].ctype, lines[i..j], i + 1), CR.Partition(lines, j));
  }

  predicate BlocksOf(lines: seq<SC.Classified>, i: nat, current: int)
    requires i <= |lines|
  {
    Generated(lines, i, current) == ExitWrites(current) + RenderAll(CR.Partition(lines, i))
  }

  lemma BlocksStep(lines: seq<SC.Classified>, i: nat, current: int, j: nat)
    requires i < |lines| && current != lines[i].ctype && j == CR.RunEnd(lines, i, lines[i].ctype)
    requires BlocksOf(lines, j, lines[i].ctype)
    ensures BlocksOf(lines, i, current)
  {
    var t := lines[i].ctype;
    EnterRun(lines, i, current, j);
    RenderAllHead(lines, i, j);
    CR.Combine(Generated(lines, i, current), Generated(lines, j, t), RenderAll(CR.Partition(lines, i)),
      ExitWrites(current), EnterWrites(t), Emits(lines[i..j]), ExitWrites(t), RenderAll(CR.Partition(lines, j)));
  }

  lemma {:induction false} GeneratedIsBlocks(lines: seq<SC.Classified>, i: nat, current: int)
    requires i <= |lines| && (i == |lines| || current != lines[i].ctype)
    ensures BlocksOf(lines, i, current)
    decreases |lines| - i
  {
    if i == |lines| {
      assert ExitWrites(current) + [] == ExitWrites(current);
    } else {
      var t := lines[i].ctype;
      var j := CR.RunEnd(lines, i, t);
      CR.RunEndStops(lines, i, t, j);
      GeneratedIsBlocks(lines, j, t);
      BlocksStep(lines, i, current, j);
    }
  }

  /**
   * The Markdown of lines whose first type is not the initial -2 is its
   * runs in order (CR.Partition: maximal, alternating in type), each
   * written as its opening marker, its lines and its closing marker.
   */
  lemma GenerateMarkdownIsBlocks(lines: seq<SC.Classified>)
    requires lines == [] || lines[0].ctype != -2
    ensures Generated(lines, 0, -2) == RenderAll(CR.Partition(lines, 0))
  {
    GeneratedIsBlocks(lines, 0, -2);
  }

  /** Code, then a comment indented by 2, then code: fence, code, fence, div, comment, div end, fence, code, fence. */
  lemma MixedExample()
    ensures Generated([SC.Classified(-1, "a\n"), SC.Classified(2, "b\n"), SC.Classified(-1, "c\n")], 0, -2)
         == [FenceLine, Line("a\n"), FenceLine, DivOpen(2), Line("b\n"), DivClose, FenceLine, Line("c\n"), FenceLine]
  {
    var lines := [SC.Classified(-1, "a\n"), SC.Classified(2, "b\n"), SC.Classified(-1, "c\n")];
    assert Generated(lines, 2, 2) == [DivClose, FenceLine, Line("c\n"), FenceLine];
    assert Generated(lines, 1, -1) == [FenceLine, DivOpen(2), Line("b\n"), DivClose, FenceLine, Line("c\n"), FenceLine];
  }

  /** An unindented comment gets no wrapper at all. */
  lemma UnindentedExample()
    ensures Generated([SC.Classified(0, "x\n")], 0, -2) == [Line("x\n")]
  {
  }

  /** The div for an indent of 3 has a margin of 1.5 em. */
  lemma DivOpenExample()
    ensures WriteText(DivOpen(3)) == "\n<div class=\"CodeChat-indent\" style=\"margin-left:1.5em;\">\n\n"
  {
    assert NatStr(1) == "1";
    assert HalfStr(3) == "1.5";
    assert WriteText(DivOpen(3)) == "\n<div class=\"CodeChat-indent\" style=\"margin-left:" + "1.5" + "em;\">\n\n";
  }

  // ---------------------------------------------------------------------
  // code_to_markdown_string
  // ---------------------------------------------------------------------

  /**
   * What code_to_markdown_string writes before the lines: the style
   * header and two newlines, then the classifier's syntax error, if any,
   * under an Error heading. An empty error message means none.
   */
  function Prolog(style: string, syntaxError: string): (r: string)
    ensures |r| >= |style| + 2 && r[..|style| + 2] == style + "\n\n"
    ensures syntaxError != "" ==> r[|style| + 2..] == "# Error\n" + syntaxError + "\n"
    ensures syntaxError == "" ==> |r| == |style| + 2
  {
    style + "\n\n" + (if syntaxError != "" then "# Error\n" + syntaxError + "\n" else "")
  }

  /**
   * code_to_markdown_string, given the style header, the classifier's
   * syntax error and classified lines (the lexing itself is not part of
   * this model).
   */
  method CodeToMarkdownString(style: string, syntaxError: string, lines: seq<SC.Classified>) returns (md: string)
    ensures md == Prolog(style, syntaxError) + Text(Generated(lines, 0, -2))
  {
    md := style + "\n\n";
    if syntaxError != "" {
      md := md + ("# Error\n" + syntaxError + "\n");
    }
    var body := GenerateMarkdown(lines);
    md := md + body;
  }
}
