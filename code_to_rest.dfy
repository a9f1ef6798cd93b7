/**
 * CodeToRest's output side: the state machine that turns classified lines
 * into reST (code in fenced blocks, indented comments inside a raw HTML
 * div, every comment run announced with a set-line directive), and the
 * fenced-code directive's padding of its content. The output file is a
 * string that the state machine appends to.
 */
module CodeToRest {
  import opened PyText
  import SC = SourceClassifier

  /**
   * One out_file.write call of _generate_rest or _exit_state. The output
   * file's text is the written strings in order; keeping the calls apart
   * lets the proofs about the state machine reason about markers without
   * looking inside the strings.
   */
  datatype Write =
    | BeginFence
    | EndFence
    | DivOpen(t: nat)
    | DivClose
    | SetLine(line: int)
    | Space
    | Line(s: string)

  /** The directive lines and markers of the reST scaffolding. */
  const FencedCode := ".. fenced-code::"
  const BeginningFence := " Beginning fence"
  const EndingFence := " Ending fence"
  const RawHtml := ".. raw:: html"
  const DivMargin := " <div style=\"margin-left"
  const DivEnd := " </div>"
  const SetLineDirective := ".. set-line::"

  /** The string each write puts in the file. */
  function WriteText(w: Write): string
  {
    match w
    case BeginFence => "\n" + FencedCode + "\n\n" + BeginningFence + "\n"
    case EndFence => EndingFence + "\n\n..\n\n"
    case DivOpen(t) => "\n" + RawHtml + "\n\n" + DivMargin + ":" + HalfStr(t) + "em;\">\n\n"
    case DivClose => "\n" + RawHtml + "\n\n" + DivEnd + "\n\n..\n\n"
    case SetLine(line) => "\n" + SetLineDirective + " " + IntStr(line - 4) + "\n\n..\n\n"
    case Space => " "
    case Line(s) => s
  }

  /** The file's text after the writes ws. */
  function Text(ws: seq<Write>): string
  {
    if ws == [] then "" else Text(ws[..|ws| - 1]) + WriteText(ws[|ws| - 1])
  }

  /** The text of writes done one after the other is the texts in order. */
  lemma {:induction false} TextAppend(a: seq<Write>, b: seq<Write>)
    ensures Text(a + b) == Text(a) + Text(b)
    decreases |b|
  {
    if b == [] {
      assert a + b == a;
    } else {
      var n := |b| - 1;
      assert (a + b)[..|a + b| - 1] == a + b[..n];
      TextAppend(a, b[..n]);
      Assoc(Text(a), Text(b[..n]), WriteText(b[n]));
    }
  }

  lemma Assoc<T>(a: seq<T>, b: seq<T>, c: seq<T>)
    ensures a + (b + c) == (a + b) + c
  {
  }

  /** What _exit_state writes when the state t is left. */
  function ExitWrites(t: int): (r: seq<Write>)
    ensures |r| <= 1
  {
    if t == -1 then [EndFence]
    else if t > 0 then [DivClose]
    else []
  }

  /** What entering the state t at (1-based) line `line` writes. */
  function EnterWrites(t: int, line: int): (r: seq<Write>)
    ensures 1 <= |r| <= 2
  {
    if t == -1 then [BeginFence]
    else (if t > 0 then [DivOpen(t)] else []) + [SetLine(line)]
  }

  /** One line's writes: code gets one leading space inside its fenced block. */
  function Emit(c: SC.Classified): seq<Write>
  {
    (if c.ctype == -1 then [Space] else []) + [Line(c.s)]
  }

  /** What a change from state `current` to state t at line `line` writes: nothing without a change. */
  function Marker(current: int, t: int, line: int): seq<Write>
  {
    if current != t then ExitWrites(current) + EnterWrites(t, line) else []
  }

  /**
   * Everything written for lines[i..] when the machine is in state
   * `current`, including the final exit. The line at index i is line
   * i + 1 of the source.
   */
  function Generated(lines: seq<SC.Classified>, i: nat, current: int): seq<Write>
    decreases |lines| - i
  {
    if |lines| <= i then ExitWrites(current)
    else
      Marker(current, lines[i].ctype, i + 1) + (Emit(lines[i]) + Generated(lines, i + 1, lines[i].ctype))
  }

  /** One out_file.write: the file gains the write's string. */
  method Put(out: string, ghost ws: seq<Write>, w: Write) returns (out': string, ghost ws': seq<Write>)
    requires out == Text(ws)
    ensures ws' == ws + [w] && out' == Text(ws')
  {
    out' := out + WriteText(w);
    ws' := ws + [w];
    assert ws'[..|ws'| - 1] == ws;
  }

  /** _exit_state: writes the ending fence after code, the closing div after an indented comment. */
  method ExitState(t: int, out: string, ghost ws: seq<Write>) returns (out': string, ghost ws': seq<Write>)
    requires out == Text(ws)
    ensures ws' == ws + ExitWrites(t) && out' == Text(ws')
  {
    if t == -1 {
      out', ws' := Put(out, ws, EndFence);
    } else if t > 0 {
      out', ws' := Put(out, ws, DivClose);
    } else {
      out', ws' := out, ws;
      assert ws + [] == ws;
    }
  }

  /** The entering half of a state change in _generate_rest. */
  method EnterState(t: int, line: int, out: string, ghost ws: seq<Write>) returns (out': string, ghost ws': seq<Write>)
    requires out == Text(ws)
    ensures ws' == ws + EnterWrites(t, line) && out' == Text(ws')
  {
    if t == -1 {
      out', ws' := Put(out, ws, BeginFence);
    } else if t > 0 {
      var mid;
      ghost var ws1;
      mid, ws1 := Put(out, ws, DivOpen(t));
      out', ws' := Put(mid, ws1, SetLine(line));
      Assoc(ws, [DivOpen(t)], [SetLine(line)]);
    } else {
      out', ws' := Put(out, ws, SetLine(line));
      assert [] + [SetLine(line)] == [SetLine(line)];
    }
  }

  /** A change of state in _generate_rest: exit the old state and enter the new one, or nothing. */
  method ChangeState(current: int, t: int, line: int, out: string, ghost ws: seq<Write>) returns (out': string, ghost ws': seq<Write>)
    requires out == Text(ws)
    ensures ws' == ws + Marker(current, t, line) && out' == Text(ws')
  {
    if current != t {
      var mid;
      ghost var ws1;
      mid, ws1 := ExitState(current, out, ws);
      out', ws' := EnterState(t, line, mid, ws1);
      Assoc(ws, ExitWrites(current), EnterWrites(t, line));
    } else {
      out', ws' := out, ws;
      assert ws + [] == ws;
    }
  }

  /** Writing one line in _generate_rest: a space first for code, then the line. */
  method WriteLine(c: SC.Classified, out: string, ghost ws: seq<Write>) returns (out': string, ghost ws': seq<Write>)
    requires out == Text(ws)
    ensures ws' == ws + Emit(c) && out' == Text(ws')
  {
    var spaced := out;
    ghost var ws1 := ws;
    if c.ctype == -1 {
      spaced, ws1 := Put(out, ws, Space);
    } else {
      assert ws + [] == ws;
    }
    out', ws' := Put(spaced, ws1, Line(c.s));
    Assoc(ws, if c.ctype == -1 then [Space] else [], [Line(c.s)]);
  }

  /**
   * Before the line at index i, in state `current`, the writes so far
   * followed by what the machine writes for the remaining lines are
   * everything it writes.
   */
  predicate Progress(lines: seq<SC.Classified>, i: nat, current: int, writes: seq<Write>)
  {
    i <= |lines| && writes + Generated(lines, i, current) == Generated(lines, 0, -2)
  }

  lemma Assoc4<T>(a: seq<T>, b: seq<T>, c: seq<T>, d: seq<T>)
    ensures a + b + c + d == a + (b + (c + d))
  {
  }

  lemma ProgressStep(lines: seq<SC.Classified>, i: nat, current: int, writes: seq<Write>, marked: seq<Write>, writes': seq<Write>)
    requires Progress(lines, i, current, writes) && i < |lines|
    requires marked == writes + Marker(current, lines[i].ctype, i + 1)
    requires writes' == marked + Emit(lines[i])
    ensures Progress(lines, i + 1, lines[i].ctype, writes')
  {
    Assoc4(writes, Marker(current, lines[i].ctype, i + 1), Emit(lines[i]), Generated(lines, i + 1, lines[i].ctype));
  }

  lemma ProgressStart(lines: seq<SC.Classified>)
    ensures Progress(lines, 0, -2, [])
  {
    assert [] + Generated(lines, 0, -2) == Generated(lines, 0, -2);
  }

  lemma ProgressDone(lines: seq<SC.Classified>, current: int, writes: seq<Write>, final: seq<Write>)
    requires Progress(lines, |lines|, current, writes)
    requires final == writes + ExitWrites(current)
    ensures final == Generated(lines, 0, -2)
  {
  }

  /** One pass of _generate_rest's loop: change state if the type changed, then write the line. */
  method GenerateLine(lines: seq<SC.Classified>, i: nat, current: int, out: string, ghost writes: seq<Write>)
    returns (out': string, ghost writes': seq<Write>)
    requires i < |lines| && Progress(lines, i, current, writes) && out == Text(writes)
    ensures Progress(lines, i + 1, lines[i].ctype, writes') && out' == Text(writes')
  {
    var c := lines[i];
    var mid;
    ghost var marked;
    mid, marked := ChangeState(current, c.ctype, i + 1, out, writes);
    out', writes' := WriteLine(c, mid, marked);
    ProgressStep(lines, i, current, writes, marked, writes');
  }

  /**
   * _generate_rest: starting in state -2 at line 1, exit and enter states
   * only when the type changes, write every line, and exit the last state
   * once at the end.
   */
  method GenerateRest(lines: seq<SC.Classified>) returns (out: string)
    ensures out == Text(Generated(lines, 0, -2))
  {
    out := "";
    ghost var writes: seq<Write> := [];
    var currentType := -2;
    var line := 1;
    var i := 0;
    ProgressStart(lines);
    while i < |lines|
      invariant line == i + 1 && out == Text(writes)
      invariant Progress(lines, i, currentType, writes)
    {
      out, writes := GenerateLine(lines, i, currentType, out, writes);
      currentType := lines[i].ctype;
      line := line + 1;
      i := i + 1;
    }
    ghost var last := writes;
    out, writes := ExitState(currentType, out, writes);
    ProgressDone(lines, currentType, last, writes);
  }

  // ---------------------------------------------------------------------
  // The output as a sequence of blocks, one per run of equal types
  // ---------------------------------------------------------------------

  /** The lines of one run: all of one type, the first being line `line`. */
  datatype Block = Block(ctype: int, body: seq<SC.Classified>, line: int)

  /** Where the run of type t starting at index i ends: the first later line of another type, or the end. */
  function RunEnd(lines: seq<SC.Classified>, i: nat, t: int): (j: nat)
    requires i <= |lines|
    ensures i <= j <= |lines|
    ensures i < |lines| && lines[i].ctype == t ==> i < j
    decreases |lines| - i
  {
    if i == |lines| || lines[i].ctype != t then i else RunEnd(lines, i + 1, t)
  }

  /** The run is maximal: every line in it has type t, and the line after it does not. */
  lemma {:induction false} RunEndExact(lines: seq<SC.Classified>, i: nat, t: int)
    requires i <= |lines|
    ensures forall k :: i <= k < RunEnd(lines, i, t) ==> lines[k].ctype == t
    ensures RunEnd(lines, i, t) < |lines| ==> lines[RunEnd(lines, i, t)].ctype != t
    decreases |lines| - i
  {
    if i < |lines| && lines[i].ctype == t {
      RunEndExact(lines, i + 1, t);
    }
  }

  /** The line after a run, if any, does not continue it. */
  lemma RunEndStops(lines: seq<SC.Classified>, i: nat, t: int, j: nat)
    requires i <= |lines| && j == RunEnd(lines, i, t)
    ensures j == |lines| || lines[j].ctype != t
  {
    RunEndExact(lines, i, t);
  }

  /** lines[i..] cut into maximal runs of one type. */
  function Partition(lines: seq<SC.Classified>, i: nat): seq<Block>
    requires i <= |lines|
    decreases |lines| - i
  {
    if i == |lines| then []
    else
      var j := RunEnd(lines, i, lines[i].ctype);
      [Block(lines[i].ctype, lines[i..j], i + 1)] + Partition(lines, j)
  }

  function Bodies(bs: seq<Block>): seq<SC.Classified>
  {
    if bs == [] then [] else bs[0].body + Bodies(bs[1..])
  }

  /** A run is non-empty and of its block's type. */
  predicate IsRun(b: Block)
  {
    |b.body| > 0 && forall k :: 0 <= k < |b.body| ==> b.body[k].ctype == b.ctype
  }

  lemma PartitionStep(lines: seq<SC.Classified>, i: nat, j: nat)
    requires i < |lines| && j == RunEnd(lines, i, lines[i].ctype)
    ensures i < j <= |lines|
    ensures Partition(lines, i) == [Block(lines[i].ctype, lines[i..j], i + 1)] + Partition(lines, j)
  {
  }

  lemma TailOf<T>(x: T, p: seq<T>)
    ensures ([x] + p)[1..] == p
  {
  }

  /** Bodies of a block list that starts with b. */
  lemma BodiesStep(bs: seq<Block>, b: Block, rest: seq<Block>, lines: seq<SC.Classified>, i: nat, j: nat)
    requires bs == [b] + rest && i <= j <= |lines|
    requires b.body == lines[i..j] && Bodies(rest) == lines[j..]
    ensures Bodies(bs) == lines[i..]
  {
    TailOf(b, rest);
    assert lines[i..j] + lines[j..] == lines[i..];
  }

  /** The runs put back together are the lines. */
  lemma {:induction false} PartitionBodies(lines: seq<SC.Classified>, i: nat)
    requires i <= |lines|
    ensures Bodies(Partition(lines, i)) == lines[i..]
    decreases |lines| - i
  {
    if i < |lines| {
      var j := RunEnd(lines, i, lines[i].ctype);
      PartitionStep(lines, i, j);
      PartitionBodies(lines, j);
      BodiesStep(Partition(lines, i), Block(lines[i].ctype, lines[i..j], i + 1), Partition(lines, j), lines, i, j);
    }
  }

  /** The first block is a run. */
  lemma FirstIsRun(lines: seq<SC.Classified>, i: nat, j: nat)
    requires i < |lines| && j == RunEnd(lines, i, lines[i].ctype)
    ensures IsRun(Block(lines[i].ctype, lines[i..j], i + 1))
  {
    RunEndExact(lines, i, lines[i].ctype);
    assert forall k :: 0 <= k < j - i ==> lines[i..j][k] == lines[i + k];
  }

  /** Each run is non-empty and of one type. */
  lemma {:induction false} PartitionRuns(lines: seq<SC.Classified>, i: nat)
    requires i <= |lines|
    ensures forall m :: 0 <= m < |Partition(lines, i)| ==> IsRun(Partition(lines, i)[m])
    decreases |lines| - i
  {
    if i < |lines| {
      var j := RunEnd(lines, i, lines[i].ctype);
      PartitionStep(lines, i, j);
      FirstIsRun(lines, i, j);
      PartitionRuns(lines, j);
      var bs := Partition(lines, i);
      var rest := Partition(lines, j);
      forall m | 0 < m < |bs|
        ensures IsRun(bs[m])
      {
        assert bs[m] == rest[m - 1];
      }
    }
  }

  /**
   * Two runs in a row differ in type, and each run starts at the line after
   * the previous one ends; the first starts at line i + 1 with the type of
   * the line at index i.
   */
  lemma {:induction false} PartitionAlternates(lines: seq<SC.Classified>, i: nat)
    requires i <= |lines|
    ensures Partition(lines, i) != [] ==> Partition(lines, i)[0].line == i + 1 && Partition(lines, i)[0].ctype == lines[i].ctype
    ensures forall m :: 0 < m < |Partition(lines, i)| ==> Partition(lines, i)[m - 1].ctype != Partition(lines, i)[m].ctype
    ensures forall m :: 0 < m < |Partition(lines, i)| ==>
      Partition(lines, i)[m].line == Partition(lines, i)[m - 1].line + |Partition(lines, i)[m - 1].body|
    decreases |lines| - i
  {
    if i < |lines| {
      var j := RunEnd(lines, i, lines[i].ctype);
      PartitionStep(lines, i, j);
      RunEndStops(lines, i, lines[i].ctype, j);
      var bs := Partition(lines, i);
      var rest := Partition(lines, j);
      PartitionAlternates(lines, j);
      forall m | 0 < m < |bs|
        ensures bs[m - 1].ctype != bs[m].ctype
        ensures bs[m].line == bs[m - 1].line + |bs[m - 1].body|
      {
        if m == 1 {
          assert bs[1] == rest[0];
        } else {
          assert bs[m - 1] == rest[m - 2] && bs[m] == rest[m - 1];
        }
      }
    }
  }

  /** The writes of a run: enter its state, write its lines, exit its state. */
  function Render(b: Block): seq<Write>
  {
    EnterWrites(b.ctype, b.line) + Emits(b.body) + ExitWrites(b.ctype)
  }

  function Emits(lines: seq<SC.Classified>): seq<Write>
  {
    if lines == [] then [] else Emit(lines[0]) + Emits(lines[1..])
  }

  function RenderAll(bs: seq<Block>): seq<Write>
  {
    if bs == [] then [] else Render(bs[0]) + RenderAll(bs[1..])
  }

  /** The writes of lines[i..j] are the first line's, then the rest's. */
  lemma EmitsCons(lines: seq<SC.Classified>, i: nat, j: nat)
    requires i < j <= |lines|
    ensures Emits(lines[i..j]) == Emit(lines[i]) + Emits(lines[i + 1..j])
  {
    assert lines[i..j][1..] == lines[i + 1..j];
  }

  /** Inside a run the machine only writes the lines. */
  lemma {:induction false} ContinueRun(lines: seq<SC.Classified>, i: nat, j: nat, t: int)
    requires i <= j <= |lines|
    requires forall k :: i <= k < j ==> lines[k].ctype == t
    ensures Generated(lines, i, t) == Emits(lines[i..j]) + Generated(lines, j, t)
    decreases j - i
  {
    if i < j {
      ContinueRun(lines, i + 1, j, t);
      EmitsCons(lines, i, j);
      Assoc(Emit(lines[i]), Emits(lines[i + 1..j]), Generated(lines, j, t));
    } else {
      assert Emits(lines[i..j]) == [];
    }
  }

  /** A change of state at index i writes its marker, then continues as in the new state. */
  lemma Switch(lines: seq<SC.Classified>, i: nat, current: int)
    requires i < |lines|
    ensures Generated(lines, i, current) == Marker(current, lines[i].ctype, i + 1) + Generated(lines, i, lines[i].ctype)
  {
    assert [] + (Emit(lines[i]) + Generated(lines, i + 1, lines[i].ctype)) == Emit(lines[i]) + Generated(lines, i + 1, lines[i].ctype);
  }

  /** Entering a run from another state: exit, enter, the run's lines, then the rest in the run's state. */
  lemma EnterRun(lines: seq<SC.Classified>, i: nat, current: int, j: nat)
    requires i < |lines| && current != lines[i].ctype && j == RunEnd(lines, i, lines[i].ctype)
    ensures Generated(lines, i, current)
         == (ExitWrites(current) + EnterWrites(lines[i].ctype, i + 1)) + (Emits(lines[i..j]) + Generated(lines, j, lines[i].ctype))
  {
    RunEndExact(lines, i, lines[i].ctype);
    ContinueRun(lines, i, j, lines[i].ctype);
    Switch(lines, i, current);
  }

  /** The blocks of lines[i..]: the first run's block, then the rest's. */
  lemma RenderAllHead(lines: seq<SC.Classified>, i: nat, j: nat)
    requires i < |lines| && j == RunEnd(lines, i, lines[i].ctype)
    ensures RenderAll(Partition(lines, i))
         == ((EnterWrites(lines[i].ctype, i + 1) + Emits(lines[i..j])) + ExitWrites(lines[i].ctype)) + RenderAll(Partition(lines, j))
  {
    PartitionStep(lines, i, j);
    TailOf(Block(lines[i].ctype, lines[i..j], i + 1), Partition(lines, j));
  }

  /** The machine's writes from index i in state `current` are the exit of `current`, then the blocks of lines[i..]. */
  predicate BlocksOf(lines: seq<SC.Classified>, i: nat, current: int)
    requires i <= |lines|
  {
    Generated(lines, i, current) == ExitWrites(current) + RenderAll(Partition(lines, i))
  }

  lemma Combine<T>(g: seq<T>, g': seq<T>, a: seq<T>, x: seq<T>, e: seq<T>, m: seq<T>, z: seq<T>, r: seq<T>)
    requires g == (x + e) + (m + g') && g' == z + r && a == ((e + m) + z) + r
    ensures g == x + a
  {
  }

  /** The first run's step of the induction: the blocks after the run give the blocks from its start. */
  lemma BlocksStep(lines: seq<SC.Classified>, i: nat, current: int, j: nat)
    requires i < |lines| && current != lines[i].ctype && j == RunEnd(lines, i, lines[i].ctype)
    requires BlocksOf(lines, j, lines[i].ctype)
    ensures BlocksOf(lines, i, current)
  {
    var t := lines[i].ctype;
    EnterRun(lines, i, current, j);
    RenderAllHead(lines, i, j);
    Combine(Generated(lines, i, current), Generated(lines, j, t), RenderAll(Partition(lines, i)),
      ExitWrites(current), EnterWrites(t, i + 1), Emits(lines[i..j]), ExitWrites(t), RenderAll(Partition(lines, j)));
  }

  /**
   * Leaving state `current` for lines[i..], whose first type differs, the
   * machine writes the exit of `current`, then each run as one block.
   */
  lemma {:induction false} GeneratedIsBlocks(lines: seq<SC.Classified>, i: nat, current: int)
    requires i <= |lines| && (i == |lines| || current != lines[i].ctype)
    ensures BlocksOf(lines, i, current)
    decreases |lines| - i
  {
    if i == |lines| {
      assert ExitWrites(current) + [] == ExitWrites(current);
    } else {
      var t := lines[i].ctype;
      var j := RunEnd(lines, i, t);
      RunEndStops(lines, i, t, j);
      GeneratedIsBlocks(lines, j, t);
      BlocksStep(lines, i, current, j);
    }
  }

  /**
   * The reST of lines whose first type is not the initial -2 (the
   * classifier never produces -2) is its runs' blocks in order: code fenced
   * by BeginFence and EndFence, each indented comment between DivOpen and
   * DivClose, each comment run after a set-line for its first line.
   */
  lemma GenerateRestIsBlocks(lines: seq<SC.Classified>)
    requires lines == [] || lines[0].ctype != -2
    ensures Generated(lines, 0, -2) == RenderAll(Partition(lines, 0))
  {
    GeneratedIsBlocks(lines, 0, -2);
  }

  /** Three lines of code become one fenced block, each line written after a space. */
  lemma CodeBlockExample()
    ensures Generated([SC.Classified(-1, "\n"), SC.Classified(-1, "code\n"), SC.Classified(-1, "\n")], 0, -2)
         == [BeginFence, Space, Line("\n"), Space, Line("code\n"), Space, Line("\n"), EndFence]
  {
    var lines := [SC.Classified(-1, "\n"), SC.Classified(-1, "code\n"), SC.Classified(-1, "\n")];
    assert Generated(lines, 2, -1) == [Space, Line("\n"), EndFence];
  }

  /**
   * Comment lines indented by 3 sit in a div with a margin of 1.5 em, after
   * a set-line of -3 for line 1.
   */
  lemma IndentedCommentExample()
    ensures Generated([SC.Classified(3, "\n"), SC.Classified(3, "comment\n"), SC.Classified(3, "\n")], 0, -2)
         == [DivOpen(3), SetLine(1), Line("\n"), Line("comment\n"), Line("\n"), DivClose]
  {
    var lines := [SC.Classified(3, "\n"), SC.Classified(3, "comment\n"), SC.Classified(3, "\n")];
    assert Generated(lines, 2, 3) == [Line("\n"), DivClose];
  }

  /** An indent of 3 is a margin of 1.5 em. */
  lemma DivOpenExample()
    ensures WriteText(DivOpen(3)) == "\n" + RawHtml + "\n\n" + DivMargin + ":" + "1.5" + "em;\">\n\n"
  {
    assert NatStr(1) == "1";
    assert HalfStr(3) == "1.5";
  }

  /** Line 1 is announced as set-line -3. */
  lemma SetLineExample()
    ensures WriteText(SetLine(1)) == "\n" + SetLineDirective + " -3\n\n..\n\n"
  {
    assert NatStr(3) == "3";
    assert IntStr(1 - 4) == "-3";
  }

  // ---------------------------------------------------------------------
  // The fenced-code directive
  // ---------------------------------------------------------------------

  /** How many leading lines are empty. */
  function LeadingEmpty(c: seq<string>): (k: nat)
    ensures k <= |c|
  {
    if c == [] || c[0] != "" then 0 else 1 + LeadingEmpty(c[1..])
  }

  /** LeadingEmpty(c) counts exactly the empty lines before the first non-empty one. */
  lemma {:induction false} LeadingEmptyExact(c: seq<string>)
    ensures forall j :: 0 <= j < LeadingEmpty(c) ==> c[j] == ""
    ensures LeadingEmpty(c) < |c| ==> c[LeadingEmpty(c)] != ""
  {
    if c != [] && c[0] == "" {
      LeadingEmptyExact(c[1..]);
      assert forall j :: 1 <= j < LeadingEmpty(c) ==> c[j] == c[1..][j - 1];
    }
  }

  /** How many trailing lines are empty. */
  function TrailingEmpty(c: seq<string>): (k: nat)
    ensures k <= |c|
  {
    if c == [] || c[|c| - 1] != "" then 0 else 1 + TrailingEmpty(c[..|c| - 1])
  }

  /** TrailingEmpty(c) counts exactly the empty lines after the last non-empty one. */
  lemma {:induction false} TrailingEmptyExact(c: seq<string>)
    ensures forall j :: |c| - TrailingEmpty(c) <= j < |c| ==> c[j] == ""
    ensures TrailingEmpty(c) < |c| ==> c[|c| - 1 - TrailingEmpty(c)] != ""
  {
    if c != [] && c[|c| - 1] == "" {
      TrailingEmptyExact(c[..|c| - 1]);
    }
  }

  /** Whether line i is among the empty lines at either end of c. */
  predicate AtAnEnd(c: seq<string>, i: int)
  {
    i < LeadingEmpty(c) || |c| - TrailingEmpty(c) <= i
  }

  /**
   * The content after padding: every empty line before the first
   * non-empty one or after the last becomes a single space.
   */
  function Padded(c: seq<string>): (r: seq<string>)
    ensures |r| == |c|
  {
    seq(|c|, i requires 0 <= i < |c| => if AtAnEnd(c, i) then " " else c[i])
  }

  /**
   * Padding changes only empty lines, each into a single space, and leaves
   * no empty line at either end, so Pygments' newline stripping cannot drop
   * any line.
   */
  lemma PaddedProperties(c: seq<string>)
    ensures forall i :: 0 <= i < |c| ==> (Padded(c)[i] == c[i] || (c[i] == "" && Padded(c)[i] == " "))
    ensures |c| > 0 ==> Padded(c)[0] != "" && Padded(c)[|c| - 1] != ""
  {
    LeadingEmptyExact(c);
    TrailingEmptyExact(c);
    if |c| > 0 {
      assert c[0] == "" ==> AtAnEnd(c, 0);
      var n := |c| - 1;
      if c[n] == "" {
        assert TrailingEmpty(c) >= 1;
      }
    }
  }

  /**
   * content is c with its first `lead` and last `trail` lines replaced by a
   * space: the state of run()'s two padding loops.
   */
  predicate PaddedEnds(content: seq<string>, c: seq<string>, lead: nat, trail: nat)
  {
    && |content| == |c|
    && forall j :: 0 <= j < |c| ==> content[j] == (if j < lead || |c| - trail <= j then " " else c[j])
  }

  /** Padding one more empty line at the front. */
  lemma PadLeadStep(content: seq<string>, c: seq<string>, i: nat)
    requires PaddedEnds(content, c, i, 0) && i < |c| && i <= LeadingEmpty(c)
    requires content[i] == ""
    ensures i + 1 <= LeadingEmpty(c)
    ensures PaddedEnds(content[i := " "], c, i + 1, 0)
  {
    LeadingEmptyExact(c);
  }

  /** The forward walk stops at the first non-empty line. */
  lemma PadLeadStops(content: seq<string>, c: seq<string>, i: nat)
    requires PaddedEnds(content, c, i, 0) && i < |c| && i <= LeadingEmpty(c)
    requires content[i] != ""
    ensures i == LeadingEmpty(c)
    ensures i + TrailingEmpty(c) < |c|
  {
    LeadingEmptyExact(c);
    TrailingEmptyExact(c);
    assert c[i] != "";
  }

  /** Padding one more line at the back, one that was empty in c too. */
  lemma PadTrailStep(content: seq<string>, c: seq<string>, lead: nat, k: nat)
    requires lead + k < |c| && PaddedEnds(content, c, lead, k)
    requires content[|c| - k - 1] == ""
    ensures c[|c| - k - 1] == ""
    ensures PaddedEnds(content[|c| - k - 1 := " "], c, lead, k + 1)
  {
    var n := |c| - k - 1;
    assert content[n] == (if n < lead || |c| - k <= n then " " else c[n]);
  }

  /** An empty line just before the k trailing ones found so far is trailing too. */
  lemma {:induction false} TrailGrows(c: seq<string>, k: nat)
    requires k <= TrailingEmpty(c) && k < |c| && c[|c| - k - 1] == ""
    ensures k + 1 <= TrailingEmpty(c)
    decreases k
  {
    if k > 0 {
      var c' := c[..|c| - 1];
      assert c'[|c'| - (k - 1) - 1] == c[|c| - k - 1];
      TrailGrows(c', k - 1);
    }
  }

  /** The backward walk stops at the last non-empty line. */
  lemma PadTrailStops(content: seq<string>, c: seq<string>, lead: nat, k: nat)
    requires lead + TrailingEmpty(c) < |c| && k <= TrailingEmpty(c)
    requires PaddedEnds(content, c, lead, k)
    requires content[|c| - k - 1] != ""
    ensures k == TrailingEmpty(c)
  {
    var n := |c| - k - 1;
    assert content[n] == (if n < lead || |c| - k <= n then " " else c[n]);
    TrailingEmptyExact(c);
  }

  /** When both walks stop at a non-empty line, the result is Padded(c). */
  lemma PaddedEndsIsPadded(content: seq<string>, c: seq<string>)
    requires PaddedEnds(content, c, LeadingEmpty(c), TrailingEmpty(c))
    ensures content == Padded(c)
  {
    var r := Padded(c);
    assert forall j :: 0 <= j < |c| ==> content[j] == r[j];
  }

  /** When the forward walk passes every line, each one is padded. */
  lemma AllPaddedIsPadded(content: seq<string>, c: seq<string>)
    requires PaddedEnds(content, c, |c|, 0)
    requires LeadingEmpty(c) == |c|
    ensures content == Padded(c)
  {
    var r := Padded(c);
    assert forall j :: 0 <= j < |c| ==> content[j] == r[j];
  }

  /** _FencedCodeBlock: the directive's content lines, which run() edits in place. */
  class FencedCodeBlock {
    var content: seq<string>

    constructor(content: seq<string>)
      ensures this.content == content
    {
      this.content := content;
    }

    /**
     * The content part of run(): with fewer than two lines it reports an
     * error and changes nothing; otherwise it drops the two fence lines
     * and pads the empty lines at either end of what remains. Rendering the
     * result is docutils' CodeBlock.run, not part of this model.
     */
    method Run() returns (ok: bool)
      modifies this
      ensures ok <==> |old(content)| >= 2
      ensures !ok ==> content == old(content)
      ensures ok ==> content == Padded(old(content)[1..|old(content)| - 1])
    {
      if |content| < 2 {
        return false;
      }
      ok := true;
      content := content[1..|content| - 1];
      ghost var c := content;
      var processedAllContent := true;
      var i := 0;
      while i < |content|
        invariant i <= LeadingEmpty(c) && i <= |c|
        invariant PaddedEnds(content, c, i, 0)
        invariant processedAllContent
      {
        if content[i] != "" {
          PadLeadStops(content, c, i);
          processedAllContent := false;
          break;
        }
        PadLeadStep(content, c, i);
        content := content[i := " "];
        i := i + 1;
      }
      if !processedAllContent {
        ghost var lead := i;
        var k := 0;
        while k < |content|
          invariant lead == LeadingEmpty(c) && lead + TrailingEmpty(c) < |c|
          invariant k <= TrailingEmpty(c) && PaddedEnds(content, c, lead, k)
        {
          if content[|content| - k - 1] != "" {
            PadTrailStops(content, c, lead, k);
            break;
          }
          PadTrailStep(content, c, lead, k);
          TrailGrows(c, k);
          content := content[|content| - k - 1 := " "];
          k := k + 1;
        }
        PaddedEndsIsPadded(content, c);
      } else {
        AllPaddedIsPadded(content, c);
      }
    }
  }
}
