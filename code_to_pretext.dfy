/**
 * CodeToPretext's output side. Code lines are HTML-escaped; comment lines
 * are written after as many spaces as their indent; a comment run opens
 * with <p> unless its first line already does, and closes by backing up
 * over the last written newline to write </p> unless the line handed to
 * the exit already ends with a closing tag. The output is an in-memory
 * text file whose write position can be moved back.
 */
module CodeToPretext {
  import opened PyText
  import SC = SourceClassifier

  // ---------------------------------------------------------------------
  // The in-memory text file
  // ---------------------------------------------------------------------

  /** The contents of a text file and its write position. */
  datatype Stream = Stream(buf: string, pos: nat)

  predicate Valid(st: Stream)
  {
    st.pos <= |st.buf|
  }

  /**
   * write(s) at the position: s replaces the characters it covers, the
   * file grows when s runs past its end, and the position moves past s.
   */
  function WriteAt(st: Stream, s: string): (r: Stream)
    requires Valid(st)
    ensures Valid(r) && r.pos == st.pos + |s|
  {
    var rest := if st.pos + |s| < |st.buf| then st.buf[st.pos + |s|..] else "";
    Stream(st.buf[..st.pos] + s + rest, st.pos + |s|)
  }

  /** Writing at the end of the file appends. */
  lemma WriteAtEnd(st: Stream, s: string)
    requires st.pos == |st.buf|
    ensures WriteAt(st, s) == Stream(st.buf + s, |st.buf + s|)
  {
  }

  /** The text file of the translators: a string and a position, written and moved in place. */
  class StringIO {
    var buf: string
    var pos: nat

    function State(): Stream
      reads this
    {
      Stream(buf, pos)
    }

    constructor ()
      ensures buf == "" && pos == 0
    {
      buf := "";
      pos := 0;
    }

    /** write: returns how many characters were written. */
    method Write(s: string) returns (n: nat)
      requires Valid(State())
      modifies this
      ensures State() == WriteAt(old(State()), s) && n == |s|
    {
      var rest := if pos + |s| < |buf| then buf[pos + |s|..] else "";
      buf := buf[..pos] + s + rest;
      pos := pos + |s|;
      n := |s|;
    }

    /** seek(p, 0): move the position, leaving the contents alone. */
    method Seek(p: nat)
      requires p <= |buf|
      modifies this
      ensures buf == old(buf) && pos == p
    {
      pos := p;
    }
  }

  // ---------------------------------------------------------------------
  // The two tag tests
  // ---------------------------------------------------------------------

  /** s without its leading white characters. */
  function LStrip(s: string): (r: string)
    ensures |r| <= |s|
  {
    if |s| == 0 || !IsWhite(s[0]) then s else LStrip(s[1..])
  }

  /** s without its trailing white characters. */
  function RStrip(s: string): (r: string)
    ensures |r| <= |s|
  {
    if |s| == 0 || !IsWhite(s[|s| - 1]) then s else RStrip(s[..|s| - 1])
  }

  /** The opening-tag pattern ^\s*<p\s*>: white space, "<p", white space, ">" at the start. */
  predicate OpensP(s: string)
  {
    var u := LStrip(s);
    StartsWith(u, "<p") && StartsWith(LStrip(u[2..]), ">")
  }

  /** The closing-tag pattern </p\s*>\s*$: "</p", white space, ">" and white space at the end. */
  predicate ClosesP(s: string)
  {
    var u := RStrip(s);
    EndsWith(u, ">") && EndsWith(RStrip(u[..|u| - 1]), "</p")
  }

  lemma OpensPNonEmpty(s: string)
    ensures OpensP(s) ==> |s| >= 3
  {
    if OpensP(s) {
      var u := LStrip(s);
      assert |LStrip(u[2..])| >= 1;
    }
  }

  // ---------------------------------------------------------------------
  // _generate_pretext and _exit_state on a stream
  // ---------------------------------------------------------------------

  /** " " * t: t spaces, none for t <= 0. */
  function Spaces(t: int): (r: string)
    ensures |r| == (if t > 0 then t else 0)
  {
    if t <= 0 then "" else Spaces(t - 1) + " "
  }

  /** A line's string after the entry rule: a comment run's first line gains <p> unless it opens with one. */
  function Opened(c: SC.Classified, entered: bool): string
  {
    if entered && c.ctype != -1 && !OpensP(c.s) then "<p>" + c.s else c.s
  }

  /** After the entry rule, a comment run's first line opens a paragraph. */
  lemma OpenedOpens(c: SC.Classified, entered: bool)
    ensures entered && c.ctype != -1 ==> OpensP(Opened(c, entered))
  {
    if entered && c.ctype != -1 && !OpensP(c.s) {
      assert LStrip("<p>" + c.s) == "<p>" + c.s;
      assert LStrip(("<p>" + c.s)[2..]) == ">" + c.s;
    }
  }

  /** What is written for a line: code escaped, a comment after its indent in spaces. */
  function Shown(c: SC.Classified, entered: bool): string
  {
    if c.ctype == -1 then Escape(c.s) else Spaces(c.ctype) + Opened(c, entered)
  }

  /**
   * The per-line rules the state machine applies: the text written for a
   * line given whether it starts a run, the line's string after the entry
   * rule, and the closing-tag test made at an exit. The machine and its
   * proofs below are stated for any rules that are Sound; the translator
   * uses Pretext().
   */
  type LineText = (SC.Classified, bool) -> string
  type Test = string -> bool
  datatype Rules = Rules(shown: LineText, entry: LineText, closes: Test)

  /** The first line of a comment run writes something, so the run's exit has a character to back up over. */
  ghost predicate Sound(r: Rules)
  {
    forall c: SC.Classified, entered: bool :: entered && c.ctype >= 0 ==> |r.shown(c, entered)| >= 1
  }

  /** The text written for a line ends with a newline when the line does. */
  ghost predicate KeepsNl(r: Rules)
  {
    forall c: SC.Classified, entered: bool :: EndsNl(c.s) ==> EndsNl(r.shown(c, entered))
  }

  lemma ShownSound()
    ensures Sound(Rules(Shown, Opened, ClosesP))
  {
    forall c: SC.Classified, entered: bool | entered && c.ctype >= 0
      ensures |Shown(c, entered)| >= 1
    {
      OpenedOpens(c, entered);
      OpensPNonEmpty(Opened(c, entered));
    }
  }

  /** The rules of _generate_pretext. */
  function Pretext(): (r: Rules)
    ensures Sound(r)
  {
    ShownSound();
    Rules(Shown, Opened, ClosesP)
  }

  lemma {:induction false} EscapeEndsNl(s: string)
    requires EndsNl(s)
    ensures EndsNl(Escape(s))
  {
    if |s| > 1 {
      EscapeEndsNl(s[1..]);
    }
  }

  /** Escaping and indenting keep a line's final newline. */
  lemma PretextKeepsNl()
    ensures KeepsNl(Pretext())
  {
    forall c: SC.Classified, entered: bool | EndsNl(c.s)
      ensures EndsNl(Shown(c, entered))
    {
      if c.ctype == -1 {
        EscapeEndsNl(c.s);
      }
    }
  }

  /** The stream is usable in state t: a comment state has written something to back up over. */
  predicate Ok(t: int, st: Stream)
  {
    Valid(st) && (t >= 0 ==> st.pos >= 1)
  }

  /** _exit_state: a comment state ends by overwriting the last character with </p> and a newline, unless `last` closes the paragraph. */
  function ExitAt(r: Rules, t: int, last: string, st: Stream): (s: Stream)
    requires Ok(t, st)
    ensures Valid(s)
  {
    if t >= 0 && !r.closes(last) then WriteAt(Stream(st.buf, st.pos - 1), "</p>\n") else st
  }

  /** One line in state `current`: exit and enter if the type changed, then write the line. */
  function StepLine(r: Rules, c: SC.Classified, current: int, st: Stream): (s: Stream)
    requires Sound(r) && Ok(current, st)
    ensures Ok(c.ctype, s)
  {
    var entered := current != c.ctype;
    var st1 := if entered then ExitAt(r, current, c.s, st) else st;
    WriteAt(st1, r.shown(c, entered))
  }

  /**
   * The stream after lines[i..] in state `current`, `last` being the
   * string of the previous line (after the entry rule), the final exit
   * included.
   */
  function Run(r: Rules, lines: seq<SC.Classified>, i: nat, current: int, last: string, st: Stream): (s: Stream)
    requires Sound(r) && i <= |lines| && Ok(current, st)
    ensures Valid(s)
    decreases |lines| - i
  {
    if i == |lines| then ExitAt(r, current, last, st)
    else
      var c := lines[i];
      Run(r, lines, i + 1, c.ctype, r.entry(c, current != c.ctype), StepLine(r, c, current, st))
  }

  /** The stream after the newline probe at the start: "\n" written, then the position moved back over it. */
  function Probe(st: Stream): (r: Stream)
    requires Valid(st)
    ensures Ok(-2, r) && r.pos == st.pos
  {
    Stream(WriteAt(st, "\n").buf, st.pos)
  }

  /** _exit_state on the file. */
  method ExitState(t: int, last: string, f: StringIO)
    requires Ok(t, f.State())
    modifies f
    ensures f.State() == ExitAt(Pretext(), t, last, old(f.State()))
  {
    if t >= 0 && !ClosesP(last) {
      f.Seek(f.pos - 1);
      var _ := f.Write("</p>\n");
    }
  }

  /** One pass of _generate_pretext's loop; returns the line's string after the entry rule. */
  method GenerateLine(c: SC.Classified, current: int, f: StringIO) returns (s: string)
    requires Ok(current, f.State())
    modifies f
    ensures f.State() == StepLine(Pretext(), c, current, old(f.State())) && s == Opened(c, current != c.ctype)
  {
    s := c.s;
    if current != c.ctype {
      ExitState(current, s, f);
      if c.ctype != -1 {
        if !OpensP(s) {
          s := "<p>" + s;
        }
      }
    }
    var out := if c.ctype == -1 then Escape(s) else Spaces(c.ctype) + s;
    var _ := f.Write(out);
  }

  /**
   * _generate_pretext: probe the newline width, then run the state machine
   * from state -2 and exit the last state with the last line's string.
   * With no lines at all the source's final exit names a variable the loop
   * never set and raises, so at least one line is required.
   */
  method GeneratePretext(lines: seq<SC.Classified>, f: StringIO)
    requires lines != [] && Valid(f.State())
    modifies f
    ensures f.State() == Run(Pretext(), lines, 0, -2, "", Probe(old(f.State())))
  {
    var newlineChars := f.Write("\n");
    f.Seek(f.pos - newlineChars);
    var currentType := -2;
    var str := "";
    var i := 0;
    while i < |lines|
      invariant i <= |lines| && Ok(currentType, f.State())
      invariant Run(Pretext(), lines, i, currentType, str, f.State()) == Run(Pretext(), lines, 0, -2, "", Probe(old(f.State())))
    {
      str := GenerateLine(lines[i], currentType, f);
      currentType := lines[i].ctype;
      i := i + 1;
    }
    ExitState(currentType, str, f);
  }

  // ---------------------------------------------------------------------
  // The output line by line
  // ---------------------------------------------------------------------

  /** Whether line i starts a run: its type differs from the one before (-2 before the first). */
  predicate Entered(lines: seq<SC.Classified>, i: nat)
    requires i < |lines|
  {
    (if i == 0 then -2 else lines[i - 1].ctype) != lines[i].ctype
  }

  function Body(r: Rules, lines: seq<SC.Classified>, i: nat): string
    requires i < |lines|
  {
    r.shown(lines[i], Entered(lines, i))
  }

  /**
   * Whether line i ends a comment run whose paragraph gets closed: the
   * string handed to the exit is the next line's as read, or after the
   * last line that line's own string after the entry rule.
   */
  predicate Closes(r: Rules, lines: seq<SC.Classified>, i: nat)
    requires i < |lines|
  {
    lines[i].ctype >= 0
    && if i + 1 < |lines| then lines[i + 1].ctype != lines[i].ctype && !r.closes(lines[i + 1].s)
       else !r.closes(r.entry(lines[i], Entered(lines, i)))
  }

  /** Line i's text in the output: the last newline of a closed run's last line becomes </p> and a newline. */
  function Piece(r: Rules, lines: seq<SC.Classified>, i: nat): string
    requires i < |lines|
  {
    CloseIf(Closes(r, lines, i), Body(r, lines, i))
  }

  /** A line's text with its last character replaced by </p> and a newline when `closing`. */
  function CloseIf(closing: bool, b: string): string
  {
    if closing && |b| > 0 then b[..|b| - 1] + "</p>\n" else b
  }

  /** The output of lines k and after, line by line. */
  function Rest(r: Rules, lines: seq<SC.Classified>, k: nat): string
    requires k <= |lines|
    decreases |lines| - k
  {
    if k == |lines| then "" else Piece(r, lines, k) + Rest(r, lines, k + 1)
  }

  /** The output for all lines, line by line. */
  function Pieces(r: Rules, lines: seq<SC.Classified>): string
  {
    Rest(r, lines, 0)
  }

  predicate AllNl(lines: seq<SC.Classified>)
  {
    forall k :: 0 <= k < |lines| ==> EndsNl(lines[k].s)
  }

  /** A file holding exactly t, positioned at its end. */
  function At(t: string): Stream
  {
    Stream(t, |t|)
  }

  /** The string of line i - 1 as the machine keeps it for the exit: after the entry rule. */
  function Kept(r: Rules, lines: seq<SC.Classified>, i: nat): string
    requires 1 <= i <= |lines|
  {
    r.entry(lines[i - 1], Entered(lines, i - 1))
  }

  /** Before line i (i >= 1) the file holds the finished output `done` and line i - 1 as written. */
  function Before(r: Rules, lines: seq<SC.Classified>, i: nat, done: string): Stream
    requires 1 <= i <= |lines|
  {
    At(done + Body(r, lines, i - 1))
  }

  lemma Assoc(a: string, b: string, c: string)
    ensures a + (b + c) == (a + b) + c
  {
  }

  /** An exit with the file positioned at the end of a line's text b ending in a newline. */
  lemma ExitShape(r: Rules, t: int, next: string, st: Stream, a: string, b: string)
    requires EndsNl(b) && st == At(a + b)
    ensures Ok(t, st)
    ensures ExitAt(r, t, next, st) == At(a + CloseIf(t >= 0 && !r.closes(next), b))
  {
    if t >= 0 && !r.closes(next) {
      assert st.buf[..st.pos - 1] == a + b[..|b| - 1];
    }
  }

  /** The state before line i is usable in line i - 1's state. */
  lemma BeforeOk(r: Rules, lines: seq<SC.Classified>, i: nat, done: string)
    requires 1 <= i <= |lines| && KeepsNl(r) && AllNl(lines)
    ensures Ok(lines[i - 1].ctype, Before(r, lines, i, done))
  {
    assert EndsNl(lines[i - 1].s);
    assert EndsNl(Body(r, lines, i - 1));
  }

  /** The exit after line i - 1, handed the next line's string or after the last line its own, finishes its piece. */
  lemma ExitFinishes(r: Rules, lines: seq<SC.Classified>, i: nat, done: string, next: string)
    requires 1 <= i <= |lines| && KeepsNl(r) && AllNl(lines)
    requires next == (if i < |lines| then lines[i].s else Kept(r, lines, i))
    requires i == |lines| || lines[i].ctype != lines[i - 1].ctype
    ensures Ok(lines[i - 1].ctype, Before(r, lines, i, done))
    ensures ExitAt(r, lines[i - 1].ctype, next, Before(r, lines, i, done)) == At(done + Piece(r, lines, i - 1))
  {
    assert EndsNl(lines[i - 1].s);
    assert EndsNl(Body(r, lines, i - 1));
    assert (lines[i - 1].ctype >= 0 && !r.closes(next)) == Closes(r, lines, i - 1);
    ExitShape(r, lines[i - 1].ctype, next, Before(r, lines, i, done), done, Body(r, lines, i - 1));
  }

  /** Writing a line's text at the end of the file. */
  lemma StepShape(r: Rules, c: SC.Classified, current: int, st: Stream, done: string, body: string)
    requires Sound(r) && Ok(current, st) && body == r.shown(c, current != c.ctype)
    requires (if current != c.ctype then ExitAt(r, current, c.s, st) else st) == At(done)
    ensures StepLine(r, c, current, st) == At(done + body)
  {
    WriteAtEnd(At(done), body);
  }

  /** A line of a new type finishes line i - 1 through the exit and writes line i. */
  lemma StepEnters(r: Rules, lines: seq<SC.Classified>, i: nat, done: string)
    requires Sound(r) && KeepsNl(r)
    requires 1 <= i < |lines| && AllNl(lines) && lines[i - 1].ctype != lines[i].ctype
    ensures Ok(lines[i - 1].ctype, Before(r, lines, i, done))
    ensures StepLine(r, lines[i], lines[i - 1].ctype, Before(r, lines, i, done)) == Before(r, lines, i + 1, done + Piece(r, lines, i - 1))
  {
    ExitFinishes(r, lines, i, done, lines[i].s);
    StepShape(r, lines[i], lines[i - 1].ctype, Before(r, lines, i, done), done + Piece(r, lines, i - 1), Body(r, lines, i));
  }

  /** A line followed by one of the same type is not closed. */
  lemma SameTypeKept(r: Rules, lines: seq<SC.Classified>, i: nat)
    requires 1 <= i < |lines| && lines[i].ctype == lines[i - 1].ctype
    ensures Piece(r, lines, i - 1) == Body(r, lines, i - 1)
  {
    assert !Closes(r, lines, i - 1);
  }

  /** A line of the same type leaves line i - 1 as written and writes line i. */
  lemma StepStays(r: Rules, lines: seq<SC.Classified>, i: nat, done: string)
    requires Sound(r) && KeepsNl(r)
    requires 1 <= i < |lines| && AllNl(lines) && lines[i - 1].ctype == lines[i].ctype
    ensures Ok(lines[i - 1].ctype, Before(r, lines, i, done))
    ensures StepLine(r, lines[i], lines[i - 1].ctype, Before(r, lines, i, done)) == Before(r, lines, i + 1, done + Piece(r, lines, i - 1))
  {
    BeforeOk(r, lines, i, done);
    SameTypeKept(r, lines, i);
    StepShape(r, lines[i], lines[i - 1].ctype, Before(r, lines, i, done), done + Piece(r, lines, i - 1), Body(r, lines, i));
  }

  /** One step of Run. */
  lemma RunStep(r: Rules, lines: seq<SC.Classified>, i: nat, current: int, last: string, st: Stream)
    requires Sound(r) && i < |lines| && Ok(current, st)
    ensures Run(r, lines, i, current, last, st)
         == Run(r, lines, i + 1, lines[i].ctype, r.entry(lines[i], current != lines[i].ctype), StepLine(r, lines[i], current, st))
  {
  }

  /** After the last line the exit finishes it. */
  lemma RunLast(r: Rules, lines: seq<SC.Classified>, i: nat, done: string)
    requires Sound(r) && KeepsNl(r) && 1 <= i == |lines| && AllNl(lines)
    ensures Ok(lines[i - 1].ctype, Before(r, lines, i, done))
    ensures Run(r, lines, i, lines[i - 1].ctype, Kept(r, lines, i), Before(r, lines, i, done)) == At(done + Rest(r, lines, i - 1))
  {
    ExitFinishes(r, lines, i, done, Kept(r, lines, i));
    assert Rest(r, lines, i - 1) == Piece(r, lines, i - 1) + "";
  }

  /** Handling line i moves the machine from its state before line i to its state before line i + 1. */
  lemma Advance(r: Rules, lines: seq<SC.Classified>, i: nat, done: string)
    requires Sound(r) && KeepsNl(r) && 1 <= i < |lines| && AllNl(lines)
    ensures Ok(lines[i - 1].ctype, Before(r, lines, i, done))
    ensures Run(r, lines, i, lines[i - 1].ctype, Kept(r, lines, i), Before(r, lines, i, done))
         == Run(r, lines, i + 1, lines[i].ctype, Kept(r, lines, i + 1), Before(r, lines, i + 1, done + Piece(r, lines, i - 1)))
  {
    if lines[i - 1].ctype != lines[i].ctype {
      StepEnters(r, lines, i, done);
    } else {
      StepStays(r, lines, i, done);
    }
    RunStep(r, lines, i, lines[i - 1].ctype, Kept(r, lines, i), Before(r, lines, i, done));
  }

  /** From line i on, with the file as the machine leaves it, the run appends the rest of the pieces. */
  lemma {:induction false} RunFrom(r: Rules, lines: seq<SC.Classified>, i: nat, done: string)
    requires Sound(r) && KeepsNl(r) && 1 <= i <= |lines| && AllNl(lines)
    ensures Ok(lines[i - 1].ctype, Before(r, lines, i, done))
    ensures Run(r, lines, i, lines[i - 1].ctype, Kept(r, lines, i), Before(r, lines, i, done)) == At(done + Rest(r, lines, i - 1))
    decreases |lines| - i
  {
    if i < |lines| {
      RunFrom(r, lines, i + 1, done + Piece(r, lines, i - 1));
      Advance(r, lines, i, done);
      Assoc(done, Piece(r, lines, i - 1), Rest(r, lines, i));
    } else {
      RunLast(r, lines, i, done);
    }
  }

  /** The first line overwrites the probed newline. */
  lemma FirstStep(r: Rules, lines: seq<SC.Classified>, prefix: string)
    requires Sound(r) && KeepsNl(r) && lines != [] && AllNl(lines)
    ensures StepLine(r, lines[0], -2, Probe(At(prefix))) == Before(r, lines, 1, prefix)
  {
    assert EndsNl(lines[0].s);
    assert EndsNl(Body(r, lines, 0));
    ProbeShape(prefix, Body(r, lines, 0));
  }

  /** Writing a non-empty text right after the probe covers the probed newline. */
  lemma ProbeShape(prefix: string, body: string)
    requires |body| >= 1
    ensures WriteAt(Probe(At(prefix)), body) == At(prefix + body)
  {
    var st := Probe(At(prefix));
    assert st.buf == prefix + "\n";
    var w := WriteAt(st, body);
    assert w.buf == prefix + body;
  }

  /**
   * When every line ends with a newline (as the lexer guarantees) and the
   * file is positioned at its end, the machine appends exactly the lines'
   * pieces: code escaped, comments after their indent, <p> at the start of
   * each comment run that lacks one, and </p> before the last newline of
   * each run whose exit sees no closing tag.
   */
  lemma PretextIsPieces(r: Rules, lines: seq<SC.Classified>, prefix: string)
    requires Sound(r) && KeepsNl(r) && lines != [] && AllNl(lines)
    ensures Run(r, lines, 0, -2, "", Probe(At(prefix))) == At(prefix + Pieces(r, lines))
  {
    FirstStep(r, lines, prefix);
    RunStep(r, lines, 0, -2, "", Probe(At(prefix)));
    RunFrom(r, lines, 1, prefix);
  }

  /** A single line is entered from state -2 and closed by the final exit. */
  lemma SingleLine(r: Rules, c: SC.Classified)
    ensures Pieces(r, [c]) == CloseIf(c.ctype >= 0 && !r.closes(r.entry(c, -2 != c.ctype)), r.shown(c, -2 != c.ctype))
  {
    var lines := [c];
    assert Rest(r, lines, 1) == "";
    assert Closes(r, lines, 0) == (c.ctype >= 0 && !r.closes(r.entry(c, -2 != c.ctype)));
  }

  lemma PlainTags()
    ensures !OpensP("x\n") && !ClosesP("<p>x\n")
  {
    assert LStrip("x\n") == "x\n";
    assert RStrip("<p>x\n") == "<p>x";
  }

  /** An unindented one-line comment becomes one paragraph. */
  lemma CommentExample()
    ensures Pieces(Pretext(), [SC.Classified(0, "x\n")]) == "<p>x</p>\n"
  {
    var c := SC.Classified(0, "x\n");
    SingleLine(Pretext(), c);
    assert Pretext() == Rules(Shown, Opened, ClosesP);
    PlainShown();
    PlainPiece();
  }

  lemma PlainPiece()
    ensures CloseIf(true, "<p>x\n") == "<p>x</p>\n"
  {
    assert CloseIf(true, "<p>x\n") == "<p>x" + "</p>\n";
  }

  lemma PlainShown()
    ensures var c := SC.Classified(0, "x\n");
      Opened(c, true) == "<p>x\n" && !ClosesP("<p>x\n") && Shown(c, true) == "<p>x\n"
  {
    PlainTags();
  }

  lemma OwnOpen()
    ensures OpensP("<p>y</p>\n")
  {
    assert LStrip("<p>y</p>\n") == "<p>y</p>\n";
    assert LStrip(">y</p>\n") == ">y</p>\n";
  }

  lemma OwnClose()
    ensures ClosesP("<p>y</p>\n")
  {
    assert RStrip("<p>y</p>\n") == "<p>y</p>";
    assert RStrip("<p>y</p") == "<p>y</p";
  }

  lemma TaggedShown()
    ensures Shown(SC.Classified(2, "<p>y</p>\n"), true) == "  <p>y</p>\n"
  {
    OwnOpen();
    assert Spaces(1) == " " && Spaces(2) == "  ";
  }

  /** A comment that carries its own tags keeps them, indented by its indent. */
  lemma TaggedCommentExample()
    ensures Pieces(Pretext(), [SC.Classified(2, "<p>y</p>\n")]) == "  <p>y</p>\n"
  {
    var c := SC.Classified(2, "<p>y</p>\n");
    SingleLine(Pretext(), c);
    assert Pretext() == Rules(Shown, Opened, ClosesP);
    OwnOpen();
    OwnClose();
    TaggedShown();
  }

  /** Code is escaped and gets no tags. */
  lemma CodeExample()
    ensures Pieces(Pretext(), [SC.Classified(-1, "a<b\n")]) == "a&lt;b\n"
  {
    var c := SC.Classified(-1, "a<b\n");
    SingleLine(Pretext(), c);
    assert Pretext() == Rules(Shown, Opened, ClosesP);
    assert Escape("\n") == "\n";
    assert Escape("b\n") == "b\n";
    assert Escape("<b\n") == "&lt;b\n";
    assert Escape("a<b\n") == "a&lt;b\n";
  }

  // ---------------------------------------------------------------------
  // code_to_pretext_string
  // ---------------------------------------------------------------------

  /** The warning written before the program when the classifier reported a syntax error (its escaped text minus the last character). */
  function Warning(syntaxError: string): string
  {
    if |syntaxError| == 0 then ""
    else "<warning>CodeChat parse error: " + Take(Escape(syntaxError), -1) + "</warning>"
  }

  /** The file holding the warning and the opening tags, positioned at its end. */
  method WriteHead(syntaxError: string) returns (f: StringIO)
    ensures fresh(f) && f.State() == At(Warning(syntaxError) + "<program><input>")
  {
    f := new StringIO();
    if |syntaxError| > 0 {
      WriteAtEnd(f.State(), Warning(syntaxError));
      var _ := f.Write(Warning(syntaxError));
    }
    assert f.State() == At(Warning(syntaxError));
    WriteAtEnd(f.State(), "<program><input>");
    var _ := f.Write("<program><input>");
  }

  /**
   * code_to_pretext_string, given the classifier's syntax error (empty for
   * none) and classified lines: the warning, then the lines inside
   * <program><input> ... </input></program>.
   */
  method CodeToPretextString(syntaxError: string, lines: seq<SC.Classified>) returns (ptx: string)
    requires lines != []
    ensures AllNl(lines) ==> ptx == Warning(syntaxError) + "<program><input>" + Pieces(Pretext(), lines) + "</input></program>"
  {
    var f := WriteHead(syntaxError);
    ghost var head := f.buf;
    GeneratePretext(lines, f);
    if AllNl(lines) {
      PretextKeepsNl();
      PretextIsPieces(Pretext(), lines, head);
      WriteAtEnd(f.State(), "</input></program>");
    }
    var _ := f.Write("</input></program>");
    ptx := f.buf;
  }
}
