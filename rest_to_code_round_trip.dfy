/**
 * The round trip from CodeToRest back to code: parsing the reST that
 * _generate_rest writes for classified lines gives back, run by run, the
 * code lines unchanged and each comment line rebuilt with the language's
 * delimiters (indented comments by their margin). The proof first reads
 * the written text as the lines the parser splits it into, then follows
 * the parser through each run's scaffolding.
 */
module RestToCodeRoundTrip {
  import opened PyText
  import SC = SourceClassifier
  import CR = CodeToRest
  import RC = RestToCode

  // ---------------------------------------------------------------------
  // The written text as lines
  // ---------------------------------------------------------------------

  /** Each line followed by a newline. */
  function Terminated(ps: seq<string>): string
  {
    if ps == [] then "" else ps[0] + "\n" + Terminated(ps[1..])
  }

  lemma {:induction false} TerminatedAppend(a: seq<string>, b: seq<string>)
    ensures Terminated(a + b) == Terminated(a) + Terminated(b)
    decreases |a|
  {
    if a != [] {
      assert (a + b)[1..] == a[1..] + b;
      TerminatedAppend(a[1..], b);
    } else {
      assert a + b == b;
    }
  }

  /** Lines joined by '\n' with a final empty piece: each line newline-terminated. */
  lemma {:induction false} JoinTerminated(ps: seq<string>)
    ensures Join(ps + [""], '\n') == Terminated(ps)
    decreases |ps|
  {
    if ps != [] {
      assert (ps + [""])[1..] == ps[1..] + [""];
      JoinTerminated(ps[1..]);
    }
  }

  /** A line's text without its final newline. */
  function Chop(s: string): string
  {
    if EndsNl(s) then s[..|s| - 1] else s
  }

  /** A line the parser can read back: newline-terminated, no other newline and no tab. */
  predicate Plain(c: SC.Classified)
  {
    EndsNl(c.s) && '\n' !in Chop(c.s) && '\t' !in c.s
  }

  /** The body's lines as the reST holds them: each after `lead`, without its newline. */
  function Texts(body: seq<SC.Classified>, lead: string): (r: seq<string>)
    ensures |r| == |body|
  {
    seq(|body|, q requires 0 <= q < |body| => lead + Chop(body[q].s))
  }

  lemma TextsAt(body: seq<SC.Classified>, lead: string, q: nat)
    requires q < |body|
    ensures Texts(body, lead)[q] == lead + Chop(body[q].s)
  {
  }

  /** The set-line directive for line `line`. */
  function SetLineText(line: int): string
  {
    RC.SetLineDirective + " " + IntStr(line - 4)
  }

  /** The div that opens an indented comment run of margin t / 2 em. */
  function DivText(t: nat): string
  {
    RC.DivPrefix + ":" + HalfStr(t) + "em;\">"
  }

  /** The lines of the fenced-code directive that opens a code run. */
  function FenceOpenLines(): seq<string>
  {
    [RC.Fenced, "", RC.BeginningFence]
  }

  /** The lines that close a code run. */
  function FenceCloseLines(): seq<string>
  {
    [RC.EndingFence, "", "..", ""]
  }

  /** The raw-html div that opens an indented comment run. */
  function DivOpenLines(t: nat): seq<string>
  {
    [RC.RawHtml, "", DivText(t), ""]
  }

  /** The set-line directive that starts a comment run. */
  function SetLineLines(line: int): seq<string>
  {
    [SetLineText(line), "", "..", ""]
  }

  /** The lines that close an indented comment run. */
  function DivCloseLines(): seq<string>
  {
    ["", RC.RawHtml, "", RC.DivClose, "", "..", ""]
  }

  /** The lines of one run's reST, between the empty lines that separate runs. */
  function BlockLines(b: CR.Block): seq<string>
  {
    if b.ctype == -1 then
      FenceOpenLines() + Texts(b.body, " ") + FenceCloseLines()
    else if b.ctype > 0 then
      DivOpenLines(b.ctype) + [""] + SetLineLines(b.line) + Texts(b.body, "") + DivCloseLines()
    else
      SetLineLines(b.line) + Texts(b.body, "")
  }

  /** The runs from index m on, each after an empty line. */
  function Flat(bs: seq<CR.Block>, m: nat): seq<string>
    decreases |bs| - m
  {
    if m >= |bs| then [] else [""] + BlockLines(bs[m]) + Flat(bs, m + 1)
  }

  lemma TextOne(w: CR.Write)
    ensures CR.Text([w]) == CR.WriteText(w)
  {
    assert [w][..0] == [];
  }

  lemma EmitText(c: SC.Classified)
    ensures CR.Text(CR.Emit(c)) == (if c.ctype == -1 then " " else "") + c.s
  {
    var w := CR.Emit(c);
    TextOne(CR.Line(c.s));
    if c.ctype == -1 {
      TextOne(CR.Space);
      assert w == [CR.Space] + [CR.Line(c.s)];
      CR.TextAppend([CR.Space], [CR.Line(c.s)]);
    } else {
      assert w == [CR.Line(c.s)];
    }
  }

  lemma TerminatedOne(a: string)
    ensures Terminated([a]) == a + "\n"
  {
    assert [a][1..] == [];
  }

  lemma Terminated3(a: string, b: string, c: string)
    ensures Terminated([a, b, c]) == a + "\n" + b + "\n" + c + "\n"
  {
    assert [a, b, c] == [a] + [b] + [c];
    TerminatedOne(a);
    TerminatedOne(b);
    TerminatedOne(c);
    TerminatedAppend([a] + [b], [c]);
    TerminatedAppend([a], [b]);
  }

  lemma Terminated4(a: string, b: string, c: string, e: string)
    ensures Terminated([a, b, c, e]) == a + "\n" + b + "\n" + c + "\n" + e + "\n"
  {
    assert [a, b, c, e] == [a, b, c] + [e];
    Terminated3(a, b, c);
    TerminatedOne(e);
    TerminatedAppend([a, b, c], [e]);
  }

  /** The lines of a non-empty body: its first line, then the lines of the rest. */
  lemma TextsCons(body: seq<SC.Classified>, lead: string)
    requires body != []
    ensures Terminated(Texts(body, lead)) == (lead + Chop(body[0].s)) + "\n" + Terminated(Texts(body[1..], lead))
  {
    var ts, rest := Texts(body, lead), body[1..];
    assert ts[1..] == Texts(rest, lead) by {
      forall q | 0 <= q < |rest|
        ensures ts[1..][q] == Texts(rest, lead)[q]
      {
        TextsAt(body, lead, q + 1);
        TextsAt(rest, lead, q);
      }
    }
    TextsAt(body, lead, 0);
  }

  lemma LineGlue(lead: string, s: string, tail: string)
    requires EndsNl(s)
    ensures (lead + s) + tail == (lead + Chop(s)) + "\n" + tail
  {
    ChopNl(s);
    CR.Assoc(lead, Chop(s), "\n");
  }

  /** The lines of a run of one type as written: each after the code lead, if any. */
  lemma {:induction false} EmitsText(body: seq<SC.Classified>, t: int)
    requires forall q :: 0 <= q < |body| ==> body[q].ctype == t && EndsNl(body[q].s)
    ensures CR.Text(CR.Emits(body)) == Terminated(Texts(body, if t == -1 then " " else ""))
    decreases |body|
  {
    if body != [] {
      var lead := if t == -1 then " " else "";
      var c, rest := body[0], body[1..];
      assert CR.Emits(body) == CR.Emit(c) + CR.Emits(rest);
      CR.TextAppend(CR.Emit(c), CR.Emits(rest));
      EmitText(c);
      assert forall q :: 0 <= q < |rest| ==> rest[q] == body[q + 1];
      EmitsText(rest, t);
      TextsCons(body, lead);
      LineGlue(lead, c.s, Terminated(Texts(rest, lead)));
    }
  }

  lemma ChopNl(s: string)
    requires EndsNl(s)
    ensures Chop(s) + "\n" == s
  {
  }

  lemma FenceShape(f: string, b: string)
    ensures "\n" + f + "\n\n" + b + "\n" == "\n" + (f + "\n" + "" + "\n" + b + "\n")
  {
  }

  lemma FenceHead(line: int)
    ensures CR.Text(CR.EnterWrites(-1, line)) == "\n" + Terminated(FenceOpenLines())
  {
    Agree();
    TextOne(CR.BeginFence);
    Terminated3(RC.Fenced, "", RC.BeginningFence);
    FenceShape(RC.Fenced, RC.BeginningFence);
  }

  lemma FenceCloseShape(e: string)
    ensures e + "\n\n..\n\n" == e + "\n" + "" + "\n" + ".." + "\n" + "" + "\n"
  {
  }

  lemma FenceFoot()
    ensures CR.Text(CR.ExitWrites(-1)) == Terminated(FenceCloseLines())
  {
    Agree();
    TextOne(CR.EndFence);
    Terminated4(RC.EndingFence, "", "..", "");
    FenceCloseShape(RC.EndingFence);
  }

  /** The scaffolding the writer writes is the scaffolding the parser looks for. */
  lemma Agree()
    ensures RC.Fenced == CR.FencedCode && RC.BeginningFence == CR.BeginningFence
    ensures RC.EndingFence == CR.EndingFence && RC.RawHtml == CR.RawHtml
    ensures RC.DivPrefix == CR.DivMargin && RC.DivClose == CR.DivEnd
    ensures RC.SetLineDirective == CR.SetLineDirective
  {
  }

  /** The set-line scaffolding's text as lines, for any directive x and line number n. */
  lemma SetLineShape(x: string, n: string)
    ensures "\n" + x + " " + n + "\n\n..\n\n" == "\n" + (x + " " + n + "\n" + "" + "\n" + ".." + "\n" + "" + "\n")
  {
  }

  lemma SetLineHead(line: int)
    ensures CR.WriteText(CR.SetLine(line)) == "\n" + Terminated(SetLineLines(line))
  {
    Agree();
    Terminated4(SetLineText(line), "", "..", "");
    SetLineShape(RC.SetLineDirective, IntStr(line - 4));
  }

  lemma DivOpenShape(r: string, x: string, h: string)
    ensures "\n" + r + "\n\n" + x + ":" + h + "em;\">\n\n" == "\n" + (r + "\n" + "" + "\n" + (x + ":" + h + "em;\">") + "\n" + "" + "\n")
  {
  }

  lemma DivOpenHead(t: nat)
    requires t > 0
    ensures CR.WriteText(CR.DivOpen(t)) == "\n" + Terminated(DivOpenLines(t))
  {
    Agree();
    Terminated4(RC.RawHtml, "", DivText(t), "");
    DivOpenShape(RC.RawHtml, RC.DivPrefix, HalfStr(t));
  }

  lemma DivCloseShape(r: string, c: string)
    ensures "\n" + r + "\n\n" + c + "\n\n..\n\n" == "" + "\n" + r + "\n" + "" + "\n" + (c + "\n" + "" + "\n" + ".." + "\n" + "" + "\n")
  {
  }

  lemma DivFoot()
    ensures CR.Text(CR.ExitWrites(1)) == Terminated(DivCloseLines())
  {
    Agree();
    TextOne(CR.DivClose);
    Terminated3("", RC.RawHtml, "");
    Terminated4(RC.DivClose, "", "..", "");
    TerminatedAppend(["", RC.RawHtml, ""], [RC.DivClose, "", "..", ""]);
    assert DivCloseLines() == ["", RC.RawHtml, ""] + [RC.DivClose, "", "..", ""];
    DivCloseShape(RC.RawHtml, RC.DivClose);
  }

  lemma TerminatedAppend3(a: seq<string>, b: seq<string>, c: seq<string>)
    ensures Terminated(a + b + c) == Terminated(a) + Terminated(b) + Terminated(c)
  {
    TerminatedAppend(a + b, c);
    TerminatedAppend(a, b);
  }

  /** A run of one type whose lines the parser can read back. */
  predicate Written(b: CR.Block)
  {
    CR.IsRun(b) && forall q :: 0 <= q < |b.body| ==> Plain(b.body[q])
  }

  lemma TextAppend3(a: seq<CR.Write>, b: seq<CR.Write>, c: seq<CR.Write>)
    ensures CR.Text(a + b + c) == CR.Text(a) + CR.Text(b) + CR.Text(c)
  {
    CR.TextAppend(a + b, c);
    CR.TextAppend(a, b);
  }

  lemma TerminatedEmpty()
    ensures Terminated([""]) == "\n"
  {
    TerminatedOne("");
  }

  lemma Glue(tx: string, ty: string)
    ensures ("\n" + tx) + ("\n" + ty) == "\n" + (tx + "\n" + ty)
  {
  }

  lemma DivHead(t: nat, line: int)
    requires t > 0
    ensures CR.Text(CR.EnterWrites(t, line)) == "\n" + Terminated(DivOpenLines(t) + [""] + SetLineLines(line))
  {
    var x, y := DivOpenLines(t), SetLineLines(line);
    assert CR.EnterWrites(t, line) == [CR.DivOpen(t)] + [CR.SetLine(line)];
    CR.TextAppend([CR.DivOpen(t)], [CR.SetLine(line)]);
    TextOne(CR.DivOpen(t));
    TextOne(CR.SetLine(line));
    DivOpenHead(t);
    SetLineHead(line);
    TerminatedEmpty();
    TerminatedAppend3(x, [""], y);
    Glue(Terminated(x), Terminated(y));
  }

  lemma Glue3(h: string, m: string, f: string)
    ensures ("\n" + h) + m + f == "\n" + (h + m + f)
  {
  }

  /** A run's three parts, each the text of its lines, give the text of all its lines after an empty line. */
  lemma RenderGlue(enter: seq<CR.Write>, body: seq<CR.Write>, exit: seq<CR.Write>, h: seq<string>, ts: seq<string>, f: seq<string>)
    requires CR.Text(enter) == "\n" + Terminated(h) && CR.Text(body) == Terminated(ts) && CR.Text(exit) == Terminated(f)
    ensures CR.Text(enter + body + exit) == "\n" + Terminated(h + ts + f)
  {
    TextAppend3(enter, body, exit);
    TerminatedAppend3(h, ts, f);
    Glue3(Terminated(h), Terminated(ts), Terminated(f));
  }

  lemma CodeBlockText(b: CR.Block)
    requires Written(b) && b.ctype == -1
    ensures CR.Text(CR.Render(b)) == "\n" + Terminated(BlockLines(b))
  {
    var ts := Texts(b.body, " ");
    assert CR.Text(CR.Emits(b.body)) == Terminated(ts) by {
      EmitsText(b.body, b.ctype);
    }
    FenceHead(b.line);
    FenceFoot();
    RenderGlue(CR.EnterWrites(-1, b.line), CR.Emits(b.body), CR.ExitWrites(-1), FenceOpenLines(), ts, FenceCloseLines());
  }

  lemma DivBlockText(b: CR.Block)
    requires Written(b) && b.ctype > 0
    ensures CR.Text(CR.Render(b)) == "\n" + Terminated(BlockLines(b))
  {
    var ts := Texts(b.body, "");
    var head := DivOpenLines(b.ctype) + [""] + SetLineLines(b.line);
    assert CR.Text(CR.Emits(b.body)) == Terminated(ts) by {
      EmitsText(b.body, b.ctype);
    }
    DivHead(b.ctype, b.line);
    assert CR.Text(CR.ExitWrites(b.ctype)) == Terminated(DivCloseLines()) by {
      assert CR.ExitWrites(b.ctype) == CR.ExitWrites(1);
      DivFoot();
    }
    RenderGlue(CR.EnterWrites(b.ctype, b.line), CR.Emits(b.body), CR.ExitWrites(b.ctype), head, ts, DivCloseLines());
  }

  /** Entering a comment run at indent 0 writes its set-line directive only; leaving it writes nothing. */
  lemma CommentEdges(t: int, line: int)
    requires t != -1 && t <= 0
    ensures CR.Text(CR.EnterWrites(t, line)) == "\n" + Terminated(SetLineLines(line))
    ensures CR.Text(CR.ExitWrites(t)) == Terminated([])
  {
    assert CR.EnterWrites(t, line) == [CR.SetLine(line)];
    TextOne(CR.SetLine(line));
    SetLineHead(line);
    assert CR.ExitWrites(t) == [];
  }

  lemma CommentBlockText(b: CR.Block)
    requires Written(b) && b.ctype != -1 && b.ctype <= 0
    ensures CR.Text(CR.Render(b)) == "\n" + Terminated(BlockLines(b))
  {
    var ts := Texts(b.body, "");
    EmitsText(b.body, b.ctype);
    CommentEdges(b.ctype, b.line);
    SetLineBlockLines(b);
    assert BlockLines(b) == SetLineLines(b.line) + ts + [];
    RenderGlue(CR.EnterWrites(b.ctype, b.line), CR.Emits(b.body), CR.ExitWrites(b.ctype), SetLineLines(b.line), ts, []);
  }

  /** A run's text is an empty line, then its scaffolding and lines as BlockLines lists them. */
  lemma BlockText(b: CR.Block)
    requires Written(b)
    ensures CR.Text(CR.Render(b)) == "\n" + Terminated(BlockLines(b))
  {
    if b.ctype == -1 {
      CodeBlockText(b);
    } else if b.ctype > 0 {
      DivBlockText(b);
    } else {
      CommentBlockText(b);
    }
  }
  /** The text of the runs from index m on is their lines, each newline-terminated. */
  lemma {:induction false} RenderText(bs: seq<CR.Block>, m: nat)
    requires m <= |bs|
    requires forall k :: 0 <= k < |bs| ==> Written(bs[k])
    ensures CR.Text(CR.RenderAll(bs[m..])) == Terminated(Flat(bs, m))
    decreases |bs| - m
  {
    if m < |bs| {
      var here, rest := BlockLines(bs[m]), Flat(bs, m + 1);
      assert bs[m..][0] == bs[m] && bs[m..][1..] == bs[m + 1..];
      CR.TextAppend(CR.Render(bs[m]), CR.RenderAll(bs[m + 1..]));
      BlockText(bs[m]);
      RenderText(bs, m + 1);
      TerminatedAppend3([""], here, rest);
      TerminatedEmpty();
    } else {
      assert bs[m..] == [];
    }
  }

  // ---------------------------------------------------------------------
  // Splitting the text back into its lines
  // ---------------------------------------------------------------------

  /** A line with no newline and no tab. */
  predicate Clean(x: string)
  {
    '\n' !in x && '\t' !in x
  }

  predicate AllClean(ps: seq<string>)
  {
    forall k :: 0 <= k < |ps| ==> Clean(ps[k])
  }

  lemma AllCleanAppend(a: seq<string>, b: seq<string>)
    requires AllClean(a) && AllClean(b)
    ensures AllClean(a + b)
  {
    forall k | 0 <= k < |a + b|
      ensures Clean((a + b)[k])
    {
      if k < |a| {
        assert (a + b)[k] == a[k];
      } else {
        assert (a + b)[k] == b[k - |a|];
      }
    }
  }

  lemma DigitsClean(r: string)
    requires forall i :: 0 <= i < |r| ==> '0' <= r[i] <= '9'
    ensures Clean(r)
  {
  }

  lemma CleanCat(a: string, b: string)
    requires Clean(a) && Clean(b)
    ensures Clean(a + b)
  {
  }

  lemma FencesClean()
    ensures Clean(RC.Fenced) && Clean(RC.BeginningFence) && Clean(RC.EndingFence)
  {
    assert Clean(RC.Fenced);
    assert Clean(RC.BeginningFence);
  }

  lemma DivsClean()
    ensures Clean(RC.RawHtml) && Clean(RC.DivClose) && Clean(RC.DivPrefix)
  {
    assert Clean(RC.RawHtml);
    assert Clean(RC.DivClose);
  }

  lemma SetLineClean(line: int)
    ensures Clean(SetLineText(line))
  {
    var n := NatStr(if line - 4 < 0 then 4 - line else line - 4);
    DigitsClean(n);
    assert Clean(RC.SetLineDirective);
    CleanCat("-", n);
    CleanCat(RC.SetLineDirective, " ");
    CleanCat(RC.SetLineDirective + " ", IntStr(line - 4));
  }

  lemma DivTextClean(t: nat)
    ensures Clean(DivText(t))
  {
    var n := NatStr(t / 2);
    DigitsClean(n);
    CleanCat(n, if t % 2 == 0 then ".0" else ".5");
    DivsClean();
    CleanCat(RC.DivPrefix, ":");
    CleanCat(RC.DivPrefix + ":", HalfStr(t));
    CleanCat(RC.DivPrefix + ":" + HalfStr(t), "em;\">");
  }

  lemma ScaffoldClean(line: int, t: nat)
    ensures AllClean(FenceOpenLines()) && AllClean(FenceCloseLines()) && AllClean(DivCloseLines())
    ensures AllClean(SetLineLines(line)) && AllClean(DivOpenLines(t))
  {
    FencesClean();
    DivsClean();
    SetLineClean(line);
    DivTextClean(t);
  }

  lemma ChopClean(c: SC.Classified, lead: string)
    requires Plain(c) && Clean(lead)
    ensures Clean(lead + Chop(c.s))
  {
    assert Chop(c.s) == c.s[..|c.s| - 1];
    assert '\t' !in Chop(c.s) by {
      forall k | 0 <= k < |Chop(c.s)|
        ensures Chop(c.s)[k] != '\t'
      {
        assert Chop(c.s)[k] == c.s[k];
      }
    }
  }

  lemma TextsClean(body: seq<SC.Classified>, lead: string)
    requires forall q :: 0 <= q < |body| ==> Plain(body[q])
    requires Clean(lead)
    ensures AllClean(Texts(body, lead))
  {
    forall q | 0 <= q < |body|
      ensures Clean(Texts(body, lead)[q])
    {
      TextsAt(body, lead, q);
      ChopClean(body[q], lead);
    }
  }

  lemma BlockClean(b: CR.Block)
    requires Written(b)
    ensures AllClean(BlockLines(b))
  {
    var lead := if b.ctype == -1 then " " else "";
    ScaffoldClean(b.line, if b.ctype > 0 then b.ctype else 0);
    TextsClean(b.body, lead);
    var ts := Texts(b.body, lead);
    if b.ctype == -1 {
      AllCleanAppend(FenceOpenLines(), ts);
      AllCleanAppend(FenceOpenLines() + ts, FenceCloseLines());
    } else if b.ctype > 0 {
      AllCleanAppend(DivOpenLines(b.ctype), [""]);
      AllCleanAppend(DivOpenLines(b.ctype) + [""], SetLineLines(b.line));
      AllCleanAppend(DivOpenLines(b.ctype) + [""] + SetLineLines(b.line), ts);
      AllCleanAppend(DivOpenLines(b.ctype) + [""] + SetLineLines(b.line) + ts, DivCloseLines());
    } else {
      AllCleanAppend(SetLineLines(b.line), ts);
    }
  }

  lemma {:induction false} FlatClean(bs: seq<CR.Block>, m: nat)
    requires forall k :: 0 <= k < |bs| ==> Written(bs[k])
    ensures AllClean(Flat(bs, m))
    decreases |bs| - m
  {
    if m < |bs| {
      BlockClean(bs[m]);
      FlatClean(bs, m + 1);
      AllCleanAppend([""], BlockLines(bs[m]));
      AllCleanAppend([""] + BlockLines(bs[m]), Flat(bs, m + 1));
    }
  }

  lemma {:induction false} TerminatedNoTab(ps: seq<string>)
    requires AllClean(ps)
    ensures '\t' !in Terminated(ps)
    decreases |ps|
  {
    if ps != [] {
      assert Clean(ps[0]);
      TerminatedNoTab(ps[1..]);
    }
  }

  lemma RenderAllText(bs: seq<CR.Block>)
    requires forall k :: 0 <= k < |bs| ==> Written(bs[k])
    ensures CR.Text(CR.RenderAll(bs)) == Terminated(Flat(bs, 0))
  {
    RenderText(bs, 0);
    assert bs[0..] == bs;
  }

  /** Splitting the newline-terminated clean lines ps gives them back, then the empty piece after the last newline. */
  lemma SplitTerminated(ps: seq<string>)
    requires AllClean(ps)
    ensures Split(ExpandTabs(Terminated(ps)), '\n') == ps + [""]
  {
    TerminatedNoTab(ps);
    ExpandTabsNoTab(Terminated(ps));
    JoinTerminated(ps);
    AllCleanAppend(ps, [""]);
    SplitJoin(ps + [""], '\n');
  }

  /** The parser's line list for the text of the runs bs: their lines, then the empty piece after the last newline. */
  lemma TextLines(bs: seq<CR.Block>)
    requires forall k :: 0 <= k < |bs| ==> Written(bs[k])
    ensures Split(ExpandTabs(CR.Text(CR.RenderAll(bs))), '\n') == Flat(bs, 0) + [""]
  {
    RenderAllText(bs);
    FlatClean(bs, 0);
    SplitTerminated(Flat(bs, 0));
  }
  // ---------------------------------------------------------------------
  // What the parser gives back
  // ---------------------------------------------------------------------

  /** The lines of body from index q on, as they were. */
  function CodeLines(body: seq<SC.Classified>, q: nat): string
    decreases |body| - q
  {
    if q >= |body| then "" else body[q].s + CodeLines(body, q + 1)
  }

  /** L[a..a + |xs|] is xs. */
  predicate Window(L: seq<string>, a: nat, xs: seq<string>)
  {
    a + |xs| <= |L| && L[a..a + |xs|] == xs
  }

  lemma WindowAt(L: seq<string>, a: nat, xs: seq<string>, x: nat)
    requires Window(L, a, xs) && x < |xs|
    ensures L[a + x] == xs[x]
  {
    assert L[a..a + |xs|][x] == L[a + x];
  }

  lemma AfterLead(x: string)
    ensures RC.AfterSpace(" " + x) == Some(x)
  {
    assert (" " + x)[0] == ' ';
    assert (" " + x)[1..] == x;
  }

  /** The code lines in L from index s: each after its space, up to the ending fence at s + |body|. */
  predicate CodeAt(L: seq<string>, s: nat, body: seq<SC.Classified>)
  {
    s + |body| < |L| && L[s + |body|] == RC.EndingFence &&
    forall r :: 0 <= r < |body| ==> L[s + r] == " " + Chop(body[r].s) && L[s + r] != RC.EndingFence && Plain(body[r])
  }

  /** The fence scan gives each code line back, newline and all, and stops at the ending fence. */
  lemma {:induction false} FenceScanRun(L: seq<string>, s: nat, body: seq<SC.Classified>, q: nat)
    requires CodeAt(L, s, body) && q <= |body|
    ensures RC.FenceScan(L, s + q) == RC.Scanned(CodeLines(body, q), s + |body|)
    decreases |body| - q
  {
    if q < |body| {
      var c := body[q];
      AfterLead(Chop(c.s));
      FenceScanRun(L, s, body, q + 1);
      ChopNl(c.s);
      assert RC.FenceScan(L, s + q).out == Chop(c.s) + "\n" + RC.FenceScan(L, s + q + 1).out;
    }
  }
  /** A chain of tests whose first test passes goes on with the rest. */
  lemma FitsCons(L: seq<string>, at: nat, w: RC.Want, ws: seq<RC.Want>)
    requires at < |L| && RC.Holds(L[at], w)
    ensures RC.Scaffold(L, at, [w] + ws) == RC.Scaffold(L, at + 1, ws)
  {
    assert ([w] + ws)[0] == w && ([w] + ws)[1..] == ws;
  }

  lemma Fits1(L: seq<string>, at: nat, a: RC.Want)
    requires at < |L| && RC.Holds(L[at], a)
    ensures RC.Scaffold(L, at, [a]) == RC.Fits
  {
    FitsCons(L, at, a, []);
  }

  lemma Fits2(L: seq<string>, at: nat, w0: RC.Want, w1: RC.Want)
    requires at + 1 < |L| && RC.Holds(L[at], w0) && RC.Holds(L[at + 1], w1)
    ensures RC.Scaffold(L, at, [w0, w1]) == RC.Fits
  {
    assert [w0, w1][1..] == [w1];
    Fits1(L, at + 1, w1);
  }

  lemma Fits3(L: seq<string>, at: nat, w0: RC.Want, w1: RC.Want, w2: RC.Want)
    requires at + 2 < |L| && RC.Holds(L[at], w0) && RC.Holds(L[at + 1], w1) && RC.Holds(L[at + 2], w2)
    ensures RC.Scaffold(L, at, [w0, w1, w2]) == RC.Fits
  {
    assert [w0, w1, w2][1..] == [w1, w2];
    Fits2(L, at + 1, w1, w2);
  }

  lemma Fits5(L: seq<string>, at: nat, w0: RC.Want, w1: RC.Want, w2: RC.Want, w3: RC.Want, w4: RC.Want)
    requires at + 4 < |L| && RC.Holds(L[at], w0) && RC.Holds(L[at + 1], w1)
    requires RC.Holds(L[at + 2], w2) && RC.Holds(L[at + 3], w3) && RC.Holds(L[at + 4], w4)
    ensures RC.Scaffold(L, at, [w0, w1, w2, w3, w4]) == RC.Fits
  {
    assert [w0, w1, w2, w3, w4][1..] == [w1, w2, w3, w4];
    assert [w1, w2, w3, w4][1..] == [w2, w3, w4];
    Fits3(L, at + 2, w2, w3, w4);
  }

  lemma Fits6(L: seq<string>, at: nat, w0: RC.Want, w1: RC.Want, w2: RC.Want, w3: RC.Want, w4: RC.Want, w5: RC.Want)
    requires at + 5 < |L| && RC.Holds(L[at], w0) && RC.Holds(L[at + 1], w1) && RC.Holds(L[at + 2], w2)
    requires RC.Holds(L[at + 3], w3) && RC.Holds(L[at + 4], w4) && RC.Holds(L[at + 5], w5)
    ensures RC.Scaffold(L, at, [w0, w1, w2, w3, w4, w5]) == RC.Fits
  {
    assert [w0, w1, w2, w3, w4, w5][1..] == [w1, w2, w3, w4, w5];
    Fits5(L, at + 1, w1, w2, w3, w4, w5);
  }

  /** The closing "", "..", "" of a directive. */
  /** The three lines after the ending fence at e. */
  lemma FitsEnd(L: seq<string>, e: nat)
    requires e + 3 < |L| && L[e + 1] == "" && L[e + 2] == ".." && L[e + 3] == ""
    ensures RC.Scaffold(L, e + 1, [RC.Is(""), RC.Is(".."), RC.Is("")]) == RC.Fits
  {
    Fits3(L, e + 1, RC.Is(""), RC.Is(".."), RC.Is(""));
  }

  lemma FenceFrame(L: seq<string>, p: nat, ts: seq<string>, e: nat)
    requires Window(L, p + 1, FenceOpenLines() + ts + FenceCloseLines()) && e == p + 4 + |ts|
    ensures e + 3 < |L|
    ensures L[p + 1] == RC.Fenced && L[p + 2] == "" && L[p + 3] == RC.BeginningFence
    ensures Window(L, p + 4, ts)
    ensures L[e] == RC.EndingFence && L[e + 1] == "" && L[e + 2] == ".." && L[e + 3] == ""
  {
    WindowSplit(L, p + 1, FenceOpenLines() + ts, FenceCloseLines());
    WindowSplit(L, p + 1, FenceOpenLines(), ts);
    Window3(L, p + 1, RC.Fenced, "", RC.BeginningFence);
    Window4(L, e, RC.EndingFence, "", "..", "");
  }

  lemma Window3(L: seq<string>, a: nat, x: string, y: string, z: string)
    requires Window(L, a, [x, y, z])
    ensures L[a] == x && L[a + 1] == y && L[a + 2] == z
  {
    assert L[a] == L[a..a + 3][0];
    assert L[a + 1] == L[a..a + 3][1];
    assert L[a + 2] == L[a..a + 3][2];
  }

  /** The lines of Texts(body, " ") are the chopped code texts after a space. */
  lemma TextsSpaced(body: seq<SC.Classified>)
    ensures forall r :: 0 <= r < |body| ==> Texts(body, " ")[r] == " " + Chop(body[r].s)
  {
    forall r | 0 <= r < |body|
      ensures Texts(body, " ")[r] == " " + Chop(body[r].s)
    {
      TextsAt(body, " ", r);
    }
  }

  lemma CodeAtOf(L: seq<string>, s: nat, body: seq<SC.Classified>, ts: seq<string>, e: nat)
    requires Window(L, s, ts) && |ts| == |body|
    requires forall r :: 0 <= r < |body| ==> ts[r] == " " + Chop(body[r].s) && ts[r] != RC.EndingFence && Plain(body[r])
    requires e == s + |body| && e < |L| && L[e] == RC.EndingFence
    ensures CodeAt(L, s, body)
  {
    forall r | 0 <= r < |body|
      ensures L[s + r] == ts[r]
    {
      WindowAt(L, s, ts, r);
    }
  }

  /** Every test of the fence branch passes on a code run's lines, and the scan reads them up to the ending fence at e. */
  lemma CodeReady(L: seq<string>, p: nat, body: seq<SC.Classified>, ts: seq<string>, e: nat)
    requires Window(L, p + 1, FenceOpenLines() + ts + FenceCloseLines())
    requires |ts| == |body| && e == p + 4 + |body|
    requires forall r :: 0 <= r < |body| ==> ts[r] == " " + Chop(body[r].s) && ts[r] != RC.EndingFence && Plain(body[r])
    ensures p + 1 < |L| && L[p + 1] == RC.Fenced
    ensures RC.Scaffold(L, p + 2, [RC.Is(""), RC.Is(RC.BeginningFence)]) == RC.Fits
    ensures RC.FenceScan(L, p + 4) == RC.Scanned(CodeLines(body, 0), e) && e < |L| && L[e] == RC.EndingFence
    ensures RC.Scaffold(L, e + 1, [RC.Is(""), RC.Is(".."), RC.Is("")]) == RC.Fits
  {
    FenceFrame(L, p, ts, e);
    CodeAtOf(L, p + 4, body, ts, e);
    Fits2(L, p + 2, RC.Is(""), RC.Is(RC.BeginningFence));
    FenceScanRun(L, p + 4, body, 0);
    assert p + 4 + 0 == p + 4;
    FitsEnd(L, e);
  }

  /** The lines a code run writes, by their parts. */
  lemma CodeBlockLines(b: CR.Block)
    requires b.ctype == -1
    ensures BlockLines(b) == FenceOpenLines() + Texts(b.body, " ") + FenceCloseLines()
    ensures |BlockLines(b)| == 7 + |b.body|
  {
  }

  /** A '.. fenced-code::' pass in which every test passes: the scanned lines, then on past the closing lines. */
  lemma FencePass(L: seq<string>, p: nat, d: RC.Delims, out: string, stop: nat)
    requires p + 1 < |L| && L[p + 1] == RC.Fenced
    requires RC.Scaffold(L, p + 2, [RC.Is(""), RC.Is(RC.BeginningFence)]) == RC.Fits
    requires RC.FenceScan(L, p + 4) == RC.Scanned(out, stop) && stop < |L| && L[stop] == RC.EndingFence
    requires RC.Scaffold(L, stop + 1, [RC.Is(""), RC.Is(".."), RC.Is("")]) == RC.Fits
    ensures RC.Step(L, p, d) == RC.Next(out, stop + 4)
  {
  }

  /** The code run's writes, read back by the fence branch. */
  lemma CodeRunParsed(L: seq<string>, p: nat, b: CR.Block, d: RC.Delims)
    requires Written(b) && b.ctype == -1 && Window(L, p + 1, BlockLines(b))
    requires forall r :: 0 <= r < |b.body| ==> " " + Chop(b.body[r].s) != RC.EndingFence
    ensures RC.Step(L, p, d) == RC.Next(CodeLines(b.body, 0), p + 1 + |BlockLines(b)|)
  {
    var e := p + 4 + |b.body|;
    CodeBlockLines(b);
    TextsSpaced(b.body);
    CodeReady(L, p, b.body, Texts(b.body, " "), e);
    FencePass(L, p, d, CodeLines(b.body, 0), e);
  }

  lemma SlicePrefix(a: string, b: string)
    ensures Slice(a + b, 0, |a|) == a
  {
    assert (a + b)[0..|a|] == a;
  }

  /** Cutting a + [c] + b at its first c gives a and b back. */
  lemma CutAt(a: string, b: string, c: char)
    requires c !in a
    ensures IndexOf(a + [c] + b, c) == |a|
    ensures (a + [c] + b)[..|a|] == a && (a + [c] + b)[|a| + 1..] == b
  {
    IndexOfPrefix(a, b, c);
  }

  lemma HalfChars(t: nat)
    ensures 'e' !in HalfStr(t) && ':' !in HalfStr(t)
  {
    var n := NatStr(t / 2);
    assert 'e' !in n && ':' !in n;
    assert HalfStr(t) == n + (if t % 2 == 0 then ".0" else ".5");
  }

  /** The div line's first ':' ends its prefix; after it come the margin, 'e' and the rest of "em;\">". */
  lemma DivNumber(t: nat)
    ensures IndexOf(DivText(t), ':') == |RC.DivPrefix| < |DivText(t)|
    ensures DivText(t)[|RC.DivPrefix| + 1..] == HalfStr(t) + ['e'] + "m;\">"
  {
    var h := HalfStr(t);
    var tail := "m;\">";
    DivsClean();
    assert ':' !in RC.DivPrefix;
    assert DivText(t) == RC.DivPrefix + [':'] + (h + ['e'] + tail);
    CutAt(RC.DivPrefix, h + ['e'] + tail, ':');
  }

  /** The margin is the text before the first 'e' after the ':'. */
  lemma HalfCut(t: nat)
    ensures IndexOf(HalfStr(t) + ['e'] + "m;\">", 'e') == |HalfStr(t)|
    ensures (HalfStr(t) + ['e'] + "m;\">")[..|HalfStr(t)|] == HalfStr(t)
  {
    HalfChars(t);
    CutAt(HalfStr(t), "m;\">", 'e');
  }

  /** A decimal with one digit after the point, doubled and truncated. */
  lemma DoubledOneDigit(n: string, e: string)
    requires |n| > 0 && RC.AllDigits(n) && |e| == 1 && RC.AllDigits(e)
    ensures RC.DoubledDecimal(n + ['.'] + e) == Some(2 * DigitsValue(n + e) / 10)
  {
    assert '.' !in n;
    CutAt(n, e, '.');
    assert RC.Pow10(1) == 10;
  }

  lemma DigitsAppend(n: string, e: string)
    requires RC.AllDigits(n) && |e| == 1 && RC.AllDigits(e)
    ensures DigitsValue(n + e) == 10 * DigitsValue(n) + (e[0] - '0') as int
  {
    assert (n + e)[..|n + e| - 1] == n;
  }

  lemma DivTen(m: nat)
    ensures (10 * m) / 10 == m
  {
  }

  /** The digits of k, a point and the digit 0 or 5, doubled and truncated: 2k or 2k + 1. */
  lemma DoubledDigits(n: string, e: string, k: nat, t: nat)
    requires |n| > 0 && RC.AllDigits(n) && DigitsValue(n) == k
    requires (e == "0" && t == 2 * k) || (e == "5" && t == 2 * k + 1)
    ensures RC.DoubledDecimal(n + ['.'] + e) == Some(t)
  {
    DoubledOneDigit(n, e);
    DigitsAppend(n, e);
    assert 2 * DigitsValue(n + e) == 10 * t;
    DivTen(t);
  }

  /** float(str(0.5 * t)) * 2, truncated, is t. */
  lemma DoubledHalf(t: nat)
    ensures RC.DoubledDecimal(HalfStr(t)) == Some(t)
  {
    var n := NatStr(t / 2);
    var e := if t % 2 == 0 then "0" else "5";
    assert HalfStr(t) == n + ['.'] + e;
    NatStrValue(t / 2);
    DoubledDigits(n, e, t / 2, t);
  }

  /** The margin the div line announces is read back as the indent it came from. */
  lemma MarginOfDiv(t: nat)
    ensures RC.Margin(DivText(t)) == Some(t)
  {
    var rest := HalfStr(t) + ['e'] + "m;\">";
    DivNumber(t);
    HalfCut(t);
    assert rest[..IndexOf(rest, 'e')] == HalfStr(t);
    DoubledHalf(t);
  }
  /** The indented comment lines of body from index q on, as the div branch writes them with margin t. */
  function DivComments(body: seq<SC.Classified>, q: nat, t: nat, d: RC.Delims): string
    decreases |body| - q
  {
    if q >= |body| then "" else RC.DivLine(Chop(body[q].s), t, d) + DivComments(body, q + 1, t, d)
  }

  /** The comment lines in L from index s, then an empty line and the closing '.. raw:: html'. */
  predicate DivAt(L: seq<string>, s: nat, body: seq<SC.Classified>)
  {
    s + |body| + 1 < |L| && L[s + |body|] == "" && L[s + |body| + 1] == RC.RawHtml &&
    forall r :: 0 <= r < |body| ==> L[s + r] == Chop(body[r].s) && Chop(body[r].s) != RC.RawHtml
  }

  /** The div scan formulates each comment line and stops on the empty line before '.. raw:: html'. */
  lemma {:induction false} DivScanRun(L: seq<string>, s: nat, body: seq<SC.Classified>, t: nat, d: RC.Delims, q: nat)
    requires DivAt(L, s, body) && q <= |body|
    ensures RC.DivScan(L, s + q, t, d) == RC.Scanned(DivComments(body, q, t, d), s + |body|)
    decreases |body| - q
  {
    if q < |body| {
      var j := s + q;
      assert L[j + 1] != RC.RawHtml by {
        if q + 1 < |body| {
          assert L[s + (q + 1)] == Chop(body[q + 1].s);
        } else {
          assert RC.RawHtml != "";
        }
      }
      assert L[j] == Chop(body[q].s);
      DivScanRun(L, s, body, t, d, q + 1);
      var line := RC.DivLine(Chop(body[q].s), t, d);
      var r := RC.DivScan(L, j + 1, t, d);
      assert r.stop == s + |body|;
      assert r.out == DivComments(body, q + 1, t, d);
      assert RC.DivScan(L, j, t, d) == RC.Scanned(line + r.out, r.stop);
      assert DivComments(body, q, t, d) == line + DivComments(body, q + 1, t, d);
    }
  }

  lemma WindowSplit(L: seq<string>, a: nat, xs: seq<string>, ys: seq<string>)
    requires Window(L, a, xs + ys)
    ensures Window(L, a, xs) && Window(L, a + |xs|, ys)
  {
    assert L[a..a + |xs|] == (xs + ys)[..|xs|];
    assert L[a + |xs|..a + |xs| + |ys|] == (xs + ys)[|xs|..];
  }

  lemma Window4(L: seq<string>, a: nat, w: string, x: string, y: string, z: string)
    requires Window(L, a, [w, x, y, z])
    ensures L[a] == w && L[a + 1] == x && L[a + 2] == y && L[a + 3] == z
  {
    WindowAt(L, a, [w, x, y, z], 0);
    WindowAt(L, a, [w, x, y, z], 1);
    WindowAt(L, a, [w, x, y, z], 2);
    WindowAt(L, a, [w, x, y, z], 3);
  }

  lemma Window7(L: seq<string>, a: nat, u: string, v: string, w: string, x: string, y: string, z: string, o: string)
    requires Window(L, a, [u, v, w, x, y, z, o])
    ensures L[a] == u && L[a + 1] == v && L[a + 2] == w && L[a + 3] == x
    ensures L[a + 4] == y && L[a + 5] == z && L[a + 6] == o
  {
    var xs := [u, v, w, x, y, z, o];
    assert L[a..a + 7] == xs;
    assert L[a] == L[a..a + 7][0];
    assert L[a + 1] == L[a..a + 7][1];
    assert L[a + 2] == L[a..a + 7][2];
    assert L[a + 3] == L[a..a + 7][3];
    assert L[a + 4] == L[a..a + 7][4];
    assert L[a + 5] == L[a..a + 7][5];
    assert L[a + 6] == L[a..a + 7][6];
  }

  /** The scaffolding around an indented comment run's lines ts written after index p, one index at a time; e is the index after ts. */
  lemma DivFrame(L: seq<string>, p: nat, t: nat, line: int, ts: seq<string>, e: nat)
    requires Window(L, p + 1, DivOpenLines(t) + [""] + SetLineLines(line) + ts + DivCloseLines())
    requires e == p + 10 + |ts|
    ensures e + 6 < |L|
    ensures L[p + 1] == RC.RawHtml && L[p + 2] == "" && L[p + 3] == DivText(t)
    ensures L[p + 4] == "" && L[p + 5] == "" && L[p + 6] == SetLineText(line)
    ensures L[p + 7] == "" && L[p + 8] == ".." && L[p + 9] == ""
    ensures Window(L, p + 10, ts)
    ensures L[e] == "" && L[e + 1] == RC.RawHtml
    ensures L[e + 2] == "" && L[e + 3] == RC.DivClose
    ensures L[e + 4] == "" && L[e + 5] == ".." && L[e + 6] == ""
  {
    var open, sl := DivOpenLines(t), SetLineLines(line);
    WindowSplit(L, p + 1, open + [""] + sl + ts, DivCloseLines());
    WindowSplit(L, p + 1, open + [""] + sl, ts);
    WindowSplit(L, p + 1, open + [""], sl);
    WindowSplit(L, p + 1, open, [""]);
    Window4(L, p + 1, RC.RawHtml, "", DivText(t), "");
    WindowAt(L, p + 5, [""], 0);
    Window4(L, p + 6, SetLineText(line), "", "..", "");
    Window7(L, e, "", RC.RawHtml, "", RC.DivClose, "", "..", "");
  }

  /** The lines of Texts(body, "") are the chopped comment texts themselves. */
  lemma TextsPlain(body: seq<SC.Classified>)
    ensures forall r :: 0 <= r < |body| ==> Texts(body, "")[r] == Chop(body[r].s)
  {
    forall r | 0 <= r < |body|
      ensures Texts(body, "")[r] == Chop(body[r].s)
    {
      TextsAt(body, "", r);
      assert "" + Chop(body[r].s) == Chop(body[r].s);
    }
  }

  /** The lines an indented comment run writes, by their parts. */
  lemma DivLines(b: CR.Block)
    requires b.ctype > 0
    ensures BlockLines(b) == DivOpenLines(b.ctype) + [""] + SetLineLines(b.line) + Texts(b.body, "") + DivCloseLines()
    ensures |BlockLines(b)| == 16 + |b.body|
  {
  }

  lemma DivPrefixes(t: nat, line: int)
    ensures Slice(DivText(t), 0, |RC.DivPrefix|) == RC.DivPrefix
    ensures Slice(SetLineText(line), 0, |RC.SetLineDirective|) == RC.SetLineDirective
  {
    assert DivText(t) == RC.DivPrefix + (":" + HalfStr(t) + "em;\">");
    SlicePrefix(RC.DivPrefix, ":" + HalfStr(t) + "em;\">");
    assert SetLineText(line) == RC.SetLineDirective + (" " + IntStr(line - 4));
    SlicePrefix(RC.SetLineDirective, " " + IntStr(line - 4));
  }

  /** The six tests after the div line: two empty lines, the set-line directive, its closing lines. */
  lemma FitsSetLineInDiv(L: seq<string>, p: nat, line: int)
    requires p + 9 < |L| && L[p + 4] == "" && L[p + 5] == "" && L[p + 6] == SetLineText(line)
    requires L[p + 7] == "" && L[p + 8] == ".." && L[p + 9] == ""
    ensures RC.Scaffold(L, p + 4, [RC.Is(""), RC.Is(""), RC.Prefix(RC.SetLineDirective), RC.Is(""), RC.Is(".."), RC.Is("")]) == RC.Fits
  {
    DivPrefixes(0, line);
    Fits6(L, p + 4, RC.Is(""), RC.Is(""), RC.Prefix(RC.SetLineDirective), RC.Is(""), RC.Is(".."), RC.Is(""));
  }

  /** The lines that close a div. */
  lemma FitsDivClose(L: seq<string>, e: nat)
    requires e + 6 < |L| && L[e + 2] == "" && L[e + 3] == RC.DivClose
    requires L[e + 4] == "" && L[e + 5] == ".." && L[e + 6] == ""
    ensures RC.Scaffold(L, e + 2, [RC.Is(""), RC.Is(RC.DivClose), RC.Is(""), RC.Is(".."), RC.Is("")]) == RC.Fits
  {
    Fits5(L, e + 2, RC.Is(""), RC.Is(RC.DivClose), RC.Is(""), RC.Is(".."), RC.Is(""));
  }

  /** The pass dispatches to the div branch, whose header lines pass. */
  lemma DivStepFits(L: seq<string>, p: nat, d: RC.Delims)
    requires p + 3 < |L| && L[p + 1] == RC.RawHtml
    requires RC.Scaffold(L, p + 2, [RC.Is(""), RC.Prefix(RC.DivPrefix)]) == RC.Fits
    ensures RC.Step(L, p, d) == RC.DivMargin(L, p + 3, d)
  {
    assert RC.RawHtml != RC.Fenced;
  }

  /** The margin line reads as t and the set-line lines after it pass: on to the scan. */
  lemma DivMarginFits(L: seq<string>, k: nat, d: RC.Delims, t: nat)
    requires k < |L| && RC.Margin(L[k]) == Some(t)
    requires RC.Scaffold(L, k + 1, [RC.Is(""), RC.Is(""), RC.Prefix(RC.SetLineDirective), RC.Is(""), RC.Is(".."), RC.Is("")]) == RC.Fits
    ensures RC.DivMargin(L, k, d) == RC.DivEnd(L, RC.DivScan(L, k + 7, t, d))
  {
  }

  /** The lines closing the div pass: the pass goes on after them. */
  lemma DivEndFits(L: seq<string>, out: string, stop: nat)
    requires stop + 1 < |L|
    requires RC.Scaffold(L, stop + 2, [RC.Is(""), RC.Is(RC.DivClose), RC.Is(""), RC.Is(".."), RC.Is("")]) == RC.Fits
    ensures RC.DivEnd(L, RC.Scanned(out, stop)) == RC.Next(out, stop + 7)
  {
  }

  /** A '.. raw:: html' pass in which every test passes: the scanned lines, then on past the closing lines. */
  lemma DivPass(L: seq<string>, p: nat, d: RC.Delims, t: nat, out: string, stop: nat)
    requires p + 3 < |L| && L[p + 1] == RC.RawHtml
    requires RC.Scaffold(L, p + 2, [RC.Is(""), RC.Prefix(RC.DivPrefix)]) == RC.Fits
    requires RC.Margin(L[p + 3]) == Some(t)
    requires RC.Scaffold(L, p + 4, [RC.Is(""), RC.Is(""), RC.Prefix(RC.SetLineDirective), RC.Is(""), RC.Is(".."), RC.Is("")]) == RC.Fits
    requires RC.DivScan(L, p + 10, t, d) == RC.Scanned(out, stop) && stop + 1 < |L|
    requires RC.Scaffold(L, stop + 2, [RC.Is(""), RC.Is(RC.DivClose), RC.Is(""), RC.Is(".."), RC.Is("")]) == RC.Fits
    ensures RC.Step(L, p, d) == RC.Next(out, stop + 7)
  {
    DivStepFits(L, p, d);
    DivMarginFits(L, p + 3, d, t);
    assert p + 3 + 7 == p + 10 && p + 3 + 1 == p + 4;
    DivEndFits(L, out, stop);
  }

  /** The margin line of a div reads back as the indent it was written for. */
  lemma MarginAt(L: seq<string>, k: nat, t: nat)
    requires k < |L| && L[k] == DivText(t)
    ensures RC.Margin(L[k]) == Some(t)
  {
    MarginOfDiv(t);
  }

  /** The lines that open a div: its margin and its set-line directive. */
  lemma DivOpenFits(L: seq<string>, p: nat, t: nat, line: int)
    requires p + 9 < |L| && L[p + 2] == "" && L[p + 3] == DivText(t)
    requires L[p + 4] == "" && L[p + 5] == "" && L[p + 6] == SetLineText(line)
    requires L[p + 7] == "" && L[p + 8] == ".." && L[p + 9] == ""
    ensures RC.Scaffold(L, p + 2, [RC.Is(""), RC.Prefix(RC.DivPrefix)]) == RC.Fits
    ensures RC.Margin(L[p + 3]) == Some(t)
    ensures RC.Scaffold(L, p + 4, [RC.Is(""), RC.Is(""), RC.Prefix(RC.SetLineDirective), RC.Is(""), RC.Is(".."), RC.Is("")]) == RC.Fits
  {
    DivPrefixes(t, line);
    Fits2(L, p + 2, RC.Is(""), RC.Prefix(RC.DivPrefix));
    MarginAt(L, p + 3, t);
    FitsSetLineInDiv(L, p, line);
  }

  /** Every test of the div branch passes on an indented comment run's lines, and the scan reads its comments up to e. */
  /** The comment lines of a div read back, up to the lines that close it. */
  lemma DivTail(L: seq<string>, p: nat, t: nat, body: seq<SC.Classified>, d: RC.Delims, e: nat)
    requires e == p + 10 + |body| && e + 6 < |L|
    requires DivAt(L, p + 10, body)
    requires L[e + 2] == "" && L[e + 3] == RC.DivClose
    requires L[e + 4] == "" && L[e + 5] == ".." && L[e + 6] == ""
    ensures RC.DivScan(L, p + 10, t, d) == RC.Scanned(DivComments(body, 0, t, d), e)
    ensures RC.Scaffold(L, e + 2, [RC.Is(""), RC.Is(RC.DivClose), RC.Is(""), RC.Is(".."), RC.Is("")]) == RC.Fits
  {
    DivScanRun(L, p + 10, body, t, d, 0);
    FitsDivClose(L, e);
  }

  /** The lines of a div with margin t / 2 em and set-line `line` around its comment lines, which end at e. */
  predicate DivLaidOut(L: seq<string>, p: nat, t: nat, line: int, e: nat)
  {
    p + 10 <= e && e + 6 < |L| &&
    L[p + 1] == RC.RawHtml && L[p + 2] == "" && L[p + 3] == DivText(t) &&
    L[p + 4] == "" && L[p + 5] == "" && L[p + 6] == SetLineText(line) &&
    L[p + 7] == "" && L[p + 8] == ".." && L[p + 9] == "" &&
    L[e] == "" && L[e + 1] == RC.RawHtml && L[e + 2] == "" && L[e + 3] == RC.DivClose &&
    L[e + 4] == "" && L[e + 5] == ".." && L[e + 6] == ""
  }

  /** The lines of an indented comment run, one by one, once its writes fill the window after p. */
  lemma DivRunFacts(L: seq<string>, p: nat, b: CR.Block, e: nat)
    requires b.ctype > 0 && Window(L, p + 1, BlockLines(b))
    requires e == p + 10 + |b.body|
    ensures 1 + |BlockLines(b)| == e + 7 - p
    ensures DivLaidOut(L, p, b.ctype, b.line, e)
    ensures Window(L, p + 10, Texts(b.body, ""))
  {
    DivLines(b);
    DivFrame(L, p, b.ctype, b.line, Texts(b.body, ""), e);
  }
  /** The lines of Texts(body, "") in a window are the chopped comment texts. */
  lemma BodyWindow(L: seq<string>, s: nat, body: seq<SC.Classified>)
    requires Window(L, s, Texts(body, ""))
    ensures forall r :: 0 <= r < |body| ==> L[s + r] == Chop(body[r].s)
  {
    forall r | 0 <= r < |body|
      ensures L[s + r] == Chop(body[r].s)
    {
      WindowAt(L, s, Texts(body, ""), r);
      TextsAt(body, "", r);
      assert "" + Chop(body[r].s) == Chop(body[r].s);
    }
  }

  lemma DivAtFrom(L: seq<string>, s: nat, body: seq<SC.Classified>, e: nat)
    requires e == s + |body| && e + 1 < |L| && L[e] == "" && L[e + 1] == RC.RawHtml
    requires forall r :: 0 <= r < |body| ==> L[s + r] == Chop(body[r].s)
    requires forall r :: 0 <= r < |body| ==> Chop(body[r].s) != RC.RawHtml
    ensures DivAt(L, s, body)
  {
  }

  /** The comment lines of a laid-out div, as the div scan sees them. */
  lemma DivBodyFacts(L: seq<string>, s: nat, body: seq<SC.Classified>, e: nat)
    requires e == s + |body| && e + 1 < |L| && L[e] == "" && L[e + 1] == RC.RawHtml
    requires Window(L, s, Texts(body, ""))
    requires forall r :: 0 <= r < |body| ==> Chop(body[r].s) != RC.RawHtml
    ensures DivAt(L, s, body)
  {
    BodyWindow(L, s, body);
    DivAtFrom(L, s, body, e);
  }

  /** A div laid out line by line reads back as its comments, up to the end of its closing lines. */
  lemma DivParsedFrom(L: seq<string>, p: nat, t: nat, line: int, body: seq<SC.Classified>, d: RC.Delims, e: nat)
    requires e == p + 10 + |body| && DivLaidOut(L, p, t, line, e) && DivAt(L, p + 10, body)
    ensures RC.Step(L, p, d) == RC.Next(DivComments(body, 0, t, d), e + 7)
  {
    DivOpenFits(L, p, t, line);
    DivTail(L, p, t, body, d, e);
    DivPass(L, p, d, t, DivComments(body, 0, t, d), e);
  }

  /** The indented comment run's writes, read back by the div branch. */
  lemma DivRunParsed(L: seq<string>, p: nat, b: CR.Block, d: RC.Delims)
    requires b.ctype > 0 && Window(L, p + 1, BlockLines(b))
    requires forall r :: 0 <= r < |b.body| ==> Chop(b.body[r].s) != RC.RawHtml
    ensures RC.Step(L, p, d) == RC.Next(DivComments(b.body, 0, b.ctype, d), p + 1 + |BlockLines(b)|)
  {
    var e := p + 10 + |b.body|;
    DivRunFacts(L, p, b, e);
    DivBodyFacts(L, p + 10, b.body, e);
    DivParsedFrom(L, p, b.ctype, b.line, b.body, d, e);
  }

  // ---------------------------------------------------------------------
  // Reading back a comment run at indent 0
  // ---------------------------------------------------------------------

  /** A set-line directive is neither a fence nor a raw directive: the fourth character differs. */
  lemma SetLineNotOther(line: int)
    ensures SetLineText(line) != RC.Fenced && SetLineText(line) != RC.RawHtml
  {
    assert SetLineText(line)[3] == RC.SetLineDirective[3] == 's';
    assert RC.Fenced[3] == 'f' && RC.RawHtml[3] == 'r';
  }

  /** The comments the set-line branch writes for body[q..], the first at `position`. */
  function Comments(body: seq<SC.Classified>, q: nat, d: RC.Delims, isBlock: bool, position: int, count: int): string
    requires d.inline.Some? || d.open.Some?
    decreases |body| - q
  {
    if q >= |body| then ""
    else RC.FormulateComment(Chop(body[q].s), d, isBlock, position, count).value + Comments(body, q + 1, d, isBlock, position - 1, count)
  }

  /** The comment lines in L from index s, then an empty line. */
  predicate CommentAt(L: seq<string>, s: nat, body: seq<SC.Classified>)
  {
    s + |body| < |L| && L[s + |body|] == "" &&
    forall r :: 0 <= r < |body| ==> L[s + r] == Chop(body[r].s) && Chop(body[r].s) != RC.Fenced
  }

  /** The line after index s + q is not a fence. */
  lemma CommentNext(L: seq<string>, s: nat, body: seq<SC.Classified>, q: nat)
    requires CommentAt(L, s, body) && q < |body|
    ensures L[s + q + 1] != RC.Fenced
  {
    if q + 1 < |body| {
      assert L[s + q + 1] == L[s + (q + 1)] == Chop(body[q + 1].s);
    } else {
      assert L[s + q + 1] == L[s + |body|];
    }
  }

  /** The counting loop, when a fence follows the empty line: it counts the comment lines. */
  lemma {:induction false} CountBeforeFence(L: seq<string>, s: nat, body: seq<SC.Classified>, e: nat, q: nat)
    requires CommentAt(L, s, body) && e == s + |body| && e + 1 < |L| && L[e + 1] == RC.Fenced && q <= |body|
    ensures RC.CountLines(L, s + q) == |body| - q
    decreases |body| - q
  {
    if q < |body| {
      CommentNext(L, s, body, q);
      CountBeforeFence(L, s, body, e, q + 1);
      assert s + q + 1 == s + (q + 1);
    }
  }

  /** The counting loop, when the empty line is the last: it counts the comment lines too. */
  lemma {:induction false} CountToEnd(L: seq<string>, s: nat, body: seq<SC.Classified>, q: nat)
    requires CommentAt(L, s, body) && |L| == s + |body| + 1 && q < |body|
    ensures RC.CountLines(L, s + q) == |body| - q
    decreases |body| - q
  {
    CommentNext(L, s, body, q);
    if q + 1 < |body| {
      CountToEnd(L, s, body, q + 1);
      assert s + q + 1 == s + (q + 1);
    }
  }

  /** The comment loop, when a fence follows the empty line: each comment line formulated, then on at the empty line. */
  lemma {:induction false} CommentsBeforeFence(L: seq<string>, s: nat, body: seq<SC.Classified>, d: RC.Delims, isBlock: bool, position: int, count: int, e: nat, q: nat)
    requires d.inline.Some? || d.open.Some?
    requires CommentAt(L, s, body) && e == s + |body| && e + 1 < |L| && L[e + 1] == RC.Fenced && q <= |body|
    ensures RC.CommentRun(L, s + q, d, isBlock, position, count) == RC.Next(Comments(body, q, d, isBlock, position, count), e)
    decreases |body| - q
  {
    if q < |body| {
      CommentNext(L, s, body, q);
      CommentsBeforeFence(L, s, body, d, isBlock, position - 1, count, e, q + 1);
      assert s + q + 1 == s + (q + 1);
    }
  }

  /** One comment line that is not the last: it is formulated, then the loop goes on. */
  lemma CommentRunStep(L: seq<string>, s: nat, body: seq<SC.Classified>, d: RC.Delims, isBlock: bool, position: int, count: int, q: nat)
    requires d.inline.Some? || d.open.Some?
    requires CommentAt(L, s, body) && |L| == s + |body| + 1 && q + 1 < |body|
    ensures RC.CommentRun(L, s + q, d, isBlock, position, count) ==
      RC.Then(RC.FormulateComment(Chop(body[q].s), d, isBlock, position, count).value, RC.CommentRun(L, s + (q + 1), d, isBlock, position - 1, count))
  {
    CommentNext(L, s, body, q);
    assert L[s + q] == Chop(body[q].s);
    assert s + q + 1 == s + (q + 1);
  }

  /** The last comment line: it is formulated, and then the empty line that ends the document. */
  lemma CommentRunEnd(L: seq<string>, s: nat, body: seq<SC.Classified>, d: RC.Delims, isBlock: bool, position: int, count: int, q: nat)
    requires d.inline.Some? || d.open.Some?
    requires CommentAt(L, s, body) && |L| == s + |body| + 1 && q + 1 == |body|
    ensures RC.CommentRun(L, s + q, d, isBlock, position, count) ==
      RC.Next(RC.FormulateComment(Chop(body[q].s), d, isBlock, position, count).value + RC.FormulateComment("", d, isBlock, position - 1, count).value, |L|)
  {
    CommentNext(L, s, body, q);
    assert L[s + q] == Chop(body[q].s);
    assert L[s + q + 1] == L[s + |body|];
  }

  /**
   * The comment loop, when the empty line is the last: each comment line
   * formulated, and then the empty line itself, one position further on.
   */
  lemma {:induction false} CommentsToEnd(L: seq<string>, s: nat, body: seq<SC.Classified>, d: RC.Delims, isBlock: bool, position: int, count: int, q: nat, last: int)
    requires d.inline.Some? || d.open.Some?
    requires CommentAt(L, s, body) && |L| == s + |body| + 1 && q < |body| && last == position - (|body| - q)
    ensures RC.CommentRun(L, s + q, d, isBlock, position, count) ==
      RC.Next(Comments(body, q, d, isBlock, position, count) + RC.FormulateComment("", d, isBlock, last, count).value, |L|)
    decreases |body| - q
  {
    var f := RC.FormulateComment(Chop(body[q].s), d, isBlock, position, count).value;
    if q + 1 < |body| {
      CommentRunStep(L, s, body, d, isBlock, position, count, q);
      CommentsToEnd(L, s, body, d, isBlock, position - 1, count, q + 1, last);
      CR.Assoc(f, Comments(body, q + 1, d, isBlock, position - 1, count), RC.FormulateComment("", d, isBlock, last, count).value);
    } else {
      CommentRunEnd(L, s, body, d, isBlock, position, count, q);
      assert Comments(body, q, d, isBlock, position, count) == f;
    }
  }

  /** A set-line pass in which every test passes: the comment loop from the line after the directive's closing lines. */
  lemma SetLinePass(L: seq<string>, p: nat, d: RC.Delims, k: nat)
    requires p + 6 < |L| && L[p + 1] != RC.Fenced && L[p + 1] != RC.RawHtml
    requires Slice(L[p + 1], 0, |RC.SetLineDirective|) == RC.SetLineDirective
    requires RC.Scaffold(L, p + 2, [RC.Is(""), RC.Is(".."), RC.Is("")]) == RC.Fits
    requires RC.CountLines(L, p + 5) == k
    ensures RC.Step(L, p, d) == RC.CommentRun(L, p + 5, d, k >= 10000, if k >= 10000 then k else 0, k)
  {
  }

  /** The set-line directive's lines before the comment lines ts, one index at a time; e is the index after ts. */
  lemma SetLineFrame(L: seq<string>, p: nat, line: int, ts: seq<string>, e: nat)
    requires Window(L, p + 1, SetLineLines(line) + ts) && e == p + 5 + |ts|
    ensures e <= |L| && L[p + 1] == SetLineText(line) && L[p + 2] == "" && L[p + 3] == ".." && L[p + 4] == ""
    ensures Window(L, p + 5, ts)
  {
    WindowSplit(L, p + 1, SetLineLines(line), ts);
    Window4(L, p + 1, SetLineText(line), "", "..", "");
  }

  /** The lines a comment run at indent 0 writes, by their parts. */
  lemma SetLineBlockLines(b: CR.Block)
    requires b.ctype != -1 && b.ctype <= 0
    ensures BlockLines(b) == SetLineLines(b.line) + Texts(b.body, "")
    ensures |BlockLines(b)| == 4 + |b.body|
  {
  }

  /**
   * What the set-line branch gives back for a comment run at indent 0: its
   * comments, inline unless the run has 10000 lines or more, and for the
   * last run also a comment for the document's final empty line.
   */
  function CommentCode(body: seq<SC.Classified>, d: RC.Delims, last: bool): string
    requires d.inline.Some? || d.open.Some?
  {
    var k := |body|;
    var isBlock := k >= 10000;
    var position := if isBlock then k else 0;
    Comments(body, 0, d, isBlock, position, k) + (if last then RC.FormulateComment("", d, isBlock, position - k, k).value else "")
  }

  /** The comment loop from the first comment line, up to the next fence. */
  lemma CommentLoopMid(L: seq<string>, p: nat, body: seq<SC.Classified>, d: RC.Delims, e: nat)
    requires d.inline.Some? || d.open.Some?
    requires CommentAt(L, p + 5, body) && e == p + 5 + |body| && e + 1 < |L| && L[e + 1] == RC.Fenced
    ensures var k := |body|; var isBlock := k >= 10000;
      RC.CommentRun(L, p + 5, d, isBlock, if isBlock then k else 0, k) == RC.Next(CommentCode(body, d, false), e)
  {
    var k := |body|;
    var isBlock := k >= 10000;
    CommentsBeforeFence(L, p + 5, body, d, isBlock, if isBlock then k else 0, k, e, 0);
    assert p + 5 + 0 == p + 5;
  }

  /** The comment loop from the first comment line, to the end. */
  lemma CommentLoopLast(L: seq<string>, p: nat, body: seq<SC.Classified>, d: RC.Delims)
    requires d.inline.Some? || d.open.Some?
    requires CommentAt(L, p + 5, body) && |L| == p + 6 + |body| && |body| > 0
    ensures var k := |body|; var isBlock := k >= 10000;
      RC.CommentRun(L, p + 5, d, isBlock, if isBlock then k else 0, k) == RC.Next(CommentCode(body, d, true), |L|)
  {
    var k := |body|;
    var isBlock := k >= 10000;
    CommentsToEnd(L, p + 5, body, d, isBlock, if isBlock then k else 0, k, 0, (if isBlock then k else 0) - k);
    assert p + 5 + 0 == p + 5;
  }

  /** The set-line directive's lines after index p. */
  predicate SetLineLaidOut(L: seq<string>, p: nat, line: int)
  {
    p + 4 < |L| && L[p + 1] == SetLineText(line) && L[p + 2] == "" && L[p + 3] == ".." && L[p + 4] == ""
  }

  /** The comment lines of a comment run at indent 0, as its loop sees them. */
  lemma CommentBodyFacts(L: seq<string>, s: nat, body: seq<SC.Classified>, e: nat)
    requires e == s + |body| && e < |L| && L[e] == ""
    requires Window(L, s, Texts(body, ""))
    requires forall r :: 0 <= r < |body| ==> Chop(body[r].s) != RC.Fenced
    ensures CommentAt(L, s, body)
  {
    BodyWindow(L, s, body);
    CommentAtFrom(L, s, body, e);
  }

  /** The lines of a comment run at indent 0, one by one, once its writes fill the window after p. */
  lemma CommentRunFacts(L: seq<string>, p: nat, b: CR.Block, e: nat)
    requires b.ctype != -1 && b.ctype <= 0 && Window(L, p + 1, BlockLines(b))
    requires e == p + 1 + |BlockLines(b)|
    ensures e == p + 5 + |b.body| && e <= |L|
    ensures SetLineLaidOut(L, p, b.line)
    ensures Window(L, p + 5, Texts(b.body, ""))
  {
    SetLineBlockLines(b);
    SetLineFrame(L, p, b.line, Texts(b.body, ""), e);
  }

  /** The set-line branch's tests on the directive's lines. */
  lemma SetLineFits(L: seq<string>, p: nat, line: int)
    requires SetLineLaidOut(L, p, line)
    ensures L[p + 1] != RC.Fenced && L[p + 1] != RC.RawHtml
    ensures Slice(L[p + 1], 0, |RC.SetLineDirective|) == RC.SetLineDirective
    ensures RC.Scaffold(L, p + 2, [RC.Is(""), RC.Is(".."), RC.Is("")]) == RC.Fits
  {
    SetLineNotOther(line);
    DivPrefixes(0, line);
    Fits3(L, p + 2, RC.Is(""), RC.Is(".."), RC.Is(""));
  }

  /** The set-line branch, on a directive's lines, goes on to the comment loop over the k lines counted. */
  lemma SetLineStep(L: seq<string>, p: nat, d: RC.Delims, line: int, k: nat)
    requires SetLineLaidOut(L, p, line) && p + 6 < |L| && RC.CountLines(L, p + 5) == k
    ensures RC.Step(L, p, d) == RC.CommentRun(L, p + 5, d, k >= 10000, if k >= 10000 then k else 0, k)
  {
    SetLineFits(L, p, line);
    SetLinePass(L, p, d, k);
  }

  lemma CommentAtFrom(L: seq<string>, s: nat, body: seq<SC.Classified>, e: nat)
    requires e == s + |body| && e < |L| && L[e] == ""
    requires forall r :: 0 <= r < |body| ==> L[s + r] == Chop(body[r].s)
    requires forall r :: 0 <= r < |body| ==> Chop(body[r].s) != RC.Fenced
    ensures CommentAt(L, s, body)
  {
  }

  /** The count of a comment run before a fence, and the comment loop over it. */
  lemma CountedMid(L: seq<string>, p: nat, body: seq<SC.Classified>, d: RC.Delims, e: nat)
    requires d.inline.Some? || d.open.Some?
    requires CommentAt(L, p + 5, body) && e == p + 5 + |body| && e + 1 < |L| && L[e + 1] == RC.Fenced
    ensures RC.CountLines(L, p + 5) == |body|
    ensures var k := |body|; var isBlock := k >= 10000;
      RC.CommentRun(L, p + 5, d, isBlock, if isBlock then k else 0, k) == RC.Next(CommentCode(body, d, false), e)
  {
    CountBeforeFence(L, p + 5, body, e, 0);
    assert p + 5 + 0 == p + 5;
    CommentLoopMid(L, p, body, d, e);
  }

  /** The count of a comment run to the end, and the comment loop over it. */
  lemma CountedLast(L: seq<string>, p: nat, body: seq<SC.Classified>, d: RC.Delims)
    requires d.inline.Some? || d.open.Some?
    requires CommentAt(L, p + 5, body) && |L| == p + 6 + |body| && |body| > 0
    ensures RC.CountLines(L, p + 5) == |body|
    ensures var k := |body|; var isBlock := k >= 10000;
      RC.CommentRun(L, p + 5, d, isBlock, if isBlock then k else 0, k) == RC.Next(CommentCode(body, d, true), |L|)
  {
    CountToEnd(L, p + 5, body, 0);
    assert p + 5 + 0 == p + 5;
    CommentLoopLast(L, p, body, d);
  }

  /** A comment run laid out line by line, with a code run after it at e + 1, reads back as its comments. */
  lemma CommentMidFrom(L: seq<string>, p: nat, line: int, body: seq<SC.Classified>, d: RC.Delims, e: nat)
    requires d.inline.Some? || d.open.Some?
    requires |body| > 0 && e == p + 5 + |body| && e + 1 < |L| && L[e] == "" && L[e + 1] == RC.Fenced
    requires SetLineLaidOut(L, p, line)
    requires CommentAt(L, p + 5, body)
    ensures RC.Step(L, p, d) == RC.Next(CommentCode(body, d, false), e)
  {
    CountedMid(L, p, body, d, e);
    SetLineStep(L, p, d, line, |body|);
  }

  /** A comment run laid out line by line up to the last line reads back as its comments. */
  lemma CommentLastFrom(L: seq<string>, p: nat, line: int, body: seq<SC.Classified>, d: RC.Delims)
    requires d.inline.Some? || d.open.Some?
    requires |body| > 0 && |L| == p + 6 + |body|
    requires SetLineLaidOut(L, p, line)
    requires CommentAt(L, p + 5, body)
    ensures RC.Step(L, p, d) == RC.Next(CommentCode(body, d, true), |L|)
  {
    CountedLast(L, p, body, d);
    SetLineStep(L, p, d, line, |body|);
  }

  /** The comment run's writes, read back by the set-line branch, when a code run follows at e + 1. */
  lemma CommentRunMid(L: seq<string>, p: nat, b: CR.Block, d: RC.Delims, e: nat)
    requires d.inline.Some? || d.open.Some?
    requires b.ctype != -1 && b.ctype <= 0 && |b.body| > 0 && Window(L, p + 1, BlockLines(b))
    requires forall r :: 0 <= r < |b.body| ==> Chop(b.body[r].s) != RC.Fenced
    requires e == p + 1 + |BlockLines(b)| && e + 1 < |L| && L[e] == "" && L[e + 1] == RC.Fenced
    ensures RC.Step(L, p, d) == RC.Next(CommentCode(b.body, d, false), e)
  {
    CommentRunFacts(L, p, b, e);
    CommentBodyFacts(L, p + 5, b.body, e);
    CommentMidFrom(L, p, b.line, b.body, d, e);
  }

  /** The comment run's writes, read back by the set-line branch, when it is the last run. */
  lemma CommentRunLast(L: seq<string>, p: nat, b: CR.Block, d: RC.Delims, e: nat)
    requires d.inline.Some? || d.open.Some?
    requires b.ctype != -1 && b.ctype <= 0 && |b.body| > 0 && Window(L, p + 1, BlockLines(b))
    requires forall r :: 0 <= r < |b.body| ==> Chop(b.body[r].s) != RC.Fenced
    requires e == p + 1 + |BlockLines(b)| && |L| == e + 1 && L[e] == ""
    ensures RC.Step(L, p, d) == RC.Next(CommentCode(b.body, d, true), |L|)
  {
    CommentRunFacts(L, p, b, e);
    CommentBodyFacts(L, p + 5, b.body, e);
    CommentLastFrom(L, p, b.line, b.body, d);
  }

  // ---------------------------------------------------------------------
  // The whole document read back
  // ---------------------------------------------------------------------

  /** What the parser gives back for the run b, the last run when `last`. */
  function BlockCode(b: CR.Block, d: RC.Delims, last: bool): string
    requires d.inline.Some? || d.open.Some?
  {
    if b.ctype == -1 then CodeLines(b.body, 0)
    else if b.ctype > 0 then DivComments(b.body, 0, b.ctype, d)
    else CommentCode(b.body, d, last)
  }

  /** What the parser gives back for the runs bs[m..]. */
  function CodeFrom(bs: seq<CR.Block>, m: nat, d: RC.Delims): string
    requires d.inline.Some? || d.open.Some?
    decreases |bs| - m
  {
    if m >= |bs| then "" else BlockCode(bs[m], d, m + 1 == |bs|) + CodeFrom(bs, m + 1, d)
  }

  /**
   * The runs the parser reads back as written: no code line that reads as
   * the ending fence, no indented comment line that reads as a raw
   * directive, no comment line at indent 0 that reads as a fence, and a
   * comment run at indent 0 is the last run or has a code run after it,
   * since its counting loop reads on to the next fence.
   */
  predicate ReadableRun(bs: seq<CR.Block>, m: nat)
    requires m < |bs|
  {
    var b := bs[m];
    Written(b) &&
    (b.ctype == -1 ==> forall r :: 0 <= r < |b.body| ==> " " + Chop(b.body[r].s) != RC.EndingFence) &&
    (b.ctype > 0 ==> forall r :: 0 <= r < |b.body| ==> Chop(b.body[r].s) != RC.RawHtml) &&
    (b.ctype != -1 && b.ctype <= 0 ==>
      (forall r :: 0 <= r < |b.body| ==> Chop(b.body[r].s) != RC.Fenced) && (m + 1 < |bs| ==> bs[m + 1].ctype == -1))
  }

  predicate Readable(bs: seq<CR.Block>)
  {
    forall m :: 0 <= m < |bs| ==> ReadableRun(bs, m)
  }

  /** One pass of the main loop that goes on: the loop's result is the pass's output before the rest. */
  lemma RunThrough(L: seq<string>, i: nat, d: RC.Delims, out: string, j: nat)
    requires i < |L| && RC.Step(L, i, d) == RC.Next(out, j)
    ensures RC.Run(L, i, d) == RC.Prefixed(out, RC.Run(L, j, d))
  {
  }

  /** Flat with its final empty line, split after the run bs[m]. */
  lemma FlatUnfold(bs: seq<CR.Block>, m: nat)
    requires m < |bs|
    ensures Flat(bs, m) + [""] == [""] + BlockLines(bs[m]) + (Flat(bs, m + 1) + [""])
    ensures |Flat(bs, m)| == 1 + |BlockLines(bs[m])| + |Flat(bs, m + 1)|
  {
    CR.Assoc([""] + BlockLines(bs[m]), Flat(bs, m + 1), [""]);
  }

  /** A window to the end holding an empty line, then xs, then ys and a final empty line. */
  lemma WindowCons(L: seq<string>, p: nat, xs: seq<string>, ys: seq<string>, e: nat)
    requires Window(L, p, [""] + xs + (ys + [""])) && |L| == p + (1 + |xs| + |ys|) + 1 && e == p + 1 + |xs|
    ensures Window(L, p + 1, xs) && Window(L, e, ys + [""]) && |L| == e + |ys| + 1
  {
    WindowSplit(L, p, [""] + xs, ys + [""]);
    WindowSplit(L, p, [""], xs);
  }

  /** The lines from index p: an empty line, the run bs[m]'s lines, and from e on the lines of the runs after it. */
  lemma FlatNext(L: seq<string>, bs: seq<CR.Block>, m: nat, p: nat, e: nat)
    requires m < |bs| && Window(L, p, Flat(bs, m) + [""]) && |L| == p + |Flat(bs, m)| + 1
    requires e == p + 1 + |BlockLines(bs[m])|
    ensures Window(L, p + 1, BlockLines(bs[m]))
    ensures Window(L, e, Flat(bs, m + 1) + [""]) && |L| == e + |Flat(bs, m + 1)| + 1
  {
    FlatUnfold(bs, m);
    WindowCons(L, p, BlockLines(bs[m]), Flat(bs, m + 1), e);
  }

  /** The first of the lines from e is empty, and a code run's fence follows it when one comes next. */
  lemma FlatHead(L: seq<string>, bs: seq<CR.Block>, m: nat, e: nat)
    requires m <= |bs| && Window(L, e, Flat(bs, m) + [""])
    ensures e < |L| && L[e] == ""
    ensures m < |bs| && bs[m].ctype == -1 ==> e + 1 < |L| && L[e + 1] == RC.Fenced
  {
    WindowAt(L, e, Flat(bs, m) + [""], 0);
    if m < |bs| && bs[m].ctype == -1 {
      var xs := Flat(bs, m) + [""];
      assert xs == [""] + (FenceOpenLines() + Texts(bs[m].body, " ") + FenceCloseLines()) + (Flat(bs, m + 1) + [""]);
      WindowAt(L, e, xs, 1);
    }
  }

  /** The pass at index p over the run bs[m]: its code, then on at e, or at the end after the last comment run. */
  lemma BlockStep(L: seq<string>, bs: seq<CR.Block>, m: nat, p: nat, e: nat, d: RC.Delims)
    requires d.inline.Some? || d.open.Some?
    requires m < |bs| && ReadableRun(bs, m)
    requires Window(L, p, Flat(bs, m) + [""]) && |L| == p + |Flat(bs, m)| + 1
    requires e == p + 1 + |BlockLines(bs[m])|
    ensures p < |L|
    ensures bs[m].ctype != -1 && bs[m].ctype <= 0 && m + 1 == |bs| ==> RC.Step(L, p, d) == RC.Next(BlockCode(bs[m], d, true), |L|)
    ensures !(bs[m].ctype != -1 && bs[m].ctype <= 0 && m + 1 == |bs|) ==> RC.Step(L, p, d) == RC.Next(BlockCode(bs[m], d, m + 1 == |bs|), e)
  {
    FlatNext(L, bs, m, p, e);
    FlatHead(L, bs, m + 1, e);
    RunParsed(L, p, bs[m], d, e, m + 1 == |bs|);
  }

  /** One run's lines, followed by an empty line at e, read back by one pass of the main loop. */
  lemma RunParsed(L: seq<string>, p: nat, b: CR.Block, d: RC.Delims, e: nat, last: bool)
    requires d.inline.Some? || d.open.Some?
    requires Written(b) && Window(L, p + 1, BlockLines(b))
    requires e == p + 1 + |BlockLines(b)| && e < |L| && L[e] == ""
    requires b.ctype == -1 ==> forall r :: 0 <= r < |b.body| ==> " " + Chop(b.body[r].s) != RC.EndingFence
    requires b.ctype > 0 ==> forall r :: 0 <= r < |b.body| ==> Chop(b.body[r].s) != RC.RawHtml
    requires b.ctype != -1 && b.ctype <= 0 ==> forall r :: 0 <= r < |b.body| ==> Chop(b.body[r].s) != RC.Fenced
    requires b.ctype != -1 && b.ctype <= 0 && last ==> |L| == e + 1
    requires b.ctype != -1 && b.ctype <= 0 && !last ==> e + 1 < |L| && L[e + 1] == RC.Fenced
    ensures b.ctype != -1 && b.ctype <= 0 && last ==> RC.Step(L, p, d) == RC.Next(BlockCode(b, d, true), |L|)
    ensures !(b.ctype != -1 && b.ctype <= 0 && last) ==> RC.Step(L, p, d) == RC.Next(BlockCode(b, d, last), e)
  {
    if b.ctype == -1 {
      CodeRunParsed(L, p, b, d);
    } else if b.ctype > 0 {
      DivRunParsed(L, p, b, d);
    } else if last {
      CommentRunLast(L, p, b, d, e);
    } else {
      CommentRunMid(L, p, b, d, e);
    }
  }

  /** The main loop from the empty line before run m reads back the code of the runs from m on. */
  lemma {:induction false} RunFrom(L: seq<string>, bs: seq<CR.Block>, m: nat, p: nat, d: RC.Delims)
    requires d.inline.Some? || d.open.Some?
    requires Readable(bs) && m <= |bs|
    requires Window(L, p, Flat(bs, m) + [""]) && |L| == p + |Flat(bs, m)| + 1
    ensures RC.Run(L, p, d) == RC.Returns(CodeFrom(bs, m, d))
    decreases |bs| - m
  {
    if m == |bs| {
      FlatHead(L, bs, m, p);
      assert "" + "" == "";
    } else {
      var b := bs[m];
      var e := p + 1 + |BlockLines(b)|;
      BlockStep(L, bs, m, p, e, d);
      var out := BlockCode(b, d, m + 1 == |bs|);
      if b.ctype != -1 && b.ctype <= 0 && m + 1 == |bs| {
        RunThrough(L, p, d, out, |L|);
        assert out + "" == out;
      } else {
        RunThrough(L, p, d, out, e);
        FlatNext(L, bs, m, p, e);
        RunFrom(L, bs, m + 1, e, d);
      }
    }
  }

  /** The main loop over the whole reST of the runs bs reads back the code of every run. */
  lemma RenderedRoundTrip(bs: seq<CR.Block>, d: RC.Delims)
    requires d.inline.Some? || d.open.Some?
    requires Readable(bs)
    ensures RC.Convert(CR.Text(CR.RenderAll(bs)), d) == RC.Returns(CodeFrom(bs, 0, d))
  {
    forall k | 0 <= k < |bs|
      ensures Written(bs[k])
    {
      assert ReadableRun(bs, k);
    }
    TextLines(bs);
    var L := Flat(bs, 0) + [""];
    assert L[0..|L|] == L;
    RunFrom(L, bs, 0, 0, d);
  }

  /** What a source line needs for the parser to read it back as written, by its type. */
  predicate ReadableLine(c: SC.Classified)
  {
    Plain(c) &&
    (c.ctype == -1 ==> " " + Chop(c.s) != RC.EndingFence) &&
    (c.ctype > 0 ==> Chop(c.s) != RC.RawHtml) &&
    (c.ctype != -1 && c.ctype <= 0 ==> Chop(c.s) != RC.Fenced)
  }

  /** Every line readable, and a comment at indent 0 followed by a line of another type only by code. */
  predicate ReadableLines(lines: seq<SC.Classified>)
  {
    (forall k :: 0 <= k < |lines| ==> ReadableLine(lines[k])) &&
    (forall k :: 0 < k < |lines| && lines[k - 1].ctype != -1 && lines[k - 1].ctype <= 0 && lines[k].ctype != lines[k - 1].ctype ==> lines[k].ctype == -1)
  }

  /** The first run of lines[i..] is readable. */
  lemma FirstReadable(lines: seq<SC.Classified>, i: nat, j: nat)
    requires ReadableLines(lines) && i < |lines| && j == CR.RunEnd(lines, i, lines[i].ctype)
    ensures ReadableRun(CR.Partition(lines, i), 0)
  {
    var t := lines[i].ctype;
    var b := CR.Block(t, lines[i..j], i + 1);
    CR.PartitionStep(lines, i, j);
    CR.FirstIsRun(lines, i, j);
    CR.RunEndExact(lines, i, t);
    forall r | 0 <= r < |b.body|
      ensures ReadableLine(b.body[r]) && b.body[r].ctype == t
    {
      assert b.body[r] == lines[i + r];
    }
    var bs := CR.Partition(lines, i);
    assert bs[0] == b;
    if t != -1 && t <= 0 && 1 < |bs| {
      CR.PartitionAlternates(lines, j);
      assert bs[1] == CR.Partition(lines, j)[0];
      assert lines[j - 1].ctype == t;
    }
  }

  /** Every run of lines[i..] is readable. */
  lemma {:induction false} PartitionReadable(lines: seq<SC.Classified>, i: nat)
    requires ReadableLines(lines) && i <= |lines|
    ensures Readable(CR.Partition(lines, i))
    decreases |lines| - i
  {
    if i < |lines| {
      var j := CR.RunEnd(lines, i, lines[i].ctype);
      CR.PartitionStep(lines, i, j);
      FirstReadable(lines, i, j);
      PartitionReadable(lines, j);
      var bs, rest := CR.Partition(lines, i), CR.Partition(lines, j);
      forall m | 0 < m < |bs|
        ensures ReadableRun(bs, m)
      {
        assert bs[m] == rest[m - 1];
        assert ReadableRun(rest, m - 1);
        if m + 1 < |bs| {
          assert bs[m + 1] == rest[m];
        }
      }
    }
  }

  /**
   * The round trip: the reST that _generate_rest writes for the classified
   * lines, given to rest_to_code_string, gives back each run's code, the
   * code lines exactly as they were.
   */
  lemma RoundTrip(lines: seq<SC.Classified>, d: RC.Delims)
    requires d.inline.Some? || d.open.Some?
    requires ReadableLines(lines) && (lines == [] || lines[0].ctype != -2)
    ensures RC.Convert(CR.Text(CR.Generated(lines, 0, -2)), d) == RC.Returns(CodeFrom(CR.Partition(lines, 0), 0, d))
  {
    CR.GenerateRestIsBlocks(lines);
    PartitionReadable(lines, 0);
    RenderedRoundTrip(CR.Partition(lines, 0), d);
  }

}
