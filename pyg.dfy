/**
 * pyg.py's CodeToHtmlFormatter, the older of the two Pygments formatters:
 * `_merge_comments` is a six-state machine that folds consecutive comment
 * lines separated only by a newline (and any whitespace) into one comment
 * token, and `_format_lines` wraps each finished code line in <pre>. Unlike
 * the later pyg_module.py it compares no indentation before merging, and it
 * has no assertions: every token stream is accepted. Pygments' own line
 * formatting (`_format_lines1`) and style sheet are not part of this model.
 */
module Pyg {
  import opened PyText
  import opened PygmentsToken

  /** `ttype is Token.Comment`: only the bare comment type. */
  predicate IsComment(t: Tok)
  {
    t.ttype == Comment
  }

  // ----------------------------------------------------------- _merge_comments

  /**
   * The machine's variables: `state` (0 at a line start, 1 after leading
   * whitespace, 2 after a comment, 3 after the newline ending it, 4 after the
   * next line's whitespace, 5 in the rest of a line), the held-back `stack`
   * and the tokens yielded so far.
   */
  datatype Machine = Machine(state: nat, stack: seq<Tok>, out: seq<Tok>)

  const Start := Machine(0, [], [])

  /** A held-back comment, with or without the whitespace before it. */
  predicate Candidate(s: seq<Tok>)
  {
    (|s| == 1 && IsComment(s[0]))
    || (|s| == 2 && IsBlankRun(s[0].value) && IsComment(s[1]))
  }

  /**
   * What each state holds back: nothing in states 0 and 5, the whitespace in
   * 1, a candidate in 2, a candidate and its newline in 3, and that followed
   * by the next line's whitespace in 4.
   */
  predicate Inv(m: Machine)
  {
    var s := m.stack;
    match m.state
    case 0 => s == []
    case 1 => |s| == 1 && IsBlankRun(s[0].value)
    case 2 => Candidate(s)
    case 3 => 2 <= |s| <= 3 && Candidate(s[..|s| - 1]) && s[|s| - 1].value == "\n"
    case 4 =>
      3 <= |s| <= 4 && Candidate(s[..|s| - 2]) && s[|s| - 2].value == "\n"
      && IsBlankRun(s[|s| - 1].value)
    case 5 => s == []
    case _ => false
  }

  /** The text the machine has taken in: what it yielded, then what it holds. */
  function Taken(m: Machine): string
  {
    Spelled(m.out + m.stack)
  }

  /** `state = 0 if value == '\n' else 5`. */
  function AfterToken(v: string): nat
  {
    if v == "\n" then 0 else 5
  }

  /** Yield the stack and then t, and go to `next`. */
  function Flush(m: Machine, t: Tok, next: nat): Machine
  {
    Machine(next, [], m.out + m.stack + [t])
  }

  /**
   * `token_stack[i][1] = ''.join(token_stack[i:]) + value; del token_stack[i + 1:]`:
   * the entry at i absorbs every later entry and the new comment.
   */
  function Fold(s: seq<Tok>, i: nat, v: string): (r: seq<Tok>)
    requires i < |s|
  {
    s[..i] + [Tok(s[i].ttype, Spelled(s[i..]) + v)]
  }

  /** Folding into a held-back candidate's comment leaves a candidate. */
  lemma FoldCandidate(s: seq<Tok>, k: nat, v: string)
    requires 0 < k <= |s| && Candidate(s[..k])
    ensures Candidate(Fold(s, k - 1, v))
  {
    assert s[..k - 1] == s[..k][..k - 1];
  }

  /** One iteration of the loop of _merge_comments: the branch for the current state. */
  function Step(m: Machine, t: Tok): (r: Machine)
    requires Inv(m)
    ensures Inv(r)
  {
    match m.state
    case 0 => AtLineStart(m, t)
    case 1 => AfterBlank(m, t)
    case 2 => AfterComment(m, t)
    case 3 => AfterCommentLine(m, t)
    case 4 => AfterNextBlank(m, t)
    case _ => InCodeLine(m, t)
  }

  /** State 0, at a line start. */
  function AtLineStart(m: Machine, t: Tok): (r: Machine)
    requires Inv(m) && m.state == 0
    ensures Inv(r)
  {
    if IsBlankRun(t.value) then Machine(1, m.stack + [t], m.out)
    else if t.value == "\n" then Flush(m, t, 0)
    else if IsComment(t) then Machine(2, m.stack + [t], m.out)
    // Only t is yielded here; Inv shows there is nothing on the stack to lose.
    else Machine(5, m.stack, m.out + [t])
  }

  /** State 1, after a line's leading whitespace. */
  function AfterBlank(m: Machine, t: Tok): (r: Machine)
    requires Inv(m) && m.state == 1
    ensures Inv(r)
  {
    if IsComment(t) then Machine(2, m.stack + [t], m.out)
    else if t.value == "\n" then Flush(m, t, 0)
    else Flush(m, t, AfterToken(t.value))
  }

  /** State 2, after a comment. */
  function AfterComment(m: Machine, t: Tok): (r: Machine)
    requires Inv(m) && m.state == 2
    ensures Inv(r)
  {
    if t.value == "\n" then Machine(3, m.stack + [t], m.out)
    else Flush(m, t, 5)
  }

  /** State 3, after the newline ending a comment line: a comment here is folded in. */
  function AfterCommentLine(m: Machine, t: Tok): (r: Machine)
    requires Inv(m) && m.state == 3
    ensures Inv(r)
  {
    var s := m.stack;
    if IsBlankRun(t.value) then Machine(4, s + [t], m.out)
    else if IsComment(t) then
      FoldCandidate(s, |s| - 1, t.value);
      Machine(2, Fold(s, |s| - 2, t.value), m.out)
    else Flush(m, t, AfterToken(t.value))
  }

  /** State 4, after the next line's whitespace: a comment here is folded in, whatever its indent. */
  function AfterNextBlank(m: Machine, t: Tok): (r: Machine)
    requires Inv(m) && m.state == 4
    ensures Inv(r)
  {
    var s := m.stack;
    if IsComment(t) then
      // Fold from the comment three back when the top is whitespace, as Inv guarantees.
      var i := if IsBlankRun(s[|s| - 1].value) then |s| - 3 else |s| - 2;
      FoldCandidate(s, |s| - 2, t.value);
      Machine(2, Fold(s, i, t.value), m.out)
    else Flush(m, t, 5)
  }

  /** State 5, in the rest of a line: tokens pass until a newline. */
  function InCodeLine(m: Machine, t: Tok): (r: Machine)
    requires Inv(m) && m.state == 5
    ensures Inv(r)
  {
    Machine(AfterToken(t.value), m.stack, m.out + [t])
  }

  /** The rest of the loop from m, then the final flush of the stack. */
  function Feed(m: Machine, ts: seq<Tok>): seq<Tok>
    requires Inv(m)
    decreases |ts|
  {
    if ts == [] then m.out + m.stack else Feed(Step(m, ts[0]), ts[1..])
  }

  /** _merge_comments over a whole token stream. */
  function MergeRun(ts: seq<Tok>): seq<Tok>
  {
    Feed(Start, ts)
  }

  /**
   * _merge_comments as the generator runs it: the state, the stack and the
   * yielded tokens are updated token by token.
   */
  method MergeComments(ts: seq<Tok>) returns (out: seq<Tok>)
    ensures out == MergeRun(ts)
  {
    var stack: seq<Tok> := [];
    var state: nat := 0;
    out := [];
    var i := 0;
    while i < |ts|
      invariant 0 <= i <= |ts|
      invariant Inv(Machine(state, stack, out))
      invariant Feed(Machine(state, stack, out), ts[i..]) == MergeRun(ts)
      decreases |ts| - i
    {
      assert ts[i..][0] == ts[i] && ts[i..][1..] == ts[i + 1..];
      state, stack, out := MergeToken(state, stack, out, ts[i]);
      i := i + 1;
    }
    out := out + stack;
  }

  /** The body of the loop of _merge_comments for one token. */
  method MergeToken(state: nat, stack: seq<Tok>, out: seq<Tok>, t: Tok)
    returns (state': nat, stack': seq<Tok>, out': seq<Tok>)
    requires Inv(Machine(state, stack, out))
    ensures Machine(state', stack', out') == Step(Machine(state, stack, out), t)
  {
    var value := t.value;
    state', stack', out' := state, stack, out;
    if state == 0 {
      if IsBlankRun(value) {
        stack' := stack + [t];
        state' := 1;
      } else if value == "\n" {
        out' := out + stack + [t];
        stack' := [];
      } else if IsComment(t) {
        stack' := stack + [t];
        state' := 2;
      } else {
        out' := out + [t];
        state' := 5;
      }
    } else if state == 1 {
      if IsComment(t) {
        stack' := stack + [t];
        state' := 2;
      } else if value == "\n" {
        out' := out + stack + [t];
        stack' := [];
        state' := 0;
      } else {
        out' := out + stack + [t];
        stack' := [];
        state' := AfterToken(value);
      }
    } else if state == 2 {
      if value == "\n" {
        stack' := stack + [t];
        state' := 3;
      } else {
        out' := out + stack + [t];
        stack' := [];
        state' := 5;
      }
    } else if state == 3 {
      if IsBlankRun(value) {
        stack' := stack + [t];
        state' := 4;
      } else if IsComment(t) {
        var k := |stack| - 2;
        stack' := stack[..k] + [Tok(stack[k].ttype, Spelled(stack[k..]) + value)];
        state' := 2;
      } else {
        out' := out + stack + [t];
        stack' := [];
        state' := AfterToken(value);
      }
    } else if state == 4 {
      if IsComment(t) {
        var k := if IsBlankRun(stack[|stack| - 1].value) then |stack| - 3 else |stack| - 2;
        stack' := stack[..k] + [Tok(stack[k].ttype, Spelled(stack[k..]) + value)];
        state' := 2;
      } else {
        out' := out + stack + [t];
        stack' := [];
        state' := 5;
      }
    } else {
      out' := out + [t];
      state' := AfterToken(value);
    }
  }

  /** A step that keeps every token as it is adds exactly the token's text. */
  lemma TakenGrows(m: Machine, m': Machine, t: Tok)
    requires m'.out + m'.stack == m.out + m.stack + [t]
    ensures Taken(m') == Taken(m) + t.value
  {
    SpelledSnoc(m.out + m.stack, t);
  }

  /** Folding the stack from i keeps the text: the folded entry spells everything from i on. */
  lemma FoldSpelled(out: seq<Tok>, s: seq<Tok>, i: nat, v: string)
    requires i < |s|
    ensures Spelled(out + Fold(s, i, v)) == Spelled(out + s) + v
  {
    var c := Tok(s[i].ttype, Spelled(s[i..]) + v);
    assert out + Fold(s, i, v) == (out + s[..i]) + [c];
    SpelledSnoc(out + s[..i], c);
    assert out + s == (out + s[..i]) + s[i..];
    SpelledAppend(out + s[..i], s[i..]);
  }

  /** Every step adds exactly the token's text: merges only move text into the first comment. */
  lemma StepSpelled(m: Machine, t: Tok)
    requires Inv(m)
    ensures Taken(Step(m, t)) == Taken(m) + t.value
  {
    var s := m.stack;
    var m' := Step(m, t);
    if m.state == 3 && !IsBlankRun(t.value) && IsComment(t) {
      FoldSpelled(m.out, s, |s| - 2, t.value);
    } else if m.state == 4 && IsComment(t) {
      var i := if IsBlankRun(s[|s| - 1].value) then |s| - 3 else |s| - 2;
      FoldSpelled(m.out, s, i, t.value);
    } else {
      TakenGrows(m, m', t);
    }
  }

  lemma {:induction false} FeedSpelled(m: Machine, ts: seq<Tok>)
    requires Inv(m)
    ensures Spelled(Feed(m, ts)) == Taken(m) + Spelled(ts)
    decreases |ts|
  {
    if ts == [] {
      assert Spelled(ts) == "";
    } else {
      var t := ts[0];
      assert ts == [t] + ts[1..];
      SpelledAppend([t], ts[1..]);
      SpelledOne(t);
      StepSpelled(m, t);
      FeedSpelled(Step(m, t), ts[1..]);
    }
  }

  /** The merged stream spells exactly the input stream. */
  lemma MergeSpelled(ts: seq<Tok>)
    ensures Spelled(MergeRun(ts)) == Spelled(ts)
  {
    FeedSpelled(Start, ts);
    assert Taken(Start) == "";
  }

  /** A newline token: "\n", neither whitespace nor a comment. */
  predicate Newline(t: Tok)
  {
    t.value == "\n" && !IsComment(t)
  }

  /** A comment token that is neither whitespace nor a bare newline. */
  predicate LineComment(t: Tok)
  {
    IsComment(t) && !IsBlankRun(t.value) && t.value != "\n"
  }

  predicate Blank(t: Tok)
  {
    IsBlankRun(t.value)
  }

  /** Step takes m to m' on t (compared field by field, so sequences compare by contents). */
  predicate Goes(m: Machine, t: Tok, m': Machine)
    requires Inv(m)
  {
    var r := Step(m, t);
    r.state == m'.state && r.stack == m'.stack && r.out == m'.out
  }

  lemma GoesAt(m: Machine, ts: seq<Tok>, k: nat, m': Machine)
    requires k < |ts| && Inv(m) && Goes(m, ts[k], m')
    ensures Inv(m') && Feed(m, ts[k..]) == Feed(m', ts[k + 1..])
  {
    assert Step(m, ts[k]) == m';
    assert ts[k..][0] == ts[k] && ts[k..][1..] == ts[k + 1..];
  }

  /** Folding a comment and its newline with the next comment joins the two texts with the newline. */
  lemma FoldPair(c: Tok, nl: Tok, v: string)
    requires nl.value == "\n"
    ensures Fold([c, nl], 0, v) == [Tok(c.ttype, c.value + "\n" + v)]
  {
    assert [c, nl][0..] == [c] + [nl];
    SpelledSnoc([c], nl);
    SpelledOne(c);
  }

  /** Folding whitespace, a comment, its newline and whitespace with the next comment keeps the first whitespace apart. */
  lemma FoldQuad(w: Tok, c: Tok, nl: Tok, w': Tok, v: string)
    requires nl.value == "\n"
    ensures Fold([w, c, nl, w'], 1, v) == [w, Tok(c.ttype, c.value + "\n" + w'.value + v)]
  {
    assert [w, c, nl, w'][1..] == [c] + [nl] + [w'];
    SpelledSnoc([c], nl);
    SpelledSnoc([c] + [nl], w');
    SpelledOne(c);
  }

  /** "# comment1\n# comment2": two comment lines separated only by a newline become one comment. */
  lemma MergesLines(ts: seq<Tok>)
    requires |ts| == 3 && LineComment(ts[0]) && Newline(ts[1]) && LineComment(ts[2])
    ensures MergeRun(ts) == [Tok(Comment, ts[0].value + "\n" + ts[2].value)]
  {
    NewlineIsNotBlank();
    var m2 := Machine(3, [ts[0], ts[1]], []);
    var m3 := Machine(2, [Tok(Comment, ts[0].value + "\n" + ts[2].value)], []);
    CommentThenNewline(ts);
    FoldPair(ts[0], ts[1], ts[2].value);
    GoesAt(m2, ts, 2, m3);
  }

  /** A comment line and its newline leave the machine waiting, both tokens on the stack. */
  lemma CommentThenNewline(ts: seq<Tok>)
    requires |ts| >= 2 && LineComment(ts[0]) && Newline(ts[1])
    ensures Inv(Machine(3, [ts[0], ts[1]], []))
    ensures MergeRun(ts) == Feed(Machine(3, [ts[0], ts[1]], []), ts[2..])
  {
    NewlineIsNotBlank();
    var m1 := Machine(2, [ts[0]], []);
    assert ts[0..] == ts;
    GoesAt(Start, ts, 0, m1);
    GoesAt(m1, ts, 1, Machine(3, [ts[0], ts[1]], []));
  }

  /**
   * The bug the file's own notes list: two indented comment lines are merged
   * even when their indents differ; the second line's whitespace ends up
   * inside the merged comment.
   */
  lemma MergesOtherIndent(ts: seq<Tok>)
    requires |ts| == 5 && Blank(ts[0]) && LineComment(ts[1]) && Newline(ts[2])
    requires Blank(ts[3]) && LineComment(ts[4])
    requires ts[0].value != ts[3].value
    ensures MergeRun(ts) == [ts[0], Tok(Comment, ts[1].value + "\n" + ts[3].value + ts[4].value)]
  {
    NewlineIsNotBlank();
    var s := ts[..4];
    var m1 := Machine(1, [ts[0]], []);
    var m2 := Machine(2, ts[..2], []);
    var m3 := Machine(3, ts[..3], []);
    var m4 := Machine(4, s, []);
    var m5 := Machine(2, [ts[0], Tok(Comment, ts[1].value + "\n" + ts[3].value + ts[4].value)], []);
    assert ts[0..] == ts;
    GoesAt(Start, ts, 0, m1);
    GoesAt(m1, ts, 1, m2);
    GoesAt(m2, ts, 2, m3);
    FoldQuad(ts[0], ts[1], ts[2], ts[3], ts[4].value);
    assert s == [ts[0], ts[1], ts[2], ts[3]];
    GoesAt(m3, ts, 3, m4);
    GoesAt(m4, ts, 4, m5);
  }

  /** "# comment1\n\n# comment2": a blank line keeps the comments apart. */
  lemma BlankLineSeparates(ts: seq<Tok>)
    requires |ts| == 4 && LineComment(ts[0]) && Newline(ts[1]) && Newline(ts[2]) && LineComment(ts[3])
    ensures MergeRun(ts) == ts
  {
    NewlineIsNotBlank();
    var m1 := Machine(2, [ts[0]], []);
    var m2 := Machine(3, ts[..2], []);
    var m3 := Machine(0, [], ts[..3]);
    var m4 := Machine(2, [ts[3]], ts[..3]);
    assert ts[0..] == ts;
    GoesAt(Start, ts, 0, m1);
    GoesAt(m1, ts, 1, m2);
    GoesAt(m2, ts, 2, m3);
    GoesAt(m3, ts, 3, m4);
    assert ts[..3] + [ts[3]] == ts;
  }

  /**
   * In state 0 a newline is yielded at once and the machine stays at a line
   * start, so any run of empty lines passes through unchanged.
   */
  lemma {:induction false} EmptyLinesPass(out: seq<Tok>, nls: seq<Tok>, rest: seq<Tok>)
    requires forall i :: 0 <= i < |nls| ==> Newline(nls[i])
    ensures Feed(Machine(0, [], out), nls + rest) == Feed(Machine(0, [], out + nls), rest)
    decreases |nls|
  {
    NewlineIsNotBlank();
    if nls == [] {
      assert nls + rest == rest && out + nls == out;
    } else {
      var t := nls[0];
      assert (nls + rest)[0] == t && (nls + rest)[1..] == nls[1..] + rest;
      assert Step(Machine(0, [], out), t) == Machine(0, [], out + [t]);
      EmptyLinesPass(out + [t], nls[1..], rest);
      assert out + [t] + nls[1..] == out + nls;
    }
  }

  // -------------------------------------------------------------- _format_lines

  /** One (is_code, line) pair of the formatted output. */
  datatype Line = Line(isCode: bool, text: string)

  /** A finished code line is wrapped in <pre>, its newline moved after the closing tag. */
  function FormatLine(l: Line): (r: Line)
    ensures r.isCode == l.isCode
    ensures EndsNl(r.text) <==> EndsNl(l.text)
  {
    if l.isCode && EndsNl(l.text) then Line(true, "<pre>" + l.text[..|l.text| - 1] + "</pre>\n")
    else l
  }

  /** _format_lines' loop over the lines of _format_lines1. */
  function FormatLines(ls: seq<Line>): (r: seq<Line>)
    ensures |r| == |ls|
    decreases |ls|
  {
    if ls == [] then [] else [FormatLine(ls[0])] + FormatLines(ls[1..])
  }

  /** The line inside a <pre> wrapper, with its newline put back. */
  function Unwrap(s: string): string
    requires |s| >= 12
  {
    s[5..|s| - 7] + "\n"
  }

  /**
   * Each output line is its input line, except that a code line ending in a
   * newline is wrapped in <pre>…</pre> with the newline after the closing
   * tag; unwrapping gives the line back.
   */
  lemma {:induction false} FormatLinesAt(ls: seq<Line>, k: nat)
    requires k < |ls|
    ensures FormatLines(ls)[k].isCode == ls[k].isCode
    ensures !(ls[k].isCode && EndsNl(ls[k].text)) ==> FormatLines(ls)[k] == ls[k]
    ensures ls[k].isCode && EndsNl(ls[k].text) ==>
      var r := FormatLines(ls)[k].text;
      StartsWith(r, "<pre>") && EndsWith(r, "</pre>\n") && |r| == |ls[k].text| + 11 && Unwrap(r) == ls[k].text
    decreases k
  {
    if k > 0 {
      FormatLinesAt(ls[1..], k - 1);
    } else {
      var l := ls[0];
      if l.isCode && EndsNl(l.text) {
        var body := l.text[..|l.text| - 1];
        var r := "<pre>" + body + "</pre>\n";
        assert r[..5] == "<pre>";
        assert r[|r| - 7..] == "</pre>\n";
        assert r[5..|r| - 7] == body;
        assert body + "\n" == l.text;
      }
    }
  }
}
