/**
 * pyg_module.py's CodeToHtmlFormatter: the two token passes that run before
 * Pygments turns tokens into HTML lines. `_expand_nl` splits a single-line
 * comment that swallowed its newline into the comment and a separate
 * newline token; `_merge_comments` is a six-state machine that folds
 * consecutive single-line comments, separated only by a newline and equal
 * indentation, into one comment token. The HTML formatting itself
 * (`_format_lines1`, Pygments' HtmlFormatter) is not part of this model.
 */
module PygModule {
  import opened PyText
  import opened PygmentsToken

  /** `ttype is Token.Comment or ttype is Token.Comment.Single`. */
  predicate IsLineComment(t: TokenType)
  {
    t == Comment || t == CommentSingle
  }

  // ---------------------------------------------------------------- _expand_nl

  /** What _expand_nl yields for one token. */
  function ExpandOne(t: Tok): (r: seq<Tok>)
  {
    if t.ttype == CommentSingle && EndsNl(t.value) then
      [Tok(t.ttype, t.value[..|t.value| - 1]), Tok(Text, "\n")]
    else
      [t]
  }

  /** _expand_nl: every token through ExpandOne, in order. */
  function ExpandNl(ts: seq<Tok>): (r: seq<Tok>)
    ensures |ts| <= |r| <= 2 * |ts|
    decreases |ts|
  {
    if ts == [] then [] else ExpandOne(ts[0]) + ExpandNl(ts[1..])
  }

  lemma {:induction false} ExpandNlAppend(a: seq<Tok>, b: seq<Tok>)
    ensures ExpandNl(a + b) == ExpandNl(a) + ExpandNl(b)
    decreases |a|
  {
    if a == [] {
      assert a + b == b;
    } else {
      assert (a + b)[1..] == a[1..] + b;
      ExpandNlAppend(a[1..], b);
    }
  }

  /** Splitting off the newline changes no character of the text. */
  lemma {:induction false} ExpandNlSpelled(ts: seq<Tok>)
    ensures Spelled(ExpandNl(ts)) == Spelled(ts)
    decreases |ts|
  {
    if ts != [] {
      var t := ts[0];
      assert ts == [t] + ts[1..];
      SpelledAppend([t], ts[1..]);
      SpelledAppend(ExpandOne(t), ExpandNl(ts[1..]));
      ExpandNlSpelled(ts[1..]);
      SpelledOne(t);
      if t.ttype == CommentSingle && EndsNl(t.value) {
        var c, n := Tok(t.ttype, t.value[..|t.value| - 1]), Tok(Text, "\n");
        SpelledAppend([c], [n]);
        SpelledOne(c);
        SpelledOne(n);
        assert [c] + [n] == ExpandOne(t);
        assert t.value == t.value[..|t.value| - 1] + "\n";
      }
    }
  }

  /** A single-line comment ending in a newline becomes the comment without it, then a Text newline. */
  lemma ExpandNlSplits(c: string, rest: seq<Tok>)
    ensures ExpandNl([Tok(CommentSingle, c + "\n")] + rest)
         == [Tok(CommentSingle, c), Tok(Text, "\n")] + ExpandNl(rest)
  {
    var t := Tok(CommentSingle, c + "\n");
    assert ([t] + rest)[1..] == rest;
    assert (c + "\n")[..|c|] == c;
  }

  /** Any other token passes through as it is. */
  lemma ExpandNlKeeps(t: Tok, rest: seq<Tok>)
    requires t.ttype != CommentSingle || !EndsNl(t.value)
    ensures ExpandNl([t] + rest) == [t] + ExpandNl(rest)
  {
    assert ([t] + rest)[1..] == rest;
  }

  // ----------------------------------------------------------- _merge_comments

  /**
   * The machine's variables: `state` (0 at a line start, 1 after leading
   * whitespace, 2 after a comment, 3 after the newline ending it, 4 after the
   * next line's whitespace, 5 in the rest of a non-comment line), the
   * held-back `stack` and the tokens yielded so far.
   */
  datatype Machine = Machine(state: nat, stack: seq<Tok>, out: seq<Tok>)

  const Start := Machine(0, [], [])

  /** A held-back comment, with or without the whitespace before it. */
  predicate Candidate(s: seq<Tok>)
  {
    (|s| == 1 && IsLineComment(s[0].ttype))
    || (|s| == 2 && IsBlankRun(s[0].value) && IsLineComment(s[1].ttype))
  }

  /**
   * What each state holds back: nothing in states 0 and 5, the whitespace in
   * 1, a candidate in 2, a candidate and its newline in 3, and that followed
   * by the next line's whitespace in 4 — never more than four tokens.
   */
  predicate Inv(m: Machine)
  {
    var s := m.stack;
    match m.state
    case 0 => s == []
    case 1 => |s| == 1 && IsBlankRun(s[0].value)
    case 2 => Candidate(s)
    case 3 => 2 <= |s| <= 3 && Candidate(s[..|s| - 1]) && s[|s| - 1].value == "\n"
    case 4 =>
      3 <= |s| <= 4 && Candidate(s[..|s| - 2]) && s[|s| - 2].value == "\n"
      && IsBlankRun(s[|s| - 1].value)
    case 5 => s == []
    case _ => false
  }

  /** The text the machine has taken in: what it yielded, then what it holds. */
  function Taken(m: Machine): string
  {
    Spelled(m.out + m.stack)
  }

  /** `state = 0 if value == '\n' else 5`. */
  function AfterToken(v: string): nat
  {
    if v == "\n" then 0 else 5
  }

  /** Yield the stack and then t, and go to `next`. */
  function Flush(m: Machine, t: Tok, next: nat): Machine
  {
    Machine(next, [], m.out + m.stack + [t])
  }

  /** Whether one of the assertions of the state for `t` fails. */
  predicate Rejects(m: Machine, t: Tok)
  {
    (m.state == 1 && IsBlankRun(t.value))
    || (m.state == 2 && (IsBlankRun(t.value) || IsLineComment(t.ttype)))
    || (m.state == 4 && IsBlankRun(t.value))
  }

  /**
   * One iteration of the loop of _merge_comments; None when an assert
   * raises AssertionError.
   */
  function Step(m: Machine, t: Tok): (r: Option<Machine>)
    requires Inv(m)
    ensures r.None? <==> Rejects(m, t)
    ensures r.Some? ==> Inv(r.value)
  {
    var v := t.value;
    var s := m.stack;
    if m.state == 0 then
      if IsBlankRun(v) then Some(Machine(1, s + [t], m.out))
      else if IsLineComment(t.ttype) then Some(Machine(2, s + [t], m.out))
      else Some(Flush(m, t, AfterToken(v)))
    else if m.state == 1 then
      if IsBlankRun(v) then None
      else if IsLineComment(t.ttype) then Some(Machine(2, s + [t], m.out))
      else Some(Flush(m, t, AfterToken(v)))
    else if m.state == 2 then
      if IsBlankRun(v) || IsLineComment(t.ttype) then None
      else if v == "\n" then Some(Machine(3, s + [t], m.out))
      else Some(Flush(m, t, 5))
    else if m.state == 3 then
      if IsBlankRun(v) then Some(Machine(4, s + [t], m.out))
      else if IsLineComment(t.ttype) then
        if |s| == 2 then Some(Machine(2, [Tok(s[0].ttype, s[0].value + "\n" + v)], m.out))
        else
          // The source asserts len(token_stack) == 3 here; Inv proves it.
          assert |s| == 3;
          Some(Machine(2, [t], m.out + s))
      else Some(Flush(m, t, AfterToken(v)))
    else if m.state == 4 then
      if IsBlankRun(v) then None
      else if IsLineComment(t.ttype) then
        if |s| == 4 && s[0].value == s[3].value then
          Some(Machine(2, [s[0], Tok(s[1].ttype, s[1].value + "\n" + s[3].value + v)], m.out))
        else
          var k := |s| - 1;
          Some(Machine(2, s[k..] + [t], m.out + s[..k]))
      else Some(Flush(m, t, AfterToken(v)))
    else if m.state == 5 then
      Some(Machine(AfterToken(v), s, m.out + [t]))
    else
      None
  }

  /** What the generator yields, and whether it stopped on an AssertionError. */
  datatype Outcome = Outcome(out: seq<Tok>, raised: bool)

  /** The rest of the loop from m, then the final flush of the stack. */
  function Feed(m: Machine, ts: seq<Tok>): Outcome
    requires Inv(m)
    decreases |ts|
  {
    if ts == [] then Outcome(m.out + m.stack, false)
    else
      match Step(m, ts[0])
      case None => Outcome(m.out, true)
      case Some(m') => Feed(m', ts[1..])
  }

  /** _merge_comments over a whole token stream. */
  function MergeRun(ts: seq<Tok>): Outcome
  {
    Feed(Start, ts)
  }

  /** A step that keeps every token as it is adds exactly the token's text. */
  lemma TakenGrows(m: Machine, m': Machine, t: Tok)
    requires m'.out + m'.stack == m.out + m.stack + [t]
    ensures Taken(m') == Taken(m) + t.value
  {
    SpelledAppend(m.out + m.stack, [t]);
    SpelledOne(t);
  }

  /** Merging [c, nl] with the next comment v keeps the text: c + "\n" + v. */
  lemma MergeTwoSpelled(out: seq<Tok>, s: seq<Tok>, t: Tok)
    requires |s| == 2 && s[1].value == "\n"
    ensures Spelled(out + [Tok(s[0].ttype, s[0].value + "\n" + t.value)]) == Spelled(out + s) + t.value
  {
    var c := Tok(s[0].ttype, s[0].value + "\n" + t.value);
    var o, head := Spelled(out), s[0].value + "\n";
    assert s == [s[0]] + [s[1]];
    SpelledAppend([s[0]], [s[1]]);
    SpelledOne(s[0]);
    SpelledOne(s[1]);
    assert Spelled(s) == head;
    SpelledAppend(out, s);
    SpelledSnoc(out, c);
    assert Spelled(out + [c]) == o + (head + t.value);
    assert o + (head + t.value) == (o + head) + t.value;
  }

  /** Merging [w, c, nl, w'] with the next comment v keeps the text: w, then c + "\n" + w' + v. */
  lemma MergeFourSpelled(out: seq<Tok>, s: seq<Tok>, t: Tok)
    requires |s| == 4 && s[2].value == "\n"
    ensures Spelled(out + [s[0], Tok(s[1].ttype, s[1].value + "\n" + s[3].value + t.value)])
         == Spelled(out + s) + t.value
  {
    var c := Tok(s[1].ttype, s[1].value + "\n" + s[3].value + t.value);
    var o0, o1, o2 := out + [s[0]], out + [s[0], s[1]], out + [s[0], s[1], s[2]];
    assert o1 == o0 + [s[1]] && o2 == o1 + [s[2]] && out + s == o2 + [s[3]];
    SpelledSnoc(out, s[0]);
    SpelledSnoc(o0, s[1]);
    SpelledSnoc(o1, s[2]);
    SpelledSnoc(o2, s[3]);
    assert out + [s[0], c] == o0 + [c];
    SpelledSnoc(o0, c);
  }

  /** Every step adds exactly the token's text: merges only move text into the first comment. */
  lemma StepSpelled(m: Machine, t: Tok)
    requires Inv(m) && !Rejects(m, t)
    ensures Taken(Step(m, t).value) == Taken(m) + t.value
  {
    var s := m.stack;
    var m' := Step(m, t).value;
    var comment := !IsBlankRun(t.value) && IsLineComment(t.ttype);
    if m.state == 3 && comment && |s| == 2 {
      MergeTwoSpelled(m.out, s, t);
    } else if m.state == 4 && comment && |s| == 4 && s[0].value == s[3].value {
      MergeFourSpelled(m.out, s, t);
    } else if m.state == 4 && comment {
      var k := |s| - 1;
      assert s == s[..k] + s[k..];
      TakenGrows(m, m', t);
    } else {
      TakenGrows(m, m', t);
    }
  }

  /**
   * _merge_comments yields exactly the text it was given, and when an
   * assertion stops it, what it yielded is a prefix of that text.
   */
  lemma {:induction false} FeedSpelled(m: Machine, ts: seq<Tok>)
    requires Inv(m)
    ensures !Feed(m, ts).raised ==> Spelled(Feed(m, ts).out) == Taken(m) + Spelled(ts)
    ensures Spelled(Feed(m, ts).out) <= Taken(m) + Spelled(ts)
    decreases |ts|
  {
    if ts == [] {
      assert Spelled(ts) == "";
    } else {
      var t := ts[0];
      assert ts == [t] + ts[1..];
      SpelledAppend([t], ts[1..]);
      SpelledOne(t);
      if Rejects(m, t) {
        SpelledAppend(m.out, m.stack);
      } else {
        StepSpelled(m, t);
        FeedSpelled(Step(m, t).value, ts[1..]);
      }
    }
  }

  /** The merged stream spells the input stream. */
  lemma MergeSpelled(ts: seq<Tok>)
    ensures !MergeRun(ts).raised ==> Spelled(MergeRun(ts).out) == Spelled(ts)
    ensures Spelled(MergeRun(ts).out) <= Spelled(ts)
  {
    FeedSpelled(Start, ts);
    assert Taken(Start) == "";
  }

  /** A newline token: "\n", not a comment. */
  predicate Newline(t: Tok)
  {
    t.value == "\n" && !IsLineComment(t.ttype)
  }

  /** A comment token that is not whitespace. */
  predicate LineComment(t: Tok)
  {
    IsLineComment(t.ttype) && !IsBlankRun(t.value)
  }

  /** A whitespace token. */
  predicate Blank(t: Tok)
  {
    IsBlankRun(t.value)
  }

  /** Step takes m to m' on t (compared field by field, so sequences compare by contents). */
  predicate Goes(m: Machine, t: Tok, m': Machine)
    requires Inv(m)
  {
    var r := Step(m, t);
    r.Some? && r.value.state == m'.state && r.value.stack == m'.stack && r.value.out == m'.out
  }

  lemma GoesAt(m: Machine, ts: seq<Tok>, k: nat, m': Machine)
    requires k < |ts| && Inv(m) && Goes(m, ts[k], m')
    ensures Inv(m') && Feed(m, ts[k..]) == Feed(m', ts[k + 1..])
  {
    assert Step(m, ts[k]).value == m';
    assert ts[k..][0] == ts[k] && ts[k..][1..] == ts[k + 1..];
  }

  /** Two unindented comment lines separated only by a newline become one comment. */
  lemma MergesUnindented(ts: seq<Tok>)
    requires |ts| == 3 && LineComment(ts[0]) && Newline(ts[1]) && LineComment(ts[2])
    ensures MergeRun(ts) == Outcome([Tok(ts[0].ttype, ts[0].value + "\n" + ts[2].value)], false)
  {
    NewlineIsNotBlank();
    var m1 := Machine(2, [ts[0]], []);
    var m2 := Machine(3, [ts[0], ts[1]], []);
    var m3 := Machine(2, [Tok(ts[0].ttype, ts[0].value + "\n" + ts[2].value)], []);
    assert ts[0..] == ts;
    GoesAt(Start, ts, 0, m1);
    GoesAt(m1, ts, 1, m2);
    GoesAt(m2, ts, 2, m3);
  }

  /** Two comment lines with the same indentation become one comment, keeping the second indent inside it. */
  lemma MergesSameIndent(ts: seq<Tok>)
    requires |ts| == 5 && Blank(ts[0]) && LineComment(ts[1]) && Newline(ts[2])
    requires Blank(ts[3]) && LineComment(ts[4])
    requires ts[0].value == ts[3].value
    ensures MergeRun(ts)
         == Outcome([ts[0], Tok(ts[1].ttype, ts[1].value + "\n" + ts[3].value + ts[4].value)], false)
  {
    NewlineIsNotBlank();
    var m1 := Machine(1, [ts[0]], []);
    var m2 := Machine(2, ts[..2], []);
    var m3 := Machine(3, ts[..3], []);
    var m4 := Machine(4, ts[..4], []);
    var m5 := Machine(2, [ts[0], Tok(ts[1].ttype, ts[1].value + "\n" + ts[3].value + ts[4].value)], []);
    assert ts[0..] == ts;
    GoesAt(Start, ts, 0, m1);
    GoesAt(m1, ts, 1, m2);
    GoesAt(m2, ts, 2, m3);
    GoesAt(m3, ts, 3, m4);
    GoesAt(m4, ts, 4, m5);
  }

  /** Indented comment lines with different indents stay apart: the stream comes out unchanged. */
  lemma KeepsOtherIndent(ts: seq<Tok>)
    requires |ts| == 5 && Blank(ts[0]) && LineComment(ts[1]) && Newline(ts[2])
    requires Blank(ts[3]) && LineComment(ts[4])
    requires ts[0].value != ts[3].value
    ensures MergeRun(ts) == Outcome(ts, false)
  {
    NewlineIsNotBlank();
    var m1 := Machine(1, [ts[0]], []);
    var m2 := Machine(2, ts[..2], []);
    var m3 := Machine(3, ts[..3], []);
    var m4 := Machine(4, ts[..4], []);
    var m5 := Machine(2, ts[3..], ts[..3]);
    assert ts[0..] == ts;
    GoesAt(Start, ts, 0, m1);
    GoesAt(m1, ts, 1, m2);
    GoesAt(m2, ts, 2, m3);
    GoesAt(m3, ts, 3, m4);
    GoesAt(m4, ts, 4, m5);
    assert ts[..3] + ts[3..] == ts;
  }

  /** An unindented comment is not merged with an indented one after it. */
  lemma KeepsIndentedAfterUnindented(ts: seq<Tok>)
    requires |ts| == 4 && LineComment(ts[0]) && Newline(ts[1]) && Blank(ts[2]) && LineComment(ts[3])
    ensures MergeRun(ts) == Outcome(ts, false)
  {
    NewlineIsNotBlank();
    var m1 := Machine(2, [ts[0]], []);
    var m2 := Machine(3, ts[..2], []);
    var m3 := Machine(4, ts[..3], []);
    var m4 := Machine(2, ts[2..], ts[..2]);
    assert Inv(m1) && Inv(m2) && Inv(m3) && Inv(m4);
    calc {
      MergeRun(ts);
      { assert ts[0..] == ts; GoesAt(Start, ts, 0, m1); }
      Feed(m1, ts[1..]);
      { GoesAt(m1, ts, 1, m2); }
      Feed(m2, ts[2..]);
      { GoesAt(m2, ts, 2, m3); }
      Feed(m3, ts[3..]);
      { GoesAt(m3, ts, 3, m4); }
      Feed(m4, ts[4..]);
      { assert ts[..2] + ts[2..] == ts; }
      Outcome(ts, false);
    }
  }

  /** A blank line between two comments keeps them apart. */
  lemma BlankLineSeparates(ts: seq<Tok>)
    requires |ts| == 4 && LineComment(ts[0]) && Newline(ts[1]) && Newline(ts[2]) && LineComment(ts[3])
    ensures MergeRun(ts) == Outcome(ts, false)
  {
    NewlineIsNotBlank();
    var m1 := Machine(2, [ts[0]], []);
    var m2 := Machine(3, ts[..2], []);
    var m3 := Machine(0, [], ts[..3]);
    var m4 := Machine(2, [ts[3]], ts[..3]);
    assert ts[0..] == ts;
    GoesAt(Start, ts, 0, m1);
    GoesAt(m1, ts, 1, m2);
    GoesAt(m2, ts, 2, m3);
    GoesAt(m3, ts, 3, m4);
    assert ts[..3] + [ts[3]] == ts;
  }

  /**
   * In state 5 (the rest of a line that holds code) tokens are yielded as
   * they come until a newline, which returns the machine to state 0.
   */
  lemma {:induction false} PassesRestOfLine(out: seq<Tok>, ts: seq<Tok>, nl: Tok, rest: seq<Tok>)
    requires forall i :: 0 <= i < |ts| ==> ts[i].value != "\n"
    requires nl.value == "\n"
    ensures Feed(Machine(5, [], out), ts + [nl] + rest) == Feed(Machine(0, [], out + ts + [nl]), rest)
    decreases |ts|
  {
    if ts == [] {
      assert ts + [nl] + rest == [nl] + rest;
      assert out + ts + [nl] == out + [nl];
      assert ([nl] + rest)[1..] == rest;
    } else {
      var t := ts[0];
      assert (ts + [nl] + rest)[0] == t;
      assert (ts + [nl] + rest)[1..] == ts[1..] + [nl] + rest;
      assert Step(Machine(5, [], out), t) == Some(Machine(5, [], out + [t]));
      PassesRestOfLine(out + [t], ts[1..], nl, rest);
      assert out + [t] + ts[1..] + [nl] == out + ts + [nl];
    }
  }

  /**
   * _merge_comments as the generator runs it: the state, the stack and the
   * yielded tokens are updated token by token. `raised` reports an
   * AssertionError, after which the generator yields nothing more.
   */
  method MergeComments(ts: seq<Tok>) returns (out: seq<Tok>, raised: bool)
    ensures Outcome(out, raised) == MergeRun(ts)
  {
    var stack: seq<Tok> := [];
    var state: nat := 0;
    out := [];
    var i := 0;
    while i < |ts|
      invariant 0 <= i <= |ts|
      invariant Inv(Machine(state, stack, out))
      invariant Feed(Machine(state, stack, out), ts[i..]) == MergeRun(ts)
      decreases |ts| - i
    {
      assert ts[i..][0] == ts[i] && ts[i..][1..] == ts[i + 1..];
      if Rejects(Machine(state, stack, out), ts[i]) {
        return out, true;
      }
      state, stack, out := MergeToken(state, stack, out, ts[i]);
      i := i + 1;
    }
    out := out + stack;
    raised := false;
  }

  /** The body of the loop of _merge_comments for one token its asserts accept. */
  method MergeToken(state: nat, stack: seq<Tok>, out: seq<Tok>, t: Tok)
    returns (state': nat, stack': seq<Tok>, out': seq<Tok>)
    requires Inv(Machine(state, stack, out)) && !Rejects(Machine(state, stack, out), t)
    ensures Some(Machine(state', stack', out')) == Step(Machine(state, stack, out), t)
  {
    var value := t.value;
    state', stack', out' := state, stack, out;
    if state == 0 {
      if IsBlankRun(value) {
        stack' := stack + [t];
        state' := 1;
      } else if IsLineComment(t.ttype) {
        stack' := stack + [t];
        state' := 2;
      } else {
        out' := out + stack + [t];
        stack' := [];
        state' := AfterToken(value);
      }
    } else if state == 1 {
      if IsLineComment(t.ttype) {
        stack' := stack + [t];
        state' := 2;
      } else {
        out' := out + stack + [t];
        stack' := [];
        state' := AfterToken(value);
      }
    } else if state == 2 {
      if value == "\n" {
        stack' := stack + [t];
        state' := 3;
      } else {
        out' := out + stack + [t];
        stack' := [];
        state' := 5;
      }
    } else if state == 3 {
      if IsBlankRun(value) {
        stack' := stack + [t];
        state' := 4;
      } else if IsLineComment(t.ttype) {
        if |stack| == 2 {
          stack' := [Tok(stack[0].ttype, stack[0].value + "\n" + value)];
        } else {
          out' := out + stack;
          stack' := [t];
        }
        state' := 2;
      } else {
        out' := out + stack + [t];
        stack' := [];
        state' := AfterToken(value);
      }
    } else if state == 4 {
      if IsLineComment(t.ttype) {
        if |stack| == 4 && stack[0].value == stack[3].value {
          stack' := [stack[0], Tok(stack[1].ttype, stack[1].value + "\n" + stack[3].value + value)];
        } else {
          var k := |stack| - 1;
          out' := out + stack[..k];
          stack' := stack[k..] + [t];
        }
        state' := 2;
      } else {
        out' := out + stack + [t];
        stack' := [];
        state' := AfterToken(value);
      }
    } else {
      out' := out + [t];
      state' := AfterToken(value);
    }
  }
}
