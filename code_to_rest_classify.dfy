/**
 * The older copy of the classifier inside CodeToRest.py. It differs from
 * SourceClassifier in the shape of its comment delimiter information, which
 * holds lengths (None where the language has no such delimiter), and in the
 * way it strips delimiters: by length, without looking at the text. Grouping
 * the tokens is the same code and is modelled once, by
 * SourceClassifier.GroupLexerTokens. Breaking the groups into lines only
 * consults the delimiters' lengths, so the copy is SourceClassifier's with
 * the lengths spelled out (GatherGroupsOnNewlinesLen). Classifying the lines
 * is modelled here, together with the unguarded index that makes it raise
 * IndexError on some indented block comments.
 */
module CodeToRestClassify {
  import opened PyText
  import SC = SourceClassifier

  /** (inline, opening block, closing block) delimiter lengths; None when the language lacks one. */
  datatype LenCdi = LenCdi(inline: Option<nat>, open: Option<nat>, close: Option<nat>)

  /** A missing length read where Python tolerates None: as a slice bound it means "from the start". */
  function OrZero(x: Option<nat>): nat
  {
    if x.None? then 0 else x.value
  }

  /**
   * _len_cdi: every delimiter becomes its length, None stays None, and the
   * tuple keeps its arity.
   */
  method LenCdiOf(cdiStrings: seq<Option<string>>) returns (r: seq<Option<nat>>)
    ensures |r| == |cdiStrings|
    ensures forall i :: 0 <= i < |r| ==> (r[i].None? <==> cdiStrings[i].None?)
    ensures forall i :: 0 <= i < |r| ==> r[i].Some? ==> r[i].value == |cdiStrings[i].value|
  {
    r := [];
    var i := 0;
    while i < |cdiStrings|
      invariant 0 <= i <= |cdiStrings| && |r| == i
      invariant forall j :: 0 <= j < i ==> (r[j].None? <==> cdiStrings[j].None?)
      invariant forall j :: 0 <= j < i ==> r[j].Some? ==> r[j].value == |cdiStrings[j].value|
    {
      var a: Option<nat>;
      if cdiStrings[i].Some? {
        a := Some(|cdiStrings[i].value|);
      } else {
        a := None;
      }
      r := r + [a];
      i := i + 1;
    }
  }

  // ---------------------------------------------------------------------
  // Step 3: gathering groups into lines
  // ---------------------------------------------------------------------

  /** n blanks: a delimiter of length n, for code that only asks for its length. */
  function Blanks(n: nat): (r: string)
    ensures |r| == n
  {
    seq(n, _ => ' ')
  }

  /** The string form of the lengths; only the block delimiters matter when gathering lines. */
  function Spelled(l: LenCdi): SC.Cdi
  {
    SC.Cdi([], Blanks(OrZero(l.open)), Blanks(OrZero(l.close)))
  }

  /** Some pair is a block comment over several lines, so its indent is computed. */
  predicate HasMultiLineBlock(ps: seq<SC.Grouped>)
  {
    exists k :: 0 <= k < |ps| && SC.IsMultiLineBlock(ps[k])
  }

  /** The indent check of one line reads only the length of the closing delimiter. */
  lemma IndentedDependsOnLengths(spaced: bool, line: string, n: int, delim: string, isLast: bool, c1: SC.Cdi, c2: SC.Cdi)
    requires n >= 1 && |c1.close| == |c2.close|
    ensures SC.Indented(spaced, line, n, delim, isLast, c1) == SC.Indented(spaced, line, n, delim, isLast, c2)
  {
  }

  /** The indent check of a block comment only reads the lengths of the delimiters. */
  lemma BlockIndentDependsOnLengths(s: string, lines: seq<string>, lineLen: nat, c1: SC.Cdi, c2: SC.Cdi)
    requires |lines| > 1 && |c1.open| == |c2.open| && |c1.close| == |c2.close|
    ensures SC.BlockIndent(s, lines, lineLen, c1) == SC.BlockIndent(s, lines, lineLen, c2)
  {
    var ws0 := |c1.open| + 1 + lineLen;
    var delim := SC.LastDelimChar(s, c1);
    assert delim == SC.LastDelimChar(s, c2);
    IndentedDependsOnLengths(true, lines[1], ws0, delim, |lines| == 1, c1, c2);
    var spaced := SC.SpaceStyle(lines, lineLen, c1);
    assert spaced == SC.SpaceStyle(lines, lineLen, c2);
    forall k | 1 <= k < |lines|
      ensures SC.Indented(spaced, lines[k], ws0, delim, k == |lines| - 1, c1)
          == SC.Indented(spaced, lines[k], ws0, delim, k == |lines| - 1, c2)
    {
      IndentedDependsOnLengths(spaced, lines[k], ws0, delim, k == |lines| - 1, c1, c2);
    }
  }

  /** Gathering into lines gives the same pieces for any delimiters of the same lengths. */
  lemma {:induction false} PiecesDependOnLengths(ps: seq<SC.Grouped>, c1: SC.Cdi, c2: SC.Cdi)
    requires |c1.open| == |c2.open| && |c1.close| == |c2.close|
    ensures SC.Pieces(ps, c1) == SC.Pieces(ps, c2)
  {
    if ps != [] {
      var q := ps[..|ps| - 1];
      var p := ps[|ps| - 1];
      PiecesDependOnLengths(q, c1, c2);
      var n := SC.LineLen(SC.Pieces(q, c1));
      var lines := SplitLines(p.s);
      if SC.IsMultiLineBlock(p) {
        BlockIndentDependsOnLengths(p.s, lines, n, c1, c2);
      }
      assert SC.Labelled(p, n, c1) == SC.Labelled(p, n, c2);
    }
  }

  /**
   * Step 3 of the length copy. It reads the opening length (`+ 1`) and the
   * closing length (unary minus) only for a block comment spread over
   * several lines, where a missing one raises TypeError.
   */
  method GatherGroupsOnNewlinesLen(ps: seq<SC.Grouped>, l: LenCdi) returns (out: seq<seq<SC.Piece>>)
    requires HasMultiLineBlock(ps) ==> l.open.Some? && l.close.Some?
    ensures forall c: SC.Cdi :: |c.open| == OrZero(l.open) && |c.close| == OrZero(l.close) ==>
      SC.Flatten(out) == SC.Pieces(ps, c)
    ensures SC.WellBroken(out)
    ensures SC.PieceText(SC.Flatten(out)) == SC.Text(ps)
  {
    out := SC.GatherGroupsOnNewlines(ps, Spelled(l));
    forall c: SC.Cdi | |c.open| == OrZero(l.open) && |c.close| == OrZero(l.close)
      ensures SC.Flatten(out) == SC.Pieces(ps, c)
    {
      PiecesDependOnLengths(ps, Spelled(l), c);
    }
  }

  // ---------------------------------------------------------------------
  // Step 4: classifying lines
  // ---------------------------------------------------------------------

  /** A piece whose delimiters can be stripped: `-None` raises TypeError for a block or an end. */
  predicate Strippable(g: SC.Group, l: LenCdi)
  {
    g == SC.BlockComment || g == SC.BlockCommentEnd ==> l.close.Some?
  }

  predicate StrippableLine(line: seq<SC.Piece>, l: LenCdi)
  {
    forall k :: 0 <= k < |line| ==> Strippable(line[k].group, l)
  }

  /** A piece's string with its delimiters removed by length; None as a start bound keeps the string. */
  function RemoveCommentDelimLen(g: SC.Group, s: string, l: LenCdi): string
    requires Strippable(g, l)
  {
    match g
    case InlineComment => Drop(s, OrZero(l.inline))
    case BlockComment => Slice(s, OrZero(l.open), -(l.close.value as int))
    case BlockCommentStart => Drop(s, OrZero(l.open))
    case BlockCommentEnd => Take(s, -(l.close.value as int))
    case _ => s
  }

  /**
   * Stripping by length undoes the delimiters: an inline comment loses
   * exactly the inline delimiter, a one-line block comment both block
   * delimiters, a start line the opening and an end line the closing one.
   * Body lines, whitespace and code are unchanged.
   */
  lemma RemoveLenRoundTrip(inl: string, open: string, close: string, t: string, l: LenCdi)
    requires l == LenCdi(Some(|inl|), Some(|open|), Some(|close|)) && |close| > 0
    ensures RemoveCommentDelimLen(SC.InlineComment, inl + t, l) == t
    ensures RemoveCommentDelimLen(SC.BlockComment, open + t + close, l) == t
    ensures RemoveCommentDelimLen(SC.BlockCommentStart, open + t, l) == t
    ensures RemoveCommentDelimLen(SC.BlockCommentEnd, t + close, l) == t
    ensures RemoveCommentDelimLen(SC.BlockCommentBody, t, l) == t
    ensures RemoveCommentDelimLen(SC.Whitespace, t, l) == t && RemoveCommentDelimLen(SC.Other, t, l) == t
  {
    assert (inl + t)[|inl|..] == t;
    var s := open + t + close;
    assert s[|open|..|s| - |close|] == t;
    assert (open + t)[|open|..] == t;
    assert (t + close)[..|t|] == t;
  }

  /** An inline comment without an inline delimiter length (`s[None:]`) keeps its whole string. */
  lemma RemoveLenWithoutInline(s: string, l: LenCdi)
    requires l.inline.None?
    ensures RemoveCommentDelimLen(SC.InlineComment, s, l) == s
  {
  }

  /** _is_rest_comment of the length copy: SourceClassifier's rule with stripping by length. */
  predicate IsRestCommentLen(line: seq<SC.Piece>, blockRest: bool, l: LenCdi)
    requires |line| > 0 && StrippableLine(line, l)
  {
    if SC.HasOther(line) || SC.WhitespaceOnly(line) then false
    else
      var first := line[SC.FirstCommentIndex(line)];
      if blockRest && SC.IsBlockBodyOrEnd(first.group) then true
      else SC.FirstCharIsRest(RemoveCommentDelimLen(first.group, first.s, l)) && !SC.IsBlockBodyOrEnd(first.group)
  }

  /** The C lengths: `//`, `/*` and `*/`. */
  const CLengths := LenCdi(Some(2), Some(2), Some(2))

  /**
   * With C's lengths, `// x` and `/* x */` are reST comments, indented or
   * not; `//x` and a line holding code are not.
   */
  lemma IsRestCommentLenExamples()
    ensures IsRestCommentLen([SC.Piece(SC.InlineComment, 0, "// x\n")], false, CLengths)
    ensures IsRestCommentLen([SC.Piece(SC.Whitespace, 0, "  "), SC.Piece(SC.BlockComment, 0, "/* x */")], false, CLengths)
    ensures !IsRestCommentLen([SC.Piece(SC.InlineComment, 0, "//x\n")], false, CLengths)
    ensures !IsRestCommentLen([SC.Piece(SC.Other, 0, "x = 1;"), SC.Piece(SC.InlineComment, 0, "// x\n")], false, CLengths)
  {
    RemoveLenRoundTrip("//", "/*", "*/", " x\n", CLengths);
    assert "//" + " x\n" == "// x\n";
    RemoveLenRoundTrip("//", "/*", "*/", " x ", CLengths);
    assert "/*" + " x " + "*/" == "/* x */";
    RemoveLenRoundTrip("//", "/*", "*/", "x\n", CLengths);
    assert "//" + "x\n" == "//x\n";
    var c := [SC.Piece(SC.Other, 0, "x = 1;"), SC.Piece(SC.InlineComment, 0, "// x\n")];
    assert c[0].group == SC.Other;
  }

  function StrippedStringsLen(ps: seq<SC.Piece>, l: LenCdi): (r: seq<string>)
    requires StrippableLine(ps, l)
    ensures |r| == |ps|
    ensures forall k :: 0 <= k < |ps| ==> r[k] == RemoveCommentDelimLen(ps[k].group, ps[k].s, l)
  {
    seq(|ps|, k requires 0 <= k < |ps| && StrippableLine(ps, l) => RemoveCommentDelimLen(ps[k].group, ps[k].s, l))
  }

  /**
   * The end of a body or end line's text as CodeToRest.py writes it: drop
   * ws_len - 1 characters, then test `string[0]` for a space without
   * checking that anything is left. None stands for the IndexError.
   */
  function StripBodyAsWritten(s: string, wsLen: int): Option<string>
  {
    if !IsSpace(s) && wsLen > 0 then
      var t := Drop(s, wsLen - 1);
      if t == "" then None
      else Some(if t[0] == ' ' then t[1..] else t)
    else Some(s)
  }

  /** The same step with the emptiness test SourceClassifier.py adds. */
  function StripBody(s: string, wsLen: int): (r: string)
    ensures |r| <= |s|
  {
    if !IsSpace(s) && wsLen > 0 then
      var t := Drop(s, wsLen - 1);
      if t != "" && t[0] == ' ' then t[1..] else t
    else s
  }

  /**
   * The unguarded index fails exactly when a text that is not all
   * whitespace is no longer than ws_len - 1; otherwise both versions agree.
   */
  lemma StripBodyAsWrittenFails(s: string, wsLen: int)
    ensures StripBodyAsWritten(s, wsLen).None? <==> !IsSpace(s) && wsLen > 0 && |s| <= wsLen - 1
    ensures StripBodyAsWritten(s, wsLen).Some? ==> StripBodyAsWritten(s, wsLen).value == StripBody(s, wsLen)
  {
    if !IsSpace(s) && wsLen > 0 && |s| > wsLen - 1 {
      assert |Drop(s, wsLen - 1)| == |s| - (wsLen - 1);
    }
  }

  /** The text of a reST comment line, given how its body or end part is stripped. */
  function CommentBody(line: seq<SC.Piece>, l: LenCdi): string
    requires |line| > 0 && StrippableLine(line, l) && !SC.WhitespaceOnly(line)
  {
    Concat(StrippedStringsLen(line[SC.FirstCommentIndex(line)..], l))
  }

  /** One line classified as CodeToRest.py does; None when it raises IndexError. */
  function ClassifyLineAsWritten(line: seq<SC.Piece>, blockRest: bool, prevType: int, l: LenCdi): Option<(SC.Classified, bool)>
    requires |line| > 0 && StrippableLine(line, l)
  {
    if IsRestCommentLen(line, blockRest, l) then
      var first := line[SC.FirstCommentIndex(line)];
      var ctype := if line[0].group == SC.Whitespace then |line[0].s|
                   else if !SC.IsBlockBodyOrEnd(first.group) then 0 else prevType;
      var s := CommentBody(line, l);
      var b := blockRest || first.group == SC.BlockCommentStart;
      if SC.IsBlockBodyOrEnd(first.group) then
        match StripBodyAsWritten(s, first.wsLen)
        case None => None
        case Some(t) => Some((SC.Classified(ctype, t), b))
      else Some((SC.Classified(ctype, if |s| > 0 && s[0] == ' ' then s[1..] else s), b))
    else Some((SC.Classified(-1, SC.PieceText(line)), false))
  }

  /** One line classified with the guard: the (type, string) pair and the new block state. */
  function ClassifyLine(line: seq<SC.Piece>, blockRest: bool, prevType: int, l: LenCdi): (SC.Classified, bool)
    requires |line| > 0 && StrippableLine(line, l)
  {
    if IsRestCommentLen(line, blockRest, l) then
      var first := line[SC.FirstCommentIndex(line)];
      var ctype := if line[0].group == SC.Whitespace then |line[0].s|
                   else if !SC.IsBlockBodyOrEnd(first.group) then 0 else prevType;
      var s := CommentBody(line, l);
      var b := blockRest || first.group == SC.BlockCommentStart;
      if SC.IsBlockBodyOrEnd(first.group) then (SC.Classified(ctype, StripBody(s, first.wsLen)), b)
      else (SC.Classified(ctype, if |s| > 0 && s[0] == ' ' then s[1..] else s), b)
    else (SC.Classified(-1, SC.PieceText(line)), false)
  }

  // The end line of an indented C block comment. In the C source
  // "    /* a\n       b\nx*" + "/\n" the comment starts after four blanks, so
  // ws_len is 2 + 1 + 4 = 7; the second line passes the blank-indent check
  // and the last line passes as a closing line. The end line's text after
  // its delimiter is "x\n", and dropping six characters leaves nothing to
  // index.
  lemma ClassifyLineAsWrittenRaises()
    ensures ClassifyLineAsWritten([SC.Piece(SC.BlockCommentEnd, 7, "x*/"), SC.Piece(SC.Whitespace, 0, "\n")], true, 4, CLengths).None?
    ensures ClassifyLine([SC.Piece(SC.BlockCommentEnd, 7, "x*/"), SC.Piece(SC.Whitespace, 0, "\n")], true, 4, CLengths)
         == (SC.Classified(4, ""), true)
  {
    var line := [SC.Piece(SC.BlockCommentEnd, 7, "x*/"), SC.Piece(SC.Whitespace, 0, "\n")];
    assert RemoveCommentDelimLen(SC.BlockCommentEnd, "x*/", CLengths) == "x";
    assert !SC.HasOther(line);
    assert StrippedStringsLen(line[0..], CLengths) == ["x", "\n"];
    assert CommentBody(line, CLengths) == "x\n" by {
      ConcatCons("x", ["\n"]);
      ConcatOne("\n");
    }
    assert !IsSpace("x\n") by {
      assert !IsWhite("x\n"[0]);
    }
  }

  /** Both versions agree on every line where the as-written one does not raise. */
  lemma ClassifyLineAgrees(line: seq<SC.Piece>, blockRest: bool, prevType: int, l: LenCdi)
    requires |line| > 0 && StrippableLine(line, l)
    ensures ClassifyLineAsWritten(line, blockRest, prevType, l).Some? ==>
      ClassifyLineAsWritten(line, blockRest, prevType, l).value == ClassifyLine(line, blockRest, prevType, l)
  {
    if IsRestCommentLen(line, blockRest, l) {
      var first := line[SC.FirstCommentIndex(line)];
      StripBodyAsWrittenFails(CommentBody(line, l), first.wsLen);
    }
  }

  /**
   * The cases of a classified line: a line that is not a reST comment is
   * code, (-1, its whole text), and closes any reST block; a reST comment
   * is typed by its leading whitespace, or 0 without any, except that a
   * body or end line without leading whitespace keeps the previous type;
   * a start line opens a reST block and the block stays open until a line
   * of code.
   */
  lemma ClassifyLineCases(line: seq<SC.Piece>, blockRest: bool, prevType: int, l: LenCdi)
    requires |line| > 0 && StrippableLine(line, l)
    ensures var (c, b) := ClassifyLine(line, blockRest, prevType, l);
      && (!IsRestCommentLen(line, blockRest, l) ==> c == SC.Classified(-1, SC.PieceText(line)) && !b)
      && (IsRestCommentLen(line, blockRest, l) ==>
            && (line[0].group == SC.Whitespace ==> c.ctype == |line[0].s|)
            && (line[0].group != SC.Whitespace && !SC.IsBlockBodyOrEnd(line[0].group) ==> c.ctype == 0)
            && (line[0].group != SC.Whitespace && SC.IsBlockBodyOrEnd(line[0].group) ==> c.ctype == prevType && blockRest)
            && (b <==> blockRest || line[SC.FirstCommentIndex(line)].group == SC.BlockCommentStart)
            && |c.s| <= |CommentBody(line, l)|)
  {
  }

  /** The classifier's results and state after a prefix of the lines. */
  datatype Run = Run(out: seq<SC.Classified>, blockRest: bool, ctype: int)

  predicate ClassifiableLen(lines: seq<seq<SC.Piece>>, l: LenCdi)
  {
    forall i :: 0 <= i < |lines| ==> |lines[i]| > 0 && StrippableLine(lines[i], l)
  }

  /** The run over all lines, line by line from a closed block and type 0. */
  function RunLen(lines: seq<seq<SC.Piece>>, l: LenCdi): (r: Run)
    requires ClassifiableLen(lines, l)
    ensures |r.out| == |lines|
  {
    if lines == [] then Run([], false, 0)
    else
      var r := RunLen(lines[..|lines| - 1], l);
      var step := ClassifyLine(lines[|lines| - 1], r.blockRest, r.ctype, l);
      Run(r.out + [step.0], step.1, step.0.ctype)
  }

  lemma RunLenStep(lines: seq<seq<SC.Piece>>, i: nat, l: LenCdi)
    requires ClassifiableLen(lines, l) && i < |lines|
    ensures var r := RunLen(lines[..i], l);
      var step := ClassifyLine(lines[i], r.blockRest, r.ctype, l);
      RunLen(lines[..i + 1], l) == Run(r.out + [step.0], step.1, step.0.ctype)
  {
    assert lines[..i + 1][..i] == lines[..i];
  }

  /** Running one more line leaves the earlier results alone. */
  lemma RunLenExtends(lines: seq<seq<SC.Piece>>, k: nat, j: nat, l: LenCdi)
    requires ClassifiableLen(lines, l) && j < k < |lines|
    ensures RunLen(lines[..k + 1], l).out[j] == RunLen(lines[..k], l).out[j]
  {
    RunLenStep(lines, k, l);
  }

  /** Line i's result is fixed once line i has been run. */
  lemma {:induction false} RunLenStable(lines: seq<seq<SC.Piece>>, i: nat, k: nat, l: LenCdi)
    requires ClassifiableLen(lines, l) && i < k <= |lines|
    ensures RunLen(lines[..k], l).out[i] == RunLen(lines[..i + 1], l).out[i]
    decreases k
  {
    if i + 1 < k {
      RunLenExtends(lines, k - 1, i, l);
      RunLenStable(lines, i, k - 1, l);
    }
  }

  /** Line i's result depends only on the lines before it: it is the step from their run. */
  lemma RunLenAt(lines: seq<seq<SC.Piece>>, i: nat, l: LenCdi)
    requires ClassifiableLen(lines, l) && i < |lines|
    ensures var r := RunLen(lines[..i], l);
      RunLen(lines, l).out[i] == ClassifyLine(lines[i], r.blockRest, r.ctype, l).0
  {
    RunLenStable(lines, i, |lines|, l);
    RunLenStep(lines, i, l);
    assert lines[..|lines|] == lines;
  }

  /** Every line of code is reproduced whole, with type -1. */
  lemma CodeLinesVerbatim(lines: seq<seq<SC.Piece>>, i: nat, l: LenCdi)
    requires ClassifiableLen(lines, l) && i < |lines|
    requires !IsRestCommentLen(lines[i], RunLen(lines[..i], l).blockRest, l)
    ensures RunLen(lines, l).out[i] == SC.Classified(-1, SC.PieceText(lines[i]))
  {
    RunLenAt(lines, i, l);
  }

  /** A line holding code is never a reST comment, so it is always reproduced whole. */
  lemma CodeIsNeverComment(lines: seq<seq<SC.Piece>>, i: nat, l: LenCdi)
    requires ClassifiableLen(lines, l) && i < |lines| && SC.HasOther(lines[i])
    ensures RunLen(lines, l).out[i] == SC.Classified(-1, SC.PieceText(lines[i]))
  {
    CodeLinesVerbatim(lines, i, l);
  }

  /**
   * Step 4 of the length copy, corrected: the loop carries the block state
   * and the last type from line to line.
   */
  method ClassifyGroupsLen(lines: seq<seq<SC.Piece>>, l: LenCdi) returns (out: seq<SC.Classified>)
    requires ClassifiableLen(lines, l)
    ensures out == RunLen(lines, l).out
  {
    out := [];
    var blockRest := false;
    var ctype := 0;
    var i := 0;
    while i < |lines|
      invariant 0 <= i <= |lines|
      invariant RunLen(lines[..i], l) == Run(out, blockRest, ctype)
    {
      RunLenStep(lines, i, l);
      var line := lines[i];
      var c: SC.Classified;
      if IsRestCommentLen(line, blockRest, l) {
        var first := line[0];
        if first.group == SC.Whitespace {
          ctype := |first.s|;
          line := line[1..];
          first := line[0];
        } else if !SC.IsBlockBodyOrEnd(first.group) {
          ctype := 0;
        }
        if first.group == SC.BlockCommentStart {
          blockRest := true;
        }
        var s := Concat(StrippedStringsLen(line, l));
        if SC.IsBlockBodyOrEnd(first.group) {
          s := StripBody(s, first.wsLen);
        } else if |s| > 0 && s[0] == ' ' {
          s := s[1..];
        }
        c := SC.Classified(ctype, s);
      } else {
        ctype := -1;
        c := SC.Classified(-1, SC.PieceText(line));
        blockRest := false;
      }
      out := out + [c];
      i := i + 1;
    }
    assert lines[..|lines|] == lines;
  }
}
