/**
 * CodeChat's source classifier: a lexer token stream becomes per-line
 * (type, string) pairs, where the type is -1 for a line of code and the
 * comment's indent for a line of reST comment. The steps, in order:
 * group the tokens (GroupLexerTokens), break the groups into lines
 * (GatherGroupsOnNewlines), then classify each line (ClassifyGroups).
 *
 * The comment delimiter information is (inline delimiters, opening block
 * delimiter, closing block delimiter), all strings. The lexer is reduced to
 * the one fact the classifier asks of it: whether it is the COBOL lexer.
 */
module SourceClassifier {
  import opened PyText
  import P = PygmentsToken

  datatype Group =
    | Whitespace
    | InlineComment
    | Other
    /** A block comment held in a single line. */
    | BlockComment
    | BlockCommentStart
    | BlockCommentBody
    | BlockCommentEnd

  /** (inline delimiters, opening block delimiter, closing block delimiter). */
  datatype Cdi = Cdi(inline: seq<string>, open: string, close: string)

  /** A (group, string) pair produced by grouping the tokens. */
  datatype Grouped = Grouped(group: Group, s: string)

  /** A (group, ws_len, string) piece of one line. */
  datatype Piece = Piece(group: Group, wsLen: int, s: string)

  /** A classified line: -1 for code, otherwise the comment's indent. */
  datatype Classified = Classified(ctype: int, s: string)

  // ---------------------------------------------------------------------
  // Step 2: grouping tokens
  // ---------------------------------------------------------------------

  /** The group of a token type; the two flags break the tie for a bare Token.Comment. */
  function GroupForTokentype(t: P.TokenType, commentIsInline: bool, commentIsBlock: bool): Group
  {
    if P.In(t, P.Text) || P.In(t, P.Whitespace) then Whitespace
    else if t == P.CommentSingle || t == P.CommentSingleline || (t == P.Comment && commentIsInline) then InlineComment
    else if t == P.CommentMultiline || (t == P.Comment && commentIsBlock) then BlockComment
    else if t == P.Comment then InlineComment
    else Other
  }

  /**
   * Text and whitespace tokens group as whitespace; Comment.Single and
   * Comment.Singleline as inline comments, Comment.Multiline as block
   * comments; a bare Comment is inline unless only block comments are
   * declared for the language; everything else is `other`.
   */
  lemma GroupForTokentypeCases(t: P.TokenType, commentIsInline: bool, commentIsBlock: bool)
    ensures var g := GroupForTokentype(t, commentIsInline, commentIsBlock);
      && (g == Whitespace <==> P.In(t, P.Text) || P.In(t, P.Whitespace))
      && (g == InlineComment <==>
            t == P.CommentSingle || t == P.CommentSingleline || (t == P.Comment && (commentIsInline || !commentIsBlock)))
      && (g == BlockComment <==> t == P.CommentMultiline || (t == P.Comment && !commentIsInline && commentIsBlock))
      && (g == Other <==> !P.In(t, P.Text) && !P.In(t, P.Whitespace) && !P.IsCommentType(t))
      && g in {Whitespace, InlineComment, BlockComment, Other}
  {
    P.CommentsAreNotText(t);
  }

  /** token_lineno once the tokens ts have been read. */
  function LineNo(ts: seq<P.Tok>): int
  {
    if ts == [] then 1 else LineNo(ts[..|ts| - 1]) + CountChar(ts[|ts| - 1].value, '\n')
  }

  /**
   * A docstring token whose text between the triple quotes is the docstring
   * the syntax tree (`doc`, keyed by line) reports on that line.
   */
  predicate IsDocstring(t: P.Tok, lineno: int, doc: map<int, string>)
  {
    t.ttype == P.StringDoc && lineno in doc && doc[lineno] == Slice(t.value, 3, -3)
  }

  /** The (group, string) one token contributes; `cleandoc` is inspect.cleandoc. */
  function Prepare(t: P.Tok, lineno: int, inl: bool, blk: bool, doc: map<int, string>,
                   cleandoc: string -> string): Grouped
  {
    if IsDocstring(t, lineno, doc) then
      var c := cleandoc(t.value);
      Grouped(GroupForTokentype(P.CommentMultiline, inl, blk), Take(c, 3) + " " + Drop(c, 3))
    else
      Grouped(GroupForTokentype(t.ttype, inl, blk), t.value)
  }

  /** The pairs of all tokens, before merging. */
  function Prepared(ts: seq<P.Tok>, inl: bool, blk: bool, doc: map<int, string>,
                    cleandoc: string -> string): (r: seq<Grouped>)
    ensures |r| == |ts|
  {
    if ts == [] then []
    else Prepared(ts[..|ts| - 1], inl, blk, doc, cleandoc) + [Prepare(ts[|ts| - 1], LineNo(ts), inl, blk, doc, cleandoc)]
  }

  lemma PreparedStep(ts: seq<P.Tok>, i: nat, inl: bool, blk: bool, doc: map<int, string>, cleandoc: string -> string)
    requires i < |ts|
    ensures LineNo(ts[..i + 1]) == LineNo(ts[..i]) + CountChar(ts[i].value, '\n')
    ensures Prepared(ts[..i + 1], inl, blk, doc, cleandoc)
         == Prepared(ts[..i], inl, blk, doc, cleandoc) + [Prepare(ts[i], LineNo(ts[..i + 1]), inl, blk, doc, cleandoc)]
  {
    assert ts[..i + 1][..i] == ts[..i];
  }

  /** Maximal runs of one group, each run's strings joined. */
  function Runs(ps: seq<Grouped>): (r: seq<Grouped>)
    ensures |r| <= |ps|
    ensures ps != [] ==> r != [] && r[|r| - 1].group == ps[|ps| - 1].group
  {
    if ps == [] then []
    else
      var r := Runs(ps[..|ps| - 1]);
      var p := ps[|ps| - 1];
      if r != [] && r[|r| - 1].group == p.group then r[..|r| - 1] + [Grouped(p.group, r[|r| - 1].s + p.s)]
      else r + [p]
  }

  lemma RunsStep(ps: seq<Grouped>, p: Grouped)
    ensures Runs(ps + [p]) ==
      var r := Runs(ps);
      if r != [] && r[|r| - 1].group == p.group then r[..|r| - 1] + [Grouped(p.group, r[|r| - 1].s + p.s)]
      else r + [p]
  {
    assert (ps + [p])[..|ps|] == ps;
  }

  /** The runs, without a last run whose string is empty. */
  function Yielded(ps: seq<Grouped>): seq<Grouped>
  {
    var r := Runs(ps);
    if r != [] && r[|r| - 1].s == "" then r[..|r| - 1] else r
  }

  /** "".join of the pairs' strings. */
  function Text(ps: seq<Grouped>): string
  {
    if ps == [] then "" else Text(ps[..|ps| - 1]) + ps[|ps| - 1].s
  }

  lemma TextLast(ps: seq<Grouped>, p: Grouped)
    ensures Text(ps + [p]) == Text(ps) + p.s
  {
    assert (ps + [p])[..|ps|] == ps;
  }

  /** Merging runs keeps the text. */
  lemma {:induction false} RunsText(ps: seq<Grouped>)
    ensures Text(Runs(ps)) == Text(ps)
  {
    if ps != [] {
      var q := ps[..|ps| - 1];
      var p := ps[|ps| - 1];
      var r := Runs(q);
      RunsText(q);
      if r != [] && r[|r| - 1].group == p.group {
        var front := r[..|r| - 1];
        assert r == front + [r[|r| - 1]];
        TextLast(front, r[|r| - 1]);
        TextLast(front, Grouped(p.group, r[|r| - 1].s + p.s));
      } else {
        TextLast(r, p);
      }
    }
  }

  /** No two neighbours share a group. */
  predicate Alternating(r: seq<Grouped>)
  {
    forall i :: 0 <= i < |r| - 1 ==> r[i].group != r[i + 1].group
  }

  /** No two neighbouring runs share a group. */
  lemma {:induction false} RunsDistinct(ps: seq<Grouped>)
    ensures Alternating(Runs(ps))
  {
    if ps != [] {
      var q := ps[..|ps| - 1];
      var p := ps[|ps| - 1];
      var r := Runs(q);
      RunsDistinct(q);
      var n := Runs(ps);
      if r != [] && r[|r| - 1].group == p.group {
        assert n == r[..|r| - 1] + [Grouped(p.group, r[|r| - 1].s + p.s)];
        forall i | 0 <= i < |n| - 1
          ensures n[i].group != n[i + 1].group
        {
          assert n[i] == r[i];
          assert r[i].group != r[i + 1].group;
          if i + 1 < |n| - 1 {
            assert n[i + 1] == r[i + 1];
          } else {
            assert n[i + 1].group == r[i + 1].group;
          }
        }
      } else {
        assert n == r + [p];
        forall i | 0 <= i < |n| - 1
          ensures n[i].group != n[i + 1].group
        {
          assert n[i] == r[i];
          if i + 1 < |r| {
            assert n[i + 1] == r[i + 1];
            assert r[i].group != r[i + 1].group;
          } else {
            assert n[i + 1] == p;
          }
        }
      }
    }
  }

  /**
   * Grouping keeps the text and never yields two neighbours of one group:
   * the properties of what GroupLexerTokens yields.
   */
  lemma YieldedProperties(ps: seq<Grouped>)
    ensures Text(Yielded(ps)) == Text(ps)
    ensures Alternating(Yielded(ps))
  {
    RunsText(ps);
    RunsDistinct(ps);
    var r := Runs(ps);
    if r != [] && r[|r| - 1].s == "" {
      assert r == r[..|r| - 1] + [r[|r| - 1]];
      TextLast(r[..|r| - 1], r[|r| - 1]);
    }
  }

  /** Without docstring rewriting the pairs carry the token values unchanged. */
  lemma {:induction false} PreparedValues(ts: seq<P.Tok>, inl: bool, blk: bool, cleandoc: string -> string)
    ensures Text(Prepared(ts, inl, blk, map[], cleandoc)) == Concat(P.Values(ts))
  {
    if ts != [] {
      PreparedValues(ts[..|ts| - 1], inl, blk, cleandoc);
      PreparedValuesStep(ts, inl, blk, cleandoc);
    }
  }

  lemma PreparedValuesStep(ts: seq<P.Tok>, inl: bool, blk: bool, cleandoc: string -> string)
    requires ts != []
    requires Text(Prepared(ts[..|ts| - 1], inl, blk, map[], cleandoc)) == Concat(P.Values(ts[..|ts| - 1]))
    ensures Text(Prepared(ts, inl, blk, map[], cleandoc)) == Concat(P.Values(ts))
  {
    var q, t := ts[..|ts| - 1], ts[|ts| - 1];
    var p := Prepare(t, LineNo(ts), inl, blk, map[], cleandoc);
    PrepareNoDoc(t, LineNo(ts), inl, blk, cleandoc);
    TextLast(Prepared(q, inl, blk, map[], cleandoc), p);
    ValuesSnoc(ts);
    ConcatSnoc(P.Values(q), t.value);
  }

  lemma PrepareNoDoc(t: P.Tok, lineno: int, inl: bool, blk: bool, cleandoc: string -> string)
    ensures Prepare(t, lineno, inl, blk, map[], cleandoc).s == t.value
  {
  }

  lemma ValuesSnoc(ts: seq<P.Tok>)
    requires ts != []
    ensures P.Values(ts) == P.Values(ts[..|ts| - 1]) + [ts[|ts| - 1].value]
  {
  }

  /** After reading i tokens: token_lineno and the pairs they gave. */
  predicate ReadSoFar(ts: seq<P.Tok>, i: nat, lineno: int, prep: seq<Grouped>, inl: bool, blk: bool,
                      doc: map<int, string>, cleandoc: string -> string)
  {
    i <= |ts| && lineno == LineNo(ts[..i]) && prep == Prepared(ts[..i], inl, blk, doc, cleandoc)
  }

  /** Read token i: count its newlines, rewrite a docstring, and group it. */
  method ReadToken(ts: seq<P.Tok>, i: nat, lineno0: int, ghost prep: seq<Grouped>, inl: bool, blk: bool, doc: map<int, string>,
                   cleandoc: string -> string) returns (lineno: int, p: Grouped)
    requires i < |ts| && ReadSoFar(ts, i, lineno0, prep, inl, blk, doc, cleandoc)
    ensures ReadSoFar(ts, i + 1, lineno, prep + [p], inl, blk, doc, cleandoc)
  {
    PreparedStep(ts, i, inl, blk, doc, cleandoc);
    var t := ts[i];
    lineno := lineno0 + CountChar(t.value, '\n');
    var ttype, s := t.ttype, t.value;
    if ttype == P.StringDoc && lineno in doc && doc[lineno] == Slice(s, 3, -3) {
      ttype := P.CommentMultiline;
      s := cleandoc(s);
      s := Take(s, 3) + " " + Drop(s, 3);
    }
    var group := GroupForTokentype(ttype, inl, blk);
    p := Grouped(group, s);
  }

  /**
   * Step 2: merge neighbouring tokens of one group. `doc` maps a line number to
   * the docstring the syntax tree found there; `cleandoc` is inspect.cleandoc.
   */
  method GroupLexerTokens(ts: seq<P.Tok>, inl: bool, blk: bool, doc: map<int, string>,
                          cleandoc: string -> string) returns (out: seq<Grouped>)
    ensures out == Yielded(Prepared(ts, inl, blk, doc, cleandoc))
    ensures Text(out) == Text(Prepared(ts, inl, blk, doc, cleandoc))
    ensures doc == map[] ==> Text(out) == Concat(P.Values(ts))
    ensures Alternating(out)
  {
    var currentGroup, currentString;
    out, currentGroup, currentString := GroupRuns(ts, inl, blk, doc, cleandoc);
    if currentString != "" {
      out := out + [Grouped(currentGroup.value, currentString)];
    }
    YieldedProperties(Prepared(ts, inl, blk, doc, cleandoc));
    if doc == map[] {
      PreparedValues(ts, inl, blk, cleandoc);
    }
  }

  /** The loop of GroupLexerTokens: everything but the final pair. */
  method GroupRuns(ts: seq<P.Tok>, inl: bool, blk: bool, doc: map<int, string>, cleandoc: string -> string)
    returns (out: seq<Grouped>, currentGroup: Option<Group>, currentString: string)
    ensures Accumulating(Prepared(ts, inl, blk, doc, cleandoc), out, currentGroup, currentString)
  {
    out := [];
    currentString := "";
    currentGroup := None;
    var lineno := 1;
    var i := 0;
    ghost var prep: seq<Grouped> := [];
    assert ts[..0] == [];
    while i < |ts|
      invariant 0 <= i <= |ts|
      invariant ReadSoFar(ts, i, lineno, prep, inl, blk, doc, cleandoc)
      invariant Accumulating(prep, out, currentGroup, currentString)
    {
      var p;
      lineno, p := ReadToken(ts, i, lineno, prep, inl, blk, doc, cleandoc);
      out, currentGroup, currentString := Accumulate(prep, out, currentGroup, currentString, p);
      prep := prep + [p];
      i := i + 1;
    }
    assert ts[..|ts|] == ts;
  }

  /** Merge one pair: a pair of the current group extends its string, another yields the run and starts a new one. */
  method Accumulate(ghost prep: seq<Grouped>, out0: seq<Grouped>, cg: Option<Group>, cs: string, p: Grouped)
    returns (out: seq<Grouped>, currentGroup: Option<Group>, currentString: string)
    requires Accumulating(prep, out0, cg, cs)
    ensures Accumulating(prep + [p], out, currentGroup, currentString)
  {
    var group, s := p.group, p.s;
    RunsAccumulate(prep, out0, cg, cs, p);
    out, currentGroup, currentString := out0, cg, cs;
    if currentGroup.None? {
      currentGroup := Some(group);
    }
    if currentGroup.value != group {
      out := out + [Grouped(currentGroup.value, currentString)];
      currentGroup := Some(group);
      currentString := s;
    } else {
      currentString := currentString + s;
    }
  }

  /**
   * The loop state of GroupLexerTokens after the pairs prep: the yielded
   * pairs and the pending (group, string) are the runs of prep.
   */
  predicate Accumulating(prep: seq<Grouped>, out: seq<Grouped>, cg: Option<Group>, cs: string)
  {
    && (cg.None? <==> prep == [])
    && (cg.None? ==> out == [] && cs == "")
    && (cg.Some? ==> out + [Grouped(cg.value, cs)] == Runs(prep))
  }

  /** One step of the accumulation: a token of the current group extends its string, another starts a run. */
  lemma RunsAccumulate(prep: seq<Grouped>, out: seq<Grouped>, cg: Option<Group>, cs: string, p: Grouped)
    requires Accumulating(prep, out, cg, cs)
    ensures var g := if cg.None? then p.group else cg.value;
      if g == p.group then Accumulating(prep + [p], out, Some(g), cs + p.s)
      else Accumulating(prep + [p], out + [Grouped(g, cs)], Some(p.group), p.s)
  {
    RunsStep(prep, p);
    if cg.None? {
      assert prep + [p] == [p];
      assert cs + p.s == p.s;
    } else {
      var r := Runs(prep);
      assert r[..|r| - 1] == out && r[|r| - 1] == Grouped(cg.value, cs);
      assert out + [Grouped(cg.value, cs)] + [p] == out + [Grouped(cg.value, cs), p];
    }
  }

  // ---------------------------------------------------------------------
  // Step 3: gathering groups into lines
  // ---------------------------------------------------------------------

  /** `line.isspace()`, or a line longer than the indent that starts with it in whitespace, or a last line of whitespace before the closing delimiter. */
  predicate IsSpaceIndentedLine(line: string, indentLen: int, isLast: bool, cdi: Cdi)
  {
    IsSpace(line)
    || (|line| > indentLen && IsSpace(Take(line, indentLen)))
    || (isLast && (var e := Take(line, -|cdi.close| - 1); e == "" || IsSpace(e)))
  }

  /** indent-2 whitespace characters, the delimiter, then ' ' or '\n'; or a last line of indent-2 whitespace characters and the closing delimiter. */
  predicate IsDelimIndentedLine(line: string, indentLen: int, delim: string, isLast: bool, cdi: Cdi)
    requires indentLen >= 1
  {
    (|line| >= indentLen && IsSpace(Take(line, indentLen - 2)) && [CharAt(line, indentLen - 2)] == delim
     && CharAt(line, indentLen - 1) in "\n ")
    || (isLast && |line| == indentLen - 2 + |cdi.close| && IsSpace(Take(line, indentLen - 2)))
  }

  /** The indent check chosen for a block: the space style when `spaced`, else the delimiter style. */
  predicate Indented(spaced: bool, line: string, indentLen: int, delim: string, isLast: bool, cdi: Cdi)
    requires indentLen >= 1
  {
    if spaced then IsSpaceIndentedLine(line, indentLen, isLast, cdi)
    else IsDelimIndentedLine(line, indentLen, delim, isLast, cdi)
  }

  /** The last character of the opening delimiter, taken from the comment itself ('' past its end). */
  function LastDelimChar(s: string, cdi: Cdi): string
  {
    Slice(s, |cdi.open| - 1, |cdi.open|)
  }

  /** Whether a block comment's second line is indented with spaces alone. */
  predicate SpaceStyle(lines: seq<string>, lineLen: nat, cdi: Cdi)
    requires |lines| > 1
  {
    IsSpaceIndentedLine(lines[1], |cdi.open| + 1 + lineLen, |lines| == 1, cdi)
  }

  /** The ws_len of a multi-line block comment that starts after lineLen characters of its line. */
  function BlockIndent(s: string, lines: seq<string>, lineLen: nat, cdi: Cdi): (ws: int)
    requires |lines| > 1
    ensures ws == 0 || ws == |cdi.open| + 1 + lineLen
  {
    var ws0 := |cdi.open| + 1 + lineLen;
    var spaced := SpaceStyle(lines, lineLen, cdi);
    if forall k :: 1 <= k < |lines| ==> Indented(spaced, lines[k], ws0, LastDelimChar(s, cdi), k == |lines| - 1, cdi)
    then ws0 else 0
  }

  /** The group relabelling applied after the line at `index` of n lines is stored. */
  function NextGroup(g: Group, index: int, n: int): Group
  {
    var g1 := if g == BlockCommentStart then BlockCommentBody else g;
    if index == n - 2 && g1 == BlockCommentBody then BlockCommentEnd else g1
  }

  /** The group of line k of n lines when the first is labelled g0. */
  function LineGroup(g0: Group, k: nat, n: int): Group
  {
    if k == 0 then g0 else NextGroup(LineGroup(g0, k - 1, n), k - 1, n)
  }

  /** The block labels: start, then body, with the last line labelled end. */
  lemma {:induction false} BlockLabels(k: nat, n: nat)
    requires 2 <= n && k < n
    ensures LineGroup(BlockCommentStart, k, n) ==
      if k == 0 then BlockCommentStart else if k == n - 1 then BlockCommentEnd else BlockCommentBody
  {
    if k > 0 {
      BlockLabels(k - 1, n);
    }
  }

  /** Groups other than start and body keep their label on every line. */
  lemma {:induction false} PlainLabels(g: Group, k: nat, n: int)
    requires g != BlockCommentStart && g != BlockCommentBody
    ensures LineGroup(g, k, n) == g
  {
    if k > 0 {
      PlainLabels(g, k - 1, n);
    }
  }

  /** Whether a (group, string) pair is a block comment spread over several lines. */
  predicate IsMultiLineBlock(p: Grouped)
  {
    |SplitLines(p.s)| > 1 && p.group == BlockComment
  }

  /** The pieces one pair contributes, when lineLen characters are already on its first line. */
  function Labelled(p: Grouped, lineLen: nat, cdi: Cdi): (r: seq<Piece>)
    ensures |r| == |SplitLines(p.s)|
  {
    var lines := SplitLines(p.s);
    var multi := IsMultiLineBlock(p);
    var g0 := if multi then BlockCommentStart else p.group;
    var ws := if multi then BlockIndent(p.s, lines, lineLen, cdi) else 0;
    seq(|lines|, k requires 0 <= k < |lines| => Piece(LineGroup(g0, k, |lines|), ws, lines[k]))
  }

  /** The length of the text already on the current (unfinished) line. */
  function LineLen(pieces: seq<Piece>): nat
  {
    if pieces == [] then 0
    else if EndsNl(pieces[|pieces| - 1].s) then 0
    else LineLen(pieces[..|pieces| - 1]) + |pieces[|pieces| - 1].s|
  }

  lemma LineLenStep(ps: seq<Piece>, x: Piece)
    ensures LineLen(ps + [x]) == if EndsNl(x.s) then 0 else LineLen(ps) + |x.s|
  {
    assert (ps + [x])[..|ps|] == ps;
  }

  /** All pieces of the pairs ps, in order. */
  function Pieces(ps: seq<Grouped>, cdi: Cdi): seq<Piece>
  {
    if ps == [] then []
    else
      var q := Pieces(ps[..|ps| - 1], cdi);
      q + Labelled(ps[|ps| - 1], LineLen(q), cdi)
  }

  lemma PiecesStep(ps: seq<Grouped>, i: nat, cdi: Cdi)
    requires i < |ps|
    ensures Pieces(ps[..i + 1], cdi) == Pieces(ps[..i], cdi) + Labelled(ps[i], LineLen(Pieces(ps[..i], cdi)), cdi)
  {
    assert ps[..i + 1][..i] == ps[..i];
  }

  function Flatten(ls: seq<seq<Piece>>): seq<Piece>
  {
    if ls == [] then [] else Flatten(ls[..|ls| - 1]) + ls[|ls| - 1]
  }

  lemma FlattenStep(ls: seq<seq<Piece>>, l: seq<Piece>)
    ensures Flatten(ls + [l]) == Flatten(ls) + l
  {
    assert (ls + [l])[..|ls|] == ls;
  }

  /** "".join of the pieces' strings. */
  function PieceText(ps: seq<Piece>): string
  {
    if ps == [] then "" else PieceText(ps[..|ps| - 1]) + ps[|ps| - 1].s
  }

  lemma {:induction false} PieceTextAppend(a: seq<Piece>, b: seq<Piece>)
    ensures PieceText(a + b) == PieceText(a) + PieceText(b)
    decreases |b|
  {
    if b == [] {
      assert a + b == a;
    } else {
      assert (a + b)[..|a + b| - 1] == a + b[..|b| - 1];
      PieceTextAppend(a, b[..|b| - 1]);
    }
  }

  function SumLen(ps: seq<Piece>): nat
  {
    if ps == [] then 0 else SumLen(ps[..|ps| - 1]) + |ps[|ps| - 1].s|
  }

  /** No piece of l ends a line. */
  predicate NoNewlines(l: seq<Piece>)
  {
    forall k :: 0 <= k < |l| ==> !EndsNl(l[k].s)
  }

  /** A finished line: non-empty, with its only newline at its end. */
  predicate FinishedLine(l: seq<Piece>)
  {
    |l| > 0 && EndsNl(l[|l| - 1].s) && NoNewlines(l[..|l| - 1])
  }

  predicate AllFinished(out: seq<seq<Piece>>)
  {
    forall m :: 0 <= m < |out| ==> FinishedLine(out[m])
  }

  /** Lines as GatherGroupsOnNewlines yields them: all finished but the last, which may lack its newline. */
  predicate WellBroken(out: seq<seq<Piece>>)
  {
    (forall m :: 0 <= m < |out| - 1 ==> FinishedLine(out[m]))
    && (out != [] ==> |out[|out| - 1]| > 0 && NoNewlines(out[|out| - 1][..|out[|out| - 1]| - 1]))
  }

  /** The pieces of a pair split its string into lines. */
  lemma {:induction false} LabelledText(p: Grouped, lineLen: nat, cdi: Cdi)
    ensures PieceText(Labelled(p, lineLen, cdi)) == p.s
  {
    var l := Labelled(p, lineLen, cdi);
    PieceTextIsConcat(l, SplitLines(p.s));
    SplitLinesConcat(p.s);
  }

  lemma {:induction false} PieceTextIsConcat(l: seq<Piece>, ss: seq<string>)
    requires |l| == |ss| && forall k :: 0 <= k < |l| ==> l[k].s == ss[k]
    ensures PieceText(l) == Concat(ss)
  {
    if l != [] {
      PieceTextIsConcat(l[..|l| - 1], ss[..|ss| - 1]);
    }
  }

  /** Gathering into lines keeps the text of the pairs. */
  lemma {:induction false} PiecesText(ps: seq<Grouped>, cdi: Cdi)
    ensures PieceText(Pieces(ps, cdi)) == Text(ps)
  {
    if ps != [] {
      var q := ps[..|ps| - 1];
      var p := ps[|ps| - 1];
      var pq := Pieces(q, cdi);
      PiecesText(q, cdi);
      PieceTextAppend(pq, Labelled(p, LineLen(pq), cdi));
      LabelledText(p, LineLen(pq), cdi);
    }
  }

  /**
   * A block comment over n >= 2 lines is labelled start, body..., end; its
   * ws_len is the indent the comment starts at, or 0 when a later line fails
   * the indent check. Any other pair keeps its group and gets ws_len 0.
   */
  lemma LabelledGroups(p: Grouped, lineLen: nat, cdi: Cdi)
    requires p.group != BlockCommentStart && p.group != BlockCommentBody
    ensures var r := Labelled(p, lineLen, cdi);
      if IsMultiLineBlock(p) then
        && r[0].group == BlockCommentStart
        && r[|r| - 1].group == BlockCommentEnd
        && (forall k :: 0 < k < |r| - 1 ==> r[k].group == BlockCommentBody)
        && (forall k :: 0 <= k < |r| ==> r[k].wsLen == r[0].wsLen)
        && (r[0].wsLen == 0 || r[0].wsLen == |cdi.open| + 1 + lineLen)
      else
        forall k :: 0 <= k < |r| ==> r[k].group == p.group && r[k].wsLen == 0
  {
    var r := Labelled(p, lineLen, cdi);
    var n := |SplitLines(p.s)|;
    if IsMultiLineBlock(p) {
      forall k | 0 <= k < n
        ensures r[k].group == if k == 0 then BlockCommentStart else if k == n - 1 then BlockCommentEnd else BlockCommentBody
      {
        BlockLabels(k, n);
      }
    } else {
      forall k | 0 <= k < n
        ensures r[k].group == p.group
      {
        PlainLabels(p.group, k, n);
      }
    }
  }

  /**
   * A block comment whose later lines all start with the indent in
   * whitespace and carry more text keeps its ws_len.
   */
  lemma SpaceIndentedBlock(s: string, lines: seq<string>, lineLen: nat, cdi: Cdi)
    requires |lines| > 1
    requires forall k :: 1 <= k < |lines| ==>
      |lines[k]| > |cdi.open| + 1 + lineLen && IsSpace(Take(lines[k], |cdi.open| + 1 + lineLen))
    ensures BlockIndent(s, lines, lineLen, cdi) == |cdi.open| + 1 + lineLen
  {
    var ws0 := |cdi.open| + 1 + lineLen;
    assert SpaceStyle(lines, lineLen, cdi);
    forall k | 1 <= k < |lines|
      ensures Indented(true, lines[k], ws0, LastDelimChar(s, cdi), k == |lines| - 1, cdi)
    {
    }
  }

  /** The ws_len of a multi-line block comment, computed as the source does. */
  method BlockIndentOf(s: string, lines: seq<string>, list: seq<Piece>, cdi: Cdi) returns (wsLen: int)
    requires |lines| > 1
    ensures wsLen == BlockIndent(s, lines, SumLen(list), cdi)
  {
    var lineLen := ListLen(list);
    var ws0 := |cdi.open| + 1 + lineLen;
    var delim := Slice(s, |cdi.open| - 1, |cdi.open|);
    var spaced := IsSpaceIndentedLine(lines[1], ws0, |lines| == 1, cdi);
    assert delim == LastDelimChar(s, cdi) && spaced == SpaceStyle(lines, lineLen, cdi);
    wsLen := CheckIndents(lines, ws0, delim, spaced, cdi);
  }

  /** The characters of the current line so far: the lengths of its pieces added up. */
  method ListLen(list: seq<Piece>) returns (n: nat)
    ensures n == SumLen(list)
  {
    n := 0;
    var j := 0;
    while j < |list|
      invariant 0 <= j <= |list|
      invariant n == SumLen(list[..j])
    {
      assert list[..j + 1][..j] == list[..j];
      n := n + |list[j].s|;
      j := j + 1;
    }
    assert list[..|list|] == list;
  }

  /** The indent loop: ws0 while every line after the first passes the check, 0 from the first that fails. */
  method CheckIndents(lines: seq<string>, ws0: int, delim: string, spaced: bool, cdi: Cdi) returns (wsLen: int)
    requires |lines| > 1 && ws0 >= 1
    ensures wsLen == if forall m :: 1 <= m < |lines| ==> Indented(spaced, lines[m], ws0, delim, m == |lines| - 1, cdi)
                     then ws0 else 0
  {
    wsLen := ws0;
    var k := 1;
    while k < |lines| && wsLen == ws0
      invariant 1 <= k <= |lines|
      invariant wsLen == ws0 || wsLen == 0
      invariant wsLen == ws0 ==> forall m :: 1 <= m < k ==> Indented(spaced, lines[m], ws0, delim, m == |lines| - 1, cdi)
      invariant wsLen == 0 ==> exists m :: 1 <= m < |lines| && !Indented(spaced, lines[m], ws0, delim, m == |lines| - 1, cdi)
    {
      if !Indented(spaced, lines[k], ws0, delim, k == |lines| - 1, cdi) {
        wsLen := 0;
      }
      k := k + 1;
    }
  }

  /**
   * Step 3: break the pairs into lines. Flattening the lines gives the pieces
   * of every pair in order, and every line but the last ends in a newline.
   */
  method GatherGroupsOnNewlines(ps: seq<Grouped>, cdi: Cdi) returns (out: seq<seq<Piece>>)
    ensures Flatten(out) == Pieces(ps, cdi)
    ensures WellBroken(out)
    ensures PieceText(Flatten(out)) == Text(ps)
  {
    out := [];
    var list: seq<Piece> := [];
    var i := 0;
    while i < |ps|
      invariant 0 <= i <= |ps|
      invariant Flatten(out) + list == Pieces(ps[..i], cdi)
      invariant LineLen(Pieces(ps[..i], cdi)) == SumLen(list)
      invariant AllFinished(out) && NoNewlines(list)
    {
      PiecesStep(ps, i, cdi);
      out, list := AppendLines(out, list, ps[i], cdi);
      i := i + 1;
    }
    assert ps[..|ps|] == ps;
    if list != [] {
      FlattenStep(out, list);
      out := out + [list];
    }
    PiecesText(ps, cdi);
  }

  /** Lines labelled from g0 on, all with indent ws. */
  function LabelLines(lines: seq<string>, g0: Group, ws: int): (r: seq<Piece>)
    ensures |r| == |lines|
  {
    seq(|lines|, k requires 0 <= k < |lines| => Piece(LineGroup(g0, k, |lines|), ws, lines[k]))
  }

  /** Store the pieces of one pair, finishing a line at each newline. */
  method AppendLines(out0: seq<seq<Piece>>, list0: seq<Piece>, p: Grouped, cdi: Cdi)
    returns (out: seq<seq<Piece>>, list: seq<Piece>)
    requires AllFinished(out0) && NoNewlines(list0)
    requires LineLen(Flatten(out0) + list0) == SumLen(list0)
    ensures Flatten(out) + list == Flatten(out0) + list0 + Labelled(p, SumLen(list0), cdi)
    ensures LineLen(Flatten(out0) + list0 + Labelled(p, SumLen(list0), cdi)) == SumLen(list)
    ensures AllFinished(out) && NoNewlines(list)
  {
    var lines := SplitLines(p.s);
    var group := p.group;
    var wsLen := 0;
    if |lines| > 1 && p.group == BlockComment {
      group := BlockCommentStart;
      wsLen := BlockIndentOf(p.s, lines, list0, cdi);
    }
    assert Labelled(p, SumLen(list0), cdi) == LabelLines(lines, group, wsLen);
    out, list := StoreLines(out0, list0, lines, group, wsLen);
  }

  /**
   * The lines stored so far: out and the unfinished list hold front and the
   * first `index` labelled pieces, and list's length is the current line's.
   */
  predicate Stored(out: seq<seq<Piece>>, list: seq<Piece>, front: seq<Piece>, lab: seq<Piece>, index: nat)
  {
    && index <= |lab|
    && Flatten(out) + list == front + lab[..index]
    && LineLen(front + lab[..index]) == SumLen(list)
    && AllFinished(out) && NoNewlines(list)
  }

  lemma StoredStep(front: seq<Piece>, lab: seq<Piece>, index: nat)
    requires index < |lab|
    ensures front + lab[..index + 1] == (front + lab[..index]) + [lab[index]]
  {
    assert lab[..index + 1] == lab[..index] + [lab[index]];
  }

  /** Append one piece to the current line, yielding the line when the piece ends it. */
  method StoreOne(out0: seq<seq<Piece>>, list0: seq<Piece>, ghost front: seq<Piece>, ghost lab: seq<Piece>, index: nat, piece: Piece)
    returns (out: seq<seq<Piece>>, list: seq<Piece>)
    requires Stored(out0, list0, front, lab, index) && index < |lab| && piece == lab[index]
    ensures Stored(out, list, front, lab, index + 1)
  {
    out, list := out0, list0 + [piece];
    if EndsNl(piece.s) {
      StoreFinish(out0, list0, front, lab, index);
      out := out + [list];
      list := [];
    } else {
      StoreKeep(out0, list0, front, lab, index);
    }
  }

  /** A piece without a newline extends the current line. */
  lemma StoreKeep(out: seq<seq<Piece>>, list: seq<Piece>, front: seq<Piece>, lab: seq<Piece>, index: nat)
    requires Stored(out, list, front, lab, index) && index < |lab| && !EndsNl(lab[index].s)
    ensures Stored(out, list + [lab[index]], front, lab, index + 1)
  {
    var piece := lab[index];
    StoredStep(front, lab, index);
    LineLenStep(front + lab[..index], piece);
    assert (list + [piece])[..|list|] == list;
  }

  /** A piece ending in a newline finishes the current line. */
  lemma StoreFinish(out: seq<seq<Piece>>, list: seq<Piece>, front: seq<Piece>, lab: seq<Piece>, index: nat)
    requires Stored(out, list, front, lab, index) && index < |lab| && EndsNl(lab[index].s)
    ensures Stored(out + [list + [lab[index]]], [], front, lab, index + 1)
  {
    var piece := lab[index];
    StoredStep(front, lab, index);
    LineLenStep(front + lab[..index], piece);
    assert (list + [piece])[..|list|] == list;
    FlattenStep(out, list + [piece]);
    assert FinishedLine(list + [piece]);
  }

  /** The loop over one pair's lines: append each, yielding the line at a newline. */
  method StoreLines(out0: seq<seq<Piece>>, list0: seq<Piece>, lines: seq<string>, g0: Group, wsLen: int)
    returns (out: seq<seq<Piece>>, list: seq<Piece>)
    requires AllFinished(out0) && NoNewlines(list0)
    requires LineLen(Flatten(out0) + list0) == SumLen(list0)
    ensures Flatten(out) + list == Flatten(out0) + list0 + LabelLines(lines, g0, wsLen)
    ensures LineLen(Flatten(out0) + list0 + LabelLines(lines, g0, wsLen)) == SumLen(list)
    ensures AllFinished(out) && NoNewlines(list)
  {
    out, list := out0, list0;
    ghost var lab := LabelLines(lines, g0, wsLen);
    ghost var front := Flatten(out0) + list0;
    assert front + lab[..0] == front;
    var group := g0;
    var index := 0;
    while index < |lines|
      invariant 0 <= index <= |lines|
      invariant group == LineGroup(g0, index, |lines|)
      invariant Stored(out, list, front, lab, index)
    {
      var piece := Piece(group, wsLen, lines[index]);
      out, list := StoreOne(out, list, front, lab, index, piece);
      if group == BlockCommentStart {
        group := BlockCommentBody;
      }
      if index == |lines| - 2 && group == BlockCommentBody {
        group := BlockCommentEnd;
      }
      index := index + 1;
    }
    assert lab[..|lines|] == lab;
  }

  // ---------------------------------------------------------------------
  // Step 4: classifying lines
  // ---------------------------------------------------------------------

  predicate IsBlockBodyOrEnd(g: Group)
  {
    g == BlockCommentBody || g == BlockCommentEnd
  }

  /** With the COBOL lexer, column 7 of an inline comment is read: it must exist. */
  predicate CobolReadable(g: Group, s: string, cobol: bool)
  {
    g == InlineComment && cobol ==> |s| >= 7
  }

  /** The index of the first delimiter in `delims` that prefixes `lower`. */
  function FirstDelim(delims: seq<string>, lower: string): (r: Option<nat>)
    ensures r.Some? ==> r.value < |delims| && StartsWith(lower, delims[r.value])
    ensures r.Some? ==> forall j :: 0 <= j < r.value ==> !StartsWith(lower, delims[j])
    ensures r.None? ==> forall j :: 0 <= j < |delims| ==> !StartsWith(lower, delims[j])
  {
    if delims == [] then None
    else if StartsWith(lower, delims[0]) then Some(0)
    else match FirstDelim(delims[1..], lower)
      case None => None
      case Some(k) => Some(k + 1)
  }

  /** A piece's string without its comment delimiters. */
  function RemoveCommentDelim(g: Group, s: string, cdi: Cdi, cobol: bool): string
    requires CobolReadable(g, s, cobol)
  {
    match g
    case InlineComment =>
      if cobol then (if s[6] == '*' || s[6] == '/' then s[7..] else s)
      else (match FirstDelim(cdi.inline, Lower(s))
            case Some(k) => Drop(s, |cdi.inline[k]|)
            case None => s)
    case BlockComment => Slice(s, |cdi.open|, -|cdi.close|)
    case BlockCommentStart => Drop(s, |cdi.open|)
    case BlockCommentEnd => Take(s, -|cdi.close|)
    case _ => s
  }

  lemma {:induction false} FirstDelimIs(delims: seq<string>, lower: string, k: nat)
    requires k < |delims| && StartsWith(lower, delims[k])
    requires forall j :: 0 <= j < k ==> !StartsWith(lower, delims[j])
    ensures FirstDelim(delims, lower) == Some(k)
  {
    if k > 0 {
      FirstDelimIs(delims[1..], lower, k - 1);
    }
  }

  /** An inline comment loses the first listed delimiter it starts with (compared lower-cased). */
  lemma RemoveInlineDelim(d: string, t: string, k: nat, cdi: Cdi)
    requires k < |cdi.inline| && cdi.inline[k] == d && Lower(d) == d
    requires forall j :: 0 <= j < k ==> !StartsWith(Lower(d + t), cdi.inline[j])
    ensures RemoveCommentDelim(InlineComment, d + t, cdi, false) == t
  {
    assert Lower(d + t)[..|d|] == Lower(d);
    FirstDelimIs(cdi.inline, Lower(d + t), k);
    assert (d + t)[|d|..] == t;
  }

  /** With the COBOL lexer, a '*' or '/' in column 7 marks a comment, whose first 7 characters go. */
  lemma RemoveCobolDelim(s: string, cdi: Cdi)
    requires |s| >= 7 && s[6] == '*'
    ensures RemoveCommentDelim(InlineComment, s, cdi, true) == s[7..]
    ensures |RemoveCommentDelim(InlineComment, s, cdi, true)| == |s| - 7
  {
  }

  /** A one-line block comment loses both delimiters; a start its opening, an end its closing one. */
  lemma RemoveBlockDelims(t: string, cdi: Cdi)
    requires |cdi.close| > 0
    ensures RemoveCommentDelim(BlockComment, cdi.open + t + cdi.close, cdi, false) == t
    ensures RemoveCommentDelim(BlockCommentStart, cdi.open + t, cdi, false) == t
    ensures RemoveCommentDelim(BlockCommentEnd, t + cdi.close, cdi, false) == t
    ensures RemoveCommentDelim(BlockCommentBody, t, cdi, false) == t
  {
    var s := cdi.open + t + cdi.close;
    assert s[|cdi.open|..|s| - |cdi.close|] == t;
    assert (cdi.open + t)[|cdi.open|..] == t;
    assert (t + cdi.close)[..|t|] == t;
  }

  /** Every piece of the line can have its delimiters removed. */
  predicate CobolReadableLine(line: seq<Piece>, cobol: bool)
  {
    forall k :: 0 <= k < |line| ==> CobolReadable(line[k].group, line[k].s, cobol)
  }

  predicate HasOther(line: seq<Piece>)
  {
    exists k :: 0 <= k < |line| && line[k].group == Other
  }

  predicate WhitespaceOnly(line: seq<Piece>)
  {
    |line| == 1 && line[0].group == Whitespace
  }

  /** 1 when the line starts with whitespace, else 0. */
  function FirstCommentIndex(line: seq<Piece>): nat
    requires |line| > 0
  {
    if line[0].group == Whitespace then 1 else 0
  }

  /** Text after a delimiter that marks a reST comment: nothing, or a space or newline first. */
  predicate FirstCharIsRest(text: string)
  {
    (|text| > 0 && (text[0] == ' ' || text[0] == '\n')) || |text| == 0
  }

  /** Whether a line is a comment for reST, given whether it continues a reST block comment. */
  predicate IsRestComment(line: seq<Piece>, blockRest: bool, cdi: Cdi, cobol: bool)
    requires |line| > 0 && CobolReadableLine(line, cobol)
  {
    if HasOther(line) || WhitespaceOnly(line) then false
    else
      var first := line[FirstCommentIndex(line)];
      if blockRest && IsBlockBodyOrEnd(first.group) then true
      else FirstCharIsRest(RemoveCommentDelim(first.group, first.s, cdi, cobol)) && !IsBlockBodyOrEnd(first.group)
  }

  /**
   * The cases of a reST comment: never with code on the line or on a blank
   * line; always for the body or end of a reST block comment; otherwise
   * exactly when the first comment's text after its delimiter is empty or
   * starts with a space or a newline, and it is not a body or end line.
   */
  lemma IsRestCommentCases(line: seq<Piece>, blockRest: bool, cdi: Cdi, cobol: bool)
    requires |line| > 0 && CobolReadableLine(line, cobol)
    ensures HasOther(line) || WhitespaceOnly(line) ==> !IsRestComment(line, blockRest, cdi, cobol)
    ensures !HasOther(line) && !WhitespaceOnly(line) ==>
      var first := line[FirstCommentIndex(line)];
      && (blockRest && IsBlockBodyOrEnd(first.group) ==> IsRestComment(line, blockRest, cdi, cobol))
      && (!blockRest && IsBlockBodyOrEnd(first.group) ==> !IsRestComment(line, blockRest, cdi, cobol))
      && (!IsBlockBodyOrEnd(first.group) ==>
            (IsRestComment(line, blockRest, cdi, cobol) <==> FirstCharIsRest(RemoveCommentDelim(first.group, first.s, cdi, cobol))))
  {
  }

  /** The C delimiters: `//` inline, `/*` and `*/` around a block. */
  const CDelims := Cdi(["//"], "/*", "*/")

  /** `// x` is a reST comment and `//x` is not; both may be indented. */
  lemma InlineRestExamples()
    ensures IsRestComment([Piece(Whitespace, 0, "  "), Piece(InlineComment, 0, "// x\n")], false, CDelims, false)
    ensures !IsRestComment([Piece(InlineComment, 0, "//x\n")], false, CDelims, false)
    ensures !IsRestComment([Piece(Other, 0, "x = 1;"), Piece(InlineComment, 0, "// x\n")], false, CDelims, false)
    ensures IsRestComment([Piece(InlineComment, 0, "//\n")], false, CDelims, false)
  {
    var a := [Piece(Whitespace, 0, "  "), Piece(InlineComment, 0, "// x\n")];
    RemoveInlineDelim("//", " x\n", 0, CDelims);
    assert "//" + " x\n" == "// x\n";
    RemoveInlineDelim("//", "x\n", 0, CDelims);
    assert "//" + "x\n" == "//x\n";
    RemoveInlineDelim("//", "\n", 0, CDelims);
    assert "//" + "\n" == "//\n";
    var c := [Piece(Other, 0, "x = 1;"), Piece(InlineComment, 0, "// x\n")];
    assert c[0].group == Other;
  }

  /** The delimiter-stripped strings of a line's pieces. */
  function StrippedStrings(ps: seq<Piece>, cdi: Cdi, cobol: bool): (r: seq<string>)
    requires CobolReadableLine(ps, cobol)
    ensures |r| == |ps|
  {
    seq(|ps|, k requires 0 <= k < |ps| && CobolReadableLine(ps, cobol) => RemoveCommentDelim(ps[k].group, ps[k].s, cdi, cobol))
  }

  /**
   * The text of a reST comment line: leading whitespace dropped, every
   * delimiter removed, then one leading space removed; for a block body or
   * end line, ws_len - 1 characters and then one space (unless the text is
   * whitespace only or the block is not indented consistently).
   */
  function CommentText(line: seq<Piece>, cdi: Cdi, cobol: bool): string
    requires |line| > 0 && CobolReadableLine(line, cobol) && !WhitespaceOnly(line)
  {
    var rest := line[FirstCommentIndex(line)..];
    var first := rest[0];
    var s := Concat(StrippedStrings(rest, cdi, cobol));
    if IsBlockBodyOrEnd(first.group) then
      if !IsSpace(s) && first.wsLen > 0 then
        var t := Drop(s, first.wsLen - 1);
        if t != "" && t[0] == ' ' then t[1..] else t
      else s
    else if |s| > 0 && s[0] == ' ' then s[1..] else s
  }

  /** The stripped text of the single piece p. */
  lemma StrippedOnePiece(p: Piece, cdi: Cdi, cobol: bool)
    requires CobolReadable(p.group, p.s, cobol)
    ensures Concat(StrippedStrings([p], cdi, cobol)) == RemoveCommentDelim(p.group, p.s, cdi, cobol)
  {
    var ss := StrippedStrings([p], cdi, cobol);
    assert ss == [RemoveCommentDelim(p.group, p.s, cdi, cobol)];
    assert ss[..0] == [];
  }

  /**
   * An inline comment line `ws + d + " " + text` (the whitespace piece
   * optional), d being the first listed delimiter it starts with, has the
   * text `text`: the delimiter and the one space after it are gone.
   */
  lemma {:induction false} CommentTextInline(line: seq<Piece>, w: int, d: string, text: string, k: nat, cdi: Cdi)
    requires |line| > 0 && CobolReadableLine(line, false) && !WhitespaceOnly(line)
    requires line[FirstCommentIndex(line)..] == [Piece(InlineComment, w, d + " " + text)]
    requires k < |cdi.inline| && cdi.inline[k] == d && Lower(d) == d
    requires forall j :: 0 <= j < k ==> !StartsWith(Lower(d + (" " + text)), cdi.inline[j])
    ensures CommentText(line, cdi, false) == text
  {
    var p := Piece(InlineComment, w, d + " " + text);
    assert d + " " + text == d + (" " + text);
    assert CobolReadable(p.group, p.s, false) by {
      assert line[FirstCommentIndex(line)] == p;
    }
    StrippedOnePiece(p, cdi, false);
    RemoveInlineDelim(d, " " + text, k, cdi);
    assert (" " + text)[1..] == text;
  }

  /**
   * A block comment body line: with inconsistent indentation (ws_len 0) it
   * is kept whole; indented consistently, `indent + " " + text` with
   * ws_len - 1 indent characters has the text `text`, unless it is
   * whitespace only.
   */
  lemma {:induction false} CommentTextBlockBody(line: seq<Piece>, w: int, s: string, indent: string, text: string,
                                                cdi: Cdi, cobol: bool)
    requires line == [Piece(BlockCommentBody, w, s)]
    ensures w <= 0 ==> CommentText(line, cdi, cobol) == s
    ensures IsSpace(s) ==> CommentText(line, cdi, cobol) == s
    ensures 0 < w && s == indent + " " + text && |indent| == w - 1 && !IsSpace(s) ==>
      CommentText(line, cdi, cobol) == text
  {
    var p := Piece(BlockCommentBody, w, s);
    StrippedOnePiece(p, cdi, cobol);
    if 0 < w && s == indent + " " + text && |indent| == w - 1 && !IsSpace(s) {
      assert Drop(s, w - 1) == " " + text;
      assert (" " + text)[1..] == text;
    }
  }

  /** Lines the classifier accepts: non-empty, with every COBOL column 7 present. */
  predicate Classifiable(lines: seq<seq<Piece>>, cobol: bool)
  {
    forall i :: 0 <= i < |lines| ==> |lines[i]| > 0 && CobolReadableLine(lines[i], cobol)
  }

  /** is_block_rest_comment when line i is reached. */
  function BlockRestBefore(lines: seq<seq<Piece>>, i: nat, cdi: Cdi, cobol: bool): bool
    requires i <= |lines| && Classifiable(lines, cobol)
  {
    if i == 0 then false
    else BlockRestAfter(lines[i - 1], BlockRestBefore(lines, i - 1, cdi, cobol), cdi, cobol)
  }

  /** is_block_rest_comment after a line: set by a reST block start, kept by a reST comment, cleared by anything else. */
  function BlockRestAfter(line: seq<Piece>, blockRest: bool, cdi: Cdi, cobol: bool): bool
    requires |line| > 0 && CobolReadableLine(line, cobol)
  {
    if IsRestComment(line, blockRest, cdi, cobol) then blockRest || line[FirstCommentIndex(line)].group == BlockCommentStart
    else false
  }

  /** A reST body or end line with no leading whitespace only occurs inside a reST block. */
  lemma BodyNeedsBlock(line: seq<Piece>, blockRest: bool, cdi: Cdi, cobol: bool)
    requires |line| > 0 && CobolReadableLine(line, cobol)
    requires IsRestComment(line, blockRest, cdi, cobol) && IsBlockBodyOrEnd(line[FirstCommentIndex(line)].group)
    ensures blockRest
  {
  }

  /**
   * What a line is classified as, given whether a reST block comment is
   * open and the type of the line before: a line of code gives (-1, the
   * line); a reST comment gives its comment text and, as its type, the
   * length of its leading whitespace, or 0 without leading whitespace, or
   * for a block body or end line without leading whitespace the type of the
   * line before.
   */
  predicate ClassifiedLine(line: seq<Piece>, blockRest: bool, c: Classified, prevType: int, cdi: Cdi, cobol: bool)
    requires |line| > 0 && CobolReadableLine(line, cobol)
  {
    if IsRestComment(line, blockRest, cdi, cobol) then
      && c.s == CommentText(line, cdi, cobol)
      && c.ctype >= 0
      && (line[0].group == Whitespace ==> c.ctype == |line[0].s|)
      && (line[0].group != Whitespace && !IsBlockBodyOrEnd(line[0].group) ==> c.ctype == 0)
      && (line[0].group != Whitespace && IsBlockBodyOrEnd(line[0].group) ==> blockRest && c.ctype == prevType)
    else
      c == Classified(-1, PieceText(line))
  }

  /** What line i is classified as, given the type of the line before it. */
  predicate LineClassified(lines: seq<seq<Piece>>, i: nat, c: Classified, prevType: int, cdi: Cdi, cobol: bool)
    requires i < |lines| && Classifiable(lines, cobol)
  {
    ClassifiedLine(lines[i], BlockRestBefore(lines, i, cdi, cobol), c, prevType, cdi, cobol)
  }

  /** A block body or end line without leading whitespace takes its type from an earlier line: it is never line 0. */
  lemma BodyNotFirst(lines: seq<seq<Piece>>, c: Classified, prevType: int, cdi: Cdi, cobol: bool)
    requires |lines| > 0 && Classifiable(lines, cobol) && LineClassified(lines, 0, c, prevType, cdi, cobol)
    ensures IsRestComment(lines[0], false, cdi, cobol) ==> !IsBlockBodyOrEnd(lines[0][0].group)
  {
  }

  /** Line i is classified as out[i] says, after out[i - 1]. */
  predicate ClassifiedAt(lines: seq<seq<Piece>>, out: seq<Classified>, i: nat, cdi: Cdi, cobol: bool)
    requires i < |out| <= |lines| && Classifiable(lines, cobol)
  {
    LineClassified(lines, i, out[i], if i == 0 then 0 else out[i - 1].ctype, cdi, cobol)
  }

  /** The first |out| lines are classified as out says. */
  predicate ClassifiedSoFar(lines: seq<seq<Piece>>, out: seq<Classified>, cdi: Cdi, cobol: bool)
    requires Classifiable(lines, cobol)
  {
    |out| <= |lines| && forall i :: 0 <= i < |out| ==> ClassifiedAt(lines, out, i, cdi, cobol)
  }

  lemma ClassifiedExtend(lines: seq<seq<Piece>>, out: seq<Classified>, c: Classified, cdi: Cdi, cobol: bool)
    requires Classifiable(lines, cobol) && ClassifiedSoFar(lines, out, cdi, cobol) && |out| < |lines|
    requires LineClassified(lines, |out|, c, if |out| == 0 then 0 else out[|out| - 1].ctype, cdi, cobol)
    ensures ClassifiedSoFar(lines, out + [c], cdi, cobol)
  {
    var o := out + [c];
    forall i | 0 <= i < |o|
      ensures ClassifiedAt(lines, o, i, cdi, cobol)
    {
      if i > 0 {
        assert o[i - 1] == out[i - 1];
      }
      if i < |out| {
        assert ClassifiedAt(lines, out, i, cdi, cobol);
        assert o[i] == out[i];
      } else {
        assert o[i] == c;
      }
    }
  }

  /** One pass of step 4's loop: classify a line and update is_block_rest_comment. */
  method ClassifyOne(line: seq<Piece>, blockRest: bool, prevType: int, cdi: Cdi, cobol: bool) returns (c: Classified, blockRestAfter: bool)
    requires |line| > 0 && CobolReadableLine(line, cobol)
    requires blockRest ==> prevType >= 0
    ensures ClassifiedLine(line, blockRest, c, prevType, cdi, cobol)
    ensures blockRestAfter == BlockRestAfter(line, blockRest, cdi, cobol)
    ensures blockRestAfter ==> c.ctype >= 0
  {
    blockRestAfter := blockRest;
    var ctype := prevType;
    if IsRestComment(line, blockRest, cdi, cobol) {
      var first := line[0];
      if first.group == Whitespace {
        ctype := |first.s|;
        first := line[1];
      } else if !IsBlockBodyOrEnd(first.group) {
        ctype := 0;
      } else {
        BodyNeedsBlock(line, blockRest, cdi, cobol);
      }
      if first.group == BlockCommentStart {
        blockRestAfter := true;
      }
      var s := CommentTextOf(line, cdi, cobol);
      c := Classified(ctype, s);
    } else {
      c := Classified(-1, PieceText(line));
      blockRestAfter := false;
    }
  }

  /** The text of a reST comment line as the loop builds it: from the first comment on, delimiters removed, then the leading space. */
  method CommentTextOf(line: seq<Piece>, cdi: Cdi, cobol: bool) returns (s: string)
    requires |line| > 0 && CobolReadableLine(line, cobol) && !WhitespaceOnly(line)
    ensures s == CommentText(line, cdi, cobol)
  {
    var l := line[FirstCommentIndex(line)..];
    var first := l[0];
    s := Concat(StrippedStrings(l, cdi, cobol));
    if IsBlockBodyOrEnd(first.group) {
      if !IsSpace(s) && first.wsLen > 0 {
        s := Drop(s, first.wsLen - 1);
        if s != "" && s[0] == ' ' {
          s := s[1..];
        }
      }
    } else if |s| > 0 && s[0] == ' ' {
      s := s[1..];
    }
  }

  /**
   * Step 4: classify each line, carrying whether a reST block comment is open
   * from line to line.
   */
  method ClassifyGroups(lines: seq<seq<Piece>>, cdi: Cdi, cobol: bool) returns (out: seq<Classified>)
    requires Classifiable(lines, cobol)
    ensures |out| == |lines|
    ensures ClassifiedSoFar(lines, out, cdi, cobol)
  {
    out := [];
    var blockRest := false;
    var ctype := 0;
    var i := 0;
    while i < |lines|
      invariant 0 <= i <= |lines| && |out| == i
      invariant blockRest == BlockRestBefore(lines, i, cdi, cobol)
      invariant i > 0 ==> ctype == out[i - 1].ctype
      invariant i == 0 ==> ctype == 0
      invariant blockRest ==> ctype >= 0
      invariant ClassifiedSoFar(lines, out, cdi, cobol)
    {
      var c;
      c, blockRest := ClassifyOne(lines[i], blockRest, ctype, cdi, cobol);
      ClassifiedExtend(lines, out, c, cdi, cobol);
      out := out + [c];
      ctype := c.ctype;
      i := i + 1;
    }
  }
}
