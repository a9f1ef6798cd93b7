/**
 * html_edit.py's CodeToRestFormatter, an early code-to-reST translator for
 * C sources: `_format_body` collects each line's tokens, decides whether
 * the line is code or a comment, and writes code lines into a literal
 * block (one leading space each) and comment lines as text with the `//`
 * delimiter removed; a marker line `//wokifvzohtdlm`, later stripped from
 * the HTML, keeps reST's indentation right. The token stream is first run
 * through `_expand_nl`, which is the same generator as pyg_module.py's and
 * is modelled there (PygModule.ExpandNl). The Qt editor, Sphinx and the
 * approximate text search of the same file are not part of this model.
 */
module HtmlEdit {
  import opened PyText
  import opened PygmentsToken
  import CP = CodeToPretext
  import PM = PygModule

  /** unique_remove_str. */
  const UniqueRemoveStr := "//wokifvzohtdlm"

  /** What precedes the first code line after comment text: a literal block holding a marker line. */
  const CodeHeader := "\n\n::\n\n " + UniqueRemoveStr + "\n"

  /** is_code, is_comment, is_ws. */
  datatype LineType = IsCode | IsComment | IsWs

  // ------------------------------------------------------------- token classes

  /** `re.search(ws, value)`: whitespace, tested first. */
  predicate IsWsTok(t: Tok)
  {
    IsBlankRun(t.value)
  }

  /** `(ttype is Token.Comment) or (ttype is Token.Comment.Single)`, when not whitespace. */
  predicate IsComTok(t: Tok)
  {
    !IsWsTok(t) && (t.ttype == Comment || t.ttype == CommentSingle)
  }

  /** The newline that ends a line. */
  predicate IsNlTok(t: Tok)
  {
    !IsWsTok(t) && !IsComTok(t) && t.value == "\n"
  }

  /** Anything else is code. */
  predicate IsCodeTok(t: Tok)
  {
    !IsWsTok(t) && !IsComTok(t) && t.value != "\n"
  }

  // ------------------------------------------------- the comment regular expression

  /** The length of a string's run of leading spaces and tabs. */
  function LeadLen(s: string): (k: nat)
    ensures k <= |s|
    ensures forall i :: 0 <= i < k ==> s[i] == ' ' || s[i] == '\t'
    ensures k < |s| ==> s[k] != ' ' && s[k] != '\t'
  {
    if s != "" && (s[0] == ' ' || s[0] == '\t') then 1 + LeadLen(s[1..]) else 0
  }

  /** `(^[ \t]*)// ?` matches at the start of the line s. */
  predicate Delimited(s: string)
  {
    StartsWith(s[LeadLen(s)..], "//")
  }

  /** re.sub of that expression on one line: the delimiter and one optional space go, the indent stays. */
  function StripLine(s: string): (r: string)
  {
    if Delimited(s) then
      var k := LeadLen(s);
      s[..k] + AfterSpace(s[k + 2..])
    else s
  }

  function StripLines(ls: seq<string>): (r: seq<string>)
    ensures |r| == |ls|
    ensures forall i :: 0 <= i < |ls| ==> r[i] == StripLine(ls[i])
  {
    if ls == [] then [] else [StripLine(ls[0])] + StripLines(ls[1..])
  }

  /** re.sub(regexp, r'\1', s) with re.MULTILINE: every line of s loses its delimiter. */
  function Uncomment(s: string): string
  {
    Join(StripLines(Split(s, '\n')), '\n')
  }

  /** group(1) of the first match in a list of lines. */
  function FirstIndentIn(ls: seq<string>): Option<string>
  {
    if ls == [] then None
    else if Delimited(ls[0]) then Some(ls[0][..LeadLen(ls[0])])
    else FirstIndentIn(ls[1..])
  }

  /** `re.search(regexp, line_str)`: the indent of the first delimited line of s, if any. */
  function FirstIndent(s: string): Option<string>
  {
    FirstIndentIn(Split(s, '\n'))
  }

  /** What follows the delimiter once its one optional space is gone. */
  function AfterSpace(rest: string): string
  {
    if rest != "" && rest[0] == ' ' then rest[1..] else rest
  }

  /** Blank indent, then the delimiter: the indent stays and the delimiter goes. */
  lemma StripIndented(ind: string, rest: string)
    requires forall i :: 0 <= i < |ind| ==> ind[i] == ' ' || ind[i] == '\t'
    requires |rest| >= 2 && rest[0] == '/' && rest[1] == '/'
    ensures StripLine(ind + rest) == ind + AfterSpace(rest[2..])
  {
    var s := ind + rest;
    LeadLenOf(ind, rest);
    assert s[|ind|..] == rest;
    assert s[..|ind|] == ind;
    assert s[|ind| + 2..] == rest[2..];
  }

  /** A line's indent followed by "// " loses exactly the delimiter and that space. */
  lemma StripsDelimiter(ind: string, text: string)
    requires forall i :: 0 <= i < |ind| ==> ind[i] == ' ' || ind[i] == '\t'
    requires text != "" ==> text[0] != ' '
    ensures StripLine(ind + "// " + text) == ind + text
  {
    StripIndented(ind, "// " + text);
    assert ("// " + text)[2..] == " " + text;
    assert ind + "// " + text == ind + ("// " + text);
  }

  lemma {:induction false} LeadLenOf(ind: string, rest: string)
    requires forall i :: 0 <= i < |ind| ==> ind[i] == ' ' || ind[i] == '\t'
    requires rest != "" && rest[0] != ' ' && rest[0] != '\t'
    ensures LeadLen(ind + rest) == |ind|
    decreases |ind|
  {
    if ind == "" {
      assert ind + rest == rest;
    } else {
      assert (ind + rest)[1..] == ind[1..] + rest;
      LeadLenOf(ind[1..], rest);
    }
  }

  /** The indent the expression records for such a line is exactly its leading whitespace. */
  lemma IndentOfDelimited(ind: string, text: string)
    requires forall i :: 0 <= i < |ind| ==> ind[i] == ' ' || ind[i] == '\t'
    requires '\n' !in ind && '\n' !in text
    ensures FirstIndent(ind + "//" + text) == Some(ind)
  {
    var s := ind + "//" + text;
    LeadLenOf(ind, "//" + text);
    assert s[|ind|..] == "//" + text;
    assert s[..|ind|] == ind;
    assert '\n' !in s by {
      forall i | 0 <= i < |s| ensures s[i] != '\n' {
        if i < |ind| {
          assert s[i] == ind[i];
        } else if i >= |ind| + 2 {
          assert s[i] == text[i - |ind| - 2];
        }
      }
    }
    assert IndexOf(s, '\n') == |s|;
    assert Split(s, '\n') == [s];
  }


  // --------------------------------------------------------- the marker paragraphs

  /** The blockquote_indent list for an indent of n characters. */
  function MarkerList(n: nat): (r: seq<string>)
  {
    seq(n, i requires 0 <= i => "\n\n" + CP.Spaces(i) + UniqueRemoveStr) + ["\n\n"]
  }

  /**
   * The loop building blockquote_indent: one marker paragraph per indent
   * character, each indented one more space, then a paragraph break.
   */
  method MarkerParagraphs(n: nat) returns (parts: seq<string>)
    ensures |parts| == n + 1 && parts[n] == "\n\n"
    ensures forall i :: 0 <= i < n ==> parts[i] == "\n\n" + CP.Spaces(i) + UniqueRemoveStr
    ensures parts == MarkerList(n)
  {
    parts := [];
    var i := 0;
    while i < n
      invariant 0 <= i <= n && |parts| == i
      invariant forall j :: 0 <= j < i ==> parts[j] == "\n\n" + CP.Spaces(j) + UniqueRemoveStr
    {
      parts := parts + ["\n\n" + CP.Spaces(i) + UniqueRemoveStr];
      i := i + 1;
    }
    parts := parts + ["\n\n"];
  }

  // ------------------------------------------------------------------ _format_body

  /**
   * The loop's variables: current_line_list, line_type, last_is_code,
   * comment_indent, and what has been written to out_file.
   */
  datatype Body = Body(lineList: seq<string>, lineType: LineType, lastIsCode: bool, indent: string, out: string)

  /** Before the first token: an empty line of type is_comment after no code. */
  const Start := Body([], IsComment, false, "", "")

  /** A whitespace-only line takes the previous line's type. */
  function Resolved(lt: LineType, lastIsCode: bool): (r: LineType)
    ensures r != IsWs
    ensures lt != IsWs ==> r == lt
  {
    if lt == IsWs then (if lastIsCode then IsCode else IsComment) else lt
  }

  /** What one finished line writes, and the comment indent afterwards. */
  datatype Written = Written(text: string, indent: string)

  /** The text written for a line of the resolved type. */
  function LineText(lineStr: string, code: bool, lastIsCode: bool, indent: string): Written
  {
    if code then
      Written((if lastIsCode then "\n" else CodeHeader) + " " + lineStr, indent)
    else
      var ind := match FirstIndent(lineStr) case Some(i) => i case None => indent;
      Written((if lastIsCode then Concat(MarkerList(|ind|)) else "") + "\n" + Uncomment(lineStr), ind)
  }

  /** The newline branch: write the line, clear the buffer, start a whitespace line. */
  function EndLine(b: Body): (r: Body)
    ensures r.lineList == [] && r.lineType == IsWs
    ensures r.lastIsCode <==> Resolved(b.lineType, b.lastIsCode) == IsCode
  {
    var t := Resolved(b.lineType, b.lastIsCode);
    var w := LineText(Concat(b.lineList), t == IsCode, b.lastIsCode, b.indent);
    Body([], IsWs, t == IsCode, w.indent, b.out + w.text)
  }

  /** One iteration of the loop of _format_body. */
  function Step(b: Body, t: Tok): Body
  {
    if IsWsTok(t) then b.(lineList := b.lineList + [t.value])
    else if IsComTok(t) then
      b.(lineList := b.lineList + [t.value], lineType := if b.lineType != IsCode then IsComment else b.lineType)
    else if t.value == "\n" then EndLine(b)
    else b.(lineList := b.lineList + [t.value], lineType := IsCode)
  }

  /** The loop over a whole token stream, token by token from the left. */
  function Absorb(b: Body, ts: seq<Tok>): Body
    decreases |ts|
  {
    if ts == [] then b else Step(Absorb(b, ts[..|ts| - 1]), ts[|ts| - 1])
  }

  /** The loop run from the start; tokens after the last newline are never written. */
  function FormatRun(ts: seq<Tok>): string
  {
    Absorb(Start, ts).out
  }

  /** The newline branch as the source builds the line from a list with insert(0, ...). */
  method WriteLine(lineList: seq<string>, lineType: LineType, lastIsCode: bool, indent: string)
    returns (text: string, indent': string, lastIsCode': bool)
    ensures var b := EndLine(Body(lineList, lineType, lastIsCode, indent, ""));
      text == b.out && indent' == b.indent && lastIsCode' == b.lastIsCode
  {
    var lineStr := Concat(lineList);
    var currentLineList := [lineStr];
    var lt := lineType;
    if lt == IsWs {
      lt := if lastIsCode then IsCode else IsComment;
    }
    indent' := indent;
    if lt == IsCode {
      currentLineList := [" "] + currentLineList;
      if !lastIsCode {
        currentLineList := [CodeHeader] + currentLineList;
      } else {
        currentLineList := ["\n"] + currentLineList;
      }
    } else {
      var m := FirstIndent(lineStr);
      if m.Some? {
        indent' := m.value;
      }
      currentLineList := ["\n"] + [Uncomment(lineStr)];
      if lastIsCode {
        var blockquoteIndent := MarkerParagraphs(|indent'|);
        currentLineList := [Concat(blockquoteIndent)] + currentLineList;
      }
    }
    text := Concat(currentLineList);
    lastIsCode' := lt == IsCode;
    JoinThree(currentLineList);
  }

  /** Concat of a list of up to three strings, written out. */
  lemma JoinThree(l: seq<string>)
    ensures |l| == 2 ==> Concat(l) == l[0] + l[1]
    ensures |l| == 3 ==> Concat(l) == l[0] + l[1] + l[2]
  {
    if |l| == 2 {
      assert l == [l[0]] + [l[1]];
      ConcatCons(l[0], [l[1]]);
      ConcatOne(l[1]);
    } else if |l| == 3 {
      assert l == [l[0]] + [l[1], l[2]];
      assert [l[1], l[2]] == [l[1]] + [l[2]];
      ConcatCons(l[0], [l[1], l[2]]);
      ConcatCons(l[1], [l[2]]);
      ConcatOne(l[2]);
    }
  }

  /** One token of the loop of _format_body, on the loop's variables. */
  method FormatToken(b: Body, t: Tok) returns (b': Body)
    ensures b' == Step(b, t)
  {
    var currentLineList, lineType, lastIsCode, commentIndent, out := b.lineList, b.lineType, b.lastIsCode, b.indent, b.out;
    var value := t.value;
    if IsBlankRun(value) {
      currentLineList := currentLineList + [value];
    } else if t.ttype == Comment || t.ttype == CommentSingle {
      if lineType != IsCode {
        lineType := IsComment;
      }
      currentLineList := currentLineList + [value];
    } else if value == "\n" {
      var text;
      text, commentIndent, lastIsCode := WriteLine(currentLineList, lineType, lastIsCode, commentIndent);
      out := out + text;
      currentLineList := [];
      lineType := IsWs;
    } else {
      lineType := IsCode;
      currentLineList := currentLineList + [value];
    }
    b' := Body(currentLineList, lineType, lastIsCode, commentIndent, out);
  }

  /**
   * _format_body: the token loop, writing each line to out_file when its
   * newline arrives.
   */
  method FormatBody(ts: seq<Tok>) returns (out: string)
    ensures out == FormatRun(ts)
  {
    var b := Body([], IsComment, false, "", "");
    var i := 0;
    while i < |ts|
      invariant 0 <= i <= |ts|
      invariant b == Absorb(Start, ts[..i])
    {
      assert ts[..i + 1][..i] == ts[..i];
      b := FormatToken(b, ts[i]);
      i := i + 1;
    }
    assert ts[..|ts|] == ts;
    out := b.out;
  }

  // ------------------------------------------------------------- per-line lemmas

  /** The type a line has after its tokens: code wins, then a comment, else the type it started with. */
  function TypeAfter(lt: LineType, ts: seq<Tok>): LineType
  {
    if lt == IsCode || exists i :: 0 <= i < |ts| && IsCodeTok(ts[i]) then IsCode
    else if lt == IsComment || exists i :: 0 <= i < |ts| && IsComTok(ts[i]) then IsComment
    else IsWs
  }

  /** No token of ts ends a line. */
  predicate InLine(ts: seq<Tok>)
  {
    forall i :: 0 <= i < |ts| ==> !IsNlTok(ts[i])
  }

  /**
   * Within a line the loop only collects: the buffer gains the tokens'
   * values, nothing is written, and the type is TypeAfter — any code token
   * makes the line code, and a comment after it does not change that.
   */
  lemma {:induction false} AbsorbLine(b: Body, ts: seq<Tok>)
    requires InLine(ts)
    ensures Absorb(b, ts) == b.(lineList := b.lineList + Values(ts), lineType := TypeAfter(b.lineType, ts))
    decreases |ts|
  {
    if ts == [] {
      assert b.lineList + Values(ts) == b.lineList;
    } else {
      var p, t := ts[..|ts| - 1], ts[|ts| - 1];
      assert InLine(p) by {
        forall i | 0 <= i < |p| ensures !IsNlTok(p[i]) {
          assert p[i] == ts[i];
        }
      }
      AbsorbLine(b, p);
      assert ts == p + [t];
      ValuesAppend(p, [t]);
      TypeAfterSnoc(b.lineType, p, t);
    }
  }

  lemma TypeAfterSnoc(lt: LineType, p: seq<Tok>, t: Tok)
    requires !IsNlTok(t)
    ensures TypeAfter(lt, p + [t])
         == if IsCodeTok(t) then IsCode
            else if IsComTok(t) && TypeAfter(lt, p) != IsCode then IsComment
            else TypeAfter(lt, p)
  {
    var s := p + [t];
    assert s[|p|] == t;
    assert forall i :: 0 <= i < |p| ==> s[i] == p[i];
    if exists i :: 0 <= i < |s| && IsCodeTok(s[i]) {
      var i :| 0 <= i < |s| && IsCodeTok(s[i]);
      if i < |p| {
        assert IsCodeTok(p[i]);
      }
    }
    if exists i :: 0 <= i < |s| && IsComTok(s[i]) {
      var i :| 0 <= i < |s| && IsComTok(s[i]);
      if i < |p| {
        assert IsComTok(p[i]);
      }
    }
  }

  lemma {:induction false} AbsorbAppend(b: Body, xs: seq<Tok>, ys: seq<Tok>)
    ensures Absorb(b, xs + ys) == Absorb(Absorb(b, xs), ys)
    decreases |ys|
  {
    if ys == [] {
      assert xs + ys == xs;
    } else {
      var q, y := ys[..|ys| - 1], ys[|ys| - 1];
      assert xs + ys == (xs + q) + [y];
      assert (xs + ys)[..|xs + ys| - 1] == xs + q;
      AbsorbAppend(b, xs, q);
    }
  }

  /**
   * A whole line — its tokens, then the newline — writes LineText of the
   * joined tokens under the line's resolved type, and afterwards the buffer
   * is empty, the line type is whitespace and last_is_code records whether
   * the line was code.
   */
  lemma WholeLine(b: Body, ts: seq<Tok>, nl: Tok)
    requires b.lineList == [] && InLine(ts) && IsNlTok(nl)
    ensures var t := Resolved(TypeAfter(b.lineType, ts), b.lastIsCode);
      var w := LineText(Spelled(ts), t == IsCode, b.lastIsCode, b.indent);
      Absorb(b, ts + [nl]) == Body([], IsWs, t == IsCode, w.indent, b.out + w.text)
  {
    AbsorbAppend(b, ts, [nl]);
    AbsorbLine(b, ts);
    assert [] + Values(ts) == Values(ts);
    var b' := Absorb(b, ts);
    assert Absorb(b', [nl]) == Step(Absorb(b', []), nl) by {
      assert [nl][..0] == [];
    }
  }

  /**
   * A line holding a code token is written as code: after the first code
   * line following comment text the literal-block header with its marker,
   * otherwise a newline, then one space and the line exactly as typed.
   */
  lemma CodeLine(b: Body, ts: seq<Tok>, nl: Tok, k: nat)
    requires b.lineList == [] && InLine(ts) && IsNlTok(nl)
    requires k < |ts| && IsCodeTok(ts[k])
    ensures var b' := Absorb(b, ts + [nl]);
      b'.out == b.out + (if b.lastIsCode then "\n" else CodeHeader) + " " + Spelled(ts)
      && b'.lastIsCode && b'.indent == b.indent
  {
    WholeLine(b, ts, nl);
    assert TypeAfter(b.lineType, ts) == IsCode;
  }

  /**
   * A line holding a comment and no code is written as text: when it
   * follows code, the marker paragraphs for the comment indent come first;
   * then a newline and the line with its delimiter removed.
   */
  lemma CommentLine(b: Body, ts: seq<Tok>, nl: Tok, k: nat)
    requires b.lineList == [] && InLine(ts) && IsNlTok(nl) && b.lineType != IsCode
    requires k < |ts| && IsComTok(ts[k])
    requires forall i :: 0 <= i < |ts| ==> !IsCodeTok(ts[i])
    ensures var b' := Absorb(b, ts + [nl]);
      var ind := match FirstIndent(Spelled(ts)) case Some(i) => i case None => b.indent;
      b'.out == b.out + (if b.lastIsCode then Concat(MarkerList(|ind|)) else "") + "\n" + Uncomment(Spelled(ts))
      && !b'.lastIsCode && b'.indent == ind
  {
    WholeLine(b, ts, nl);
    assert TypeAfter(b.lineType, ts) == IsComment;
  }

  /** A line of whitespace only, after the first line, takes the type of the line before it. */
  lemma BlankLineInherits(b: Body, ts: seq<Tok>, nl: Tok)
    requires b.lineList == [] && b.lineType == IsWs && IsNlTok(nl)
    requires forall i :: 0 <= i < |ts| ==> IsWsTok(ts[i])
    ensures Absorb(b, ts + [nl]).lastIsCode == b.lastIsCode
  {
    assert InLine(ts);
    WholeLine(b, ts, nl);
    assert TypeAfter(b.lineType, ts) == IsWs;
  }

  // ------------------------------------------------------------ format_unencoded

  /** format_unencoded: newlines split off single-line comments first, then _format_body. */
  function FormatUnencoded(ts: seq<Tok>): string
  {
    FormatRun(PM.ExpandNl(ts))
  }

  /** One delimited line with no indent: no indent recorded, and the delimiter with its space removed. */
  lemma UncommentOne(text: string)
    requires '\n' !in text && (text != "" ==> text[0] != ' ')
    ensures FirstIndent("// " + text) == Some("")
    ensures Uncomment("// " + text) == text
  {
    var c := "// " + text;
    IndentOfDelimited("", " " + text);
    assert "" + "//" + (" " + text) == c;
    StripsDelimiter("", text);
    assert "" + "// " + text == c;
    assert '\n' !in c by {
      forall i | 0 <= i < |c| ensures c[i] != '\n' {
        if i >= 3 {
          assert c[i] == text[i - 3];
        }
      }
    }
    assert IndexOf(c, '\n') == |c|;
    assert Split(c, '\n') == [c];
    assert "" + text == text;
    assert StripLines([c]) == [text];
  }

  /** The comment of a one-comment file, with its newline split off. */
  lemma ExpandedComment(c: string)
    ensures PM.ExpandNl([Tok(CommentSingle, c + "\n")]) == [Tok(CommentSingle, c), Tok(Text, "\n")]
  {
    PM.ExpandNlSplits(c, []);
    assert [Tok(CommentSingle, c + "\n")] + [] == [Tok(CommentSingle, c + "\n")];
  }

  /** A comment token followed by a newline token, from the start, writes the comment line's text. */
  lemma CommentThenNewline(c: string)
    requires c != "" && c[0] == '/'
    ensures FormatRun([Tok(CommentSingle, c), Tok(Text, "\n")]) == LineText(c, false, false, "").text
  {
    var t, nl := Tok(CommentSingle, c), Tok(Text, "\n");
    NewlineIsNotBlank();
    assert !IsBlankRun(c) by {
      assert !IsBlankChar(c[0]);
    }
    assert [t, nl][..1] == [t] && [t][..0] == [];
    var b := Absorb(Start, [t]);
    assert IsComTok(t);
    assert Absorb(Start, []) == Start;
    assert b == Step(Absorb(Start, [t][..0]), t);
    assert Start.lineList + [c] == [c];
    assert b == Body([c], IsComment, false, "", "");
    assert IsNlTok(nl);
    ConcatOne(c);
    assert Absorb(Start, [t, nl]) == EndLine(b);
  }

  /**
   * A file holding one line comment `// text` and its newline becomes the
   * text alone on a fresh line: the delimiter and its space are gone.
   */
  lemma OneCommentLine(text: string)
    requires '\n' !in text && (text != "" ==> text[0] != ' ')
    ensures FormatUnencoded([Tok(CommentSingle, "// " + text + "\n")]) == "\n" + text
  {
    var c := "// " + text;
    assert c + "\n" == "// " + text + "\n";
    ExpandedComment(c);
    CommentThenNewline(c);
    UncommentOne(text);
  }
}
