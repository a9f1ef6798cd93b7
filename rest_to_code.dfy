/**
 * RestToCode: the parser that turns the reST CodeToRest writes back into
 * source code. Code sits in fenced-code blocks, indented comments in raw
 * HTML divs whose margin gives the indent, other comments after a set-line
 * directive; any scaffolding line that is not where the parser expects it
 * stops the parse and appends a fixed error sentence.
 *
 * The Python reads line_list[i + k] freely inside a try statement whose
 * bare except clause turns an IndexError (or a failed float conversion, or
 * a failed assert in formulate_comment) into "stop; it is an error unless
 * the current line is empty". The model makes each of those raise points
 * explicit: Raised gives the handler's outcome at the current index, and
 * Crash is the one case where the handler itself indexes past the end, so
 * that rest_to_code_string raises.
 */
module RestToCode {
  import opened PyText

  /**
   * A language's comment delimiters as rest_to_code_string uses them:
   * the inline delimiter and the block comment's opening and closing
   * delimiters, each possibly absent.
   */
  datatype Delims = Delims(inline: Option<string>, open: Option<string>, close: Option<string>)

  /** '{}'.format(x) for a delimiter: an absent one prints as "None". */
  function Fmt(x: Option<string>): string
  {
    match x
    case Some(s) => s
    case None => "None"
  }

  /** language_comment_type: whether the language has inline comments, and whether it has block comments. */
  function LanguageCommentType(d: Delims): (r: (bool, bool))
    ensures r.0 <==> d.inline.Some?
    ensures r.1 <==> d.open.Some?
  {
    (d.inline.Some?, d.open.Some?)
  }

  /**
   * formulate_block_comment. Without a line counter the line gets both
   * delimiters; in a counted block the line whose position equals the
   * counter opens the comment, any other line with a positive position
   * continues it with " * ", and a line at position 0 or below closes it.
   */
  function FormulateBlockComment(line: string, d: Delims, position: int, lineCounter: Option<int>): (r: string)
    ensures |r| >= |line| + 2 && EndsNl(r)
  {
    if lineCounter.None? then Fmt(d.open) + " " + line + Fmt(d.close) + "\n"
    else if position == lineCounter.value then Fmt(d.open) + " " + line + "\n"
    else if position > 0 then " * " + line + "\n"
    else " * " + line + Fmt(d.close) + "\n"
  }

  /** Whether formulate_comment writes an inline comment. */
  predicate WantsInline(d: Delims, isBlock: bool)
  {
    var (hasInline, hasBlock) := LanguageCommentType(d);
    (!isBlock && hasInline) || (isBlock && !hasBlock)
  }

  /**
   * formulate_comment: None when its assert fails, which is when a block
   * comment is asked for in a language with no comments of either kind.
   */
  function FormulateComment(line: string, d: Delims, isBlock: bool, position: int, lineCounter: int): (r: Option<string>)
    ensures r.None? <==> isBlock && d.open.None? && d.inline.None?
    ensures !isBlock ==> r.Some?
    ensures r.Some? && WantsInline(d, isBlock) ==> r.value == d.inline.value + " " + line + "\n"
  {
    var (hasInline, hasBlock) := LanguageCommentType(d);
    if WantsInline(d, isBlock) then
      if hasInline then Some(d.inline.value + " " + line + "\n") else None
    else
      Some(FormulateBlockComment(line, d, position, if isBlock then Some(lineCounter) else None))
  }

  // ---------------------------------------------------------------------
  // The scaffolding lines and the error sentence
  // ---------------------------------------------------------------------

  const Fenced := ".. fenced-code::"
  const BeginningFence := " Beginning fence"
  const EndingFence := " Ending fence"
  const RawHtml := ".. raw:: html"
  const DivPrefix := " <div style=\"margin-left"
  const DivClose := " </div>"
  const SetLineDirective := ".. set-line::"
  const ErrorSentence := "This was not recognised as valid reST. Please check your input and try again."

  /** How the parser tests a scaffolding line: equal to a string, or its first |p| characters equal to p. */
  datatype Want = Is(s: string) | Prefix(p: string)

  predicate Holds(line: string, w: Want)
  {
    match w
    case Is(s) => line == s
    case Prefix(p) => Slice(line, 0, |p|) == p
  }

  /** The result of a chain `L[at] != w0 or L[at + 1] != w1 or ...`: all hold, one differs, or an index is past the end. */
  datatype Verdict = Fits | Differs | OutOfRange

  /** Python's `or` evaluates the tests left to right and stops at the first that differs. */
  function Scaffold(L: seq<string>, at: nat, wants: seq<Want>): (v: Verdict)
    ensures v == Fits ==> at + |wants| <= |L| || wants == []
    decreases |wants|
  {
    if wants == [] then Fits
    else if at >= |L| then OutOfRange
    else if !Holds(L[at], wants[0]) then Differs
    else Scaffold(L, at + 1, wants[1..])
  }

  /** The chain fits exactly when every line it tests is there and passes its test. */
  lemma {:induction false} ScaffoldFits(L: seq<string>, at: nat, wants: seq<Want>)
    ensures Scaffold(L, at, wants) == Fits <==> forall j {:trigger wants[j]} :: 0 <= j < |wants| ==> at + j < |L| && Holds(L[at + j], wants[j])
    decreases |wants|
  {
    if wants == [] {
    } else if at >= |L| {
      assert Scaffold(L, at, wants) == OutOfRange;
      assert wants[0] in wants;
    } else if !Holds(L[at], wants[0]) {
      assert Scaffold(L, at, wants) == Differs;
      assert !Holds(L[at + 0], wants[0]);
    } else {
      var w' := wants[1..];
      assert Scaffold(L, at, wants) == Scaffold(L, at + 1, w');
      ScaffoldFits(L, at + 1, w');
      if Scaffold(L, at, wants) == Fits {
        forall j | 0 <= j < |wants|
          ensures at + j < |L| && Holds(L[at + j], wants[j])
        {
          if j > 0 {
            var k := j - 1;
            assert at + 1 + k < |L| && Holds(L[at + 1 + k], w'[k]);
          }
        }
      } else {
        var k :| 0 <= k < |w'| && !(at + 1 + k < |L| && Holds(L[at + 1 + k], w'[k]));
        assert wants[k + 1] == w'[k];
        assert !(at + (k + 1) < |L| && Holds(L[at + (k + 1)], wants[k + 1]));
      }
    }
  }

  // ---------------------------------------------------------------------
  // One pass of the main loop
  // ---------------------------------------------------------------------

  /**
   * What one pass of the while loop does: it appends `out` and goes on at
   * index `next`, or it breaks after appending `out` with the error flag
   * `err`, or an exception escapes rest_to_code_string.
   */
  datatype Outcome = Next(out: string, next: nat) | Stop(out: string, err: bool) | Crash

  /** out followed by what the outcome appends. */
  function Then(out: string, o: Outcome): Outcome
  {
    match o
    case Next(more, j) => Next(out + more, j)
    case Stop(more, err) => Stop(out + more, err)
    case Crash => Crash
  }

  /**
   * The bare except clause when the try body raises with the loop index at
   * i: it reads line_list[i], and it is an error unless that line is empty;
   * when i is already past the end that read raises again, uncaught.
   */
  function Raised(L: seq<string>, i: nat, out: string): Outcome
  {
    if i < |L| then Stop(out, L[i] != "") else Crash
  }

  /** The text after the first space, s.split(' ', 1)[1]; None when there is no space (an IndexError). */
  function AfterSpace(s: string): (r: Option<string>)
    ensures r.Some? ==> |r.value| < |s|
  {
    var k := IndexOf(s, ' ');
    if k == |s| then None else Some(s[k + 1..])
  }

  /** What the inner loop of the fence branch wrote up to where it stopped. */
  datatype Scanned = Scanned(out: string, stop: nat)

  /**
   * The code lines of a fenced block from index j: each line up to the
   * ending fence is written without the text up to its first space. The
   * scan stops at the ending fence, at a line without a space, or at the end.
   */
  function FenceScan(L: seq<string>, j: nat): (r: Scanned)
    ensures j <= r.stop
    ensures r.stop < |L| ==> L[r.stop] == EndingFence || AfterSpace(L[r.stop]).None?
    decreases |L| - j
  {
    if j >= |L| || L[j] == EndingFence || AfterSpace(L[j]).None? then Scanned("", j)
    else
      var r := FenceScan(L, j + 1);
      Scanned(AfterSpace(L[j]).value + "\n" + r.out, r.stop)
  }

  /** The fence branch, entered with line_list[i + 1] == '.. fenced-code::'. */
  function FenceStep(L: seq<string>, i: nat): (o: Outcome)
    ensures o.Next? ==> i < o.next <= |L|
  {
    match Scaffold(L, i + 2, [Is(""), Is(BeginningFence)])
    case OutOfRange => Raised(L, i, "")
    case Differs => Stop("", true)
    case Fits =>
      var r := FenceScan(L, i + 4);
      var j := r.stop;
      if j >= |L| then Crash
      else if L[j] != EndingFence then Raised(L, j, r.out)
      else
        // The inner except clause repeats the same tests, which raise again.
        match Scaffold(L, j + 1, [Is(""), Is(".."), Is("")])
        case OutOfRange => Raised(L, j, r.out)
        case Differs => Stop(r.out, true)
        case Fits => Next(r.out, j + 4)
  }

  /** The digits-only strings; str(n) writes one for every n. */
  predicate AllDigits(s: string)
  {
    forall i :: 0 <= i < |s| ==> '0' <= s[i] <= '9'
  }

  function Pow10(n: nat): (r: nat)
    ensures r >= 1
  {
    if n == 0 then 1 else 10 * Pow10(n - 1)
  }

  /**
   * int(float(s) * 2) for a decimal numeral "digits", "digits." or
   * "digits.digits" (at least one digit in all); None for anything else.
   * float also accepts spaces, signs, exponents and underscores, which the
   * div lines _generate_rest writes never hold.
   */
  function DoubledDecimal(s: string): (r: Option<nat>)
  {
    var dot := IndexOf(s, '.');
    var whole := s[..dot];
    var frac := if dot == |s| then "" else s[dot + 1..];
    if AllDigits(whole) && AllDigits(frac) && |whole| + |frac| > 0 then
      Some(2 * DigitsValue(whole + frac) / Pow10(|frac|))
    else None
  }

  /**
   * The div's margin as a count of spaces: the text after the first ':' up
   * to the first 'e', read as a number of em and doubled. None when the
   * line has no ':' or the number does not parse.
   */
  function Margin(line: string): Option<nat>
  {
    var c := IndexOf(line, ':');
    if c == |line| then None
    else
      var rest := line[c + 1..];
      DoubledDecimal(rest[..IndexOf(rest, 'e')])
  }

  /** n spaces, as the for loop over range(size) builds them. */
  function Indent(n: nat): (r: string)
    ensures |r| == n && forall k :: 0 <= k < n ==> r[k] == ' '
  {
    if n == 0 then "" else Indent(n - 1) + " "
  }

  /** One line inside a div: the indent, then the line as an inline comment (formulate_comment never fails for those). */
  function DivLine(line: string, size: nat, d: Delims): string
  {
    Indent(size) + FormulateComment(line, d, false, 0, 0).value
  }

  /** The lines of a div from index j, up to the line before '.. raw:: html' or the last line. */
  function DivScan(L: seq<string>, j: nat, size: nat, d: Delims): (r: Scanned)
    ensures j <= r.stop
    ensures r.stop + 1 < |L| ==> L[r.stop + 1] == RawHtml
    decreases |L| - j
  {
    if j + 1 >= |L| || L[j + 1] == RawHtml then Scanned("", j)
    else
      var r := DivScan(L, j + 1, size, d);
      Scanned(DivLine(L[j], size, d) + r.out, r.stop)
  }

  /** The div branch, entered with line_list[i + 1] == '.. raw:: html'. */
  function DivStep(L: seq<string>, i: nat, d: Delims): (o: Outcome)
    ensures o.Next? ==> i < o.next <= |L|
  {
    match Scaffold(L, i + 2, [Is(""), Prefix(DivPrefix)])
    case OutOfRange => Raised(L, i, "")
    case Differs => Stop("", true)
    case Fits => DivMargin(L, i + 3, d)
  }

  /** The div branch from the margin line k: the margin, the set-line lines after it, then the scan. */
  function DivMargin(L: seq<string>, k: nat, d: Delims): (o: Outcome)
    requires k < |L|
    ensures o.Next? ==> k < o.next <= |L|
  {
    match Margin(L[k])
    case None => Raised(L, k, "")
    case Some(size) =>
      match Scaffold(L, k + 1, [Is(""), Is(""), Prefix(SetLineDirective), Is(""), Is(".."), Is("")])
      case OutOfRange => Raised(L, k, "")
      case Differs => Stop("", true)
      case Fits => DivEnd(L, DivScan(L, k + 7, size, d))
  }

  /** The div branch after the scan stopped at r.stop: the lines that close the div. */
  function DivEnd(L: seq<string>, r: Scanned): (o: Outcome)
    ensures o.Next? ==> r.stop < o.next <= |L|
  {
    var j := r.stop;
    if j + 1 >= |L| then Raised(L, j, r.out)
    else
      match Scaffold(L, j + 2, [Is(""), Is(DivClose), Is(""), Is(".."), Is("")])
      case OutOfRange => Raised(L, j, r.out)
      case Differs => Stop(r.out, true)
      case Fits => Next(r.out, j + 7)
  }

  /**
   * The counting loop of the set-line branch: the lines from index t on
   * until the line before '.. fenced-code::' or the last line.
   */
  function CountLines(L: seq<string>, t: nat): (n: nat)
    requires t + 1 < |L|
    ensures t + n < |L|
    decreases |L| - t
  {
    if L[t + 1] == Fenced then 0
    else 1 + (if t + 2 >= |L| then 0 else CountLines(L, t + 1))
  }

  /**
   * The comment loop of the set-line branch from index i, the counter at
   * `position`: each line up to the one before '.. fenced-code::' is
   * formulated; when the lines run out, the last line is formulated too
   * and the main loop ends.
   */
  function CommentRun(L: seq<string>, i: nat, d: Delims, isBlock: bool, position: int, lineCounter: int): (o: Outcome)
    requires i + 1 < |L|
    ensures o.Next? ==> i <= o.next <= |L|
    decreases |L| - i
  {
    if L[i + 1] == Fenced then Next("", i)
    else
      match FormulateComment(L[i], d, isBlock, position, lineCounter)
      case None => Raised(L, i, "")
      case Some(f) =>
        if i + 2 >= |L| then
          match FormulateComment(L[i + 1], d, isBlock, position - 1, lineCounter)
          case None => Raised(L, i + 1, f)
          case Some(g) => Next(f + g, i + 2)
        else Then(f, CommentRun(L, i + 1, d, isBlock, position - 1, lineCounter))
  }

  /** The set-line branch: a run of 10000 lines or more becomes one block comment. */
  function SetLineStep(L: seq<string>, i: nat, d: Delims): (o: Outcome)
    ensures o.Next? ==> i < o.next <= |L|
  {
    match Scaffold(L, i + 2, [Is(""), Is(".."), Is("")])
    case OutOfRange => Raised(L, i, "")
    case Differs => Stop("", true)
    case Fits =>
      var k := i + 5;
      if k + 1 >= |L| then Raised(L, k, "")
      else
        var lineCounter := CountLines(L, k);
        var isBlock := lineCounter >= 10000;
        CommentRun(L, k, d, isBlock, if isBlock then lineCounter else 0, lineCounter)
  }

  /** One pass of the main loop at index i: dispatch on the directive in the next line. */
  function Step(L: seq<string>, i: nat, d: Delims): (o: Outcome)
    requires i < |L|
    ensures o.Next? ==> i < o.next <= |L|
  {
    if i + 1 >= |L| then Raised(L, i, "")
    else if L[i + 1] == Fenced then FenceStep(L, i)
    else if L[i + 1] == RawHtml then DivStep(L, i, d)
    else if Slice(L[i + 1], 0, |SetLineDirective|) == SetLineDirective then SetLineStep(L, i, d)
    else Stop("", true)
  }

  /** What rest_to_code_string ends with: the code it returns, or an exception. */
  datatype Final = Returns(code: string) | Raises

  function Prefixed(out: string, f: Final): Final
  {
    match f
    case Returns(code) => Returns(out + code)
    case Raises => Raises
  }

  /** The main loop from index i on, with the error sentence appended after an erroneous stop. */
  function Run(L: seq<string>, i: nat, d: Delims): Final
    decreases |L| - i
  {
    if i >= |L| then Returns("")
    else
      match Step(L, i, d)
      case Next(out, j) => Prefixed(out, Run(L, j, d))
      case Stop(out, err) => Returns(out + (if err then ErrorSentence else ""))
      case Crash => Raises
  }

  /** rest_to_code_string: tabs become four spaces, the text is split at '\n' and parsed. */
  function Convert(rest: string, d: Delims): Final
  {
    Run(Split(ExpandTabs(rest), '\n'), 0, d)
  }

  // ---------------------------------------------------------------------
  // rest_to_code_string as the loops it is written with
  // ---------------------------------------------------------------------

  lemma ThenThen(a: string, b: string, o: Outcome)
    ensures Then(a, Then(b, o)) == Then(a + b, o)
  {
    match o
    case Next(x, j) => assert a + (b + x) == (a + b) + x;
    case Stop(x, e) => assert a + (b + x) == (a + b) + x;
    case Crash =>
  }

  /** The for loop over range(size) that builds a div line's indent. */
  method MakeSpaces(size: nat) returns (spaces: string)
    ensures spaces == Indent(size)
  {
    spaces := "";
    var index := 0;
    while index < size
      invariant index <= size && spaces == Indent(index)
    {
      spaces := spaces + " ";
      index := index + 1;
    }
  }

  /**
   * The inner loop of the fence branch: each line up to the ending fence,
   * without the text up to its first space. It reports a line without a
   * space, where the split raises.
   */
  method FenceLines(L: seq<string>, j0: nat) returns (out: string, j: nat, raised: bool)
    ensures FenceScan(L, j0) == Scanned(out, j)
    ensures raised <==> j < |L| && L[j] != EndingFence
  {
    j := j0;
    out := "";
    while j < |L| && L[j] != EndingFence
      invariant j0 <= j
      invariant FenceScan(L, j0) == Scanned(out + FenceScan(L, j).out, FenceScan(L, j).stop)
      decreases |L| - j
    {
      var k := IndexOf(L[j], ' ');
      if k == |L[j]| {
        return out, j, true;
      }
      var f := L[j][k + 1..] + "\n";
      assert out + FenceScan(L, j).out == (out + f) + FenceScan(L, j + 1).out;
      out := out + f;
      j := j + 1;
    }
    assert out + "" == out;
    raised := false;
  }

  /** The fence branch of the try body. */
  method FenceBranch(L: seq<string>, i: nat) returns (o: Outcome)
    ensures o == FenceStep(L, i)
  {
    var v := Scaffold(L, i + 2, [Is(""), Is(BeginningFence)]);
    if v == OutOfRange {
      return Raised(L, i, "");
    } else if v == Differs {
      return Stop("", true);
    }
    var out, j, raised := FenceLines(L, i + 4);
    if raised {
      return Raised(L, j, out);
    }
    if j >= |L| {
      return Crash;
    }
    v := Scaffold(L, j + 1, [Is(""), Is(".."), Is("")]);
    if v == OutOfRange {
      return Raised(L, j, out);
    } else if v == Differs {
      return Stop(out, true);
    }
    return Next(out, j + 4);
  }

  /** The inner loop of the div branch: each line before the closing '.. raw:: html' as an indented inline comment. */
  method DivLines(L: seq<string>, j0: nat, size: nat, d: Delims) returns (out: string, j: nat)
    ensures DivScan(L, j0, size, d) == Scanned(out, j)
  {
    j := j0;
    out := "";
    while j + 1 < |L| && L[j + 1] != RawHtml
      invariant j0 <= j
      invariant DivScan(L, j0, size, d) == Scanned(out + DivScan(L, j, size, d).out, DivScan(L, j, size, d).stop)
      decreases |L| - j
    {
      var spaces := MakeSpaces(size);
      var s := FormulateComment(L[j], d, false, 0, 0);
      var f := spaces + s.value;
      assert out + DivScan(L, j, size, d).out == (out + f) + DivScan(L, j + 1, size, d).out;
      out := out + f;
      j := j + 1;
    }
    assert out + "" == out;
  }

  /** The div branch of the try body. */
  method DivBranch(L: seq<string>, i: nat, d: Delims) returns (o: Outcome)
    ensures o == DivStep(L, i, d)
  {
    var v := Scaffold(L, i + 2, [Is(""), Prefix(DivPrefix)]);
    if v == OutOfRange {
      return Raised(L, i, "");
    } else if v == Differs {
      return Stop("", true);
    }
    var k := i + 3;
    var size := Margin(L[k]);
    if size.None? {
      return Raised(L, k, "");
    }
    v := Scaffold(L, k + 1, [Is(""), Is(""), Prefix(SetLineDirective), Is(""), Is(".."), Is("")]);
    if v == OutOfRange {
      return Raised(L, k, "");
    } else if v == Differs {
      return Stop("", true);
    }
    var out, j := DivLines(L, k + 7, size.value, d);
    if j + 1 >= |L| {
      return Raised(L, j, out);
    }
    v := Scaffold(L, j + 2, [Is(""), Is(DivClose), Is(""), Is(".."), Is("")]);
    if v == OutOfRange {
      return Raised(L, j, out);
    } else if v == Differs {
      return Stop(out, true);
    }
    return Next(out, j + 7);
  }

  /** The counting loop of the set-line branch; the except clause ends it at the last line. */
  method CountCommentLines(L: seq<string>, i: nat) returns (lineCounter: nat)
    requires i + 1 < |L|
    ensures lineCounter == CountLines(L, i)
  {
    var t := i;
    lineCounter := 0;
    while L[t + 1] != Fenced
      invariant i <= t && t + 1 < |L|
      invariant CountLines(L, i) == lineCounter + CountLines(L, t)
      decreases |L| - t
    {
      lineCounter := lineCounter + 1;
      t := t + 1;
      if t + 1 >= |L| {
        break;
      }
    }
  }

  /** The formulating loop of the set-line branch; at the last line the except clause formulates it too. */
  method FormulateRun(L: seq<string>, i: nat, d: Delims, isBlock: bool, position: int, lineCounter: int) returns (o: Outcome)
    requires i + 1 < |L|
    ensures o == CommentRun(L, i, d, isBlock, position, lineCounter)
  {
    var j := i;
    var pos := position;
    var out := "";
    while L[j + 1] != Fenced
      invariant i <= j && j + 1 < |L|
      invariant CommentRun(L, i, d, isBlock, position, lineCounter) == Then(out, CommentRun(L, j, d, isBlock, pos, lineCounter))
      decreases |L| - j
    {
      var f := FormulateComment(L[j], d, isBlock, pos, lineCounter);
      if f.None? {
        return Raised(L, j, out);
      }
      if j + 2 >= |L| {
        // formulate_comment fails for every line or for none, so g is a value here.
        var g := FormulateComment(L[j + 1], d, isBlock, pos - 1, lineCounter);
        assert out + (f.value + g.value) == out + f.value + g.value;
        return Next(out + f.value + g.value, j + 2);
      }
      ThenThen(out, f.value, CommentRun(L, j + 1, d, isBlock, pos - 1, lineCounter));
      out := out + f.value;
      pos := pos - 1;
      j := j + 1;
    }
    assert out + "" == out;
    return Next(out, j);
  }

  /** The set-line branch of the try body. */
  method SetLineBranch(L: seq<string>, i: nat, d: Delims) returns (o: Outcome)
    ensures o == SetLineStep(L, i, d)
  {
    var v := Scaffold(L, i + 2, [Is(""), Is(".."), Is("")]);
    if v == OutOfRange {
      return Raised(L, i, "");
    } else if v == Differs {
      return Stop("", true);
    }
    var k := i + 5;
    if k + 1 >= |L| {
      return Raised(L, k, "");
    }
    var lineCounter := CountCommentLines(L, k);
    var isBlock := false;
    var position := 0;
    if lineCounter >= 10000 {
      isBlock, position := true, lineCounter;
    }
    o := FormulateRun(L, k, d, isBlock, position, lineCounter);
  }

  /** The try body of one pass: dispatch on the directive in the next line. */
  method Pass(L: seq<string>, i: nat, d: Delims) returns (o: Outcome)
    requires i < |L|
    ensures o == Step(L, i, d)
  {
    if i + 1 >= |L| {
      return Raised(L, i, "");
    } else if L[i + 1] == Fenced {
      o := FenceBranch(L, i);
    } else if L[i + 1] == RawHtml {
      o := DivBranch(L, i, d);
    } else if Slice(L[i + 1], 0, |SetLineDirective|) == SetLineDirective {
      o := SetLineBranch(L, i, d);
    } else {
      return Stop("", true);
    }
  }

  lemma PrefixedAssoc(a: string, b: string, f: Final)
    ensures Prefixed(a, Prefixed(b, f)) == Prefixed(a + b, f)
  {
    if f.Returns? {
      assert a + (b + f.code) == (a + b) + f.code;
    }
  }

  /** A pass that goes on: the rest of the run follows what it appended. */
  lemma RunNext(L: seq<string>, i: nat, d: Delims, out: string, j: nat, before: string)
    requires i < |L| && Step(L, i, d) == Next(out, j)
    ensures Prefixed(before, Run(L, i, d)) == Prefixed(before + out, Run(L, j, d))
  {
    PrefixedAssoc(before, out, Run(L, j, d));
  }

  /** A pass that breaks: the run ends with what it appended and, after an error, the sentence. */
  lemma RunStop(L: seq<string>, i: nat, d: Delims, out: string, err: bool, before: string)
    requires i < |L| && Step(L, i, d) == Stop(out, err)
    ensures Prefixed(before, Run(L, i, d)) == Returns((before + out) + (if err then ErrorSentence else ""))
  {
    assert before + (out + (if err then ErrorSentence else "")) == (before + out) + (if err then ErrorSentence else "");
  }

  /** rest_to_code_string: the code the reST describes, or the code so far and the error sentence. */
  method RestToCodeString(restStr: string, d: Delims) returns (r: Final)
    ensures r == Convert(restStr, d)
  {
    var boolean := false;
    var i := 0;
    var rest := ExpandTabs(restStr);
    var lineList := Split(rest, '\n');
    var stringOut := "";
    assert Prefixed(stringOut, Run(lineList, i, d)) == Convert(restStr, d);
    while i < |lineList|
      invariant i <= |lineList| && !boolean
      invariant Prefixed(stringOut, Run(lineList, i, d)) == Convert(restStr, d)
      decreases |lineList| - i
    {
      var o := Pass(lineList, i, d);
      if o.Crash? {
        return Raises;
      }
      if o.Stop? {
        RunStop(lineList, i, d, o.out, o.err, stringOut);
        stringOut := stringOut + o.out;
        boolean := o.err;
        break;
      }
      RunNext(lineList, i, d, o.out, o.next, stringOut);
      stringOut := stringOut + o.out;
      i := o.next;
    }
    if boolean {
      stringOut := stringOut + ErrorSentence;
    }
    assert stringOut + "" == stringOut;
    return Returns(stringOut);
  }

  // ---------------------------------------------------------------------
  // Properties of rest_to_code_string
  // ---------------------------------------------------------------------

  lemma ExpandTab()
    ensures ExpandTabs("\t") == "    "
  {
    assert ExpandTabs("\t") == "    " + ExpandTabs("");
  }

  /** Tab expansion, the first thing rest_to_code_string does, turns a tab into four spaces wherever it is. */
  lemma TabExpansion(a: string, b: string)
    ensures ExpandTabs(a + "\t" + b) == ExpandTabs(a + "    " + b)
  {
    var tab, spaces := "\t", "    ";
    ExpandTabsAppend(a + tab, b);
    ExpandTabsAppend(a, tab);
    ExpandTabsAppend(a + spaces, b);
    ExpandTabsAppend(a, spaces);
    ExpandTab();
    ExpandTabsNoTab(spaces);
  }

  /** Two texts that expand alike convert alike. */
  lemma ConvertExpanded(x: string, y: string, d: Delims)
    requires ExpandTabs(x) == ExpandTabs(y)
    ensures Convert(x, d) == Convert(y, d)
  {
  }

  /** A tab anywhere in the reST reads as four spaces. */
  lemma TabIsFourSpaces(a: string, b: string, d: Delims)
    ensures Convert(a + "\t" + b, d) == Convert(a + "    " + b, d)
  {
    TabExpansion(a, b);
    ConvertExpanded(a + "\t" + b, a + "    " + b, d);
  }

  lemma SplitOne(s: string)
    requires '\n' !in s
    ensures Split(s, '\n') == [s]
  {
    var k := IndexOf(s, '\n');
    assert k == |s|;
  }

  /**
   * A one-line text, such as "hello", has no directive line after it: the
   * pass raises, and since the line is not empty the error sentence is all
   * that comes back.
   */
  lemma NoDirectiveIsError(line: string, d: Delims)
    requires line != "" && '\n' !in line && '\t' !in line
    ensures Convert(line, d) == Returns(ErrorSentence)
  {
    ExpandTabsNoTab(line);
    SplitOne(line);
    assert Step([line], 0, d) == Stop("", true);
  }

  /**
   * A fenced-code directive whose next lines are not an empty line and the
   * beginning fence, such as " Beginning fene", stops the parse with the
   * error sentence after the output so far.
   */
  lemma BadFenceIsError(L: seq<string>, i: nat, d: Delims)
    requires i + 3 < |L| && L[i + 1] == Fenced && (L[i + 2] != "" || L[i + 3] != BeginningFence)
    ensures Step(L, i, d) == Stop("", true)
    ensures Run(L, i, d) == Returns(ErrorSentence)
  {
    assert Scaffold(L, i + 2, [Is(""), Is(BeginningFence)]) == Differs;
  }
}
