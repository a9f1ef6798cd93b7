/**
 * The Python string operations the CodeChat translators rely on, stated on
 * Dafny strings (sequences of characters): str.isspace, "".join, slices with
 * negative bounds, str.splitlines(True), str.split, str.replace for tabs,
 * str.lower, html.escape(s, False) and the decimal rendering of numbers.
 */
module PyText {

  datatype Option<T> = None | Some(value: T)

  /** A character str.isspace accepts: the ASCII blanks, the separators 0x1C-0x1F and Unicode spaces. */
  predicate IsWhite(c: char)
  {
    var n := c as int;
    (9 <= n <= 13) || (28 <= n <= 32) || n == 0x85 || n == 0xA0 || n == 0x1680
    || (0x2000 <= n <= 0x200A) || n == 0x2028 || n == 0x2029 || n == 0x202F
    || n == 0x205F || n == 0x3000
  }

  /** str.isspace: a non-empty string made only of white characters. */
  predicate IsSpace(s: string)
  {
    |s| > 0 && forall i :: 0 <= i < |s| ==> IsWhite(s[i])
  }

  /** "".join(ss). */
  function Concat(ss: seq<string>): string
  {
    if ss == [] then "" else Concat(ss[..|ss| - 1]) + ss[|ss| - 1]
  }

  lemma {:induction false} ConcatAppend(a: seq<string>, b: seq<string>)
    ensures Concat(a + b) == Concat(a) + Concat(b)
    decreases |b|
  {
    if b == [] {
      assert a + b == a;
    } else {
      var b', x := b[..|b| - 1], b[|b| - 1];
      assert a + b == (a + b') + [x];
      assert b == b' + [x];
      ConcatSnoc(a + b', x);
      ConcatSnoc(b', x);
      ConcatAppend(a, b');
    }
  }

  lemma ConcatSnoc(a: seq<string>, s: string)
    ensures Concat(a + [s]) == Concat(a) + s
  {
    assert (a + [s])[..|a|] == a;
  }

  lemma ConcatOne(s: string)
    ensures Concat([s]) == s
  {
    assert [s][..0] == [];
  }

  /** A joined sequence is as long as its parts together; an empty list joins to "". */
  lemma {:induction false} ConcatCons(s: string, ss: seq<string>)
    ensures Concat([s] + ss) == s + Concat(ss)
  {
    ConcatAppend([s], ss);
    ConcatOne(s);
  }

  /** s.count(c) for a single character. */
  function CountChar(s: string, c: char): nat
  {
    if s == "" then 0 else CountChar(s[..|s| - 1], c) + (if s[|s| - 1] == c then 1 else 0)
  }

  /** str.endswith("\n"). */
  predicate EndsNl(s: string)
  {
    |s| > 0 && s[|s| - 1] == '\n'
  }

  predicate StartsWith(s: string, p: string)
  {
    |p| <= |s| && s[..|p|] == p
  }

  predicate EndsWith(s: string, p: string)
  {
    |p| <= |s| && s[|s| - |p|..] == p
  }

  /** A slice bound as Python resolves it: negative counts from the end, then clipped to 0..n. */
  function Bound(i: int, n: nat): (r: nat)
    ensures r <= n
    ensures 0 <= i <= n ==> r == i
    ensures 0 - n <= i < 0 ==> r == n + i
  {
    if i < 0 then (if n + i < 0 then 0 else n + i) else (if i > n then n else i)
  }

  /** s[lo:hi]. */
  function Slice(s: string, lo: int, hi: int): (r: string)
    ensures |r| <= |s|
  {
    var a := Bound(lo, |s|);
    var b := Bound(hi, |s|);
    if a <= b then s[a..b] else ""
  }

  /** s[lo:]. */
  function Drop(s: string, lo: int): (r: string)
    ensures 0 <= lo <= |s| ==> r == s[lo..]
    ensures |s| <= lo ==> r == ""
  {
    Slice(s, lo, |s|)
  }

  /** s[:hi]. */
  function Take(s: string, hi: int): (r: string)
    ensures 0 <= hi <= |s| ==> r == s[..hi]
    ensures -|s| <= hi < 0 ==> r == s[..|s| + hi]
    ensures hi == 0 ==> r == ""
  {
    Slice(s, 0, hi)
  }

  /** s[i] for an index Python accepts: -|s| <= i < |s|. */
  function CharAt(s: string, i: int): char
    requires -|s| <= i < |s|
  {
    if i < 0 then s[|s| + i] else s[i]
  }

  /** The characters str.splitlines treats as line boundaries. */
  predicate IsLineBreak(c: char)
  {
    var n := c as int;
    (10 <= n <= 13) || (28 <= n <= 30) || n == 0x85 || n == 0x2028 || n == 0x2029
  }

  /** The length of the first line of s, its line boundary included ("\r\n" is one boundary). */
  function FirstLineLen(s: string): (k: nat)
    requires |s| > 0
    ensures 0 < k <= |s|
    decreases |s|
  {
    if IsLineBreak(s[0]) then
      (if s[0] == '\r' && |s| > 1 && s[1] == '\n' then 2 else 1)
    else if |s| == 1 then 1
    else 1 + FirstLineLen(s[1..])
  }

  /** str.splitlines(True): the lines of s, each keeping its line boundary. */
  function SplitLines(s: string): (r: seq<string>)
    ensures forall k :: 0 <= k < |r| ==> |r[k]| > 0
    ensures s == "" <==> r == []
    decreases |s|
  {
    if s == "" then [] else
      var k := FirstLineLen(s);
      [s[..k]] + SplitLines(s[k..])
  }

  /** Joining the lines of s gives s back. */
  lemma {:induction false} SplitLinesConcat(s: string)
    ensures Concat(SplitLines(s)) == s
    decreases |s|
  {
    if s != "" {
      var k := FirstLineLen(s);
      SplitLinesConcat(s[k..]);
      ConcatCons(s[..k], SplitLines(s[k..]));
      assert s[..k] + s[k..] == s;
    }
  }

  /** A string without line boundaries is its own single line. */
  lemma SplitLinesOneLine(s: string)
    requires s != ""
    requires forall j :: 0 <= j < |s| ==> !IsLineBreak(s[j])
    ensures SplitLines(s) == [s]
  {
    FirstLineLenNoBreak(s);
    assert s[..|s|] == s;
    assert SplitLines(s[|s|..]) == [];
  }

  /** A line ending in '\n' with no earlier boundary is one line. */
  lemma SplitLinesNewlineEnded(s: string)
    requires |s| > 0 && s[|s| - 1] == '\n'
    requires forall j :: 0 <= j < |s| - 1 ==> !IsLineBreak(s[j])
    ensures SplitLines(s) == [s]
  {
    FirstLineLenAtEnd(s);
    assert s[..|s|] == s;
    assert SplitLines(s[|s|..]) == [];
  }

  lemma {:induction false} FirstLineLenNoBreak(s: string)
    requires s != ""
    requires forall j :: 0 <= j < |s| ==> !IsLineBreak(s[j])
    ensures FirstLineLen(s) == |s|
    decreases |s|
  {
    if |s| > 1 {
      FirstLineLenNoBreak(s[1..]);
    }
  }

  lemma {:induction false} FirstLineLenAtEnd(s: string)
    requires |s| > 0 && IsLineBreak(s[|s| - 1])
    requires forall j :: 0 <= j < |s| - 1 ==> !IsLineBreak(s[j])
    ensures FirstLineLen(s) == |s|
    decreases |s|
  {
    if |s| > 1 {
      FirstLineLenAtEnd(s[1..]);
    }
  }

  /** The position of the first c in s, or |s|. */
  function IndexOf(s: string, c: char): (k: nat)
    ensures k <= |s|
    ensures k < |s| ==> s[k] == c
    ensures forall j :: 0 <= j < k ==> s[j] != c
  {
    if s == "" then 0 else if s[0] == c then 0 else 1 + IndexOf(s[1..], c)
  }

  /** s.split(c): the pieces between the occurrences of c, so always one more than there are c. */
  function Split(s: string, c: char): (r: seq<string>)
    ensures |r| > 0
    ensures forall k :: 0 <= k < |r| ==> c !in r[k]
    decreases |s|
  {
    var k := IndexOf(s, c);
    if k == |s| then [s] else [s[..k]] + Split(s[k + 1..], c)
  }

  /** c.join(ss), the inverse of Split. */
  function Join(ss: seq<string>, c: char): string
  {
    if |ss| <= 1 then (if ss == [] then "" else ss[0]) else ss[0] + [c] + Join(ss[1..], c)
  }

  /** Splitting at c the join of pieces free of c gives the pieces back. */
  lemma {:induction false} SplitJoin(ss: seq<string>, c: char)
    requires |ss| > 0
    requires forall k :: 0 <= k < |ss| ==> c !in ss[k]
    ensures Split(Join(ss, c), c) == ss
    decreases |ss|
  {
    var s := Join(ss, c);
    if |ss| == 1 {
      assert IndexOf(s, c) == |s|;
    } else {
      var rest := Join(ss[1..], c);
      assert s == ss[0] + [c] + rest;
      IndexOfPrefix(ss[0], rest, c);
      assert s[|ss[0]| + 1..] == rest;
      assert s[..|ss[0]|] == ss[0];
      SplitJoin(ss[1..], c);
    }
  }

  lemma {:induction false} IndexOfPrefix(a: string, b: string, c: char)
    requires c !in a
    ensures IndexOf(a + [c] + b, c) == |a|
    decreases |a|
  {
    if a != "" {
      assert (a + [c] + b)[1..] == a[1..] + [c] + b;
      IndexOfPrefix(a[1..], b, c);
    }
  }

  /** str.replace('\t', '    '). */
  function ExpandTabs(s: string): (r: string)
    ensures '\t' !in r
  {
    if s == "" then "" else (if s[0] == '\t' then "    " else [s[0]]) + ExpandTabs(s[1..])
  }

  /** A string without tabs is left alone. */
  lemma {:induction false} ExpandTabsNoTab(s: string)
    requires '\t' !in s
    ensures ExpandTabs(s) == s
  {
    if s != "" {
      ExpandTabsNoTab(s[1..]);
    }
  }

  lemma {:induction false} ExpandTabsAppend(a: string, b: string)
    ensures ExpandTabs(a + b) == ExpandTabs(a) + ExpandTabs(b)
  {
    if a != "" {
      var h := if a[0] == '\t' then "    " else [a[0]];
      assert (a + b)[0] == a[0] && (a + b)[1..] == a[1..] + b;
      assert ExpandTabs(a + b) == h + ExpandTabs(a[1..] + b);
      ExpandTabsAppend(a[1..], b);
      assert ExpandTabs(a) == h + ExpandTabs(a[1..]);
    } else {
      assert a + b == b;
    }
  }

  /** str.lower on the ASCII letters. */
  function LowerChar(c: char): char
  {
    if 'A' <= c <= 'Z' then (c as int + 32) as char else c
  }

  function Lower(s: string): (r: string)
    ensures |r| == |s|
    ensures forall i :: 0 <= i < |s| ==> r[i] == LowerChar(s[i])
  {
    seq(|s|, i requires 0 <= i < |s| => LowerChar(s[i]))
  }

  /** html.escape(s, False): only &, < and > are replaced. */
  function EscapeChar(c: char): string
  {
    if c == '&' then "&amp;" else if c == '<' then "&lt;" else if c == '>' then "&gt;" else [c]
  }

  function Escape(s: string): (r: string)
  {
    if |s| == 0 then "" else EscapeChar(s[0]) + Escape(s[1..])
  }

  /** Escaping keeps every character but &, <, > and introduces none of < or >. */
  lemma {:induction false} EscapeNoBrackets(s: string)
    ensures '<' !in Escape(s) && '>' !in Escape(s)
  {
    if s != "" {
      EscapeNoBrackets(s[1..]);
    }
  }

  lemma {:induction false} EscapePlain(s: string)
    requires forall i :: 0 <= i < |s| ==> s[i] != '&' && s[i] != '<' && s[i] != '>'
    ensures Escape(s) == s
  {
    if s != "" {
      EscapePlain(s[1..]);
    }
  }

  /** The decimal digits of n, as str(n) writes them. */
  function NatStr(n: nat): (r: string)
    ensures |r| > 0
    ensures forall i :: 0 <= i < |r| ==> '0' <= r[i] <= '9'
  {
    var d := ['0' + (n % 10) as char];
    if n < 10 then d else NatStr(n / 10) + d
  }

  /** str(i) for any integer. */
  function IntStr(i: int): string
  {
    if i < 0 then "-" + NatStr(-i) else NatStr(i)
  }

  /** str(0.5 * t) for a natural t: "k.0" or "k.5", k = t / 2 (exact while Python prints the float in full). */
  function HalfStr(t: nat): (r: string)
    ensures |r| >= 3 && r[|r| - 2] == '.'
  {
    NatStr(t / 2) + (if t % 2 == 0 then ".0" else ".5")
  }

  /** The value of a run of decimal digits. */
  function DigitsValue(s: string): nat
    requires forall i :: 0 <= i < |s| ==> '0' <= s[i] <= '9'
  {
    if s == "" then 0 else 10 * DigitsValue(s[..|s| - 1]) + (s[|s| - 1] - '0') as int
  }

  /** Reading the digits str(n) writes gives n back. */
  lemma {:induction false} NatStrValue(n: nat)
    ensures DigitsValue(NatStr(n)) == n
  {
    var d := ['0' + (n % 10) as char];
    if n >= 10 {
      var r := NatStr(n / 10) + d;
      assert r[..|r| - 1] == NatStr(n / 10);
      NatStrValue(n / 10);
    }
  }

  /** A character of the class [ \t\r\f\v]. */
  predicate IsBlankChar(c: char)
  {
    c == ' ' || c == '\t' || c == '\r' || c as int == 12 || c as int == 11
  }

  predicate AllBlank(s: string)
  {
    |s| > 0 && forall i :: 0 <= i < |s| ==> IsBlankChar(s[i])
  }

  /**
   * re.search(r'^[ \t\r\f\v]+$', s): one or more blank characters, where `$`
   * also matches just before a final newline.
   */
  predicate IsBlankRun(s: string)
  {
    AllBlank(s) || (EndsNl(s) && AllBlank(s[..|s| - 1]))
  }

  /** A newline on its own is not a blank run. */
  lemma NewlineIsNotBlank()
    ensures !IsBlankRun("\n")
  {
    assert "\n"[0] == '\n' && !IsBlankChar('\n');
  }
}
