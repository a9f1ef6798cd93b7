/**
 * The long-pattern engine (lagrepy.c): a backward hash filter over byte
 * pairs, and a two-row cut-off dynamic program (verify) that confirms a
 * candidate and reports one span through the shared resolver.
 */
module Lagrepy {
  import opened AgrepyDefs
  import opened MatchList
  import opened StartPos

  /** The hash of the byte pair (hi, lo) read backwards: hi << 8 plus lo. */
  function PairKey(hi: Byte, lo: Byte): (h: int)
    ensures 0 <= h < HASHTABLESIZE
    ensures h / 256 == hi && h % 256 == lo
  {
    hi * 256 + lo
  }

  /** h is one of the pattern's bytes. */
  ghost predicate IsPatternByte(P: seq<Byte>, h: int)
  {
    exists i :: 0 <= i < |P| && P[i] == h
  }

  /** h is the key of two adjacent pattern bytes P[i], P[i - 1]. */
  ghost predicate IsPatternPair(P: seq<Byte>, h: int)
  {
    exists i :: 1 <= i < |P| && PairKey(P[i], P[i - 1]) == h
  }

  /** MEMBER_1 after am_preprocess: set exactly at pattern bytes and pattern pair keys. */
  ghost predicate IsMemberTable(P: seq<Byte>, t: seq<bool>)
  {
    |t| == HASHTABLESIZE && forall h :: 0 <= h < HASHTABLESIZE ==> (t[h] <==> IsPatternByte(P, h) || IsPatternPair(P, h))
  }

  /** The pattern is a C string: no NUL byte inside it. */
  predicate NulFree(P: seq<Byte>)
  {
    forall i :: 0 <= i < |P| ==> P[i] != 0
  }

  /** No key whose low byte is NUL is a member: a NUL read always ends a hash chain. */
  ghost predicate NulStops(t: seq<bool>)
  {
    |t| == HASHTABLESIZE && forall h :: 0 <= h < HASHTABLESIZE && h % 256 == 0 ==> !t[h]
  }

  lemma {:induction false} MemberTableNulStops(P: seq<Byte>, t: seq<bool>)
    requires IsMemberTable(P, t) && NulFree(P)
    ensures NulStops(t)
  {
    forall h | 0 <= h < HASHTABLESIZE && h % 256 == 0
      ensures !t[h]
    {
      forall i | 0 <= i < |P|
        ensures P[i] != h && (i >= 1 ==> PairKey(P[i], P[i - 1]) != h)
      {
        assert P[i] != 0;
        if i >= 1 {
          assert P[i - 1] != 0;
        }
      }
    }
  }

  function Pow2(k: nat): (r: nat)
    ensures r >= 1
  {
    if k == 0 then 1 else 2 * Pow2(k - 1)
  }

  /** The lagrep half of the parameter union. */
  class LagrepParams {
    var hashmask: int
    const member1: array<bool>
    var nErrors: int

    ghost predicate Valid()
      reads this
    {
      member1.Length == HASHTABLESIZE
    }

    constructor ()
      ensures Valid() && fresh(member1)
    {
      member1 := new bool[HASHTABLESIZE];
    }

    /**
     * am_preprocess: Hashmask becomes 2^TWOBYTES - 1 and MEMBER_1 marks
     * every pattern byte and every key of two adjacent pattern bytes.
     */
    method AmPreprocess(P: seq<Byte>, errors: int)
      requires Valid()
      modifies this, member1
      ensures Valid() && nErrors == errors
      ensures hashmask == HASHTABLESIZE - 1
      ensures IsMemberTable(P, member1[..])
    {
      nErrors := errors;
      var i := 1;
      var mask := 1;
      while i < TWOBYTES
        invariant 1 <= i <= TWOBYTES
        invariant mask == Pow2(i) - 1
      {
        mask := mask * 2 + 1;
        i := i + 1;
      }
      assert Pow2(TWOBYTES) == HASHTABLESIZE;
      hashmask := mask;
      MarkPattern(P);
    }

    /** The two table loops of am_preprocess: clear MEMBER_1, mark the bytes, then the pair keys. */
    method MarkPattern(P: seq<Byte>)
      requires Valid()
      modifies member1
      ensures IsMemberTable(P, member1[..])
    {
      forall h | 0 <= h < HASHTABLESIZE {
        member1[h] := false;
      }
      var i := |P| - 1;
      while i >= 0
        invariant -1 <= i < |P|
        invariant forall h :: 0 <= h < HASHTABLESIZE ==> (member1[h] <==> exists j :: i < j < |P| && P[j] == h)
      {
        member1[P[i]] := true;
        i := i - 1;
      }
      i := |P| - 1;
      while i > 0
        invariant 0 <= i < |P| || (|P| == 0 && i == -1)
        invariant forall h :: 0 <= h < HASHTABLESIZE ==>
          (member1[h] <==> IsPatternByte(P, h) || exists j :: i < j < |P| && PairKey(P[j], P[j - 1]) == h)
      {
        member1[PairKey(P[i], P[i - 1])] := true;
        i := i - 1;
      }
    }
  }

  /** One step of the rolling hash: shift in the byte read, keep the low 16 bits (& Hashmask). */
  function Roll(h: int, b: Byte): (r: int)
    requires 0 <= h
    ensures 0 <= r < HASHTABLESIZE && r % 256 == b
  {
    (h * 256 + b) % HASHTABLESIZE
  }

  /**
   * The inner while of exec_lagrepy's scan: extend the hash with the byte at
   * p and step back while MEMBER_1 accepts it. p is the next position to read;
   * the result is that position once the hash is rejected.
   */
  ghost function Chain(t: seq<bool>, text: seq<Byte>, p: int, h: int): (q: int)
    requires NulStops(t) && 0 <= h < HASHTABLESIZE && (p >= -1 || !t[h])
    ensures q <= p
    ensures -2 <= q || q == p
    decreases p + 2
  {
    if !t[h] then p else Chain(t, text, p - 1, Roll(h, At(text, p)))
  }

  /**
   * The outer while of the scan: D + 1 misses are tolerated; each starts a new
   * hash from the byte at p and steps back over the chain it accepts.
   */
  ghost function Suffix(t: seq<bool>, text: seq<Byte>, p: int, D: int, misses: int): (q: int)
    requires NulStops(t) && 0 <= misses
    decreases D + 1 - misses
  {
    if misses > D then p
    else Suffix(t, text, Chain(t, text, p - 1, At(text, p)), D, misses + 1)
  }

  /** Every tolerated miss reads at least one byte: the scan ends at least D + 1 - misses back. */
  lemma {:induction false} SuffixReadsBack(t: seq<bool>, text: seq<Byte>, p: int, D: int, misses: int)
    requires NulStops(t) && 0 <= misses
    ensures Suffix(t, text, p, D, misses) <= p - Max(D + 1 - misses, 0)
    decreases D + 1 - misses
  {
    if misses <= D {
      SuffixReadsBack(t, text, Chain(t, text, p - 1, At(text, p)), D, misses + 1);
    }
  }

  /** The scan of exec_lagrepy from position p: the text pointer where it stops. */
  method ScanBack(member1: array<bool>, hashmask: int, text: seq<Byte>, p: int, D: int) returns (q: int)
    requires NulStops(member1[..]) && hashmask == HASHTABLESIZE - 1
    ensures q == Suffix(member1[..], text, p, D, 0)
  {
    q := p;
    var misses := 0;
    while misses <= D
      invariant 0 <= misses
      invariant Suffix(member1[..], text, q, D, misses) == Suffix(member1[..], text, p, D, 0)
      decreases D + 1 - misses
    {
      var hash := At(text, q);
      q := q - 1;
      ghost var q0 := q;
      while member1[hash]
        invariant 0 <= hash < HASHTABLESIZE && (q >= -1 || !member1[hash])
        invariant Chain(member1[..], text, q, hash) == Chain(member1[..], text, q0, At(text, q0 + 1))
        decreases q + 2
      {
        hash := (hash * 256 + At(text, q)) % (hashmask + 1);
        q := q - 1;
      }
      misses := misses + 1;
    }
  }

  /**
   * One cell of verify's rows: the diagonal value when the pattern symbol
   * matches, and otherwise one more than the least of diagonal, up and left.
   */
  function Cost(pat: seq<Byte>, k: int, sym: Byte, diag: int, up: int, left: int): (c: int)
    requires 1 <= k <= |pat|
    ensures pat[k - 1] == sym ==> c == diag
    ensures pat[k - 1] != sym ==> c <= diag + 1 && c <= up + 1 && c <= left + 1
    ensures pat[k - 1] != sym ==> c == diag + 1 || c == up + 1 || c == left + 1
  {
    if pat[k - 1] != sym then Min(Min(diag + 1, up + 1), left + 1) else diag
  }

  /** d after a row: D, or the least cell k in 1..last whose value is below k if that is smaller. */
  ghost predicate IsCutoff(row: seq<int>, last: int, D: int, d: int)
    requires 0 <= last < |row|
  {
    && d <= D
    && (forall k :: 1 <= k <= last && row[k] < k ==> d <= row[k])
    && (d == D || exists k :: 1 <= k <= last && row[k] < k && row[k] == d)
  }

  /** Cells 0..hi of a row hold no negative value. */
  ghost predicate NonNeg(row: array<int>, hi: int)
    reads row
  {
    forall k :: 0 <= k <= hi && k < row.Length ==> 0 <= row[k]
  }

  /** Cells 1..hi of cur follow the recurrence from prev and their left neighbour. */
  ghost predicate Filled(cur: array<int>, prev: array<int>, pat: seq<Byte>, sym: Byte, hi: int)
    reads cur, prev
    requires hi <= |pat| && hi < cur.Length && hi < prev.Length
  {
    forall k :: 1 <= k <= hi ==> cur[k] == Cost(pat, k, sym, prev[k - 1], prev[k], cur[k - 1])
  }

  /** One cell: cur[k] := the recurrence's value; nothing else changes. */
  method SetCell(cur: array<int>, prev: array<int>, pat: seq<Byte>, sym: Byte, k: int, ghost c0: seq<int>)
    requires cur != prev && 1 <= k <= |pat| && k < cur.Length && k < prev.Length
    requires |c0| == cur.Length == prev.Length && cur[..] == FillRow(c0, prev[..], pat, sym, k - 1)
    modifies cur
    ensures cur[k] == Cost(pat, k, sym, prev[k - 1], prev[k], cur[k - 1])
    ensures forall j :: 0 <= j < cur.Length && j != k ==> cur[j] == old(cur[j])
    ensures cur[..] == FillRow(c0, prev[..], pat, sym, k)
  {
    var cost := prev[k - 1] + 1;
    if pat[k - 1] != sym {
      if prev[k] + 1 < cost {
        cost := prev[k] + 1;
      }
      if cur[k - 1] + 1 < cost {
        cost := cur[k - 1] + 1;
      }
    } else {
      cost := cost - 1;
    }
    cur[k] := cost;
  }

  /** The row FillRow builds follows the recurrence in cells 1..k and keeps every other cell. */
  lemma {:induction false} FillRowCells(c0: seq<int>, prev: seq<int>, pat: seq<Byte>, sym: Byte, k: nat)
    requires k <= |pat| && k < |c0| && |prev| == |c0|
    ensures forall j :: 1 <= j <= k ==>
      FillRow(c0, prev, pat, sym, k)[j] == Cost(pat, j, sym, prev[j - 1], prev[j], FillRow(c0, prev, pat, sym, k)[j - 1])
    ensures forall j :: 0 <= j < |c0| && !(1 <= j <= k) ==> FillRow(c0, prev, pat, sym, k)[j] == c0[j]
  {
    if k > 0 {
      FillRowCells(c0, prev, pat, sym, k - 1);
    }
  }

  /** Cells 0..k of FillRow are not negative when those of prev and cell 0 are not. */
  lemma {:induction false} FillRowNonNeg(c0: seq<int>, prev: seq<int>, pat: seq<Byte>, sym: Byte, k: nat)
    requires k <= |pat| && k < |c0| && |prev| == |c0|
    requires 0 <= c0[0] && forall j :: 0 <= j <= k ==> 0 <= prev[j]
    ensures forall j :: 0 <= j <= k ==> 0 <= FillRow(c0, prev, pat, sym, k)[j]
  {
    if k > 0 {
      FillRowNonNeg(c0, prev, pat, sym, k - 1);
    }
  }

  /** Cut is the cut-off error count IsCutoff describes. */
  lemma {:induction false} CutIsCutoff(row: seq<int>, k: nat, D: int)
    requires k < |row|
    ensures IsCutoff(row, k, D, Cut(row, k, D))
  {
    if k > 0 {
      CutIsCutoff(row, k - 1, D);
    }
  }

  /**
   * The cell loop of one half of verify's step: cells 1..last of cur are
   * recomputed from prev and from the cell to their left, and d is the
   * cut-off error count of the new row.
   */
  method Fill(cur: array<int>, prev: array<int>, pat: seq<Byte>, sym: Byte, last: int, D: int) returns (d: int)
    requires cur != prev && cur.Length == MAXPATLEN && prev.Length == MAXPATLEN
    requires 0 <= last < |pat| && last + 1 < MAXPATLEN
    modifies cur
    ensures Filled(cur, prev, pat, sym, last)
    ensures forall k :: 0 <= k < MAXPATLEN && !(1 <= k <= last) ==> cur[k] == old(cur[k])
    ensures IsCutoff(cur[..], last, D, d)
    ensures NonNeg(prev, last) && 0 <= cur[0] ==> NonNeg(cur, last)
    ensures cur[..] == FillRow(old(cur[..]), prev[..], pat, sym, last) && d == Cut(cur[..], last, D)
  {
    d := D;
    var k := 1;
    while k <= last
      invariant 1 <= k <= last + 1
      invariant cur[..] == FillRow(old(cur[..]), prev[..], pat, sym, k - 1) && d == Cut(cur[..], k - 1, D)
    {
      ghost var before := cur[..];
      SetCell(cur, prev, pat, sym, k, old(cur[..]));
      CutStep(before, cur[..], k, D);
      if cur[k] < d && cur[k] < k {
        d := cur[k];
      }
      k := k + 1;
    }
    FillRowCells(old(cur[..]), prev[..], pat, sym, last);
    CutIsCutoff(cur[..], last, D);
    if NonNeg(prev, last) && 0 <= cur[0] {
      FillRowNonNeg(old(cur[..]), prev[..], pat, sym, last);
    }
  }

  /**
   * The rest of one half of verify's step: extend last by one when the
   * symbol matches pat[last] (copying the diagonal), by one more while the
   * last cell is below D, then wind last back over cells above D.
   */
  method Advance(cur: array<int>, prev: array<int>, pat: seq<Byte>, sym: Byte, last: int, D: int)
    returns (last': int, ghost ext: int)
    requires cur != prev && cur.Length == MAXPATLEN && prev.Length == MAXPATLEN
    requires 0 <= last < |pat| && last + 2 < MAXPATLEN && cur[0] == 0 && 0 <= D
    modifies cur
    ensures var e1 := if pat[last] == sym then last + 1 else last;
      && (pat[last] == sym ==> cur[e1] == prev[last])
      && (cur[e1] < D ==> ext == e1 + 1 && cur[ext] == cur[e1] + 1)
      && (D <= cur[e1] ==> ext == e1)
    ensures forall j :: 0 <= j < MAXPATLEN && !(last < j <= ext) ==> cur[j] == old(cur[j])
    ensures 0 <= last' <= ext && cur[last'] <= D
    ensures forall j :: last' < j <= ext ==> D < cur[j]
    ensures NonNeg(prev, last) && NonNeg(cur, last) ==> NonNeg(cur, ext)
    ensures (cur[..], ext) == Extended(old(cur[..]), prev[..], pat, sym, last, D)
    ensures last' == WindBack(cur[..], ext, D)
  {
    last' := last;
    if pat[last'] == sym {
      cur[last' + 1] := prev[last'];
      last' := last' + 1;
    }
    if cur[last'] < D {
      cur[last' + 1] := cur[last'] + 1;
      last' := last' + 1;
    }
    ext := last';
    if cur[last'] > D {
      while cur[last'] > D
        invariant 0 <= last' <= ext
        invariant forall j :: last' < j <= ext ==> D < cur[j]
        invariant WindBack(cur[..], last', D) == WindBack(cur[..], ext, D)
        decreases last'
      {
        last' := last' - 1;
      }
    }
  }

  /** Cells 1..k of a row recomputed left to right from prev and the symbol: the cell loop of a half step. */
  ghost function FillRow(cur: seq<int>, prev: seq<int>, pat: seq<Byte>, sym: Byte, k: nat): (r: seq<int>)
    requires k <= |pat| && k < |cur| && |prev| == |cur|
    ensures |r| == |cur| && r[0] == cur[0]
    decreases k
  {
    if k == 0 then cur
    else
      var r := FillRow(cur, prev, pat, sym, k - 1);
      r[k := Cost(pat, k, sym, prev[k - 1], prev[k], r[k - 1])]
  }

  /** d after cells 1..k of a row: D, lowered to each cell below its own index and below the d so far. */
  ghost function Cut(row: seq<int>, k: nat, D: int): (c: int)
    requires k < |row|
    ensures c <= D
  {
    if k == 0 then D
    else
      var d := Cut(row, k - 1, D);
      if row[k] < d && row[k] < k then row[k] else d
  }

  /** Cut reads only cells 1..k. */
  lemma {:induction false} CutFrame(row: seq<int>, row': seq<int>, k: nat, D: int)
    requires k < |row| && k < |row'| && forall j :: 0 <= j <= k ==> row[j] == row'[j]
    ensures Cut(row, k, D) == Cut(row', k, D)
  {
    if k > 0 {
      CutFrame(row, row', k - 1, D);
    }
  }

  /** Cut over one more cell, when the cells before it are unchanged. */
  lemma CutStep(row: seq<int>, row': seq<int>, k: nat, D: int)
    requires 1 <= k < |row'| && |row| == |row'| && forall j :: 0 <= j < k ==> row[j] == row'[j]
    ensures Cut(row', k, D) == if row'[k] < Cut(row, k - 1, D) && row'[k] < k then row'[k] else Cut(row, k - 1, D)
  {
    CutFrame(row, row', k - 1, D);
  }

  /** The two extensions of a half step: the row and last before winding back. */
  ghost function Extended(f: seq<int>, prev: seq<int>, pat: seq<Byte>, sym: Byte, last: int, D: int): (x: (seq<int>, int))
    requires |f| == MAXPATLEN && |prev| == MAXPATLEN && 0 <= last < |pat| && last + 2 < MAXPATLEN
    ensures |x.0| == MAXPATLEN && x.0[0] == f[0] && last <= x.1 <= last + 2
  {
    var r1 := if pat[last] == sym then f[last + 1 := prev[last]] else f;
    var e1 := if pat[last] == sym then last + 1 else last;
    if r1[e1] < D then (r1[e1 + 1 := r1[e1] + 1], e1 + 1) else (r1, e1)
  }

  /** The winding back of a half step: last steps down while its cell exceeds D. */
  ghost function WindBack(row: seq<int>, l: int, D: int): (r: int)
    requires 0 <= l < |row| && row[0] <= D
    ensures 0 <= r <= l
    decreases l
  {
    if row[l] > D then WindBack(row, l - 1, D) else l
  }

  /** What one half step leaves: the new row, the new last and the cut-off error count d. */
  datatype HalfOut = HalfOut(row: seq<int>, last: int, d: int)

  /** One half of verify's step as a function of the two rows: fill, extend, wind back. */
  ghost function HalfOf(cur: seq<int>, prev: seq<int>, pat: seq<Byte>, sym: Byte, last: int, D: int): (h: HalfOut)
    requires |cur| == MAXPATLEN && |prev| == MAXPATLEN && cur[0] == 0 && 0 <= D
    requires 0 <= last < |pat| && last + 2 < MAXPATLEN
    ensures |h.row| == MAXPATLEN && h.row[0] == 0 && 0 <= h.last <= last + 2
  {
    var f := FillRow(cur, prev, pat, sym, last);
    var x := Extended(f, prev, pat, sym, last, D);
    HalfOut(x.0, WindBack(x.0, x.1, D), Cut(f, last, D))
  }

  /** How verify ends: a confirmed match with the pattern and text ends it resolves from, or none. */
  datatype Verdict = Confirmed(patEnd: int, textEnd: int) | Unconfirmed

  /**
   * verify's main loop from position t, A and B being the rows and last the
   * pattern prefix in play: it stops, unconfirmed, on running out of
   * symbols or reading a NUL, and otherwise makes a pass of RunPass.
   */
  ghost function Run(A: seq<int>, B: seq<int>, pat: seq<Byte>, text: seq<Byte>, D: int, last: int, t: int, textend: int)
    : (v: Verdict)
    requires |A| == MAXPATLEN && |B| == MAXPATLEN && A[0] == 0 && B[0] == 0 && 0 <= D
    requires 0 <= last < |pat| && |pat| + 1 < MAXPATLEN
    ensures v.Confirmed? ==> |pat| - 1 <= v.patEnd <= |pat| && t <= v.textEnd
    decreases textend - t, 1
  {
    if !(t < textend && At(text, t) != 0) then Unconfirmed
    else RunPass(A, B, pat, text, D, last, t, textend)
  }

  /**
   * One pass of verify's main loop at t: A is computed from B, then (unless
   * the next symbol is NUL) B from A. The first half step that takes last
   * to m confirms; otherwise the loop goes on two symbols further.
   */
  ghost function RunPass(A: seq<int>, B: seq<int>, pat: seq<Byte>, text: seq<Byte>, D: int, last: int, t: int,
                         textend: int): (v: Verdict)
    requires |A| == MAXPATLEN && |B| == MAXPATLEN && A[0] == 0 && B[0] == 0 && 0 <= D
    requires 0 <= last < |pat| && |pat| + 1 < MAXPATLEN && t < textend
    ensures v.Confirmed? ==> |pat| - 1 <= v.patEnd <= |pat| && t <= v.textEnd
    decreases textend - t, 0
  {
    var h := HalfOf(A, B, pat, At(text, t), last, D);
    if h.last >= |pat| then Confirmed(h.last - 1, (t + 1) + D - h.d - 1)
    else if At(text, t + 1) == 0 then Unconfirmed
    else
      var g := HalfOf(B, h.row, pat, At(text, t + 1), h.last, D);
      if g.last >= |pat| then Confirmed(g.last - 1, (t + 2) + D - g.d - 1)
      else Run(h.row, g.row, pat, text, D, g.last, t + 2, textend)
  }

  /** verify's rows before the first symbol: cell i holds i up to m + 1 (and 0 beyond, where verify never reads). */
  function InitRow(m: int): (r: seq<int>)
    ensures |r| == MAXPATLEN
  {
    seq(MAXPATLEN, i => if i <= m + 1 then i else 0)
  }

  /** The verdict of verify on n symbols from start, with D errors allowed: the run from fresh rows with last = D. */
  ghost function Dp(pat: seq<Byte>, text: seq<Byte>, D: int, start: int, n: int): (v: Verdict)
    requires 0 <= D < |pat| && |pat| + 1 < MAXPATLEN
    ensures v.Confirmed? ==> |pat| - 1 <= v.patEnd <= |pat| && start <= v.textEnd
  {
    Run(InitRow(|pat|), InitRow(|pat|), pat, text, D, D, start, start + n)
  }

  /** verify's two rows: distinct buffers of MAXPATLEN cells, cell 0 zero, cells 0..m+1 not negative. */
  ghost predicate RowsOk(A: array<int>, B: array<int>, m: int)
    reads A, B
  {
    && A.Length == MAXPATLEN && B.Length == MAXPATLEN && A != B && m + 1 < MAXPATLEN
    && A[0] == 0 && B[0] == 0 && NonNeg(A, m + 1) && NonNeg(B, m + 1)
  }

  /** One half of verify's step: cur is recomputed from prev for the symbol sym. */
  method Half(cur: array<int>, prev: array<int>, pat: seq<Byte>, sym: Byte, last: int, D: int)
    returns (last': int, d: int)
    requires RowsOk(cur, prev, |pat|) && 0 <= last < |pat| && 0 <= D
    modifies cur
    ensures RowsOk(cur, prev, |pat|)
    ensures 0 <= last' <= last + 2 && 0 <= d <= D
    ensures HalfOf(old(cur[..]), prev[..], pat, sym, last, D) == HalfOut(cur[..], last', d)
  {
    d := Fill(cur, prev, pat, sym, last, D);
    if d != D {
      var w :| 1 <= w <= last && cur[w] < w && cur[w] == d;
    }
    ghost var ext;
    last', ext := Advance(cur, prev, pat, sym, last, D);
  }

  /** verify's rows before the first symbol: A[i] = B[i] = i for i in 0..m+1. */
  method NewRows(m: int) returns (A: array<int>, B: array<int>)
    requires 0 <= m && m + 1 < MAXPATLEN
    ensures fresh(A) && fresh(B) && RowsOk(A, B, m)
    ensures forall j :: 0 <= j <= m + 1 ==> A[j] == j && B[j] == j
    ensures A[..] == InitRow(m) && B[..] == InitRow(m)
  {
    // Cells past m + 1 are left unset by the C; verify never reads them.
    A := new int[MAXPATLEN](_ => 0);
    B := new int[MAXPATLEN](_ => 0);
    var i := 0;
    while i <= m + 1
      invariant 0 <= i <= m + 2
      invariant forall j :: 0 <= j < i ==> A[j] == j && B[j] == j
      invariant forall j :: i <= j < MAXPATLEN ==> A[j] == 0 && B[j] == 0
    {
      A[i], B[i] := i, i;
      i := i + 1;
    }
  }

  /** The first half step of a pass of Run, h being its outcome. */
  lemma RunFirst(A: seq<int>, B: seq<int>, pat: seq<Byte>, text: seq<Byte>, D: int, last: int, t: int, textend: int,
                 h: HalfOut)
    requires |A| == MAXPATLEN && |B| == MAXPATLEN && A[0] == 0 && B[0] == 0 && 0 <= D
    requires 0 <= last < |pat| && |pat| + 1 < MAXPATLEN
    requires t < textend && At(text, t) != 0 && h == HalfOf(A, B, pat, At(text, t), last, D)
    ensures h.last >= |pat| ==> Run(A, B, pat, text, D, last, t, textend) == Confirmed(h.last - 1, (t + 1) + D - h.d - 1)
    ensures h.last < |pat| && At(text, t + 1) == 0 ==> Run(A, B, pat, text, D, last, t, textend) == Unconfirmed
  {
  }

  /** The second half step of a pass of Run, h and g being the outcomes of the two half steps. */
  lemma RunSecond(A: seq<int>, B: seq<int>, pat: seq<Byte>, text: seq<Byte>, D: int, last: int, t: int, textend: int,
                  h: HalfOut, g: HalfOut)
    requires |A| == MAXPATLEN && |B| == MAXPATLEN && A[0] == 0 && B[0] == 0 && 0 <= D
    requires 0 <= last < |pat| && |pat| + 1 < MAXPATLEN
    requires t < textend && At(text, t) != 0 && h == HalfOf(A, B, pat, At(text, t), last, D)
    requires h.last < |pat| && At(text, t + 1) != 0 && g == HalfOf(B, h.row, pat, At(text, t + 1), h.last, D)
    ensures g.last >= |pat| ==> Run(A, B, pat, text, D, last, t, textend) == Confirmed(g.last - 1, (t + 2) + D - g.d - 1)
    ensures g.last < |pat| ==> Run(A, B, pat, text, D, last, t, textend) == Run(h.row, g.row, pat, text, D, g.last, t + 2, textend)
  {
  }

  /** How a pass of verify's loop ends: it goes on, it confirms a match, or it reads a NUL. */
  datatype PassEnd = GoOn | Matched | AtNul

  /**
   * One pass of verify's loop body: A from B for the symbol at t, then,
   * unless a match is confirmed or the next symbol is NUL, B from A. v is
   * what Run gives from the rows before the pass.
   */
  method TwoHalves(A: array<int>, B: array<int>, pat: seq<Byte>, text: seq<Byte>, D: int, last: int, t: int,
                   textend: int, ghost v: Verdict)
    returns (last': int, t': int, e: PassEnd, tail: int)
    requires RowsOk(A, B, |pat|) && 0 <= last < |pat| && 0 <= D
    requires t < textend && At(text, t) != 0 && Run(A[..], B[..], pat, text, D, last, t, textend) == v
    modifies A, B
    ensures RowsOk(A, B, |pat|) && t < t' <= t + 2 && 0 <= last'
    ensures e == GoOn ==> last' < |pat| && Run(A[..], B[..], pat, text, D, last', t', textend) == v
    ensures e == Matched ==> v == Confirmed(last' - 1, tail) && |pat| <= last' && t' - 1 <= tail < t' + D
    ensures e == AtNul ==> v == Unconfirmed
  {
    ghost var A0, B0 := A[..], B[..];
    var d;
    last', d := Half(A, B, pat, At(text, t), last, D);
    ghost var h := HalfOut(A[..], last', d);
    RunFirst(A0, B0, pat, text, D, last, t, textend, h);
    t' := t + 1;
    if last' >= |pat| {
      e, tail := Matched, t' + D - d - 1;
      return;
    }
    if At(text, t') == 0 {
      e, tail := AtNul, 0;
      return;
    }
    last', d := Half(B, A, pat, At(text, t'), last', D);
    RunSecond(A0, B0, pat, text, D, last, t, textend, h, HalfOut(B[..], last', d));
    t' := t' + 1;
    e, tail := if last' >= |pat| then Matched else GoOn, t' + D - d - 1;
  }

  /**
   * verify's main loop: run the cut-off dynamic program over at most n
   * symbols from start, stopping at a NUL, until last reaches m. On a
   * confirmation it gives last and the text end that find_start_pos starts
   * from (text - textbegin + D - d - 1).
   */
  method Confirm(m: int, n: int, D: int, pat: seq<Byte>, text: seq<Byte>, start: int)
    returns (found: bool, last: int, tail: int)
    requires |pat| == m && 0 <= D < m && m + 1 < MAXPATLEN
    ensures found == Dp(pat, text, D, start, n).Confirmed?
    ensures found ==> last - 1 == Dp(pat, text, D, start, n).patEnd && tail == Dp(pat, text, D, start, n).textEnd
    ensures found ==> m <= last <= m + 1 && start <= tail <= start + n + D
  {
    var A, B := NewRows(m);
    last := D;
    var t := start;
    var textend := start + n;
    found, tail := false, 0;
    ghost var v := Dp(pat, text, D, start, n);
    while t < textend && At(text, t) != 0
      invariant RowsOk(A, B, m) && 0 <= last < m && start <= t
      invariant Run(A[..], B[..], pat, text, D, last, t, textend) == v
      decreases textend - t
    {
      var e;
      last, t, e, tail := TwoHalves(A, B, pat, text, D, last, t, textend, v);
      if e == Matched {
        found := true;
        return;
      } else if e == AtNul {
        break;
      }
    }
  }

  /**
   * verify: the dynamic program of Confirm, then, when last reaches m, the
   * resolver's span is added to the list and the scan resumes one past its
   * end; otherwise it resumes m symbols after start.
   */
  method Verify(m: int, n: int, D: int, pat: seq<Byte>, text: seq<Byte>, start: int, gotoends: bool,
                python: bool, matches: IntPairList?)
    returns (next: int, matches': IntPairList?, ghost found: bool, ghost span: Span,
             ghost patEnd: int, ghost textEnd: int)
    requires |pat| == m && 0 <= D < m && m + 1 < MAXPATLEN
    requires matches != null ==> matches.Valid()
    modifies if matches == null then {} else {matches, matches.pairs}
    ensures found == Dp(pat, text, D, start, n).Confirmed?
    ensures found ==> patEnd == Dp(pat, text, D, start, n).patEnd && textEnd == Dp(pat, text, D, start, n).textEnd
    ensures !found ==> next == start + m && matches' == matches
    ensures !found && matches != null ==> matches.Valid() && matches.Contents() == old(matches.Contents())
    ensures found ==> matches' != null && matches'.Valid() && next == span.end + 1
    ensures found ==> m - 1 <= patEnd <= m && start <= textEnd <= start + n + D
    ensures found ==> span == FindStartPos(pat, patEnd, text, textEnd, D, gotoends)
    ensures found && matches == null ==> matches'.Contents() == [IntPair(span.start, StoredEnd(span.end, python))]
    ensures found && matches != null ==>
      matches' == matches && matches'.Contents() == old(matches.Contents()) + [IntPair(span.start, StoredEnd(span.end, python))]
    ensures matches' != null ==> matches' == matches || fresh(matches')
    ensures matches' != null ==> (matches != null && matches'.pairs == old(matches.pairs)) || fresh(matches'.pairs)
  {
    var ok, last, tail := Confirm(m, n, D, pat, text, start);
    found := ok;
    if ok {
      next, matches', span, patEnd, textEnd := Report(m, D, pat, text, last, tail, gotoends, python, matches);
    } else {
      next, matches', span, patEnd, textEnd := start + m, matches, Span(0, 0), 0, 0;
    }
  }

  /** A confirmed match: resolve its span and add it to the list. */
  method Report(m: int, D: int, pat: seq<Byte>, text: seq<Byte>, last: int, tail: int, gotoends: bool,
                python: bool, matches: IntPairList?)
    returns (next: int, matches': IntPairList, ghost span: Span, ghost patEnd: int, ghost textEnd: int)
    requires 1 <= m <= last && 0 <= D
    requires matches != null ==> matches.Valid()
    modifies if matches == null then {} else {matches, matches.pairs}
    ensures matches'.Valid() && next == span.end + 1 && patEnd == last - 1 && textEnd == tail
    ensures span == FindStartPos(pat, patEnd, text, textEnd, D, gotoends)
    ensures matches == null ==> fresh(matches') && fresh(matches'.pairs)
    ensures matches == null ==> matches'.Contents() == [IntPair(span.start, StoredEnd(span.end, python))]
    ensures matches != null ==>
      matches' == matches && matches'.Contents() == old(matches.Contents()) + [IntPair(span.start, StoredEnd(span.end, python))]
    ensures matches != null ==> matches'.pairs == old(matches.pairs) || fresh(matches'.pairs)
  {
    patEnd, textEnd := last - 1, tail;
    var sp := FindStartPos(pat, last - 1, text, tail, D, gotoends);
    span := sp;
    matches' := AddEnds(sp.start, sp.end, matches, python);
    next := sp.end + 1;
  }

  /** The first half step of the example below: the symbol 01 matches pat[0], and last moves to 1. */
  lemma FirstHalfExample(I: seq<int>)
    requires I == InitRow(2)
    ensures HalfOf(I, I, [1, 2], 1, 0, 0) == HalfOut(I[1 := 0], 1, 0)
  {
    var pat: seq<Byte> := [1, 2];
    assert FillRow(I, I, pat, 1, 0) == I;
    var x := Extended(I, I, pat, 1, 0, 0);
    assert x == (I[1 := 0], 1);
    assert WindBack(x.0, 1, 0) == 1;
  }

  /** The second half step: cell 1 costs one error, the symbol 02 matches pat[1], and last reaches 2. */
  lemma SecondHalfExample(I: seq<int>)
    requires I == InitRow(2)
    ensures HalfOf(I, I[1 := 0], [1, 2], 2, 1, 0).last == 2 && HalfOf(I, I[1 := 0], [1, 2], 2, 1, 0).d == 0
  {
    var pat: seq<Byte> := [1, 2];
    var prev := I[1 := 0];
    assert Cost(pat, 1, 2, 0, 0, 0) == 1;
    var f := FillRow(I, prev, pat, 2, 1);
    assert f == I[1 := 1];
    assert Cut(f, 1, 0) == 0;
    var x := Extended(f, prev, pat, 2, 1, 0);
    assert x == (f[2 := 0], 2);
    assert WindBack(x.0, 2, 0) == 2;
  }

  /** The pattern 01 02 against the text 01 02 with no error allowed: confirmed, the match ending at text index 1. */
  lemma DpFindsExact()
    ensures Dp([1, 2], [1, 2], 0, 0, 4) == Confirmed(1, 1)
  {
    var I := InitRow(2);
    FirstHalfExample(I);
    SecondHalfExample(I);
  }

  /** Where a pass of exec_lagrepy leaves the text pointer, and the spans it reported. */
  datatype Pass = Pass(next: int, reported: seq<Span>)

  /**
   * The verify call at start over 2m + D symbols: on a confirmation, the
   * resolved span and the position one past its end; otherwise start + m.
   */
  ghost function VerifyPass(pat: seq<Byte>, text: seq<Byte>, D: int, gotoends: bool, start: int): Pass
    requires 0 <= D < |pat| && |pat| + 1 < MAXPATLEN
  {
    var v := Dp(pat, text, D, start, 2 * |pat| + D);
    if v.Confirmed? then
      var sp := FindStartPos(pat, v.patEnd, text, v.textEnd, D, gotoends);
      Pass(sp.end + 1, [sp])
    else Pass(start + |pat|, [])
  }

  /**
   * One pass of exec_lagrepy's loop from t: step m - 1 - D ahead and scan
   * back; verify at t when the scan got back to t or past it, and otherwise
   * resume where the scan stopped.
   */
  ghost function LagPass(tbl: seq<bool>, pat: seq<Byte>, text: seq<Byte>, D: int, gotoends: bool, t: int): Pass
    requires NulStops(tbl) && 0 <= D < |pat| && |pat| + 1 < MAXPATLEN
  {
    var q := Suffix(tbl, text, t + (|pat| - 1 - D), D, 0);
    if q <= t then VerifyPass(pat, text, D, gotoends, t) else Pass(q, [])
  }

  /** LagPass by the outcome q of the scan. */
  lemma LagPassScan(tbl: seq<bool>, pat: seq<Byte>, text: seq<Byte>, D: int, gotoends: bool, t: int, q: int)
    requires NulStops(tbl) && 0 <= D < |pat| && |pat| + 1 < MAXPATLEN
    requires q == Suffix(tbl, text, t + (|pat| - 1 - D), D, 0)
    ensures q <= t ==> LagPass(tbl, pat, text, D, gotoends, t) == VerifyPass(pat, text, D, gotoends, t)
    ensures t < q ==> LagPass(tbl, pat, text, D, gotoends, t) == Pass(q, [])
  {
  }

  /** VerifyPass by the verdict of the dynamic program, sp being the span the resolver gives for it. */
  lemma VerifyPassVerdict(pat: seq<Byte>, text: seq<Byte>, D: int, gotoends: bool, start: int, found: bool,
                          patEnd: int, textEnd: int, sp: Span)
    requires 0 <= D < |pat| && |pat| + 1 < MAXPATLEN
    requires found == Dp(pat, text, D, start, 2 * |pat| + D).Confirmed?
    requires found ==> Dp(pat, text, D, start, 2 * |pat| + D) == Confirmed(patEnd, textEnd)
    requires found ==> patEnd >= -1 && sp == FindStartPos(pat, patEnd, text, textEnd, D, gotoends)
    ensures found ==> VerifyPass(pat, text, D, gotoends, start) == Pass(sp.end + 1, [sp])
    ensures !found ==> VerifyPass(pat, text, D, gotoends, start) == Pass(start + |pat|, [])
  {
  }

  /** The spans exec_lagrepy reports, in order, in at most fuel passes from t. */
  ghost function LagSpans(tbl: seq<bool>, pat: seq<Byte>, text: seq<Byte>, D: int, gotoends: bool, t: int, fuel: nat)
    : seq<Span>
    requires NulStops(tbl) && 0 <= D < |pat| && |pat| + 1 < MAXPATLEN
    decreases fuel
  {
    if fuel == 0 || |text| <= t then []
    else
      var p := LagPass(tbl, pat, text, D, gotoends, t);
      p.reported + LagSpans(tbl, pat, text, D, gotoends, p.next, fuel - 1)
  }

  /** The pairs the list holds for the spans reported so far. */
  function SpanPairs(spans: seq<Span>, python: bool): (r: seq<IntPair>)
    ensures |r| == |spans|
    ensures forall k :: 0 <= k < |spans| ==> r[k] == IntPair(spans[k].start, StoredEnd(spans[k].end, python))
  {
    if |spans| == 0 then []
    else
      SpanPairs(spans[..|spans| - 1], python)
      + [IntPair(spans[|spans| - 1].start, StoredEnd(spans[|spans| - 1].end, python))]
  }

  /** sp is a span verify can report for a window of n symbols from start. */
  ghost predicate SpanFrom(pat: seq<Byte>, text: seq<Byte>, D: int, gotoends: bool, start: int, n: int, sp: Span)
  {
    exists patEnd, textEnd :: |pat| - 1 <= patEnd <= |pat| && start <= textEnd <= start + n + D
      && sp == FindStartPos(pat, patEnd, text, textEnd, D, gotoends)
  }

  /** The list holds exactly the reported spans, in order, and is null before the first one. */
  ghost predicate HoldsSpans(matches: IntPairList?, spans: seq<Span>, python: bool)
    reads matches, if matches == null then {} else {matches.pairs}
  {
    && (matches == null <==> |spans| == 0)
    && (matches != null ==> matches.Valid() && matches.Contents() == SpanPairs(spans, python))
  }

  /** What exec_lagrepy has done so far: verify only where the scan got back, and the spans it reported. */
  ghost predicate Traced(t: seq<bool>, pat: seq<Byte>, text: seq<Byte>, D: int, gotoends: bool,
                         calls: seq<int>, spans: seq<Span>, starts: seq<int>)
    requires NulStops(t)
  {
    && (forall k :: 0 <= k < |calls| ==> Suffix(t, text, calls[k] + |pat| - 1 - D, D, 0) <= calls[k])
    && |starts| == |spans| && (forall k :: 0 <= k < |spans| ==> starts[k] in calls)
    && forall k :: 0 <= k < |spans| ==> SpanFrom(pat, text, D, gotoends, starts[k], 2 * |pat| + D, spans[k])
  }

  lemma TracedCall(t: seq<bool>, pat: seq<Byte>, text: seq<Byte>, D: int, gotoends: bool,
                    calls: seq<int>, spans: seq<Span>, starts: seq<int>, at: int)
    requires NulStops(t) && Traced(t, pat, text, D, gotoends, calls, spans, starts)
    requires Suffix(t, text, at + |pat| - 1 - D, D, 0) <= at
    ensures Traced(t, pat, text, D, gotoends, calls + [at], spans, starts)
  {
    forall k | 0 <= k < |spans|
      ensures starts[k] in calls + [at]
    {
      assert starts[k] in calls;
    }
  }

  lemma TracedSpan(t: seq<bool>, pat: seq<Byte>, text: seq<Byte>, D: int, gotoends: bool,
                   calls: seq<int>, spans: seq<Span>, starts: seq<int>, at: int, sp: Span)
    requires NulStops(t) && Traced(t, pat, text, D, gotoends, calls, spans, starts)
    requires at in calls && SpanFrom(pat, text, D, gotoends, at, 2 * |pat| + D, sp)
    ensures Traced(t, pat, text, D, gotoends, calls, spans + [sp], starts + [at])
  {
  }

  lemma SpanPairsAppend(spans: seq<Span>, sp: Span, python: bool)
    ensures SpanPairs(spans + [sp], python) == SpanPairs(spans, python) + [IntPair(sp.start, StoredEnd(sp.end, python))]
  {
    assert (spans + [sp])[..|spans|] == spans;
  }

  /** One more pass moves its reported spans from what is left to what is done. */
  lemma LagSpansStep(tbl: seq<bool>, pat: seq<Byte>, text: seq<Byte>, D: int, gotoends: bool, t: int, fuel: nat,
                     rest: nat, done: seq<Span>, next: int, done': seq<Span>, total: seq<Span>)
    requires NulStops(tbl) && 0 <= D < |pat| && |pat| + 1 < MAXPATLEN && rest + 1 == fuel && t < |text|
    requires next == LagPass(tbl, pat, text, D, gotoends, t).next
    requires done' == done + LagPass(tbl, pat, text, D, gotoends, t).reported
    requires done + LagSpans(tbl, pat, text, D, gotoends, t, fuel) == total
    ensures done' + LagSpans(tbl, pat, text, D, gotoends, next, rest) == total
  {
    var p := LagPass(tbl, pat, text, D, gotoends, t);
    var after := LagSpans(tbl, pat, text, D, gotoends, next, rest);
    LagSpansUnfold(tbl, pat, text, D, gotoends, t, fuel, p);
    AppendAssoc(done, p.reported, after);
  }

  /** One pass of the scan, as LagSpans takes it. */
  lemma LagSpansUnfold(tbl: seq<bool>, pat: seq<Byte>, text: seq<Byte>, D: int, gotoends: bool, t: int, fuel: nat,
                       p: Pass)
    requires NulStops(tbl) && 0 <= D < |pat| && |pat| + 1 < MAXPATLEN && 0 < fuel && t < |text|
    requires p == LagPass(tbl, pat, text, D, gotoends, t)
    ensures LagSpans(tbl, pat, text, D, gotoends, t, fuel)
         == p.reported + LagSpans(tbl, pat, text, D, gotoends, p.next, fuel - 1)
  {
  }

  lemma AppendAssoc(a: seq<Span>, b: seq<Span>, c: seq<Span>)
    ensures (a + b) + c == a + (b + c)
  {
  }

  /** Nothing is left to report once the fuel is spent or the text is passed. */
  lemma LagSpansDone(tbl: seq<bool>, pat: seq<Byte>, text: seq<Byte>, D: int, gotoends: bool, t: int, fuel: nat)
    requires NulStops(tbl) && 0 <= D < |pat| && |pat| + 1 < MAXPATLEN && (fuel == 0 || |text| <= t)
    ensures LagSpans(tbl, pat, text, D, gotoends, t, fuel) == []
  {
  }

  /** One pass of exec_lagrepy's loop from the resume point oldtext. */
  method LagStep(ghost t: seq<bool>, D: int, pat: seq<Byte>, text: seq<Byte>, gotoends: bool, python: bool,
                 params: LagrepParams, oldtext: int, matches: IntPairList?, ghost calls: seq<int>, ghost spans: seq<Span>,
                 ghost starts: seq<int>)
    returns (next: int, matches': IntPairList?, ghost calls': seq<int>, ghost spans': seq<Span>,
             ghost starts': seq<int>)
    requires params.Valid() && params.hashmask == HASHTABLESIZE - 1 && NulStops(t)
    requires D == params.nErrors && 0 <= D && 0 < |pat| - 1 - D && |pat| + 1 < MAXPATLEN
    requires t == params.member1[..] && Traced(t, pat, text, D, gotoends, calls, spans, starts)
    requires HoldsSpans(matches, spans, python)
    modifies if matches == null then {} else {matches, matches.pairs}
    ensures next == LagPass(t, pat, text, D, gotoends, oldtext).next
    ensures spans' == spans + LagPass(t, pat, text, D, gotoends, oldtext).reported
    ensures Traced(t, pat, text, D, gotoends, calls', spans', starts')
    ensures HoldsSpans(matches', spans', python)
    ensures matches' != null ==> matches' == matches || fresh(matches')
    ensures matches' != null ==> (matches != null && matches'.pairs == old(matches.pairs)) || fresh(matches'.pairs)
  {
    var m := |pat|;
    next := ScanBack(params.member1, params.hashmask, text, oldtext + (m - 1 - D), D);
    LagPassScan(t, pat, text, D, gotoends, oldtext, next);
    matches', calls', spans', starts' := matches, calls, spans, starts;
    if next <= oldtext {
      TracedCall(t, pat, text, D, gotoends, calls, spans, starts, oldtext);
      calls' := calls + [oldtext];
      next, matches', spans', starts' := VerifyAt(t, pat, text, D, gotoends, python, oldtext, matches, calls', spans, starts);
    }
  }

  /** The verify call of exec_lagrepy at oldtext, over 2m + D symbols, with its report recorded. */
  method VerifyAt(ghost t: seq<bool>, pat: seq<Byte>, text: seq<Byte>, D: int, gotoends: bool, python: bool,
                  oldtext: int, matches: IntPairList?, ghost calls: seq<int>, ghost spans: seq<Span>,
                  ghost starts: seq<int>)
    returns (next: int, matches': IntPairList?, ghost spans': seq<Span>, ghost starts': seq<int>)
    requires NulStops(t) && Traced(t, pat, text, D, gotoends, calls, spans, starts) && oldtext in calls
    requires 0 <= D < |pat| && |pat| + 1 < MAXPATLEN
    requires HoldsSpans(matches, spans, python)
    modifies if matches == null then {} else {matches, matches.pairs}
    ensures next == VerifyPass(pat, text, D, gotoends, oldtext).next
    ensures spans' == spans + VerifyPass(pat, text, D, gotoends, oldtext).reported
    ensures Traced(t, pat, text, D, gotoends, calls, spans', starts')
    ensures HoldsSpans(matches', spans', python)
    ensures matches' != null ==> matches' == matches || fresh(matches')
    ensures matches' != null ==> (matches != null && matches'.pairs == old(matches.pairs)) || fresh(matches'.pairs)
  {
    var m := |pat|;
    ghost var found, sp, pe, te;
    next, matches', found, sp, pe, te := Verify(m, 2 * m + D, D, pat, text, oldtext, gotoends, python, matches);
    VerifyPassVerdict(pat, text, D, gotoends, oldtext, found, pe, te, sp);
    spans', starts' := spans, starts;
    if found {
      assert SpanFrom(pat, text, D, gotoends, oldtext, 2 * m + D, sp);
      TracedSpan(t, pat, text, D, gotoends, calls, spans, starts, oldtext, sp);
      SpanPairsAppend(spans, sp, python);
      spans', starts' := spans + [sp], starts + [oldtext];
    }
  }

  /**
   * The scanning loop of exec_lagrepy: step m - 1 - D symbols ahead, scan
   * back over the pair hashes; when the scan gets back to (or past) the
   * previous resume point, verify the 2m + D symbols from there. At most
   * fuel scan steps are made.
   */
  method ScanText(ghost tbl: seq<bool>, D: int, pat: seq<Byte>, text: seq<Byte>, gotoends: bool, python: bool,
                  params: LagrepParams, fuel: nat)
    returns (matches: IntPairList?, ghost calls: seq<int>, ghost spans: seq<Span>, ghost starts: seq<int>)
    requires params.Valid() && params.hashmask == HASHTABLESIZE - 1 && NulStops(tbl)
    requires D == params.nErrors && 0 <= D && 0 < |pat| - 1 - D && |pat| + 1 < MAXPATLEN
    requires tbl == params.member1[..]
    ensures HoldsSpans(matches, spans, python)
    ensures matches != null ==> fresh(matches) && fresh(matches.pairs)
    ensures Traced(tbl, pat, text, D, gotoends, calls, spans, starts)
    ensures spans == LagSpans(tbl, pat, text, D, gotoends, 0, fuel)
  {
    var t := 0;
    var oldtext := 0;
    var steps := 0;
    matches := null;
    calls, spans, starts := [], [], [];
    ghost var left: nat := fuel;
    ghost var total := LagSpans(tbl, pat, text, D, gotoends, 0, fuel);
    while t < |text| && steps < fuel
      invariant HoldsSpans(matches, spans, python)
      invariant matches != null ==> fresh(matches) && fresh(matches.pairs)
      invariant Traced(tbl, pat, text, D, gotoends, calls, spans, starts)
      invariant oldtext == t && steps <= fuel && left == fuel - steps
      invariant spans + LagSpans(tbl, pat, text, D, gotoends, t, left) == total
      decreases fuel - steps
    {
      ghost var spans0, left0 := spans, left;
      t, matches, calls, spans, starts := LagStep(tbl, D, pat, text, gotoends, python, params, oldtext, matches,
                                                  calls, spans, starts);
      steps, left := steps + 1, left - 1;
      LagSpansStep(tbl, pat, text, D, gotoends, oldtext, left0, left, spans0, t, spans, total);
      oldtext := t;
    }
    LagSpansDone(tbl, pat, text, D, gotoends, t, left);
  }

  /**
   * exec_lagrepy: run the scan over the whole text, then cut the list to its
   * contents.
   */
  method ExecLagrepy(pat: seq<Byte>, m: int, text: seq<Byte>, gotoends: bool, python: bool,
                     params: LagrepParams, fuel: nat)
    returns (matches: IntPairList?, ghost calls: seq<int>, ghost spans: seq<Span>, ghost starts: seq<int>)
    requires params.Valid() && params.hashmask == HASHTABLESIZE - 1
    requires IsMemberTable(pat, params.member1[..]) && NulFree(pat)
    requires |pat| == m && 0 <= params.nErrors && 0 < m - 1 - params.nErrors && m + 1 < MAXPATLEN
    ensures matches == null <==> |spans| == 0
    ensures matches != null ==> fresh(matches) && matches.pairs[..] == SpanPairs(spans, python)
    ensures NulStops(params.member1[..])
    ensures Traced(params.member1[..], pat, text, params.nErrors, gotoends, calls, spans, starts)
    ensures spans == LagSpans(params.member1[..], pat, text, params.nErrors, gotoends, 0, fuel)
  {
    MemberTableNulStops(pat, params.member1[..]);
    matches, calls, spans, starts := ScanText(params.member1[..], params.nErrors, pat, text, gotoends, python,
                                              params, fuel);
    if matches != null {
      matches.Trim();
    }
  }

}
