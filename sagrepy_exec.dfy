/**
 * exec_sagrepy (sagrepy.c): the search of the short engine. A shift/hash
 * filter first collects candidate windows of the text; each window is then
 * scanned with the bit-parallel rows R[0..D], one text symbol at a time,
 * and every end-of-pattern position is resolved into a span with
 * find_start_pos and stored with add_ends.
 */
module SagrepyExec {
  import opened AgrepyDefs
  import opened SagrepyBits
  import opened SagrepyTables
  import opened StartPos
  import opened MatchList

  /** Capacity of the Candidate array. */
  const MAXCAND: int := 2048
  /** Rows R1/R2 have room for 20 + 1 words. */
  const MAXROWS: int := 21
  /**
   * Longest text whose candidate windows fit in MAXCAND slots: windows start
   * at least 13 apart and no later than 254 symbols past the text end.
   */
  const MAXTEXT: int := 26000

  /** The tables exec_sagrepy relies on, as prep leaves them for a budget of at most 20. */
  ghost predicate Ready(p: SagrepParams)
    reads p, p.shift
  {
    && p.Valid()
    && 0 <= p.nErrors < MAXROWS
    && 1 <= p.shift1 <= 255
    && p.shift[0] == 0
    && forall c :: 0 <= c < MAXSYM ==> 0 <= p.shift[c] <= 255
  }

  // ---------------------------------------------------------------------
  // The filter: candidate windows.

  /**
   * The window rule for a filter hit at text index i: a new window
   * [i-M-D-2, i+M+D] when i-M-D-10 lies beyond the end of the last window,
   * otherwise the last window is stretched to end at i+M+D.
   */
  function NoteHit(w: seq<IntPair>, i: int, M: int, D: int): (r: seq<IntPair>)
    requires |w| >= 1
    ensures |r| >= 1
  {
    var last := w[|w| - 1];
    if i - M - D - 10 > last.end then w + [IntPair(i - M - D - 2, i + M + D)]
    else w[..|w| - 1] + [IntPair(last.start, i + M + D)]
  }

  /** The windows after the hits in order, starting from Candidate[0] == (0, 0). */
  function Windows(hits: seq<int>, M: int, D: int): (w: seq<IntPair>)
    ensures |w| >= 1
  {
    if |hits| == 0 then [IntPair(0, 0)]
    else NoteHit(Windows(hits[..|hits| - 1], M, D), hits[|hits| - 1], M, D)
  }

  predicate Increasing(s: seq<int>)
  {
    forall k :: 0 < k < |s| ==> s[k - 1] < s[k]
  }

  /**
   * The windows are ordered and apart: the first starts at 0, every later
   * one starts more than 8 past the end of the one before and spans at least
   * 2(M+D+1) symbols, and the last one ends M+D past the last hit.
   */
  ghost predicate WellSpaced(w: seq<IntPair>, M: int, D: int)
  {
    && |w| >= 1
    && w[0].start == 0 <= w[0].end
    && (forall r :: 1 <= r < |w| ==> w[r - 1].end + 8 < w[r].start)
    && (forall r :: 1 <= r < |w| ==> w[r].start + 2 * (M + D + 1) <= w[r].end)
  }

  lemma {:induction false} WindowsWellSpaced(hits: seq<int>, M: int, D: int)
    requires 1 <= M && 0 <= D && Increasing(hits)
    requires forall j :: 0 <= j < |hits| ==> 0 <= hits[j]
    ensures WellSpaced(Windows(hits, M, D), M, D)
    ensures |hits| == 0 ==> Windows(hits, M, D) == [IntPair(0, 0)]
    ensures |hits| > 0 ==> Windows(hits, M, D)[|Windows(hits, M, D)| - 1].end == hits[|hits| - 1] + M + D
    decreases |hits|
  {
    if |hits| > 0 {
      var front := hits[..|hits| - 1];
      assert Increasing(front);
      WindowsWellSpaced(front, M, D);
      if |front| > 0 {
        assert front[|front| - 1] < hits[|hits| - 1];
      }
      NoteHitWellSpaced(Windows(front, M, D), hits[|hits| - 1], M, D);
    }
  }

  /** One hit keeps the windows well spaced when it lies at or past the previous one. */
  lemma NoteHitWellSpaced(w: seq<IntPair>, i: int, M: int, D: int)
    requires 1 <= M && 0 <= D && 0 <= i && WellSpaced(w, M, D) && w[|w| - 1].end <= i + M + D
    ensures WellSpaced(NoteHit(w, i, M, D), M, D)
    ensures NoteHit(w, i, M, D)[|NoteHit(w, i, M, D)| - 1].end == i + M + D
  {
    var r := NoteHit(w, i, M, D);
    if i - M - D - 10 > w[|w| - 1].end {
      assert r == w + [IntPair(i - M - D - 2, i + M + D)];
    } else {
      assert r == w[..|w| - 1] + [IntPair(w[|w| - 1].start, i + M + D)];
    }
  }

  /**
   * Every hit is covered by a window r that starts no later than
   * max(i-M-D-2, 0) and ends no earlier than i+M+D, so a window scan
   * sees the whole neighbourhood of each hit.
   */
  lemma {:induction false} WindowsCover(hits: seq<int>, M: int, D: int, k: int) returns (r: int)
    requires 1 <= M && 0 <= D && Increasing(hits) && 0 <= k < |hits|
    requires forall j :: 0 <= j < |hits| ==> 0 <= hits[j]
    ensures 0 <= r < |Windows(hits, M, D)|
    ensures Windows(hits, M, D)[r].start <= Max(hits[k] - M - D - 2, 0)
    ensures hits[k] + M + D <= Windows(hits, M, D)[r].end
    decreases |hits|
  {
    var front := hits[..|hits| - 1];
    assert Increasing(front);
    var w := Windows(front, M, D);
    var ww := Windows(hits, M, D);
    if k == |hits| - 1 {
      r := LastHitCovered(hits, M, D);
    } else {
      r := WindowsCover(front, M, D, k);
      assert hits[k] == front[k];
      IncreasingLe(front, k, |front| - 1);
      WindowsWellSpaced(front, M, D);
      assert ww[r].start == w[r].start && w[r].end <= ww[r].end;
    }
  }

  /** The last hit lies in the last window. */
  lemma LastHitCovered(hits: seq<int>, M: int, D: int) returns (r: int)
    requires 1 <= M && 0 <= D && Increasing(hits) && 0 < |hits|
    requires forall j :: 0 <= j < |hits| ==> 0 <= hits[j]
    ensures r == |Windows(hits, M, D)| - 1
    ensures Windows(hits, M, D)[r].start <= Max(hits[|hits| - 1] - M - D - 2, 0)
    ensures hits[|hits| - 1] + M + D <= Windows(hits, M, D)[r].end
  {
    var front := hits[..|hits| - 1];
    assert Increasing(front);
    WindowsWellSpaced(front, M, D);
    var w := Windows(front, M, D);
    var i := hits[|hits| - 1];
    var ww := Windows(hits, M, D);
    var n := |w| - 1;
    r := |ww| - 1;
    if i - M - D - 10 > w[n].end {
      assert ww[r] == IntPair(i - M - D - 2, i + M + D);
    } else if n == 0 {
      assert ww[r] == IntPair(0, i + M + D);
    } else {
      assert ww[r] == IntPair(w[n].start, i + M + D);
      assert front[|front| - 1] < i;
    }
  }

  lemma {:induction false} IncreasingLe(s: seq<int>, j: int, k: int)
    requires Increasing(s) && 0 <= j <= k < |s|
    ensures s[j] <= s[k]
    decreases k - j
  {
    if j < k {
      IncreasingLe(s, j, k - 1);
    }
  }

  /** Windows start at least 13 apart, so a text of n symbols gives at most (n+258)/13 + 1 of them. */
  lemma {:induction false} WellSpacedCount(w: seq<IntPair>, M: int, D: int, r: int)
    requires 1 <= M && 0 <= D && WellSpaced(w, M, D) && 1 <= r < |w|
    ensures 13 * r <= w[r].start + 4
    decreases r
  {
    if r > 1 {
      WellSpacedCount(w, M, D, r - 1);
    }
  }

  /**
   * A hit of the filter: a position the jumps can reach (at or after m-1,
   * so the hash reads no symbol before the text, and at most 254 past its
   * end) whose hash MEMBER holds.
   */
  ghost predicate IsHit(p: SagrepParams, text: seq<Byte>, m: int, i: int)
    reads p, p.member
    requires p.Valid()
  {
    && 1 <= m && m - 1 <= i < |text| + 255
    && FragHash(text, i, Min(m, 3)) < MEMBER_TABLE_SIZE
    && p.member[FragHash(text, i, Min(m, 3))]
  }

  /** Hits in increasing order. */
  ghost predicate HitsOk(p: SagrepParams, text: seq<Byte>, m: int, hits: seq<int>)
    reads p, p.member
    requires p.Valid()
  {
    Increasing(hits) && forall k :: 0 <= k < |hits| ==> IsHit(p, text, m, hits[k])
  }

  lemma HitsAppend(p: SagrepParams, text: seq<Byte>, m: int, hits: seq<int>, i: int)
    requires p.Valid() && HitsOk(p, text, m, hits) && (|hits| > 0 ==> hits[|hits| - 1] < i)
    requires 1 <= m && m - 1 <= i < |text| + 255 && 0 <= FragHash(text, i, Min(m, 3)) < MEMBER_TABLE_SIZE
    requires p.member[FragHash(text, i, Min(m, 3))]
    ensures HitsOk(p, text, m, hits + [i])
    ensures forall k :: 0 <= k < |hits| ==> 0 <= hits[k]
  {
    var h := hits + [i];
    forall k | 0 < k < |h|
      ensures h[k - 1] < h[k]
    {
      if k < |hits| {
        assert h[k - 1] == hits[k - 1] && h[k] == hits[k];
      }
    }
    forall k | 0 <= k < |h|
      ensures IsHit(p, text, m, h[k])
    {
      if k < |hits| {
        assert h[k] == hits[k];
      }
    }
  }

  /** The SHIFT table as a value, as Ready leaves it: 0 for NUL, every entry in 0..255. */
  predicate ShiftsOk(sh: seq<int>)
  {
    |sh| == MAXSYM && sh[0] == 0 && forall c :: 0 <= c < MAXSYM ==> 0 <= sh[c] <= 255
  }

  /**
   * The skip chain of the filter from pos: while the symbol landed on has a
   * nonzero SHIFT, move on by it. Positions past the text read as NUL,
   * whose shift is 0, so the chain ends at most 254 past the text.
   */
  function Land(sh: seq<int>, text: seq<Byte>, pos: int): (q: int)
    requires ShiftsOk(sh) && 0 <= pos
    ensures pos <= q && sh[At(text, q)] == 0
    ensures pos <= |text| + 254 ==> q <= |text| + 254
    decreases |text| - pos
  {
    var s := sh[At(text, pos)];
    if s == 0 then pos else Land(sh, text, pos + s)
  }

  /** What a probe at q adds to the hits: q itself when MEMBER holds the hash of the fragment ending there. */
  function Probed(mem: seq<bool>, text: seq<Byte>, m: int, q: int): seq<int>
    requires |mem| == MEMBER_TABLE_SIZE
  {
    FragHashFits(text, q, Min(Max(m, 0), 3));
    if mem[FragHash(text, q, Min(Max(m, 0), 3))] then [q] else []
  }

  /**
   * Reference definition of the filter loop from pos with the shift still
   * to take: while pos lies in the text, follow the skip chain from
   * pos + shift, probe where it ends, and go on from there with shift_1.
   */
  function HitsFrom(sh: seq<int>, mem: seq<bool>, d1: int, text: seq<Byte>, m: int, pos: int, shift: int): seq<int>
    requires ShiftsOk(sh) && |mem| == MEMBER_TABLE_SIZE && 1 <= d1 && 0 <= pos && 0 <= shift
    decreases |text| - pos, if shift == 0 then 1 else 0
  {
    if pos >= |text| then []
    else
      var q := Land(sh, text, pos + shift);
      Probed(mem, text, m, q) + HitsFrom(sh, mem, d1, text, m, q, d1)
  }

  /** The hits of exec_sagrepy's filter: the loop from the text start with a first shift of m - 1. */
  ghost function FilterHits(p: SagrepParams, text: seq<Byte>, m: int): seq<int>
    reads p, p.shift, p.member
    requires Ready(p) && 1 <= m
  {
    HitsFrom(p.shift[..], p.member[..], p.shift1, text, m, 0, m - 1)
  }

  /** One pass of the filter loop moves the hits of the probe from the reference's rest to what is found. */
  lemma FilterStep(sh: seq<int>, mem: seq<bool>, d1: int, text: seq<Byte>, m: int, pos: int, shift: int,
                   q: int, hits: seq<int>, hits': seq<int>, all: seq<int>)
    requires ShiftsOk(sh) && |mem| == MEMBER_TABLE_SIZE && 1 <= d1 && 0 <= pos < |text| && 0 <= shift
    requires q == Land(sh, text, pos + shift) && hits' == hits + Probed(mem, text, m, q)
    requires hits + HitsFrom(sh, mem, d1, text, m, pos, shift) == all
    ensures hits' + HitsFrom(sh, mem, d1, text, m, q, d1) == all
  {
    HitsFromUnfold(sh, mem, d1, text, m, pos, shift);
    HitsAssoc(hits, Probed(mem, text, m, q), HitsFrom(sh, mem, d1, text, m, q, d1));
  }

  lemma HitsFromUnfold(sh: seq<int>, mem: seq<bool>, d1: int, text: seq<Byte>, m: int, pos: int, shift: int)
    requires ShiftsOk(sh) && |mem| == MEMBER_TABLE_SIZE && 1 <= d1 && 0 <= pos < |text| && 0 <= shift
    ensures HitsFrom(sh, mem, d1, text, m, pos, shift)
         == Probed(mem, text, m, Land(sh, text, pos + shift)) + HitsFrom(sh, mem, d1, text, m, Land(sh, text, pos + shift), d1)
  {
  }

  lemma HitsAssoc(a: seq<int>, b: seq<int>, c: seq<int>)
    ensures a + (b + c) == (a + b) + c
  {
  }

  /** The reference filter's hits are increasing MEMBER hits, none before the first landing. */
  lemma {:induction false} HitsFromOk(p: SagrepParams, text: seq<Byte>, m: int, pos: int, shift: int)
    requires Ready(p) && 1 <= m && 0 <= pos && 0 <= shift <= 255 && m - 1 <= pos + shift
    ensures HitsOk(p, text, m, HitsFrom(p.shift[..], p.member[..], p.shift1, text, m, pos, shift))
    ensures forall k :: 0 <= k < |HitsFrom(p.shift[..], p.member[..], p.shift1, text, m, pos, shift)| ==>
      pos + shift <= HitsFrom(p.shift[..], p.member[..], p.shift1, text, m, pos, shift)[k]
    decreases |text| - pos, if shift == 0 then 1 else 0
  {
    var sh, mem := p.shift[..], p.member[..];
    if pos < |text| {
      var q := Land(sh, text, pos + shift);
      var rest := HitsFrom(sh, mem, p.shift1, text, m, q, p.shift1);
      HitsFromOk(p, text, m, q, p.shift1);
      HitsFromUnfold(sh, mem, p.shift1, text, m, pos, shift);
      var here := Probed(mem, text, m, q);
      if here != [] {
        FragHashFits(text, q, Min(m, 3));
        assert IsHit(p, text, m, q);
        HitsPrepend(p, text, m, rest, q);
      }
    }
  }

  /** A hit before all the others can be put in front. */
  lemma HitsPrepend(p: SagrepParams, text: seq<Byte>, m: int, hits: seq<int>, i: int)
    requires p.Valid() && HitsOk(p, text, m, hits) && IsHit(p, text, m, i)
    requires forall k :: 0 <= k < |hits| ==> i < hits[k]
    ensures HitsOk(p, text, m, [i] + hits)
  {
    var h := [i] + hits;
    forall k | 0 < k < |h|
      ensures h[k - 1] < h[k]
    {
      assert h[k] == hits[k - 1];
      if k > 1 {
        assert h[k - 1] == hits[k - 2];
      }
    }
    forall k | 0 < k < |h|
      ensures IsHit(p, text, m, h[k])
    {
      assert h[k] == hits[k - 1];
    }
  }

  /**
   * The first loop of exec_sagrepy: jump through the text by SHIFT until a
   * symbol with shift 0, hash the last min(m, 3) symbols there, note a hit
   * when MEMBER holds the hash, and move on by shift_1. Positions past the
   * text read as NUL, whose shift is 0.
   */
  method Filter(params: SagrepParams, M: int, text: seq<Byte>)
    returns (cand: array<IntPair>, cdx: int, ghost hits: seq<int>)
    requires Ready(params) && 0 <= M && 1 <= FragLen(M, params.nErrors) <= 255 && |text| <= MAXTEXT
    ensures fresh(cand) && cand.Length == MAXCAND && 0 <= cdx < MAXCAND
    ensures cand[..cdx + 1] == Windows(hits, M, params.nErrors)
    ensures hits == FilterHits(params, text, FragLen(M, params.nErrors))
    ensures Increasing(hits)
    ensures forall k :: 0 <= k < |hits| ==> IsHit(params, text, FragLen(M, params.nErrors), hits[k])
  {
    var D := params.nErrors;
    var m := FragLen(M, D);
    var d1 := params.shift1;
    ghost var all := FilterHits(params, text, m);
    cand := new IntPair[MAXCAND](_ => IntPair(0, 0));
    cdx := 0;
    hits := [];
    assert hits + all == all;
    var pos := 0;
    var shift := m - 1;
    while pos < |text|
      invariant Ready(params) && fresh(cand)
      invariant Filtering(params, M, text, pos, shift, cand, cdx, hits, all)
      decreases |text| - pos + (if shift == 0 then 1 else 0)
    {
      pos, cdx, hits := FilterPass(params, M, text, pos, shift, cand, cdx, hits, all);
      shift := d1;
    }
  }

  /**
   * The filter loop's state before a pass from pos with the given shift:
   * the windows of the hits so far, hits that are MEMBER hits in order and
   * lie before the next landing, and the reference run from here still to
   * come, which completes the hits to `all`.
   */
  ghost predicate Filtering(params: SagrepParams, M: int, text: seq<Byte>, pos: int, shift: int,
                            cand: array<IntPair>, cdx: int, hits: seq<int>, all: seq<int>)
    reads params, params.shift, params.member, cand
    requires Ready(params)
  {
    && 0 <= M && 1 <= FragLen(M, params.nErrors) <= 255 && |text| <= MAXTEXT
    && 0 <= pos && FragLen(M, params.nErrors) - 1 <= pos + shift && 0 <= shift <= 255
    && cand.Length == MAXCAND && 0 <= cdx < MAXCAND && cand[..cdx + 1] == Windows(hits, M, params.nErrors)
    && HitsOk(params, text, FragLen(M, params.nErrors), hits) && (|hits| > 0 ==> hits[|hits| - 1] < pos + shift)
    && hits + HitsFrom(params.shift[..], params.member[..], params.shift1, text, FragLen(M, params.nErrors), pos, shift) == all
  }

  /** One pass of the filter loop: the skip chain, then the probe where it ends. */
  method FilterPass(params: SagrepParams, M: int, text: seq<Byte>, pos: int, shift: int,
                    cand: array<IntPair>, cdx: int, ghost hits: seq<int>, ghost all: seq<int>)
    returns (pos': int, cdx': int, ghost hits': seq<int>)
    requires Ready(params) && Filtering(params, M, text, pos, shift, cand, cdx, hits, all) && pos < |text|
    modifies cand
    ensures pos + shift <= pos' <= |text| + 254
    ensures Filtering(params, M, text, pos', params.shift1, cand, cdx', hits', all)
  {
    ghost var sh, mem := params.shift[..], params.member[..];
    pos' := Jump(params, text, pos, shift);
    cdx', hits' := Probe(params, M, text, pos', cand, cdx, hits);
    FilterStep(sh, mem, params.shift1, text, FragLen(M, params.nErrors), pos, shift, pos', hits, hits', all);
  }

  /** One probe of the filter at pos: a hit when MEMBER holds the hash there. */
  method Probe(params: SagrepParams, M: int, text: seq<Byte>, pos: int, cand: array<IntPair>, cdx: int, ghost hits: seq<int>)
    returns (cdx': int, ghost hits': seq<int>)
    requires Ready(params) && 0 <= M && 1 <= FragLen(M, params.nErrors) <= 255 && |text| <= MAXTEXT
    requires FragLen(M, params.nErrors) - 1 <= pos <= |text| + 254
    requires cand.Length == MAXCAND && 0 <= cdx < MAXCAND && cand[..cdx + 1] == Windows(hits, M, params.nErrors)
    requires HitsOk(params, text, FragLen(M, params.nErrors), hits) && (|hits| > 0 ==> hits[|hits| - 1] < pos)
    modifies cand
    ensures 0 <= cdx' < MAXCAND && cand[..cdx' + 1] == Windows(hits', M, params.nErrors)
    ensures HitsOk(params, text, FragLen(M, params.nErrors), hits')
    ensures hits' == hits + Probed(params.member[..], text, FragLen(M, params.nErrors), pos)
  {
    var D := params.nErrors;
    var m := FragLen(M, D);
    var hash := ProbeHash(text, pos, Min(m, 3));
    cdx', hits' := cdx, hits;
    if params.member[hash] {
      HitsAppend(params, text, m, hits, pos);
      cdx' := NoteCandidate(cand, cdx, pos, M, D, hits);
      hits' := hits + [pos];
    }
  }

  /** The hash the filter computes at pos: the symbol there, then the b-1 symbols before it. */
  method ProbeHash(text: seq<Byte>, pos: int, b: int) returns (hash: int)
    requires 1 <= b <= 3
    ensures hash == FragHash(text, pos, b)
    ensures 0 <= hash < MEMBER_TABLE_SIZE
  {
    hash := At(text, pos);
    var j := 1;
    while j < b
      invariant 1 <= j <= b
      invariant hash == FragHash(text, pos, j)
    {
      hash := hash * 4 + At(text, pos - j);
      j := j + 1;
    }
    FragHashFits(text, pos, b);
  }

  /** The candidate update for a hit at i: Candidate[0..cdx] follows NoteHit. */
  method NoteCandidate(cand: array<IntPair>, cdx: int, i: int, M: int, D: int, ghost hits: seq<int>)
    returns (cdx': int)
    requires cand.Length == MAXCAND && 0 <= cdx < MAXCAND && 1 <= M && 0 <= D
    requires cand[..cdx + 1] == Windows(hits, M, D)
    requires Increasing(hits) && (|hits| > 0 ==> hits[|hits| - 1] < i) && i < MAXTEXT + 255
    requires forall k :: 0 <= k < |hits| ==> 0 <= hits[k]
    requires 0 <= i
    modifies cand
    ensures 0 <= cdx' < MAXCAND
    ensures cand[..cdx' + 1] == Windows(hits + [i], M, D)
  {
    ghost var w := cand[..cdx + 1];
    WindowsWellSpaced(hits, M, D);
    NoteHitWellSpaced(w, i, M, D);
    assert (hits + [i])[..|hits|] == hits;
    if i - M - D - 10 > cand[cdx].end {
      WellSpacedCount(NoteHit(w, i, M, D), M, D, cdx + 1);
      cdx' := cdx + 1;
      cand[cdx'] := IntPair(i - M - D - 2, i + M + D);
      assert cand[..cdx' + 1] == w + [cand[cdx']];
    } else {
      cdx' := cdx;
      cand[cdx] := IntPair(cand[cdx].start, i + M + D);
      assert cand[..cdx + 1] == w[..cdx] + [cand[cdx]];
    }
  }

  /**
   * The skip loop of the filter: move by shift, then by SHIFT of the symbol
   * landed on, until that shift is 0. A symbol with shift 0 is always found,
   * at the latest on the NUL after the text.
   */
  method Jump(params: SagrepParams, text: seq<Byte>, pos: int, shift: int) returns (pos': int)
    requires Ready(params) && 0 <= pos < |text| && 0 <= shift <= 255
    ensures pos' == Land(params.shift[..], text, pos + shift)
  {
    pos' := pos + shift;
    var s := params.shift[At(text, pos')];
    while s != 0
      invariant pos + shift <= pos' <= |text| + 254
      invariant Land(params.shift[..], text, pos') == Land(params.shift[..], text, pos + shift)
      invariant s == params.shift[At(text, pos')]
      invariant 0 <= s <= 255 && (s != 0 ==> pos' < |text|)
      decreases |text| - pos'
    {
      pos' := pos' + s;
      s := params.shift[At(text, pos')];
    }
  }

  // ---------------------------------------------------------------------
  // The bit-parallel rows. Row k holds a 0 at MSB-relative bit j when the
  // first j+1 pattern symbols end at the current text symbol with at most k
  // errors; Mask[c] has its 0 bits where the pattern holds c.

  /**
   * The update of row k >= 1: x is row k and prev row k-1 before the
   * symbol, cur is the new row k-1, r1 the symbol's mask.
   */
  function Cell(x: bv32, prev: bv32, cur: bv32, r1: bv32): bv32
  {
    ((x >> 1) | r1) & prev & ((cur & prev) >> 1)
  }

  /** Row k after reading a symbol with mask r1, from the rows R before it. */
  function RowAt(R: seq<bv32>, r1: bv32, k: nat): bv32
    requires k < |R|
  {
    if k == 0 then (R[0] >> 1) | r1
    else Cell(R[k], R[k - 1], RowAt(R, r1, k - 1), r1)
  }

  /** All rows after reading a symbol with mask r1. */
  function RowStep(R: seq<bv32>, r1: bv32): (r: seq<bv32>)
    ensures |r| == |R|
  {
    seq(|R|, k requires 0 <= k < |R| => RowAt(R, r1, k))
  }

  /** The rows at the start of a window: row k has its k high bits clear. */
  function InitRow(k: nat): bv32
  {
    if k == 0 then 0xFFFF_FFFF else Narrow(InitRow(k - 1))
  }

  /** One more high bit cleared: the step from one starting row to the next. */
  function Narrow(x: bv32): bv32
  {
    (x >> 1) & x
  }

  /** Rows 0..D at a window start, or all ones after a reported match. */
  function Base(afterMatch: bool, D: int): (r: seq<bv32>)
    requires 0 <= D
    ensures |r| == D + 1
  {
    seq(D + 1, k requires 0 <= k <= D => if afterMatch then 0xFFFF_FFFF else InitRow(k))
  }

  /** The rows after reading text[lo..hi) from rows R, with the mask table masks. */
  function Run(R: seq<bv32>, masks: seq<bv32>, text: seq<Byte>, lo: int, hi: int): (r: seq<bv32>)
    requires |masks| == MAXSYM
    ensures |r| == |R|
    decreases hi - lo
  {
    if hi <= lo then R else RowStep(Run(R, masks, text, lo, hi - 1), masks[At(text, hi - 1)])
  }

  /** x has no one bit outside y. */
  predicate Sub(x: bv32, y: bv32)
  {
    x & !y == 0
  }

  /** Each row's one bits lie within the previous row's: more errors, more matched prefixes. */
  ghost predicate Nested(R: seq<bv32>)
  {
    forall k :: 1 <= k < |R| ==> Sub(R[k], R[k - 1])
  }

  lemma SubShr(x: bv32, y: bv32)
    requires Sub(x, y)
    ensures Sub(x >> 1, y >> 1)
  {
  }

  lemma SubOr(x: bv32, y: bv32, c: bv32)
    requires Sub(x, y)
    ensures Sub(x | c, y | c)
  {
  }

  /** A step keeps the rows nested. */
  lemma {:induction false} RowAtNested(R: seq<bv32>, r1: bv32, k: nat)
    requires Nested(R) && 1 <= k < |R|
    ensures Sub(RowAt(R, r1, k), RowAt(R, r1, k - 1))
    decreases k
  {
    if k == 1 {
      RowOneNested(R, r1);
    } else {
      RowAtNested(R, r1, k - 1);
      RowNextNested(R, r1, k);
    }
  }

  lemma RowOneNested(R: seq<bv32>, r1: bv32)
    requires Nested(R) && 2 <= |R|
    ensures Sub(RowAt(R, r1, 1), RowAt(R, r1, 0))
  {
    var x0, x1 := R[0], R[1];
    assert Sub(x1, x0);
    FirstMeetNested(x1, x0, r1, RowAt(R, r1, 0));
    assert RowAt(R, r1, 1) == Cell(x1, x0, RowAt(R, r1, 0), r1);
  }

  lemma FirstMeetNested(x1: bv32, x0: bv32, r1: bv32, a: bv32)
    requires Sub(x1, x0)
    ensures Sub(((x1 >> 1) | r1) & x0 & ((a & x0) >> 1), (x0 >> 1) | r1)
  {
  }

  lemma RowNextNested(R: seq<bv32>, r1: bv32, k: nat)
    requires Nested(R) && 2 <= k < |R|
    requires Sub(RowAt(R, r1, k - 1), RowAt(R, r1, k - 2))
    ensures Sub(RowAt(R, r1, k), RowAt(R, r1, k - 1))
  {
    var x, x1, x2 := R[k], R[k - 1], R[k - 2];
    assert Sub(x, x1) && Sub(x1, x2);
    MeetNested(x, x1, x2, r1, RowAt(R, r1, k - 1), RowAt(R, r1, k - 2));
    assert RowAt(R, r1, k) == Cell(x, x1, RowAt(R, r1, k - 1), r1);
  }

  lemma MeetNested(x: bv32, x1: bv32, x2: bv32, r1: bv32, a: bv32, a': bv32)
    requires Sub(x, x1) && Sub(x1, x2) && Sub(a, a')
    ensures Sub(((x >> 1) | r1) & x1 & ((a & x1) >> 1), ((x1 >> 1) | r1) & x2 & ((a' & x2) >> 1))
  {
  }

  lemma RowStepNested(R: seq<bv32>, r1: bv32)
    requires Nested(R)
    ensures Nested(RowStep(R, r1))
  {
    forall k | 1 <= k < |R|
      ensures Sub(RowStep(R, r1)[k], RowStep(R, r1)[k - 1])
    {
      RowAtNested(R, r1, k);
    }
  }

  /** Starting rows are nested, and so are the rows after any stretch of text. */
  lemma {:induction false} RunNested(afterMatch: bool, D: int, masks: seq<bv32>, text: seq<Byte>, lo: int, hi: int)
    requires 0 <= D && |masks| == MAXSYM
    ensures Nested(Run(Base(afterMatch, D), masks, text, lo, hi))
    decreases hi - lo
  {
    if hi <= lo {
      BaseNested(afterMatch, D);
    } else {
      RunNested(afterMatch, D, masks, text, lo, hi - 1);
      RowStepNested(Run(Base(afterMatch, D), masks, text, lo, hi - 1), masks[At(text, hi - 1)]);
    }
  }

  lemma BaseNested(afterMatch: bool, D: int)
    requires 0 <= D
    ensures Nested(Base(afterMatch, D))
  {
    forall k | 1 <= k <= D
      ensures Sub(Base(afterMatch, D)[k], Base(afterMatch, D)[k - 1])
    {
      if !afterMatch {
        InitRowShrinks(InitRow(k - 1));
      }
    }
  }

  lemma InitRowShrinks(x: bv32)
    ensures Sub(Narrow(x), x)
  {
  }

  /** InitRow(k) is the word with exactly its k high bits clear. */
  lemma {:induction false} InitRowIsLowOnes(k: nat)
    requires k <= 31
    ensures InitRow(k) == !HighOnes(k)
    decreases k
  {
    if k > 0 {
      InitRowIsLowOnes(k - 1);
      if k == 1 {
        assert HighOnes(0) == 0;
      } else {
        HighOnesPrefix(k - 1);
      }
      NotShift(HighOnes(k - 1));
    }
  }

  /** A run of high ones lies within itself shifted right with the top bit added. */
  lemma {:induction false} HighOnesPrefix(j: nat)
    requires j <= 32
    ensures Sub(HighOnes(j), (HighOnes(j) >> 1) | Bit1)
    decreases j
  {
    if j > 0 {
      HighOnesPrefix(j - 1);
      SubShr(HighOnes(j - 1), HighOnes(j));
      SubOr(HighOnes(j - 1) >> 1, HighOnes(j) >> 1, Bit1);
    }
  }

  /** Complementing and shifting: the step InitRow takes, on the complement of a high-ones word. */
  lemma NotShift(h: bv32)
    ensures Sub(h, (h >> 1) | Bit1) ==> (!h >> 1) & !h == !((h >> 1) | Bit1)
    ensures h == 0 ==> (!h >> 1) & !h == !((h >> 1) | Bit1)
  {
  }

  // ---------------------------------------------------------------------
  // The window scan.

  /** Everything the scan holds fixed: pattern, text, tables, budget and switches. */
  datatype Scan = Scan(pat: seq<Byte>, text: seq<Byte>, masks: seq<bv32>, D: int, endpos: bv32,
                       gotoends: bool, python: bool)

  predicate ScanOk(c: Scan)
  {
    |c.masks| == MAXSYM && 0 <= c.D < MAXROWS
  }

  /** The rows after reading text[lo..hi) from the rows of a window start or of a reset. */
  ghost function RowsAt(c: Scan, afterMatch: bool, lo: int, hi: int): (r: seq<bv32>)
    requires ScanOk(c)
    ensures |r| == c.D + 1
  {
    Run(Base(afterMatch, c.D), c.masks, c.text, lo, hi)
  }

  /** The test of exec_sagrepy: row D has a zero bit at an end position of the pattern. */
  ghost predicate Fires(c: Scan, afterMatch: bool, lo: int, p: int)
    requires ScanOk(c)
  {
    RowsAt(c, afterMatch, lo, p + 1)[c.D] & c.endpos == 0
  }

  /** No end position fires at any text index in [lo, hi). */
  ghost predicate Quiet(c: Scan, afterMatch: bool, lo: int, hi: int)
    requires ScanOk(c)
  {
    forall p :: lo <= p < hi ==> !Fires(c, afterMatch, lo, p)
  }

  /** furthest_zero's answer as exec_sagrepy reads it: -1 for a word of ones. */
  ghost predicate IsFurthestZero(bits: bv32, z: int)
  {
    if bits == NoZero then z == -1
    else 0 <= z < 32 && BitMsb(bits, z as bv32) == 0 && OnesAfter(bits, z as bv32)
  }

  /** The furthest zero of a row as an index, -1 for none. */
  method ZeroIndex(bits: bv32) returns (k: int)
    ensures IsFurthestZero(bits, k) && k >= -1
  {
    var z := FurthestZero(bits);
    k := if z == NoZero then -1 else z as int;
    assert z != NoZero ==> k as bv32 == z;
  }

  /**
   * One reported match: the rows were started at text index start (at a
   * window start, or one past the previous report after the reset), first
   * fired at pos, and the span is what find_start_pos resolves from there.
   */
  datatype Report = Report(round: int, start: int, afterMatch: bool, pos: int,
                           errors: int, zero: int, furthest: int, span: Span)

  /** A window clipped to the text, as the scan of round r reads it. */
  function Lo(w: IntPair): int { Max(w.start, 0) }
  function Hi(w: IntPair, n: int): int { Min(w.end, n) }

  /**
   * Where the scan of [lo, hi) stops: the loop reads two symbols per pass
   * while i < hi, so it also reads the symbol at hi when hi - lo is odd.
   */
  function Stop(lo: int, hi: int): int
  {
    if lo < hi then lo + 2 * ((hi - lo + 1) / 2) else lo
  }

  /** A pass that starts before hi reads both its symbols before the stop. */
  lemma StopAhead(lo: int, hi: int, passes: int)
    requires 0 <= passes && lo + 2 * passes < hi
    ensures lo + 2 * passes + 1 < Stop(lo, hi) && lo + 2 * (passes + 1) <= Stop(lo, hi)
  {
  }

  /** The scan loop ends exactly at the stop. */
  lemma StopReached(lo: int, hi: int, passes: int)
    requires 0 <= passes && hi <= lo + 2 * passes && (passes > 0 ==> lo + 2 * passes <= Stop(lo, hi))
    ensures lo + 2 * passes == Stop(lo, hi)
  {
  }

  /** Where the scan of window `round` stops. */
  function StopOf(c: Scan, w: seq<IntPair>, round: int): int
    requires 0 <= round < |w|
  {
    Stop(Lo(w[round]), Hi(w[round], |c.text|))
  }

  ghost predicate ReportOk(c: Scan, rep: Report, prevFurthest: int)
    requires ScanOk(c)
  {
    && rep.start <= rep.pos <= |c.text|
    && Fires(c, rep.afterMatch, rep.start, rep.pos)
    && Quiet(c, rep.afterMatch, rep.start, rep.pos)
    && ReadsRows(c, rep, prevFurthest, RowsAt(c, rep.afterMatch, rep.start, rep.pos + 1))
  }

  /**
   * What exec_sagrepy reads from the rows at a fire: the error count, the
   * furthest zero of row D, furthest so far, and the span find_start_pos
   * resolves from them.
   */
  ghost predicate ReadsRows(c: Scan, rep: Report, prevFurthest: int, rows: seq<bv32>)
    requires ScanOk(c) && |rows| == c.D + 1
  {
    && IsErrorCount(rows, c.D, c.D - rep.errors)
    && IsFurthestZero(rows[c.D], rep.zero)
    && rep.furthest == Max(prevFurthest, rep.zero)
    && rep.span == FindStartPos(c.pat, rep.furthest, c.text, rep.pos + rep.errors, c.D, c.gotoends)
  }

  /** furthest after the reports: the deepest pattern position reached so far, -1 at first. */
  function LastFurthest(reports: seq<Report>): int
  {
    if |reports| == 0 then -1 else reports[|reports| - 1].furthest
  }

  /** Report k is right for its place in the sequence and its window. */
  ghost predicate ReportAt(c: Scan, w: seq<IntPair>, reports: seq<Report>, k: int)
    requires ScanOk(c) && 0 <= k < |reports|
  {
    var rep := reports[k];
    && ReportOk(c, rep, LastFurthest(reports[..k]))
    && 0 <= rep.round < |w| && Lo(w[rep.round]) <= rep.start && rep.pos < StopOf(c, w, rep.round)
    && (k > 0 ==> reports[k - 1].round <= rep.round)
    && (rep.afterMatch ==> k > 0 && reports[k - 1].round == rep.round && rep.start == reports[k - 1].pos + 1)
    && (!rep.afterMatch ==> rep.start == Lo(w[rep.round]) && (k == 0 || reports[k - 1].round < rep.round))
  }

  ghost predicate ReportsOk(c: Scan, w: seq<IntPair>, reports: seq<Report>)
    requires ScanOk(c)
  {
    forall k :: 0 <= k < |reports| ==> ReportAt(c, w, reports, k)
  }

  /** The pairs add_ends stored for the reports, in order. */
  function Pairs(reports: seq<Report>, python: bool): (r: seq<IntPair>)
    ensures |r| == |reports|
  {
    seq(|reports|, k requires 0 <= k < |reports| =>
      IntPair(reports[k].span.start, StoredEnd(reports[k].span.end, python)))
  }

  /** The match list is absent until the first report and then holds one pair per report. */
  ghost predicate Holds(matches: IntPairList?, reports: seq<Report>, python: bool)
    reads matches, if matches == null then {} else {matches.pairs}
  {
    && (matches == null <==> |reports| == 0)
    && (matches != null ==> matches.Valid() && matches.Contents() == Pairs(reports, python))
  }

  /** A new report keeps the earlier reports right. */
  lemma ReportsAppend(c: Scan, w: seq<IntPair>, reports: seq<Report>, rep: Report)
    requires ScanOk(c) && ReportsOk(c, w, reports)
    requires ReportAt(c, w, reports + [rep], |reports|)
    ensures ReportsOk(c, w, reports + [rep])
  {
    var r := reports + [rep];
    forall k | 0 <= k < |r|
      ensures ReportAt(c, w, r, k)
    {
      if k < |reports| {
        assert r[..k] == reports[..k];
        assert ReportAt(c, w, reports, k);
      }
    }
  }

  /**
   * Where the scan of a window stopped: from start (its window start, or one
   * past the last report when that report is in this window) up to stop,
   * past the window end, nothing fired. count is the number of reports made
   * by then.
   */
  datatype Tail = Tail(start: int, afterMatch: bool, stop: int, count: int)

  ghost predicate TailOk(c: Scan, w: seq<IntPair>, reports: seq<Report>, round: int, t: Tail)
    requires ScanOk(c) && 0 <= round < |w|
  {
    && Lo(w[round]) <= t.start <= t.stop && t.stop == StopOf(c, w, round)
    && Quiet(c, t.afterMatch, t.start, t.stop)
    && 0 <= t.count <= |reports|
    && (t.afterMatch ==> 0 < t.count && reports[t.count - 1].round == round && t.start == reports[t.count - 1].pos + 1)
    && (!t.afterMatch ==> t.start == Lo(w[round]) && (t.count == 0 || reports[t.count - 1].round < round))
    && (forall k :: t.count <= k < |reports| ==> round < reports[k].round)
  }

  /** Both half-steps of the scan: dst[0..D] := the rows after reading a symbol with mask r1. */
  method Step(dst: array<bv32>, src: array<bv32>, D: int, r1: bv32)
    requires dst != src && dst.Length == MAXROWS && src.Length == MAXROWS && 0 <= D < MAXROWS
    modifies dst
    ensures dst[..D + 1] == RowStep(src[..D + 1], r1)
  {
    dst[0] := (src[0] >> 1) | r1;
    var k := 1;
    while k <= D
      invariant 1 <= k <= D + 1
      invariant forall j :: 0 <= j < k ==> dst[j] == RowAt(src[..D + 1], r1, j)
    {
      dst[k] := Cell(src[k], src[k - 1], dst[k - 1], r1);
      k := k + 1;
    }
  }

  /** The rows at a window start: R1[0] = R2[0] = ~0, R1[1] = R2[1] = ~Bit1, then the recurrence. */
  method StartRows(R1: array<bv32>, R2: array<bv32>, D: int)
    requires R1 != R2 && R1.Length == MAXROWS && R2.Length == MAXROWS && 0 <= D < MAXROWS
    modifies R1, R2
    ensures R1[..D + 1] == Base(false, D) && R2[..D + 1] == Base(false, D)
  {
    R1[0], R2[0] := 0xFFFF_FFFF, 0xFFFF_FFFF;
    R1[1], R2[1] := !Bit1, !Bit1;
    var k := 1;
    while k <= D
      invariant 1 <= k <= D + 1
      invariant forall j :: 0 <= j < k ==> R1[j] == InitRow(j) && R2[j] == InitRow(j)
    {
      var v := Narrow(R1[k - 1]);
      R1[k], R2[k] := v, v;
      k := k + 1;
    }
    StartIsBase(R1[..D + 1], D);
    StartIsBase(R2[..D + 1], D);
  }

  lemma StartIsBase(s: seq<bv32>, D: nat)
    requires |s| == D + 1 && forall j :: 0 <= j <= D ==> s[j] == InitRow(j)
    ensures s == Base(false, D)
  {
  }

  /** The reset after a reported match: every row is all ones. */
  method ResetRows(R1: array<bv32>, R2: array<bv32>, D: int)
    requires R1 != R2 && R1.Length == MAXROWS && R2.Length == MAXROWS && 0 <= D < MAXROWS
    modifies R1, R2
    ensures R1[..D + 1] == Base(true, D) && R2[..D + 1] == Base(true, D)
  {
    var k := 0;
    while k <= D
      invariant 0 <= k <= D + 1
      invariant forall j :: 0 <= j < k ==> R1[j] == 0xFFFF_FFFF && R2[j] == 0xFFFF_FFFF
    {
      R1[k], R2[k] := 0xFFFF_FFFF, 0xFFFF_FFFF;
      k := k + 1;
    }
  }

  /**
   * The match block of the scan: count the errors, push furthest to the
   * furthest zero of row D, resolve the span ending at pos + errors, and
   * store it with add_ends.
   */
  method Resolve(c: Scan, rows: seq<bv32>, pos: int, furthest: int, matches: IntPairList?,
                 ghost round: int, ghost start: int, ghost afterMatch: bool)
    returns (furthest': int, matches': IntPairList, ghost rep: Report)
    requires ScanOk(c) && |rows| == c.D + 1 && furthest >= -1
    requires matches != null ==> matches.Valid()
    modifies if matches == null then {} else {matches, matches.pairs}
    ensures rep.round == round && rep.start == start && rep.afterMatch == afterMatch && rep.pos == pos
    ensures IsErrorCount(rows, c.D, c.D - rep.errors) && IsFurthestZero(rows[c.D], rep.zero)
    ensures furthest' == rep.furthest == Max(furthest, rep.zero) && furthest' >= -1
    ensures rep.span == FindStartPos(c.pat, furthest', c.text, pos + rep.errors, c.D, c.gotoends)
    ensures matches'.Valid()
    ensures matches == null ==> fresh(matches') && fresh(matches'.pairs)
    ensures matches != null ==> matches' == matches && (matches'.pairs == old(matches.pairs) || fresh(matches'.pairs))
    ensures matches == null ==> matches'.Contents() == [IntPair(rep.span.start, StoredEnd(rep.span.end, c.python))]
    ensures matches != null ==>
      matches'.Contents() == old(matches.Contents()) + [IntPair(rep.span.start, StoredEnd(rep.span.end, c.python))]
  {
    var count := CountErrors(rows, c.D);
    var k := ZeroIndex(rows[c.D]);
    furthest' := furthest;
    if k > furthest {
      furthest' := k;
    }
    var errors := c.D - count;
    var span := FindStartPos(c.pat, furthest', c.text, pos + errors, c.D, c.gotoends);
    matches' := AddEnds(span.start, span.end, matches, c.python);
    rep := Report(round, start, afterMatch, pos, errors, k, furthest', span);
  }

  /**
   * The state of a window scan before text index i is read: src holds the
   * rows after text[start..i), started at start from the window-start rows
   * or, after a report, from all ones; nothing fired in between.
   */
  ghost predicate Scanning(c: Scan, w: seq<IntPair>, round: int, src: seq<bv32>, i: int,
                           start: int, afterMatch: bool, reports: seq<Report>, furthest: int)
    requires ScanOk(c)
  {
    && 0 <= round < |w| && Lo(w[round]) <= start <= i
    && |src| == c.D + 1 && src == RowsAt(c, afterMatch, start, i) && Quiet(c, afterMatch, start, i)
    && (afterMatch ==> 0 < |reports| && reports[|reports| - 1].round == round && start == reports[|reports| - 1].pos + 1)
    && (!afterMatch ==> start == Lo(w[round]) && (|reports| == 0 || reports[|reports| - 1].round < round))
    && (0 < |reports| ==> reports[|reports| - 1].round <= round)
    && ReportsOk(c, w, reports) && furthest == LastFurthest(reports) && -1 <= furthest
  }

  /** A symbol read without the end test firing extends the quiet stretch. */
  lemma StaysQuiet(c: Scan, w: seq<IntPair>, round: int, src: seq<bv32>, rows: seq<bv32>, i: int,
                   start: int, afterMatch: bool, reports: seq<Report>, furthest: int)
    requires ScanOk(c) && Scanning(c, w, round, src, i, start, afterMatch, reports, furthest)
    requires rows == RowStep(src, c.masks[At(c.text, i)]) && rows[c.D] & c.endpos != 0
    ensures Scanning(c, w, round, rows, i + 1, start, afterMatch, reports, furthest)
  {
    assert rows == RowsAt(c, afterMatch, start, i + 1);
    assert !Fires(c, afterMatch, start, i);
  }

  /** A symbol at which the end test fires, once resolved, is a right report; the scan restarts after it. */
  lemma Reported(c: Scan, w: seq<IntPair>, round: int, src: seq<bv32>, rows: seq<bv32>, i: int,
                 start: int, afterMatch: bool, reports: seq<Report>, furthest: int, rep: Report)
    requires ScanOk(c) && Scanning(c, w, round, src, i, start, afterMatch, reports, furthest)
    requires i < StopOf(c, w, round)
    requires rows == RowStep(src, c.masks[At(c.text, i)]) && rows[c.D] & c.endpos == 0
    requires rep.round == round && rep.start == start && rep.afterMatch == afterMatch && rep.pos == i
    requires IsErrorCount(rows, c.D, c.D - rep.errors) && IsFurthestZero(rows[c.D], rep.zero)
    requires rep.furthest == Max(furthest, rep.zero)
    requires rep.span == FindStartPos(c.pat, rep.furthest, c.text, i + rep.errors, c.D, c.gotoends)
    ensures Scanning(c, w, round, Base(true, c.D), i + 1, i + 1, true, reports + [rep], rep.furthest)
  {
    var r := reports + [rep];
    assert rows == RowsAt(c, afterMatch, start, i + 1);
    FiredOk(c, rows, i, start, afterMatch, furthest, rep);
    assert r[..|reports|] == reports;
    assert ReportAt(c, w, r, |reports|);
    ReportsAppend(c, w, reports, rep);
    Restarted(c, w, round, i, r);
  }

  /** The resolved report of a firing symbol satisfies ReportOk. */
  lemma FiredOk(c: Scan, rows: seq<bv32>, i: int, start: int, afterMatch: bool, prevFurthest: int, rep: Report)
    requires ScanOk(c) && rows == RowsAt(c, afterMatch, start, i + 1) && rows[c.D] & c.endpos == 0
    requires Quiet(c, afterMatch, start, i) && start <= i <= |c.text|
    requires rep.start == start && rep.afterMatch == afterMatch && rep.pos == i
    requires IsErrorCount(rows, c.D, c.D - rep.errors) && IsFurthestZero(rows[c.D], rep.zero)
    requires rep.furthest == Max(prevFurthest, rep.zero)
    requires rep.span == FindStartPos(c.pat, rep.furthest, c.text, i + rep.errors, c.D, c.gotoends)
    ensures ReportOk(c, rep, prevFurthest)
  {
  }

  /** After a report the scan restarts from all-ones rows just past it. */
  lemma Restarted(c: Scan, w: seq<IntPair>, round: int, i: int, r: seq<Report>)
    requires ScanOk(c) && ReportsOk(c, w, r) && 0 < |r|
    requires r[|r| - 1].round == round && r[|r| - 1].pos == i
    requires 0 <= round < |w| && Lo(w[round]) <= i + 1 && -1 <= LastFurthest(r)
    ensures Scanning(c, w, round, Base(true, c.D), i + 1, i + 1, true, r, LastFurthest(r))
  {
  }

  lemma PairsAppend(reports: seq<Report>, rep: Report, python: bool)
    ensures Pairs(reports + [rep], python)
      == Pairs(reports, python) + [IntPair(rep.span.start, StoredEnd(rep.span.end, python))]
  {
  }

  /** `b` is `a` followed by reports of round `round` only. */
  ghost predicate Grows(a: seq<Report>, b: seq<Report>, round: int)
  {
    |a| <= |b| && b[..|a|] == a && forall k :: |a| <= k < |b| ==> b[k].round == round
  }

  lemma GrowsTrans(a: seq<Report>, b: seq<Report>, c: seq<Report>, round: int)
    requires Grows(a, b, round) && Grows(b, c, round)
    ensures Grows(a, c, round)
  {
    assert c[..|a|] == c[..|b|][..|a|];
  }

  /**
   * Half of the scan loop's body: read text[i] into dst from src and, when
   * row D has a zero at an end position, report the match and reset both
   * row sets. (The second half's extra test wind_fwd >= 0 is never true:
   * wind_fwd stays -1.)
   */
  method HalfStep(c: Scan, dst: array<bv32>, src: array<bv32>, i: int, furthest: int, matches: IntPairList?,
                  ghost w: seq<IntPair>, ghost round: int, ghost start: int, ghost afterMatch: bool,
                  ghost reports: seq<Report>)
    returns (furthest': int, matches': IntPairList?, ghost start': int, ghost afterMatch': bool,
             ghost reports': seq<Report>)
    requires ScanOk(c) && dst != src && dst.Length == MAXROWS && src.Length == MAXROWS
    requires Scanning(c, w, round, src[..c.D + 1], i, start, afterMatch, reports, furthest)
    requires i < StopOf(c, w, round)
    requires Holds(matches, reports, c.python)
    requires matches != null ==> matches.pairs as object != dst && matches.pairs as object != src
    modifies dst, src, if matches == null then {} else {matches, matches.pairs}
    ensures Scanning(c, w, round, dst[..c.D + 1], i + 1, start', afterMatch', reports', furthest')
    ensures Holds(matches', reports', c.python)
    ensures matches' != null ==> matches' == matches || fresh(matches')
    ensures matches' != null ==> (matches != null && matches'.pairs == old(matches.pairs)) || fresh(matches'.pairs)
    ensures Grows(reports, reports', round)
  {
    var r1 := c.masks[At(c.text, i)];
    ghost var before := src[..c.D + 1];
    Step(dst, src, c.D, r1);
    if dst[c.D] & c.endpos == 0 {
      furthest', matches', reports' := ReportAndReset(c, dst, src, i, furthest, matches, w, round, start,
                                                      afterMatch, reports, before);
      start', afterMatch' := i + 1, true;
    } else {
      StaysQuiet(c, w, round, before, dst[..c.D + 1], i, start, afterMatch, reports, furthest);
      furthest', matches', start', afterMatch', reports' := furthest, matches, start, afterMatch, reports;
    }
  }

  /** A match found in dst: report it, then reset both row sets. */
  method ReportAndReset(c: Scan, dst: array<bv32>, src: array<bv32>, i: int, furthest: int, matches: IntPairList?,
                        ghost w: seq<IntPair>, ghost round: int, ghost start: int, ghost afterMatch: bool,
                        ghost reports: seq<Report>, ghost before: seq<bv32>)
    returns (furthest': int, matches': IntPairList?, ghost reports': seq<Report>)
    requires ScanOk(c) && dst != src && dst.Length == MAXROWS && src.Length == MAXROWS
    requires Scanning(c, w, round, before, i, start, afterMatch, reports, furthest)
    requires i < StopOf(c, w, round)
    requires dst[..c.D + 1] == RowStep(before, c.masks[At(c.text, i)]) && dst[c.D] & c.endpos == 0
    requires Holds(matches, reports, c.python)
    requires matches != null ==> matches.pairs as object != dst && matches.pairs as object != src
    modifies dst, src, if matches == null then {} else {matches, matches.pairs}
    ensures Scanning(c, w, round, dst[..c.D + 1], i + 1, i + 1, true, reports', furthest')
    ensures Holds(matches', reports', c.python)
    ensures matches' != null ==> matches' == matches || fresh(matches')
    ensures matches' != null ==> (matches != null && matches'.pairs == old(matches.pairs)) || fresh(matches'.pairs)
    ensures Grows(reports, reports', round)
  {
    assert dst[..c.D + 1][c.D] == dst[c.D];
    furthest', matches', reports' := ReportMatch(c, dst[..c.D + 1], i, furthest, matches, w, round, start,
                                                 afterMatch, reports, before);
    assert matches' != null ==> matches'.pairs as object != dst && matches'.pairs as object != src;
    ghost var kept := matches'.Contents();
    ResetRows(dst, src, c.D);
    assert matches'.Contents() == kept;
  }

  /** The match block of the scan loop followed by the reset of both row sets. */
  method ReportMatch(c: Scan, rows: seq<bv32>, i: int, furthest: int, matches: IntPairList?,
                     ghost w: seq<IntPair>, ghost round: int, ghost start: int, ghost afterMatch: bool,
                     ghost reports: seq<Report>, ghost before: seq<bv32>)
    returns (furthest': int, matches': IntPairList?, ghost reports': seq<Report>)
    requires ScanOk(c) && Scanning(c, w, round, before, i, start, afterMatch, reports, furthest)
    requires i < StopOf(c, w, round)
    requires rows == RowStep(before, c.masks[At(c.text, i)]) && rows[c.D] & c.endpos == 0
    requires Holds(matches, reports, c.python)
    modifies if matches == null then {} else {matches, matches.pairs}
    ensures Scanning(c, w, round, Base(true, c.D), i + 1, i + 1, true, reports', furthest')
    ensures Holds(matches', reports', c.python)
    ensures matches' != null ==> matches' == matches || fresh(matches')
    ensures matches' != null ==> (matches != null && matches'.pairs == old(matches.pairs)) || fresh(matches'.pairs)
    ensures Grows(reports, reports', round)
  {
    ghost var rep;
    var m;
    furthest', m, rep := Resolve(c, rows, i, furthest, matches, round, start, afterMatch);
    Reported(c, w, round, before, rows, i, start, afterMatch, reports, furthest, rep);
    PairsAppend(reports, rep, c.python);
    matches' := m;
    reports' := reports + [rep];
    assert reports'[..|reports|] == reports;
  }

  /** One iteration of the scan loop: a half-step from R2 into R1, then one from R1 into R2. */
  method TwoSteps(c: Scan, R1: array<bv32>, R2: array<bv32>, i: int, furthest: int, matches: IntPairList?,
                  ghost w: seq<IntPair>, ghost round: int, ghost start: int, ghost afterMatch: bool,
                  ghost reports: seq<Report>)
    returns (furthest': int, matches': IntPairList?, ghost start': int, ghost afterMatch': bool,
             ghost reports': seq<Report>)
    requires ScanOk(c) && R1 != R2 && R1.Length == MAXROWS && R2.Length == MAXROWS
    requires Scanning(c, w, round, R2[..c.D + 1], i, start, afterMatch, reports, furthest)
    requires i < Hi(w[round], |c.text|) && i + 1 < StopOf(c, w, round)
    requires Holds(matches, reports, c.python)
    requires matches != null ==> matches.pairs as object != R1 && matches.pairs as object != R2
    modifies R1, R2, if matches == null then {} else {matches, matches.pairs}
    ensures Scanning(c, w, round, R2[..c.D + 1], i + 2, start', afterMatch', reports', furthest')
    ensures Holds(matches', reports', c.python)
    ensures matches' != null ==> matches' == matches || fresh(matches')
    ensures matches' != null ==> (matches != null && matches'.pairs == old(matches.pairs)) || fresh(matches'.pairs)
    ensures Grows(reports, reports', round)
  {
    ghost var r1, s1, a1;
    var f1, m1;
    f1, m1, s1, a1, r1 := HalfStep(c, R1, R2, i, furthest, matches, w, round, start, afterMatch, reports);
    furthest', matches', start', afterMatch', reports' := HalfStep(c, R2, R1, i + 1, f1, m1, w, round, s1, a1, r1);
    GrowsTrans(reports, r1, reports', round);
  }

  /** Before the first symbol of a window the rows are the fresh ones and nothing has fired. */
  lemma ScanBegins(c: Scan, w: seq<IntPair>, round: int, reports: seq<Report>, furthest: int)
    requires ScanOk(c) && 0 <= round < |w|
    requires ReportsOk(c, w, reports) && furthest == LastFurthest(reports) && -1 <= furthest
    requires |reports| == 0 || reports[|reports| - 1].round < round
    ensures Scanning(c, w, round, Base(false, c.D), Lo(w[round]), Lo(w[round]), false, reports, furthest)
  {
  }

  /** A scan that has passed the end of its window leaves a correct tail. */
  lemma ScanEnds(c: Scan, w: seq<IntPair>, round: int, src: seq<bv32>, i: int,
                 start: int, afterMatch: bool, reports: seq<Report>, furthest: int)
    requires ScanOk(c) && Scanning(c, w, round, src, i, start, afterMatch, reports, furthest)
    requires i == StopOf(c, w, round)
    ensures TailOk(c, w, reports, round, Tail(start, afterMatch, i, |reports|))
  {
  }

  /**
   * One round of the second phase: scan the clipped window [lo, hi) two
   * symbols per iteration, R1 from R2 and then R2 from R1.
   */
  method ScanWindow(c: Scan, R1: array<bv32>, R2: array<bv32>, lo: int, hi: int, furthest: int,
                    matches: IntPairList?, ghost w: seq<IntPair>, ghost round: int, ghost reports: seq<Report>)
    returns (furthest': int, matches': IntPairList?, ghost reports': seq<Report>, ghost tail: Tail)
    requires ScanOk(c) && R1 != R2 && R1.Length == MAXROWS && R2.Length == MAXROWS
    requires 0 <= round < |w| && lo == Lo(w[round]) && hi == Hi(w[round], |c.text|)
    requires ReportsOk(c, w, reports) && furthest == LastFurthest(reports) && -1 <= furthest
    requires |reports| == 0 || reports[|reports| - 1].round < round
    requires Holds(matches, reports, c.python)
    requires matches != null ==> matches.pairs as object != R1 && matches.pairs as object != R2
    modifies R1, R2, if matches == null then {} else {matches, matches.pairs}
    ensures ReportsOk(c, w, reports') && furthest' == LastFurthest(reports') && -1 <= furthest'
    ensures Grows(reports, reports', round)
    ensures TailOk(c, w, reports', round, tail) && tail.count == |reports'|
    ensures Holds(matches', reports', c.python)
    ensures matches' != null ==> matches' == matches || fresh(matches')
    ensures matches' != null ==> (matches != null && matches'.pairs == old(matches.pairs)) || fresh(matches'.pairs)
  {
    StartRows(R1, R2, c.D);
    ScanBegins(c, w, round, reports, furthest);
    var i := lo;
    ghost var passes := 0;
    ghost var start := lo;
    ghost var am := false;
    furthest', matches', reports' := furthest, matches, reports;
    while i < hi
      invariant i == lo + 2 * passes && 0 <= passes && (passes > 0 ==> i <= Stop(lo, hi))
      invariant Scanning(c, w, round, R2[..c.D + 1], i, start, am, reports', furthest')
      invariant Holds(matches', reports', c.python)
      invariant matches' != null ==> matches' == matches || fresh(matches')
      invariant matches' != null ==> (matches != null && matches'.pairs == old(matches.pairs)) || fresh(matches'.pairs)
      invariant Grows(reports, reports', round)
      decreases hi - i
    {
      ghost var r0 := reports';
      StopAhead(lo, hi, passes);
      furthest', matches', start, am, reports' := TwoSteps(c, R1, R2, i, furthest', matches', w, round, start, am, reports');
      i, passes := i + 2, passes + 1;
      GrowsTrans(reports, r0, reports', round);
    }
    StopReached(lo, hi, passes);
    ScanEnds(c, w, round, R2[..c.D + 1], i, start, am, reports', furthest');
    tail := Tail(start, am, i, |reports'|);
  }

  /** A tail stays right when later rounds add their reports. */
  lemma TailKept(c: Scan, w: seq<IntPair>, reports: seq<Report>, reports': seq<Report>, round: int, t: Tail)
    requires ScanOk(c) && 0 <= round < |w| && TailOk(c, w, reports, round, t)
    requires |reports| <= |reports'| && reports'[..|reports|] == reports
    requires forall k :: |reports| <= k < |reports'| ==> round < reports'[k].round
    ensures TailOk(c, w, reports', round, t)
  {
    assert forall k :: 0 <= k < |reports| ==> reports'[k] == reports[k];
  }

  /** Every window has been scanned: the reports are right and each round left a correct tail. */
  ghost predicate Searched(c: Scan, w: seq<IntPair>, reports: seq<Report>, tails: seq<Tail>)
    requires ScanOk(c)
  {
    && ReportsOk(c, w, reports) && |tails| == |w|
    && forall r :: 0 <= r < |w| ==> TailOk(c, w, reports, r, tails[r])
  }

  // ---------------------------------------------------------------------
  // The scan's specification has one solution: the reports are exactly
  // those of the scan, the first fire after each restart of each window.

  /** Where ReportAt puts report k among the others. */
  lemma PlaceOf(c: Scan, w: seq<IntPair>, reports: seq<Report>, k: int)
    requires ScanOk(c) && 0 <= k < |reports| && ReportAt(c, w, reports, k)
    ensures 0 <= reports[k].round < |w|
    ensures reports[k].start <= reports[k].pos < StopOf(c, w, reports[k].round)
    ensures k > 0 ==> reports[k - 1].round <= reports[k].round
    ensures reports[k].afterMatch ==> k > 0 && reports[k - 1].round == reports[k].round && reports[k].start == reports[k - 1].pos + 1
    ensures !reports[k].afterMatch ==> reports[k].start == Lo(w[reports[k].round]) && (k == 0 || reports[k - 1].round < reports[k].round)
  {
  }

  /** Rounds that never decrease from one report to the next never decrease over a stretch. */
  lemma {:induction false} Ascending(reports: seq<Report>, i: int, j: int)
    requires forall k :: 0 < k < |reports| ==> reports[k - 1].round <= reports[k].round
    requires 0 <= i <= j < |reports|
    ensures reports[i].round <= reports[j].round
    decreases j - i
  {
    if i < j {
      Ascending(reports, i, j - 1);
    }
  }

  /** Reports come in round order. */
  lemma RoundsOrdered(c: Scan, w: seq<IntPair>, reports: seq<Report>, i: int, j: int)
    requires ScanOk(c) && ReportsOk(c, w, reports) && 0 <= i <= j < |reports|
    ensures reports[i].round <= reports[j].round
  {
    forall k | 0 < k < |reports|
      ensures reports[k - 1].round <= reports[k].round
    {
      PlaceOf(c, w, reports, k);
    }
    Ascending(reports, i, j);
  }

  /** Two positions that both fire first after the same restart are the same. */
  lemma FirstFire(c: Scan, afterMatch: bool, start: int, p: int, q: int)
    requires ScanOk(c) && start <= p && start <= q
    requires Fires(c, afterMatch, start, p) && Quiet(c, afterMatch, start, p)
    requires Fires(c, afterMatch, start, q) && Quiet(c, afterMatch, start, q)
    ensures p == q
  {
  }

  /** A word has at most one furthest zero. */
  lemma FurthestZeroUnique(bits: bv32, z1: int, z2: int)
    requires IsFurthestZero(bits, z1) && IsFurthestZero(bits, z2)
    ensures z1 == z2
  {
    if bits != NoZero {
      LastZeroUnique(bits, z1 as bv32, z2 as bv32);
      SmallToBv(z1);
      SmallToBv(z2);
    }
  }

  /**
   * A report a placed right after reports[..k] in a round whose later
   * reports (if any) are in later rounds: that round's tail was counted at
   * k and restarted where a restarted.
   */
  lemma TailMatches(c: Scan, w: seq<IntPair>, reports: seq<Report>, tails: seq<Tail>, k: int, a: Report)
    requires ScanOk(c) && Searched(c, w, reports, tails) && 0 <= k <= |reports| && 0 <= a.round < |w|
    requires k > 0 ==> reports[k - 1].round <= a.round
    requires a.afterMatch ==> k > 0 && reports[k - 1].round == a.round && a.start == reports[k - 1].pos + 1
    requires !a.afterMatch ==> a.start == Lo(w[a.round]) && (k == 0 || reports[k - 1].round < a.round)
    requires k == |reports| || a.round < reports[k].round
    ensures tails[a.round].count == k
    ensures tails[a.round].afterMatch == a.afterMatch && tails[a.round].start == a.start
  {
    var t := tails[a.round];
    assert TailOk(c, w, reports, a.round, t);
    if t.count < k {
      assert false;
    } else if t.count > k {
      RoundsOrdered(c, w, reports, k, t.count - 1);
    }
  }

  /**
   * Whatever report could come right after reports[..k], the search made a
   * k-th report, in that report's round or an earlier one: a round the
   * search has left has a quiet tail, so nothing was missed there.
   */
  lemma NextRound(c: Scan, w: seq<IntPair>, reports: seq<Report>, tails: seq<Tail>, k: int, a: Report)
    requires ScanOk(c) && Searched(c, w, reports, tails) && 0 <= k <= |reports|
    requires ReportAt(c, w, reports[..k] + [a], k)
    ensures k < |reports| && reports[k].round <= a.round
  {
    if k == |reports| || a.round < reports[k].round {
      var prefix := reports[..k] + [a];
      PlaceOf(c, w, prefix, k);
      assert prefix[k] == a;
      assert k > 0 ==> prefix[k - 1] == reports[k - 1];
      TailMatches(c, w, reports, tails, k, a);
      assert false;
    }
  }

  /** ReportAt looks only at the reports up to its own. */
  lemma ReportAtPrefix(c: Scan, w: seq<IntPair>, reports: seq<Report>, k: int)
    requires ScanOk(c) && 0 <= k < |reports| && ReportAt(c, w, reports, k)
    ensures ReportAt(c, w, reports[..k] + [reports[k]], k)
  {
    var p := reports[..k] + [reports[k]];
    assert p[..k] == reports[..k];
    assert k > 0 ==> p[k - 1] == reports[k - 1];
  }

  /**
   * What exec_sagrepy reads from the rows at a fire (the error count, the
   * furthest zero, then furthest and the resolved span) is determined by
   * the rows: two reports at the same position read the same.
   */
  lemma SameReading(c: Scan, a: Report, b: Report, prevFurthest: int, rows: seq<bv32>)
    requires ScanOk(c) && c.D < 31 && |rows| == c.D + 1
    requires a.round == b.round && a.afterMatch == b.afterMatch && a.start == b.start && a.pos == b.pos
    requires ReadsRows(c, a, prevFurthest, rows) && ReadsRows(c, b, prevFurthest, rows)
    ensures a == b
  {
    ErrorCountUnique(rows, c.D, c.D - a.errors, c.D - b.errors);
    FurthestZeroUnique(rows[c.D], a.zero, b.zero);
  }

  /** Two reports made from the same restart after the same earlier reports are the same report. */
  lemma SameStartAgree(c: Scan, a: Report, b: Report, prevFurthest: int)
    requires ScanOk(c) && ReportOk(c, a, prevFurthest) && ReportOk(c, b, prevFurthest)
    requires a.round == b.round && a.afterMatch == b.afterMatch && a.start == b.start
    ensures a == b
  {
    FirstFire(c, a.afterMatch, a.start, a.pos, b.pos);
    SameReading(c, a, b, prevFurthest, RowsAt(c, a.afterMatch, a.start, a.pos + 1));
  }

  /** Two reports in the same round after the same earlier reports are the same report. */
  lemma SameRoundAgree(c: Scan, w: seq<IntPair>, r1: seq<Report>, r2: seq<Report>, k: int)
    requires ScanOk(c) && 0 <= k < |r1| && k < |r2| && r1[..k] == r2[..k]
    requires ReportAt(c, w, r1, k) && ReportAt(c, w, r2, k) && r1[k].round == r2[k].round
    ensures r1[k] == r2[k]
  {
    PlaceOf(c, w, r1, k);
    PlaceOf(c, w, r2, k);
    if k > 0 {
      assert r1[k - 1] == r1[..k][k - 1] == r2[..k][k - 1] == r2[k - 1];
    }
    SameStartAgree(c, r1[k], r2[k], LastFurthest(r1[..k]));
  }

  /** Two searches that agree on their first k reports agree on the next one. */
  lemma ReportsAgree(c: Scan, w: seq<IntPair>, r1: seq<Report>, t1: seq<Tail>, r2: seq<Report>, t2: seq<Tail>, k: int)
    requires ScanOk(c) && Searched(c, w, r1, t1) && Searched(c, w, r2, t2)
    requires 0 <= k < |r1| && k < |r2| && r1[..k] == r2[..k]
    ensures r1[k] == r2[k]
  {
    assert ReportAt(c, w, r1, k) && ReportAt(c, w, r2, k);
    ReportAtPrefix(c, w, r1, k);
    ReportAtPrefix(c, w, r2, k);
    assert r1[..k] + [r1[k]] == r2[..k] + [r1[k]];
    assert r2[..k] + [r2[k]] == r1[..k] + [r2[k]];
    NextRound(c, w, r2, t2, k, r1[k]);
    NextRound(c, w, r1, t1, k, r2[k]);
    SameRoundAgree(c, w, r1, r2, k);
  }

  /** The scan's specification determines the reports: two searches of the same windows report the same. */
  lemma SearchedUnique(c: Scan, w: seq<IntPair>, r1: seq<Report>, t1: seq<Tail>, r2: seq<Report>, t2: seq<Tail>)
    requires ScanOk(c) && Searched(c, w, r1, t1) && Searched(c, w, r2, t2)
    ensures r1 == r2
  {
    var k := 0;
    while k < |r1| && k < |r2|
      invariant 0 <= k <= |r1| && k <= |r2| && r1[..k] == r2[..k]
    {
      ReportsAgree(c, w, r1, t1, r2, t2, k);
      assert r1[..k + 1] == r1[..k] + [r1[k]];
      assert r2[..k + 1] == r2[..k] + [r2[k]];
      k := k + 1;
    }
    if k < |r1| {
      assert ReportAt(c, w, r1, k);
      ReportAtPrefix(c, w, r1, k);
      NextRound(c, w, r2, t2, k, r1[k]);
      assert false;
    } else if k < |r2| {
      assert ReportAt(c, w, r2, k);
      ReportAtPrefix(c, w, r2, k);
      NextRound(c, w, r1, t1, k, r2[k]);
      assert false;
    }
    assert r1 == r1[..k] && r2 == r2[..k];
  }

  /** The state of the second phase before round `round`. */
  ghost predicate Progress(c: Scan, w: seq<IntPair>, round: int, reports: seq<Report>, tails: seq<Tail>,
                           furthest: int)
    requires ScanOk(c)
  {
    && 0 <= round <= |w|
    && ReportsOk(c, w, reports) && furthest == LastFurthest(reports) && -1 <= furthest
    && (|reports| == 0 || reports[|reports| - 1].round < round)
    && |tails| == round && forall r :: 0 <= r < round ==> TailOk(c, w, reports, r, tails[r])
  }

  /** Closing round `round` keeps the tails of the earlier rounds right. */
  lemma RoundDone(c: Scan, w: seq<IntPair>, reports: seq<Report>, reports': seq<Report>,
                  tails: seq<Tail>, t: Tail, round: int, furthest: int, furthest': int)
    requires ScanOk(c) && round < |w| && Progress(c, w, round, reports, tails, furthest)
    requires ReportsOk(c, w, reports') && furthest' == LastFurthest(reports') && -1 <= furthest'
    requires Grows(reports, reports', round) && TailOk(c, w, reports', round, t) && t.count == |reports'|
    ensures Progress(c, w, round + 1, reports', tails + [t], furthest')
  {
    forall r | 0 <= r < round
      ensures TailOk(c, w, reports', r, tails[r])
    {
      TailKept(c, w, reports, reports', r, tails[r]);
    }
    if |reports'| > 0 {
      assert reports'[|reports'| - 1].round <= round by {
        if |reports| < |reports'| {
        } else {
          assert reports'[..|reports|] == reports;
          assert reports'[|reports'| - 1] == reports[|reports| - 1];
        }
      }
    }
  }

  /** One round of the second phase: cut window `round` to the text and scan it. */
  method ScanRound(c: Scan, cand: array<IntPair>, round: int, R1: array<bv32>, R2: array<bv32>,
                   furthest: int, matches: IntPairList?, ghost w: seq<IntPair>,
                   ghost reports: seq<Report>, ghost tails: seq<Tail>)
    returns (furthest': int, matches': IntPairList?, ghost reports': seq<Report>, ghost tails': seq<Tail>)
    requires ScanOk(c) && R1 != R2 && R1.Length == MAXROWS && R2.Length == MAXROWS
    requires 0 <= round < |w| <= cand.Length && cand[round] == w[round]
    requires Progress(c, w, round, reports, tails, furthest)
    requires Holds(matches, reports, c.python)
    requires matches != null ==> matches.pairs as object != R1 && matches.pairs as object != R2
    requires matches != null ==> matches.pairs != cand
    requires cand as object != R1 && cand as object != R2
    modifies cand, R1, R2, if matches == null then {} else {matches, matches.pairs}
    ensures Progress(c, w, round + 1, reports', tails', furthest')
    ensures Holds(matches', reports', c.python)
    ensures matches' != null ==> matches' == matches || fresh(matches')
    ensures matches' != null ==> (matches != null && matches'.pairs == old(matches.pairs)) || fresh(matches'.pairs)
    ensures forall r :: 0 <= r < cand.Length && r != round ==> cand[r] == old(cand[r])
  {
    var n := |c.text|;
    if cand[round].end > n {
      cand[round] := cand[round].(end := n);
    }
    var lo := Max(cand[round].start, 0);
    var hi := cand[round].end;
    ghost var t;
    furthest', matches', reports', t := ScanWindow(c, R1, R2, lo, hi, furthest, matches, w, round, reports);
    RoundDone(c, w, reports, reports', tails, t, round, furthest, furthest');
    tails' := tails + [t];
  }

  /** The second phase: scan the windows cand[0..cdx] in turn, each round clipping its own window. */
  method ScanRounds(c: Scan, cand: array<IntPair>, cdx: int, R1: array<bv32>, R2: array<bv32>, ghost w: seq<IntPair>)
    returns (matches: IntPairList?, ghost reports: seq<Report>, ghost tails: seq<Tail>)
    requires ScanOk(c) && R1 != R2 && R1.Length == MAXROWS && R2.Length == MAXROWS
    requires cand as object != R1 && cand as object != R2
    requires 0 <= cdx < cand.Length && cand[..cdx + 1] == w
    modifies cand, R1, R2
    ensures Searched(c, w, reports, tails)
    ensures Holds(matches, reports, c.python)
    ensures matches != null ==> fresh(matches) && fresh(matches.pairs)
  {
    var furthest := -1;
    matches := null;
    reports, tails := [], [];
    // The source also clips the start of window 1 at 0 here; each round
    // clips its own start, and window 1 never starts below 9 anyway.
    var round := 0;
    assert forall r :: 0 <= r <= cdx ==> cand[..cdx + 1][r] == cand[r];
    while round <= cdx
      invariant 0 <= round <= cdx + 1 && |w| == cdx + 1
      invariant forall r :: round <= r <= cdx ==> cand[r] == w[r]
      invariant Progress(c, w, round, reports, tails, furthest)
      invariant Holds(matches, reports, c.python)
      invariant matches != null ==> fresh(matches) && fresh(matches.pairs)
      invariant matches != null ==> matches.pairs as object != R1 && matches.pairs as object != R2
      invariant matches != null ==> matches.pairs != cand
    {
      furthest, matches, reports, tails := ScanRound(c, cand, round, R1, R2, furthest, matches, w, reports, tails);
      round := round + 1;
    }
  }

  /**
   * The second phase of exec_sagrepy with its rows: scan every window, then
   * return null for no match or the list cut to its contents.
   */
  method SearchWindows(c: Scan, cand: array<IntPair>, cdx: int, ghost w: seq<IntPair>)
    returns (matches: IntPairList?, ghost reports: seq<Report>, ghost tails: seq<Tail>)
    requires ScanOk(c) && 0 <= cdx < cand.Length && cand[..cdx + 1] == w
    modifies cand
    ensures Searched(c, w, reports, tails)
    ensures matches == null <==> |reports| == 0
    ensures matches != null ==> fresh(matches) && matches.pairs[..] == Pairs(reports, c.python)
  {
    var R1 := new bv32[MAXROWS];
    var R2 := new bv32[MAXROWS];
    matches, reports, tails := ScanRounds(c, cand, cdx, R1, R2, w);
    if matches != null {
      matches.Trim();
    }
  }

  /**
   * exec_sagrepy, the D-error search of the short engine: the filter
   * collects the candidate windows, then each window, cut to the text, is
   * scanned with the row vectors, and every position where the end test
   * fires adds the span found by FindStartPos to the list. An empty list
   * is returned as null; otherwise its array is cut to its contents.
   */
  method ExecSagrepy(pat: seq<Byte>, M: int, text: seq<Byte>, gotoends: bool, python: bool, params: SagrepParams)
    returns (matches: IntPairList?, ghost hits: seq<int>, ghost reports: seq<Report>, ghost tails: seq<Tail>)
    requires Ready(params) && 0 <= M && 1 <= FragLen(M, params.nErrors) <= 255 && |text| <= MAXTEXT
    ensures hits == FilterHits(params, text, FragLen(M, params.nErrors))
    ensures Increasing(hits)
    ensures forall k :: 0 <= k < |hits| ==> IsHit(params, text, FragLen(M, params.nErrors), hits[k])
    ensures Searched(Scan(pat, text, params.mask[..], params.nErrors, params.endposition, gotoends, python),
                     Windows(hits, M, params.nErrors), reports, tails)
    ensures matches == null <==> |reports| == 0
    ensures matches != null ==> fresh(matches) && matches.pairs[..] == Pairs(reports, python)
  {
    var cand, cdx;
    cand, cdx, hits := Filter(params, M, text);
    var c := Scan(pat, text, params.mask[..], params.nErrors, params.endposition, gotoends, python);
    matches, reports, tails := SearchWindows(c, cand, cdx, Windows(hits, M, params.nErrors));
  }
}
