/**
 * The front end of agrepy (agrepy.c): compile clamps the error budget and
 * builds the tables of the engine the pattern length selects; agrepy runs
 * that engine on a text.
 */
module Agrepy {
  import opened AgrepyDefs
  import opened MatchList
  import opened StartPos
  import opened SagrepyTables
  import opened SagrepyExec
  import opened Lagrepy

  /** The parameter union: the tables of one of the two engines. */
  datatype Engine = Short(s: SagrepParams) | Long(l: LagrepParams)

  /** What agrepy does with a pattern of a given length. */
  datatype Choice = ShortEngine | LongEngine | NoSearch

  /** compile's budget rule: 0 becomes 1, anything above 8 becomes 8, the rest is kept. */
  function ClampErrors(n: int): (r: int)
    ensures 1 <= n <= 8 ==> r == n
    ensures n == 0 ==> r == 1
    ensures 8 < n ==> r == 8
    ensures n < 0 ==> r == n
    ensures 0 <= n ==> 1 <= r <= 8
  {
    if n == 0 then 1 else if n > 8 then 8 else n
  }

  /** Clamping twice changes nothing more. */
  lemma ClampIdempotent(n: int)
    ensures ClampErrors(ClampErrors(n)) == ClampErrors(n)
  {
  }

  /** The guard agrepy.c uses before the long engine: the pattern is at most MAXPATLEN long. */
  predicate LongGuard(patlen: int)
  {
    SHORT_LONG < patlen <= MAXPATLEN
  }

  /** verify's two rows have room for cells 0..m+1. */
  predicate RowsFit(m: int)
  {
    m + 1 < MAXPATLEN
  }

  /** A pattern of 255 symbols passes the guard, yet verify would write row cell 256. */
  lemma LongGuardAdmitsOverflow()
    ensures LongGuard(255) && !RowsFit(255)
    ensures LongGuard(MAXPATLEN) && !RowsFit(MAXPATLEN)
  {
  }

  /** The guard the long engine needs: longer than the intended threshold, and rows with room for cells 0..m+1. */
  predicate LongFits(patlen: int)
  {
    INTENDED_SHORT_LONG < patlen && RowsFit(patlen)
  }

  /** The corrected guard admits exactly the lengths above the intended threshold that pass the original guard and fit. */
  lemma LongFitsIsGuardedFit(patlen: int)
    ensures LongFits(patlen) <==> INTENDED_SHORT_LONG < patlen && LongGuard(patlen) && RowsFit(patlen)
  {
  }

  /**
   * With SHORT_LONG as agrepy.h sets it, every pattern the short engine gets
   * has fragments of m = M/(D+1) = 0 symbols once compile has clamped the
   * budget, so exec_sagrepy's first shift m - 1 is -1.
   */
  lemma ShortEngineFragmentEmpty(patlen: int, n: int)
    requires 1 <= patlen <= SHORT_LONG && 0 <= n
    ensures FragLen(patlen, ClampErrors(n)) == 0
  {
  }

  /**
   * With SHORT_LONG as agrepy.h sets it, the long engine gets two-symbol
   * patterns, whose scan step m - 1 - D is not positive for any clamped budget.
   */
  lemma LongEngineStepNotPositive(n: int)
    requires 0 <= n
    ensures SHORT_LONG < 2 && 2 - 1 - ClampErrors(n) <= 0
  {
  }

  /**
   * With the intended threshold, the long engine steps forward for every
   * clamped budget, and the short engine has fragments of at least one
   * symbol whenever the pattern is longer than the budget.
   */
  lemma IntendedThresholdFits(patlen: int, n: int)
    requires 0 <= n
    ensures Choose(patlen) == LongEngine ==> 0 < patlen - 1 - ClampErrors(n)
    ensures Choose(patlen) == ShortEngine && 1 <= patlen && ClampErrors(n) < patlen ==>
      1 <= FragLen(patlen, ClampErrors(n)) <= 255
  {
    var D := ClampErrors(n);
    if Choose(patlen) == ShortEngine && 1 <= patlen && D < patlen {
      assert patlen / (D + 1) >= 1 by {
        DivAtLeastOne(patlen, D + 1);
      }
      assert patlen / (D + 1) <= patlen by {
        DivAtMost(patlen, D + 1);
      }
    }
  }

  lemma DivAtLeastOne(a: int, b: int)
    requires 0 < b <= a
    ensures 1 <= a / b
  {
  }

  lemma DivAtMost(a: int, b: int)
    requires 0 <= a && 0 < b
    ensures a / b <= a
  {
    var q, r := a / b, a % b;
    assert a == b * q + r && 0 <= r;
    if q > a {
      MulAtLeast(b, q);
    }
  }

  lemma MulAtLeast(b: int, q: int)
    requires 1 <= b && 0 <= q
    ensures q <= b * q
  {
    assert b * q == (b - 1) * q + q;
  }

  /** The engine agrepy runs for a pattern of length patlen (with the corrected threshold and long-pattern guard). */
  function Choose(patlen: int): (c: Choice)
    ensures c == ShortEngine <==> patlen <= INTENDED_SHORT_LONG
    ensures c == LongEngine ==> LongGuard(patlen) && RowsFit(patlen)
    ensures c == NoSearch ==> MAXPATLEN - 2 < patlen
  {
    if patlen <= INTENDED_SHORT_LONG then ShortEngine
    else if LongFits(patlen) then LongEngine
    else NoSearch
  }

  /** lagrepy_compile: fresh lagrep tables for the first patlen symbols of P. */
  method LagrepyCompile(P: seq<Byte>, patlen: int, nErrors: int) returns (params: LagrepParams)
    requires 0 <= patlen <= |P|
    ensures fresh(params) && fresh(params.member1) && params.Valid()
    ensures params.nErrors == nErrors && params.hashmask == HASHTABLESIZE - 1
    ensures IsMemberTable(P[..patlen], params.member1[..])
  {
    params := new LagrepParams();
    params.AmPreprocess(P[..patlen], nErrors);
  }

  /**
   * compile: clamp the budget, then build the short engine's tables when
   * patlen is at most the intended threshold and the long engine's otherwise.
   */
  method Compile(P: seq<Byte>, patlen: int, nErrors: int) returns (e: Engine)
    requires 1 <= patlen <= |P|
    requires patlen <= INTENDED_SHORT_LONG ==> 0 <= nErrors
    ensures e.Short? <==> patlen <= INTENDED_SHORT_LONG
    ensures e.Short? ==> fresh(e.s) && e.s.Valid() && e.s.nErrors == ClampErrors(nErrors)
    ensures e.Long? ==> fresh(e.l) && e.l.Valid() && e.l.nErrors == ClampErrors(nErrors)
    ensures e.Long? ==> e.l.hashmask == HASHTABLESIZE - 1 && IsMemberTable(P[..patlen], e.l.member1[..])
  {
    var D := ClampErrors(nErrors);
    if patlen <= INTENDED_SHORT_LONG {
      var s := SagrepyCompile(P, patlen, D);
      e := Short(s);
    } else {
      var l := LagrepyCompile(P, patlen, D);
      e := Long(l);
    }
  }

  /** compile and agrepy pick the same engine for every length agrepy searches with. */
  lemma CompileAgreesWithChoose(patlen: int)
    requires Choose(patlen) != NoSearch
    ensures Choose(patlen) == ShortEngine <==> patlen <= INTENDED_SHORT_LONG
    ensures Choose(patlen) == LongEngine <==> INTENDED_SHORT_LONG < patlen
  {
  }

  /**
   * agrepy: run the engine Choose picks; a pattern too long for it gives
   * no list. The short engine's hits, reports and tails and the long
   * engine's verify calls, spans and span starts are returned as ghosts.
   * The long engine makes at most fuel scan steps.
   */
  method Agrepy(pat: seq<Byte>, text: seq<Byte>, gotoends: bool, python: bool, params: Engine, fuel: nat)
    returns (matches: IntPairList?, ghost hits: seq<int>, ghost reports: seq<Report>, ghost tails: seq<Tail>,
             ghost calls: seq<int>, ghost spans: seq<Span>, ghost starts: seq<int>)
    requires Choose(|pat|) == ShortEngine ==>
      && params.Short? && Ready(params.s) && 1 <= FragLen(|pat|, params.s.nErrors) <= 255 && |text| <= MAXTEXT
    requires Choose(|pat|) == LongEngine ==>
      && params.Long? && params.l.Valid() && params.l.hashmask == HASHTABLESIZE - 1
      && IsMemberTable(pat, params.l.member1[..]) && NulFree(pat)
      && 0 <= params.l.nErrors && 0 < |pat| - 1 - params.l.nErrors
    ensures Choose(|pat|) == NoSearch ==> matches == null
    ensures Choose(|pat|) == ShortEngine ==>
      && hits == FilterHits(params.s, text, FragLen(|pat|, params.s.nErrors))
      && Increasing(hits)
      && (forall k :: 0 <= k < |hits| ==> IsHit(params.s, text, FragLen(|pat|, params.s.nErrors), hits[k]))
      && Searched(Scan(pat, text, params.s.mask[..], params.s.nErrors, params.s.endposition, gotoends, python),
                  Windows(hits, |pat|, params.s.nErrors), reports, tails)
    ensures Choose(|pat|) == ShortEngine ==> (matches == null <==> |reports| == 0)
    ensures Choose(|pat|) == ShortEngine && matches != null ==> matches.pairs[..] == Pairs(reports, python)
    ensures Choose(|pat|) == LongEngine ==>
      && Traced(params.l.member1[..], pat, text, params.l.nErrors, gotoends, calls, spans, starts)
      && spans == LagSpans(params.l.member1[..], pat, text, params.l.nErrors, gotoends, 0, fuel)
    ensures Choose(|pat|) == LongEngine ==> (matches == null <==> |spans| == 0)
    ensures Choose(|pat|) == LongEngine && matches != null ==> matches.pairs[..] == SpanPairs(spans, python)
    ensures matches != null ==> fresh(matches)
  {
    hits, reports, tails, calls, spans, starts := [], [], [], [], [], [];
    var choice := Choose(|pat|);
    if choice == ShortEngine {
      matches, hits, reports, tails := ExecSagrepy(pat, |pat|, text, gotoends, python, params.s);
    } else if choice == LongEngine {
      matches, calls, spans, starts := ExecLagrepy(pat, |pat|, text, gotoends, python, params.l, fuel);
    } else {
      matches := null;
    }
  }
}
