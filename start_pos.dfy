/**
 * The boundary resolver shared by both engines (find_start_pos_main and
 * find_start_pos in sagrepy.c). Once an engine knows that the pattern ends
 * with at most max_errs errors at some text position, the resolver walks
 * back over pattern and text together to find where the match starts.
 *
 * The C passes nerrors, firstok and firstpatok in and out through pointers
 * and keeps them per branch, while lastpatok is one cell shared by every call
 * of the search. Here a call returns all five as a Resolved value, and
 * lastpatok is threaded through the calls in the order the C makes them.
 */
module StartPos {
  import opened AgrepyDefs

  /** The in/out state of a resolver call; lastok is its return value. */
  datatype Resolved = Resolved(lastok: int, lastpatok: int, nerrors: int, firstok: int, firstpatok: int)

  /** The part of a leaf of the search that the tie-break looks at, plus firstpatok. */
  datatype Outcome = Outcome(nerrors: int, lastok: int, firstok: int, firstpatok: int)

  function OutcomeOf(r: Resolved): Outcome
  {
    Outcome(r.nerrors, r.lastok, r.firstok, r.firstpatok)
  }

  /** strlen: the length up to the first NUL byte. */
  function StrLen(s: seq<Byte>): (n: nat)
    ensures n <= |s|
    ensures forall k :: 0 <= k < n ==> s[k] != 0
    ensures n < |s| ==> s[n] == 0
  {
    if |s| == 0 || s[0] == 0 then 0 else 1 + StrLen(s[1..])
  }

  /**
   * The tie-break the mismatch branch applies, under strict comparison:
   * fewer errors, then an earlier start, then an earlier last match.
   */
  predicate Better(x: Outcome, y: Outcome)
  {
    x.nerrors < y.nerrors
    || (x.nerrors == y.nerrors && x.lastok < y.lastok)
    || (x.nerrors == y.nerrors && x.lastok == y.lastok && x.firstok < y.firstok)
  }

  /** find_start_pos_main. */
  function FindStartPosMain(patn: seq<Byte>, patend: int, text: seq<Byte>, textend: int,
                            lastpatok: int, lastok: int, maxErrs: int,
                            nerrors: int, firstok: int, firstpatok: int): (r: Resolved)
    requires patend >= -1
    ensures r.lastpatok <= lastpatok
    ensures r.lastpatok == lastpatok || 0 <= r.lastpatok <= patend
    ensures r.firstpatok == firstpatok || 0 <= r.firstpatok <= patend
    decreases patend + 1, maxErrs + 1 - nerrors
  {
    if patend == -1 || nerrors > maxErrs then
      Resolved(lastok, lastpatok, nerrors, firstok, firstpatok)
    else if At(patn, patend) == At(text, textend) then
      var newer := textend > firstok;
      FindStartPosMain(patn, patend - 1, text, textend - 1,
                       if patend < lastpatok then patend else lastpatok,
                       textend, maxErrs,
                       if newer then StrLen(patn) - patend - 1 else nerrors,
                       if newer then textend else firstok,
                       if newer then patend else firstpatok)
    else
      var a := FindStartPosMain(patn, patend, text, textend - 1, lastpatok, lastok, maxErrs,
                                nerrors + 1, firstok, firstpatok);
      var b := FindStartPosMain(patn, patend - 1, text, textend - 1, a.lastpatok, lastok, maxErrs,
                                nerrors + 1, firstok, firstpatok);
      var ab := if Better(OutcomeOf(b), OutcomeOf(a)) then b else a.(lastpatok := b.lastpatok);
      var c := FindStartPosMain(patn, patend - 1, text, textend, b.lastpatok, lastok, maxErrs,
                                nerrors + 1, firstok, firstpatok);
      if Better(OutcomeOf(c), OutcomeOf(ab)) then c else ab.(lastpatok := c.lastpatok)
  }

  /**
   * Reference definition: the outcomes at the leaves of the resolver's
   * search tree. A leaf is reached when the pattern is used up or the error
   * budget is exceeded; an equal symbol steps both indices back, a mismatch
   * branches three ways (skip a text symbol, skip both, skip a pattern symbol)
   * at the cost of one error.
   */
  ghost function Outcomes(patn: seq<Byte>, patend: int, text: seq<Byte>, textend: int,
                          lastok: int, maxErrs: int, nerrors: int, firstok: int, firstpatok: int): set<Outcome>
    requires patend >= -1
    decreases patend + 1, maxErrs + 1 - nerrors
  {
    if patend == -1 || nerrors > maxErrs then
      {Outcome(nerrors, lastok, firstok, firstpatok)}
    else if At(patn, patend) == At(text, textend) then
      var newer := textend > firstok;
      Outcomes(patn, patend - 1, text, textend - 1, textend, maxErrs,
               if newer then StrLen(patn) - patend - 1 else nerrors,
               if newer then textend else firstok,
               if newer then patend else firstpatok)
    else
      Outcomes(patn, patend, text, textend - 1, lastok, maxErrs, nerrors + 1, firstok, firstpatok)
      + Outcomes(patn, patend - 1, text, textend - 1, lastok, maxErrs, nerrors + 1, firstok, firstpatok)
      + Outcomes(patn, patend - 1, text, textend, lastok, maxErrs, nerrors + 1, firstok, firstpatok)
  }

  /** o is a leaf of the set and no leaf is Better than o. */
  ghost predicate IsMinimum(o: Outcome, leaves: set<Outcome>)
  {
    o in leaves && forall x :: x in leaves ==> !Better(x, o)
  }

  /**
   * The resolver returns a leaf of its search tree, and no leaf is Better:
   * its (errors, start, last match) is the lexicographic minimum.
   */
  lemma {:induction false} FindStartPosMainIsMinimum(patn: seq<Byte>, patend: int, text: seq<Byte>, textend: int,
                                                     lastpatok: int, lastok: int, maxErrs: int,
                                                     nerrors: int, firstok: int, firstpatok: int)
    requires patend >= -1
    ensures IsMinimum(OutcomeOf(FindStartPosMain(patn, patend, text, textend, lastpatok, lastok, maxErrs, nerrors, firstok, firstpatok)),
                      Outcomes(patn, patend, text, textend, lastok, maxErrs, nerrors, firstok, firstpatok))
    decreases patend + 1, maxErrs + 1 - nerrors, 1
  {
    if patend == -1 || nerrors > maxErrs {
    } else if At(patn, patend) == At(text, textend) {
      MatchIsMinimum(patn, patend, text, textend, lastpatok, lastok, maxErrs, nerrors, firstok, firstpatok);
    } else {
      MismatchIsMinimum(patn, patend, text, textend, lastpatok, lastok, maxErrs, nerrors, firstok, firstpatok);
    }
  }

  /** The match branch keeps the minimum, given that its call returns its own. */
  lemma MatchIsMinimum(patn: seq<Byte>, patend: int, text: seq<Byte>, textend: int,
                       lastpatok: int, lastok: int, maxErrs: int,
                       nerrors: int, firstok: int, firstpatok: int)
    requires 0 <= patend && nerrors <= maxErrs && At(patn, patend) == At(text, textend)
    ensures IsMinimum(OutcomeOf(FindStartPosMain(patn, patend, text, textend, lastpatok, lastok, maxErrs, nerrors, firstok, firstpatok)),
                      Outcomes(patn, patend, text, textend, lastok, maxErrs, nerrors, firstok, firstpatok))
    decreases patend + 1, maxErrs + 1 - nerrors, 0
  {
    var newer := textend > firstok;
    FindStartPosMainIsMinimum(patn, patend - 1, text, textend - 1,
                              if patend < lastpatok then patend else lastpatok,
                              textend, maxErrs,
                              if newer then StrLen(patn) - patend - 1 else nerrors,
                              if newer then textend else firstok,
                              if newer then patend else firstpatok);
  }

  /** The mismatch branch keeps the minimum, given that its three calls return theirs. */
  lemma MismatchIsMinimum(patn: seq<Byte>, patend: int, text: seq<Byte>, textend: int,
                          lastpatok: int, lastok: int, maxErrs: int,
                          nerrors: int, firstok: int, firstpatok: int)
    requires 0 <= patend && nerrors <= maxErrs && At(patn, patend) != At(text, textend)
    ensures IsMinimum(OutcomeOf(FindStartPosMain(patn, patend, text, textend, lastpatok, lastok, maxErrs, nerrors, firstok, firstpatok)),
                      Outcomes(patn, patend, text, textend, lastok, maxErrs, nerrors, firstok, firstpatok))
    decreases patend + 1, maxErrs + 1 - nerrors, 0
  {
    var a := FindStartPosMain(patn, patend, text, textend - 1, lastpatok, lastok, maxErrs,
                              nerrors + 1, firstok, firstpatok);
    var b := FindStartPosMain(patn, patend - 1, text, textend - 1, a.lastpatok, lastok, maxErrs,
                              nerrors + 1, firstok, firstpatok);
    var c := FindStartPosMain(patn, patend - 1, text, textend, b.lastpatok, lastok, maxErrs,
                              nerrors + 1, firstok, firstpatok);
    FindStartPosMainIsMinimum(patn, patend, text, textend - 1, lastpatok, lastok, maxErrs,
                              nerrors + 1, firstok, firstpatok);
    FindStartPosMainIsMinimum(patn, patend - 1, text, textend - 1, a.lastpatok, lastok, maxErrs,
                              nerrors + 1, firstok, firstpatok);
    FindStartPosMainIsMinimum(patn, patend - 1, text, textend, b.lastpatok, lastok, maxErrs,
                              nerrors + 1, firstok, firstpatok);
    MinOfThree(OutcomeOf(a), OutcomeOf(b), OutcomeOf(c),
               Outcomes(patn, patend, text, textend - 1, lastok, maxErrs, nerrors + 1, firstok, firstpatok),
               Outcomes(patn, patend - 1, text, textend - 1, lastok, maxErrs, nerrors + 1, firstok, firstpatok),
               Outcomes(patn, patend - 1, text, textend, lastok, maxErrs, nerrors + 1, firstok, firstpatok));
  }

  /** Keeping the first of three minima unless a later one is Better gives the minimum of the union. */
  lemma MinOfThree(oa: Outcome, ob: Outcome, oc: Outcome, sa: set<Outcome>, sb: set<Outcome>, sc: set<Outcome>)
    requires IsMinimum(oa, sa) && IsMinimum(ob, sb) && IsMinimum(oc, sc)
    ensures var oab := if Better(ob, oa) then ob else oa;
      IsMinimum(if Better(oc, oab) then oc else oab, sa + sb + sc)
  {
  }

  /** What find_start_pos reports: the match start (its result) and end (*firstok). */
  datatype Span = Span(start: int, end: int)

  /**
   * find_start_pos: resolve from (patend, textend) with no errors yet and no
   * match seen. With gotoends the span is stretched to where the whole
   * pattern would start and end.
   */
  function FindStartPos(patn: seq<Byte>, patend: int, text: seq<Byte>, textend: int,
                        maxErrs: int, gotoends: bool): Span
    requires patend >= -1
  {
    var r := FindStartPosMain(patn, patend, text, textend, patend, textend, maxErrs, 0, -1, -1);
    if !gotoends then Span(r.lastok, r.firstok)
    else Span(r.lastok - r.lastpatok, r.firstok + (StrLen(patn) - r.firstpatok - 1))
  }

  /** Going to the ends never narrows the span, when patend lies inside the pattern. */
  lemma GotoEndsWidens(patn: seq<Byte>, patend: int, text: seq<Byte>, textend: int, maxErrs: int)
    requires 0 <= patend < StrLen(patn)
    ensures var plain := FindStartPos(patn, patend, text, textend, maxErrs, false);
      var ends := FindStartPos(patn, patend, text, textend, maxErrs, true);
      ends.start <= plain.start && plain.end <= ends.end
  {
  }

  /**
   * A stretch of the pattern that matches the text exactly, walked back with
   * no newer last match to record, ends at the text position of its first
   * symbol and leaves the error count as it was.
   */
  lemma {:induction false} ExactStretch(patn: seq<Byte>, patend: int, text: seq<Byte>, textend: int,
                                        lastpatok: int, lastok: int, maxErrs: int,
                                        nerrors: int, firstok: int, firstpatok: int)
    requires 0 <= patend && nerrors <= maxErrs && textend <= firstok
    requires forall k :: 0 <= k <= patend ==> At(patn, k) == At(text, textend - patend + k)
    ensures FindStartPosMain(patn, patend, text, textend, lastpatok, lastok, maxErrs, nerrors, firstok, firstpatok)
         == Resolved(textend - patend, Min(lastpatok, 0), nerrors, firstok, firstpatok)
    decreases patend
  {
    assert At(patn, patend) == At(text, textend);
    if patend > 0 {
      ExactStretch(patn, patend - 1, text, textend - 1, Min(lastpatok, patend), textend, maxErrs,
                   nerrors, firstok, firstpatok);
    }
  }

  /** An exact occurrence of the whole pattern ending at textend resolves to exactly that occurrence. */
  lemma ExactMatchResolves(patn: seq<Byte>, text: seq<Byte>, textend: int, maxErrs: int, gotoends: bool)
    requires 0 < StrLen(patn) && 0 <= maxErrs && StrLen(patn) - 1 <= textend
    requires forall k :: 0 <= k < StrLen(patn) ==> At(patn, k) == At(text, textend - StrLen(patn) + 1 + k)
    ensures FindStartPos(patn, StrLen(patn) - 1, text, textend, maxErrs, gotoends)
         == Span(textend - StrLen(patn) + 1, textend)
  {
    var patend := StrLen(patn) - 1;
    assert At(patn, patend) == At(text, textend);
    var r := FindStartPosMain(patn, patend, text, textend, patend, textend, maxErrs, 0, -1, -1);
    assert r == FindStartPosMain(patn, patend - 1, text, textend - 1, patend, textend, maxErrs, 0, textend, patend);
    if patend > 0 {
      ExactStretch(patn, patend - 1, text, textend - 1, patend, textend, maxErrs, 0, textend, patend);
    }
    assert r == Resolved(textend - patend, 0, 0, textend, patend);
  }
}
