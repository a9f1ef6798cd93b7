/**
 * The growable list of matches that both engines fill (add_ends in agrepy.c).
 * A list is created lazily on the first match; npairs is the index of the
 * last stored pair, so a list holds npairs + 1 pairs.
 */
module MatchList {
  import opened AgrepyDefs

  /** New capacity when the list is full: (int)(1.5 * maxpairs). */
  function Grown(maxpairs: int): (r: int)
    requires maxpairs >= 2
    ensures maxpairs < r
    ensures 2 * r <= 3 * maxpairs < 2 * r + 2
  {
    (3 * maxpairs) / 2
  }

  /** The stored end of a span: one past the last index in a PYTHON build. */
  function StoredEnd(end: int, python: bool): (r: int)
    ensures python ==> r == end + 1
    ensures !python ==> r == end
  {
    if python then end + 1 else end
  }

  class IntPairList {
    var npairs: int
    var maxpairs: int
    var pairs: array<IntPair>

    /** The list can take another pair: its buffer has maxpairs slots. */
    ghost predicate Valid()
      reads this
    {
      0 <= npairs < maxpairs == pairs.Length && INITPAIRS <= maxpairs
    }

    /** The stored pairs, oldest first. */
    ghost function Contents(): seq<IntPair>
      reads this, pairs
      requires 0 <= npairs < pairs.Length
    {
      pairs[..npairs + 1]
    }

    /** The first call of add_ends: a fresh list of INITPAIRS slots holding one pair. */
    constructor Single(start: int, end: int, python: bool)
      ensures Valid() && fresh(pairs)
      ensures maxpairs == INITPAIRS && npairs == 0
      ensures Contents() == [IntPair(start, StoredEnd(end, python))]
    {
      npairs := 0;
      maxpairs := INITPAIRS;
      var a := new IntPair[INITPAIRS](_ => IntPair(0, 0));
      a[0] := IntPair(start, StoredEnd(end, python));
      pairs := a;
    }

    /** A later call of add_ends: bump npairs, grow the buffer when full, store the pair. */
    method Add(start: int, end: int, python: bool)
      requires Valid()
      modifies this, pairs
      ensures Valid()
      ensures npairs == old(npairs) + 1
      ensures old(npairs) + 1 < old(maxpairs) ==> maxpairs == old(maxpairs) && pairs == old(pairs)
      ensures old(npairs) + 1 == old(maxpairs) ==> maxpairs == Grown(old(maxpairs)) && fresh(pairs)
      ensures Contents() == old(Contents()) + [IntPair(start, StoredEnd(end, python))]
    {
      npairs := npairs + 1;
      if npairs == maxpairs {
        var grown := Grown(maxpairs);
        var a := new IntPair[grown](_ => IntPair(0, 0));
        var k := 0;
        while k < npairs
          invariant 0 <= k <= npairs == maxpairs == pairs.Length < a.Length
          invariant pairs == old(pairs) && pairs[..] == old(pairs[..])
          invariant a[..k] == pairs[..k]
        {
          a[k] := pairs[k];
          k := k + 1;
        }
        maxpairs := grown;
        pairs := a;
      }
      pairs[npairs] := IntPair(start, StoredEnd(end, python));
    }

    /**
     * The final realloc of both engines: the buffer shrinks to npairs + 1
     * slots. maxpairs is left as it was, so the list is not Valid() for
     * further additions afterwards, exactly as in the C.
     */
    method Trim()
      requires Valid()
      modifies this
      ensures npairs == old(npairs) && maxpairs == old(maxpairs)
      ensures pairs.Length == npairs + 1 && fresh(pairs)
      ensures pairs[..] == old(Contents())
    {
      var a := new IntPair[npairs + 1](_ => IntPair(0, 0));
      var k := 0;
      while k <= npairs
        invariant 0 <= k <= npairs + 1 == a.Length <= pairs.Length
        invariant npairs == old(npairs) && maxpairs == old(maxpairs)
        invariant pairs == old(pairs) && pairs[..] == old(pairs[..])
        invariant a[..k] == pairs[..k]
      {
        a[k] := pairs[k];
        k := k + 1;
      }
      pairs := a;
    }
  }

  /**
   * add_ends: matches == null allocates the list; otherwise the pair is
   * appended to the existing list.
   */
  method AddEnds(start: int, end: int, matches: IntPairList?, python: bool) returns (r: IntPairList)
    requires matches != null ==> matches.Valid()
    modifies if matches == null then {} else {matches, matches.pairs}
    ensures r.Valid()
    ensures matches == null ==> fresh(r) && fresh(r.pairs)
    ensures matches != null ==> r.pairs == old(matches.pairs) || fresh(r.pairs)
    ensures matches == null ==> r.Contents() == [IntPair(start, StoredEnd(end, python))]
    ensures matches != null ==>
      r == matches && r.Contents() == old(matches.Contents()) + [IntPair(start, StoredEnd(end, python))]
  {
    if matches == null {
      r := new IntPairList.Single(start, end, python);
    } else {
      matches.Add(start, end, python);
      r := matches;
    }
  }
}
