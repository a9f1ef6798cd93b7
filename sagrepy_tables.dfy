/**
 * The tables of the short engine (sagrepy.c: prep, initmask,
 * sagrepy_compile). The pattern of length M is cut into D+1 fragments of
 * m = M/(D+1) symbols counted back from its end; the first p = M - m*(D+1)
 * symbols belong to no fragment. SHIFT drives a Boyer-Moore style skip over
 * the text, MEMBER holds the hashes of the last min(m, 3) symbols of every
 * fragment, and Mask/endposition feed the bit-parallel rows.
 */
module SagrepyTables {
  import opened AgrepyDefs
  import opened SagrepyBits

  /** Symbols per fragment. */
  function FragLen(M: int, D: int): int
    requires 0 <= M && 0 <= D
  {
    M / (D + 1)
  }

  /** Index of the last symbol of fragment i (fragment 0 ends the pattern). */
  function TailPos(M: int, m: int, i: int): int
  {
    M - 1 - m * i
  }

  /** Every fragment lies inside the pattern: its m symbols end at TailPos and start at or after p. */
  lemma FragmentsInside(M: int, D: int, i: int)
    requires 0 <= M && 0 <= D && 0 <= i <= D
    ensures var m := FragLen(M, D);
      M - m * (D + 1) <= TailPos(M, m, i) - m + 1 && TailPos(M, m, i) < M
      && 0 <= M - m * (D + 1)
  {
    var m := FragLen(M, D);
    assert m * (D + 1) <= M;
    assert m * i + m <= m * (D + 1) by {
      assert m * (D + 1) - (m * i + m) == m * (D - i);
    }
  }

  /** Where the first of the D+1 fragments begins: the M % (D+1) symbols before it are not used. */
  function FragStart(M: int, D: int): (p: int)
    requires 0 <= M && 0 <= D
    ensures 0 <= p <= M
    ensures p < M ==> 1 <= FragLen(M, D)
  {
    FragmentsInside(M, D, 0);
    M - FragLen(M, D) * (D + 1)
  }

  /** 4^b. */
  function Pow4(b: nat): nat
  {
    if b == 0 then 1 else 4 * Pow4(b - 1)
  }

  /**
   * The hash prep and exec_sagrepy compute over the b symbols that end at j,
   * the last symbol first: ((s[j]*4 + s[j-1])*4 + s[j-2]) ...
   */
  function FragHash(s: seq<Byte>, j: int, b: nat): (h: int)
    ensures 0 <= h <= 85 * (Pow4(b) - 1)
  {
    if b == 0 then 0 else FragHash(s, j, b - 1) * 4 + At(s, j - (b - 1))
  }

  /** Hashes of at most three symbols index MEMBER. */
  lemma FragHashFits(s: seq<Byte>, j: int, b: nat)
    requires b <= 3
    ensures 0 <= FragHash(s, j, b) < MEMBER_TABLE_SIZE
  {
    assert Pow4(3) == 64;
    assert Pow4(b) <= 64;
  }

  /**
   * Reference definition of a SHIFT entry for symbol c: the least distance
   * (M-1-i) mod m over the occurrences i of c at or after lo, or m when there
   * is none (always the case for m == 0, where no symbol lies in a fragment).
   */
  function BestShift(P: seq<Byte>, M: int, m: int, c: Byte, lo: int): (r: int)
    requires 0 <= lo <= M <= |P| && 0 <= m && (1 <= m || lo == M)
    ensures 0 <= r <= m
    ensures forall i :: lo <= i < M && P[i] == c ==> r <= (M - 1 - i) % m
    ensures r == m || exists i :: lo <= i < M && P[i] == c && r == (M - 1 - i) % m
    decreases M - lo
  {
    if lo == M then m
    else Min(BestShift(P, M, m, c, lo + 1), if P[lo] == c then (M - 1 - lo) % m else m)
  }

  /**
   * Symbol k places before the end of fragment i equals the last symbol of
   * fragment q: a shift of k could align a fragment end with a symbol.
   */
  ghost predicate EchoPair(P: seq<Byte>, M: int, D: int, k: int, i: int, q: int)
    requires 0 <= M <= |P| && 0 <= D
  {
    0 <= i <= D && 0 <= q <= D && 0 <= TailPos(M, FragLen(M, D), i) - k < M
    && 0 <= TailPos(M, FragLen(M, D), q) < M
    && P[TailPos(M, FragLen(M, D), i) - k] == P[TailPos(M, FragLen(M, D), q)]
  }

  /** Some pair of fragments echoes at distance k. */
  ghost predicate Echo(P: seq<Byte>, M: int, D: int, k: int)
    requires 0 <= M <= |P| && 0 <= D
  {
    exists i, q :: EchoPair(P, M, D, k, i, q)
  }

  /**
   * shift_1: the least k in 1..m-1 with an Echo, or m when there is none,
   * raised to 1 when m is 0.
   */
  ghost predicate IsShiftOne(P: seq<Byte>, M: int, D: int, s: int)
    requires 0 <= M <= |P| && 0 <= D
  {
    && 1 <= s <= Max(FragLen(M, D), 1)
    && (forall k :: 1 <= k < s ==> !Echo(P, M, D, k))
    && (s < FragLen(M, D) ==> Echo(P, M, D, s))
  }

  /** h is the hash of the last min(m, 3) symbols of one of the D+1 fragments. */
  ghost predicate IsFragmentHash(P: seq<Byte>, M: int, D: int, h: int)
    requires 0 <= M && 0 <= D
  {
    exists i :: 0 <= i <= D && h == FragmentHash(P, M, D, i)
  }

  /** The hash of fragment i: its last min(m, 3) symbols. */
  function FragmentHash(P: seq<Byte>, M: int, D: int, i: int): int
    requires 0 <= M && 0 <= D
  {
    FragHash(P, TailPos(M, FragLen(M, D), i), Min(FragLen(M, D), 3))
  }

  /** The hash prep computes for the fragment ending at j: its last b symbols, base 4, newest last. */
  method PrepHash(P: seq<Byte>, j: int, b: int) returns (hash: int)
    requires 0 <= b <= 3
    ensures hash == FragHash(P, j, b) && 0 <= hash < MEMBER_TABLE_SIZE
  {
    hash := 0;
    var k := 0;
    while k < b
      invariant 0 <= k <= b
      invariant hash == FragHash(P, j, k)
    {
      hash := hash * 4 + At(P, j - k);
      k := k + 1;
    }
    FragHashFits(P, j, b);
  }

  /** The D+1 fragment hashes prep stores, fragment 0 (the last) first. */
  ghost function FragmentHashes(P: seq<Byte>, M: int, D: int): (r: seq<int>)
    requires 0 <= M && 0 <= D
    ensures |r| == D + 1
  {
    seq(D + 1, i requires 0 <= i <= D => FragmentHash(P, M, D, i))
  }

  lemma FragmentHashesAre(P: seq<Byte>, M: int, D: int, h: int)
    requires 0 <= M && 0 <= D
    ensures h in FragmentHashes(P, M, D) <==> IsFragmentHash(P, M, D, h)
  {
    var r := FragmentHashes(P, M, D);
    if h in r {
      var i :| 0 <= i < |r| && r[i] == h;
      assert 0 <= i <= D && h == FragmentHash(P, M, D, i);
    }
    if IsFragmentHash(P, M, D, h) {
      var i :| 0 <= i <= D && h == FragmentHash(P, M, D, i);
      assert r[i] == h;
    }
  }

  /**
   * Mask for symbol c over the first n pattern positions: all ones except the
   * bit of every position j < n that holds c.
   */
  function MaskPrefix(P: seq<Byte>, c: Byte, n: nat): bv32
    requires n <= 32 && n <= |P|
  {
    if n == 0 then 0xFFFF_FFFF
    else MaskPrefix(P, c, n - 1) & (if P[n - 1] == c then !Pos(n - 1) else 0xFFFF_FFFF)
  }

  /** The mask of c has its bits clear exactly at the pattern positions holding c. */
  lemma MaskBits(P: seq<Byte>, c: Byte, n: nat)
    requires n <= |P| && n <= 32
    ensures forall q :: 0 <= q < 32 ==> (!BitSet(MaskPrefix(P, c, n), q) <==> q < n && P[q] == c)
  {
    forall q | 0 <= q < 32
      ensures !BitSet(MaskPrefix(P, c, n), q) <==> q < n && P[q] == c
    {
      MaskBit(P, c, n, q);
    }
  }

  /** Bit q of the mask of c is clear exactly when c stands at pattern position q. */
  lemma MaskBit(P: seq<Byte>, c: Byte, n: nat, q: nat)
    requires n <= |P| && n <= 32 && q < 32
    ensures q < n && P[q] == c ==> MaskPrefix(P, c, n) & Pos(q) == 0
    ensures !(q < n && P[q] == c) ==> MaskPrefix(P, c, n) & Pos(q) != 0
  {
    if q < n && P[q] == c {
      MaskBitClear(P, c, n, q);
    } else {
      MaskBitSet(P, c, n, q);
    }
  }

  lemma {:induction false} MaskBitSet(P: seq<Byte>, c: Byte, n: nat, q: nat)
    requires n <= |P| && n <= 32 && q < 32
    requires !(q < n && P[q] == c)
    ensures MaskPrefix(P, c, n) & Pos(q) != 0
    decreases n
  {
    if n == 0 {
      PosNonZero(q);
    } else {
      MaskBitSet(P, c, n - 1, q);
      if P[n - 1] == c {
        PosDisjoint(q, n - 1);
      }
    }
  }

  lemma {:induction false} MaskBitClear(P: seq<Byte>, c: Byte, n: nat, q: nat)
    requires q < n <= |P| && n <= 32 && P[q] == c
    ensures MaskPrefix(P, c, n) & Pos(q) == 0
    decreases n
  {
    if q < n - 1 {
      MaskBitClear(P, c, n - 1, q);
    }
  }

  /**
   * The bits of endposition: the D+1 fragment ends, i.e. the last D+1
   * positions of a pattern of m symbols.
   */
  lemma EndPositionBit(m: int, D: int, q: nat)
    requires 0 <= D < m <= 32 && q < 32
    ensures m - 1 - D <= q < m ==> ShrBy(HighOnes(D + 1), m - D - 1) & Pos(q) != 0
    ensures !(m - 1 - D <= q < m) ==> ShrBy(HighOnes(D + 1), m - D - 1) & Pos(q) == 0
  {
    var s := m - D - 1;
    if s <= q {
      ShrByMoves(HighOnes(D + 1), s, q);
      HighOnesBit(D + 1, q - s);
    } else {
      ShrByClears(HighOnes(D + 1), s, q);
    }
  }

  /** The sagrep_struct of agrepy.h. */
  class SagrepParams {
    const shift: array<int>
    const member: array<bool>
    const mask: array<bv32>
    var endposition: bv32
    var shift1: int
    var nErrors: int

    ghost predicate Valid()
    {
      && shift.Length == MAXSYM && member.Length == MEMBER_TABLE_SIZE && mask.Length == MAXSYM
      && shift as object != mask && member as object != mask && shift as object != member
    }

    constructor ()
      ensures Valid() && fresh(shift) && fresh(member) && fresh(mask)
    {
      shift := new int[MAXSYM];
      member := new bool[MEMBER_TABLE_SIZE];
      mask := new bv32[MAXSYM];
    }

    /** prep: SHIFT, shift_1 and MEMBER for pattern[0..M) and error budget D. */
    method Prep(P: seq<Byte>, M: int, D: int)
      requires Valid() && 0 <= D && 0 <= M <= |P| && FragLen(M, D) <= 255
      modifies this, shift, member
      ensures nErrors == D && endposition == old(endposition)
      ensures shift[0] == 0
      ensures forall c :: 1 <= c < MAXSYM ==>
        shift[c] == BestShift(P, M, FragLen(M, D), c, M - FragLen(M, D) * (D + 1))
      ensures IsShiftOne(P, M, D, shift1)
      ensures forall h :: 0 <= h < MEMBER_TABLE_SIZE ==> (member[h] <==> IsFragmentHash(P, M, D, h))
    {
      nErrors := D;
      ShiftTable(P, M, D);
      ShiftOne(P, M, D);
      MemberTable(P, M, D);
    }

    /** The SHIFT loops of prep. */
    method ShiftTable(P: seq<Byte>, M: int, D: int)
      requires Valid() && 0 <= D && 0 <= M <= |P| && FragLen(M, D) <= 255
      modifies shift
      ensures shift[0] == 0
      ensures forall c :: 1 <= c < MAXSYM ==>
        shift[c] == BestShift(P, M, FragLen(M, D), c, M - FragLen(M, D) * (D + 1))
    {
      var m := FragLen(M, D);
      var p := FragStart(M, D);
      FillShift(m);
      shift[0] := 0;
      var i := M - 1;
      while i >= p
        invariant p - 1 <= i < M
        invariant shift[0] == 0
        invariant forall c :: 1 <= c < MAXSYM ==> shift[c] == BestShift(P, M, m, c, i + 1)
      {
        LowerShift(P, M, m, i);
        i := i - 1;
      }
    }

    /** The first SHIFT loop of prep: every symbol but NUL gets m. */
    method FillShift(m: int)
      requires Valid()
      modifies shift
      ensures forall c :: 1 <= c < MAXSYM ==> shift[c] == m
    {
      var i := 1;
      while i < MAXSYM
        invariant 1 <= i <= MAXSYM
        invariant forall c :: 1 <= c < i ==> shift[c] == m
      {
        shift[i] := m;
        i := i + 1;
      }
    }

    /** One step of the second SHIFT loop: pattern position i may lower the shift of its symbol. */
    method LowerShift(P: seq<Byte>, M: int, m: int, i: int)
      requires Valid() && 0 <= i < M <= |P| && 1 <= m && shift[0] == 0
      requires forall c :: 1 <= c < MAXSYM ==> shift[c] == BestShift(P, M, m, c, i + 1)
      modifies shift
      ensures shift[0] == 0
      ensures forall c :: 1 <= c < MAXSYM ==> shift[c] == BestShift(P, M, m, c, i)
    {
      var s := (M - 1 - i) % m;
      var hash := P[i];
      if shift[hash] > s {
        shift[hash] := s;
      }
    }

    /** The shift_1 loops of prep. */
    method ShiftOne(P: seq<Byte>, M: int, D: int)
      requires 0 <= D && 0 <= M <= |P|
      modifies this`shift1
      ensures IsShiftOne(P, M, D, shift1)
    {
      var m := M / (D + 1);
      shift1 := m;
      var i := 0;
      while i < D + 1
        invariant 0 <= i <= D + 1
        invariant 0 <= shift1 <= m && (1 <= m ==> 1 <= shift1)
        invariant NoEchoBefore(P, M, D, shift1, i, 1, 0)
        invariant shift1 < m ==> Echo(P, M, D, shift1)
      {
        FragmentsInside(M, D, i);
        var j := M - 1 - m * i;
        var k := 1;
        while k < m
          invariant 1 <= k <= Max(m, 1)
          invariant 0 <= shift1 <= m && (1 <= m ==> 1 <= shift1)
          invariant NoEchoBefore(P, M, D, shift1, i, k, 0)
          invariant shift1 < m ==> Echo(P, M, D, shift1)
        {
          var q := 0;
          while q < D + 1
            invariant 0 <= q <= D + 1
            invariant 1 <= shift1 <= m
            invariant NoEchoBefore(P, M, D, shift1, i, k, q)
            invariant shift1 < m ==> Echo(P, M, D, shift1)
          {
            FragmentsInside(M, D, q);
            if P[j - k] == P[M - 1 - m * q] {
              assert EchoPair(P, M, D, k, i, q);
              if k < shift1 {
                shift1 := k;
              }
            }
            q := q + 1;
          }
          k := k + 1;
        }
        i := i + 1;
      }
      // Only a pattern shorter than D+1 symbols (m == 0) leaves shift_1 at 0.
      if shift1 == 0 {
        shift1 := 1;
      }
      forall k, i', q' | 1 <= k < shift1 && 0 <= i' <= D
        ensures !EchoPair(P, M, D, k, i', q')
      {
        assert Before(i', k, q', D + 1, 1, 0);
      }
    }

    /** The first MEMBER loop of prep: every entry false. */
    method ClearMember()
      requires Valid()
      modifies member
      ensures forall h :: 0 <= h < MEMBER_TABLE_SIZE ==> !member[h]
    {
      var i := 0;
      while i < MEMBER_TABLE_SIZE
        invariant 0 <= i <= MEMBER_TABLE_SIZE
        invariant forall h :: 0 <= h < i ==> !member[h]
      {
        member[i] := false;
        i := i + 1;
      }
    }

    /** The MEMBER loops of prep. */
    method MemberTable(P: seq<Byte>, M: int, D: int)
      requires Valid() && 0 <= D && 0 <= M <= |P|
      modifies member
      ensures forall h :: 0 <= h < MEMBER_TABLE_SIZE ==> (member[h] <==> IsFragmentHash(P, M, D, h))
    {
      var m := FragLen(M, D);
      ClearMember();
      var bSize := 3;
      if m < 3 {
        bSize := m;
      }
      ghost var all := FragmentHashes(P, M, D);
      var i := 0;
      while i <= D
        invariant 0 <= i <= D + 1
        invariant forall h :: 0 <= h < MEMBER_TABLE_SIZE ==> (member[h] <==> h in all[..i])
      {
        var hash := PrepHash(P, TailPos(M, m, i), bSize);
        member[hash] := true;
        assert all[..i + 1] == all[..i] + [hash];
        i := i + 1;
      }
      assert all[..D + 1] == all;
      forall h | 0 <= h < MEMBER_TABLE_SIZE
        ensures member[h] <==> IsFragmentHash(P, M, D, h)
      {
        FragmentHashesAre(P, M, D, h);
      }
    }

    /**
     * initmask: endposition marks the D+1 fragment ends, and Mask[c] has a
     * zero bit at each of the m pattern positions that hold c.
     */
    method InitMask(P: seq<Byte>, m: int, D: int)
      requires Valid() && 0 <= D < m <= 32 && m <= |P|
      modifies this`endposition, mask
      ensures forall q: nat :: q < 32 ==> (BitSet(endposition, q) <==> m - 1 - D <= q < m)
      ensures forall c :: 0 <= c < MAXSYM ==> mask[c] == MaskPrefix(P, c, m)
      ensures forall c, q :: 0 <= c < MAXSYM && 0 <= q < 32 ==> (!BitSet(mask[c], q) <==> q < m && P[q] == c)
    {
      EndPosition(m, D);
      Masks(P, m);
      forall c | 0 <= c < MAXSYM
        ensures forall q :: 0 <= q < 32 ==> (!BitSet(mask[c], q) <==> q < m && P[q] == c)
      {
        MaskBits(P, c, m);
      }
    }

    /** The endposition loop of initmask. */
    method EndPosition(m: int, D: int)
      requires 0 <= D < m <= 32
      modifies this`endposition
      ensures forall q: nat :: q < 32 ==> (BitSet(endposition, q) <==> m - 1 - D <= q < m)
    {
      var e: bv32 := 0;
      var i := 0;
      while i < D + 1
        invariant 0 <= i <= D + 1
        invariant e == HighOnes(i)
      {
        var ib := Index(i);
        PosShift(i, ib);
        HighOnesNext(i);
        e := e | (Bit1 >> ib);
        i := i + 1;
      }
      var sb := Index(m - D - 1);
      ShrByShift(e, m - D - 1, sb);
      endposition := e >> sb;
      forall q: nat | q < 32
        ensures BitSet(endposition, q) <==> m - 1 - D <= q < m
      {
        EndPositionBit(m, D, q);
      }
    }

    /** The Mask loops of initmask. */
    method Masks(P: seq<Byte>, m: int)
      requires Valid() && 0 <= m <= 32 && m <= |P|
      modifies mask
      ensures forall c :: 0 <= c < MAXSYM ==> mask[c] == MaskPrefix(P, c, m)
    {
      var i := 0;
      while i < MAXSYM
        invariant 0 <= i <= MAXSYM
        invariant forall c :: 0 <= c < i ==> mask[c] == 0xFFFF_FFFF
      {
        mask[i] := 0xFFFF_FFFF;
        i := i + 1;
      }
      i := 0;
      while i < m
        invariant 0 <= i <= m
        invariant forall c :: 0 <= c < MAXSYM ==>
          mask[c] == if c in P[..i] then MaskPrefix(P, c, m) else 0xFFFF_FFFF
      {
        var c := P[i];
        ghost var start := mask[c];
        ClearSymbol(P, m, c);
        AndMaskIdem(start, MaskPrefix(P, c, m));
        assert P[..i + 1] == P[..i] + [c];
        i := i + 1;
      }
      forall c | 0 <= c < MAXSYM
        ensures mask[c] == MaskPrefix(P, c, m)
      {
        if c !in P[..m] {
          MaskAbsent(P, c, m);
        }
      }
    }
    /** The inner loop of initmask: clear in Mask[c] the bit of every position that holds c. */
    method ClearSymbol(P: seq<Byte>, m: int, c: Byte)
      requires Valid() && 0 <= m <= 32 && m <= |P|
      modifies mask
      ensures mask[c] == AndMask(old(mask[c]), MaskPrefix(P, c, m))
      ensures forall c' :: 0 <= c' < MAXSYM && c' != c ==> mask[c'] == old(mask[c'])
    {
      ghost var start := mask[c];
      var j := 0;
      while j < m
        invariant 0 <= j <= m
        invariant mask[c] == AndMask(start, MaskPrefix(P, c, j))
        invariant forall c' :: 0 <= c' < MAXSYM && c' != c ==> mask[c'] == old(mask[c'])
      {
        MaskPrefixStep(start, P, c, j);
        if c == P[j] {
          var jb := Index(j);
          PosShift(j, jb);
          mask[c] := mask[c] & !(Bit1 >> jb);
        }
        j := j + 1;
      }
    }
  }

  function AndMask(x: bv32, y: bv32): bv32
  {
    x & y
  }

  /**
   * sagrepy_compile: the tables of the short engine for pattern[0..patlen)
   * and error budget nErrors. initmask is given D = 0, so endposition marks
   * the last pattern position only.
   */
  method SagrepyCompile(P: seq<Byte>, patlen: int, nErrors: int) returns (params: SagrepParams)
    requires 0 <= nErrors && 1 <= patlen <= 32 && patlen <= |P| && FragLen(patlen, nErrors) <= 255
    ensures fresh(params) && params.Valid()
    ensures params.nErrors == nErrors
    ensures params.shift[0] == 0
    ensures forall c :: 1 <= c < MAXSYM ==>
      params.shift[c] == BestShift(P, patlen, FragLen(patlen, nErrors), c, patlen - FragLen(patlen, nErrors) * (nErrors + 1))
    ensures IsShiftOne(P, patlen, nErrors, params.shift1)
    ensures forall h :: 0 <= h < MEMBER_TABLE_SIZE ==>
      (params.member[h] <==> IsFragmentHash(P, patlen, nErrors, h))
    ensures forall q: nat :: q < 32 ==> (BitSet(params.endposition, q) <==> q == patlen - 1)
    ensures forall c :: 0 <= c < MAXSYM ==> params.mask[c] == MaskPrefix(P, c, patlen)
  {
    params := new SagrepParams();
    params.Prep(P, patlen, nErrors);
    params.InitMask(P, patlen, 0);
  }

  /** One step of the inner loop of initmask, for position j. */
  lemma MaskPrefixStep(start: bv32, P: seq<Byte>, c: Byte, j: nat)
    requires j < 32 && j < |P|
    ensures P[j] == c ==> AndMask(start, MaskPrefix(P, c, j)) & !Pos(j) == AndMask(start, MaskPrefix(P, c, j + 1))
    ensures P[j] != c ==> AndMask(start, MaskPrefix(P, c, j)) == AndMask(start, MaskPrefix(P, c, j + 1))
  {
  }

  /** Masking twice with the same mask, or first with all ones, is masking once. */
  lemma AndMaskIdem(x: bv32, y: bv32)
    requires x == y || x == 0xFFFF_FFFF
    ensures AndMask(x, y) == y
  {
  }

  /** A symbol absent from the pattern keeps an all-ones mask. */
  lemma {:induction false} MaskAbsent(P: seq<Byte>, c: Byte, n: nat)
    requires n <= 32 && n <= |P| && c !in P[..n]
    ensures MaskPrefix(P, c, n) == 0xFFFF_FFFF
    decreases n
  {
    if n > 0 {
      assert P[n - 1] in P[..n];
      assert P[..n - 1] <= P[..n];
      MaskAbsent(P, c, n - 1);
    }

  }

  /** (i', k', q') comes before (i, k, q) in the order prep's loops visit them. */
  predicate Before(i': int, k': int, q': int, i: int, k: int, q: int)
  {
    i' < i || (i' == i && (k' < k || (k' == k && q' < q)))
  }

  /** No triple visited before (i, k, q) echoes at a distance below s. */
  ghost predicate NoEchoBefore(P: seq<Byte>, M: int, D: int, s: int, i: int, k: int, q: int)
    requires 0 <= M <= |P| && 0 <= D
  {
    forall i', k', q' :: 1 <= k' < s && Before(i', k', q', i, k, q) ==> !EchoPair(P, M, D, k', i', q')
  }
}
