/**
 * The two word decoders of the short engine (sagrepy.c): furthest_zero and
 * count_errors. Bits are numbered from the most significant one, which is
 * bit 0, as the C comments do. The rows are unsigned 32-bit words.
 */
module SagrepyBits {

  /** The most significant bit of a word (Bit1 in the C). */
  const Bit1: bv32 := 0x8000_0000

  /** furthest_zero's answer when the word has no zero bit (-1 as an unsigned word). */
  const NoZero: bv32 := 0xFFFF_FFFF

  /** Bit p of b, counting from the most significant bit as bit 0. */
  function BitMsb(b: bv32, p: bv32): bv32
    requires p < 32
  {
    (b >> (31 - p)) & 1
  }

  /** Bit k of nibble p (nibble 0 is the most significant) is MSB-relative bit 4p+3-k. */
  lemma NibbleBit(bits: bv32, p: bv32, k: bv32)
    requires p < 8 && k < 4
    ensures BitMsb(bits, 4 * p + 3 - k) == ((bits >> (28 - 4 * p)) >> k) & 1
  {
  }

  /** Every bit to the right of bit p is one. */
  ghost predicate OnesAfter(b: bv32, p: bv32)
    requires p < 32
  {
    forall q: bv32 :: p < q < 32 ==> BitMsb(b, q) == 1
  }

  /**
   * furthest_zero: scans the word a nibble at a time from the least
   * significant end and returns the highest-numbered zero bit. The C returns
   * -1 as an int when there is none; here that is NoZero, and every other
   * result is a bit position 0..31. The C assumes a 4-byte int (8 nibbles).
   */
  method FurthestZero(bits: bv32) returns (r: bv32)
    ensures r == NoZero <==> bits == NoZero
    ensures r != NoZero ==> r < 32 && BitMsb(bits, r) == 0
    ensures r != NoZero ==> OnesAfter(bits, r)
  {
    var b := bits;
    var pos: bv32 := 8;
    while pos > 0
      invariant pos <= 8
      invariant b == bits >> (32 - 4 * pos)
      invariant forall q: bv32 :: 4 * pos <= q < 32 ==> BitMsb(bits, q) == 1
    {
      r := NibbleZero(bits, b, pos - 1);
      if r != NoZero {
        return;
      }
      b := b >> 4;
      pos := pos - 1;
    }
    AllOnes(bits);
    return NoZero;
  }

  /**
   * The switch of furthest_zero on nibble p (the low nibble of b): the
   * highest-numbered zero bit in it, or NoZero when the nibble is 0xF.
   */
  method NibbleZero(bits: bv32, b: bv32, p: bv32) returns (r: bv32)
    requires p < 8 && b == bits >> (28 - 4 * p)
    requires forall q: bv32 :: 4 * p + 4 <= q < 32 ==> BitMsb(bits, q) == 1
    ensures r == NoZero ==> forall q: bv32 :: 4 * p <= q < 32 ==> BitMsb(bits, q) == 1
    ensures r != NoZero ==> 4 * p <= r < 4 * p + 4 && BitMsb(bits, r) == 0 && OnesAfter(bits, r)
  {
    var nibble := b & 0xF;
    NibbleBit(bits, p, 0);
    NibbleBit(bits, p, 1);
    NibbleBit(bits, p, 2);
    NibbleBit(bits, p, 3);
    ghost var r0 := 4 * p + 3;
    assert OnesAfter(bits, r0);
    assert nibble & 1 == 1 ==> OnesAfter(bits, r0 - 1);
    assert nibble & 3 == 3 ==> OnesAfter(bits, r0 - 2);
    assert nibble & 7 == 7 ==> OnesAfter(bits, r0 - 3);
    if nibble in {0x0, 0x2, 0x4, 0x6, 0x8, 0xA, 0xC, 0xE} {
      r := 4 * p + 3;
    } else if nibble in {0x1, 0x5, 0x9, 0xD} {
      r := 4 * p + 2;
    } else if nibble in {0x3, 0xB} {
      r := 4 * p + 1;
    } else if nibble == 0x7 {
      r := 4 * p;
    } else {
      r := NoZero;
    }
  }

  /** A word all of whose 32 bits are one is the all-ones word. */
  lemma AllOnes(bits: bv32)
    requires forall q: bv32 :: q < 32 ==> BitMsb(bits, q) == 1
    ensures bits == 0xFFFF_FFFF
  {
    assert BitMsb(bits, 0) == 1 && BitMsb(bits, 1) == 1 && BitMsb(bits, 2) == 1 && BitMsb(bits, 3) == 1;
    assert BitMsb(bits, 4) == 1 && BitMsb(bits, 5) == 1 && BitMsb(bits, 6) == 1 && BitMsb(bits, 7) == 1;
    assert BitMsb(bits, 8) == 1 && BitMsb(bits, 9) == 1 && BitMsb(bits, 10) == 1 && BitMsb(bits, 11) == 1;
    assert BitMsb(bits, 12) == 1 && BitMsb(bits, 13) == 1 && BitMsb(bits, 14) == 1 && BitMsb(bits, 15) == 1;
    assert BitMsb(bits, 16) == 1 && BitMsb(bits, 17) == 1 && BitMsb(bits, 18) == 1 && BitMsb(bits, 19) == 1;
    assert BitMsb(bits, 20) == 1 && BitMsb(bits, 21) == 1 && BitMsb(bits, 22) == 1 && BitMsb(bits, 23) == 1;
    assert BitMsb(bits, 24) == 1 && BitMsb(bits, 25) == 1 && BitMsb(bits, 26) == 1 && BitMsb(bits, 27) == 1;
    assert BitMsb(bits, 28) == 1 && BitMsb(bits, 29) == 1 && BitMsb(bits, 30) == 1 && BitMsb(bits, 31) == 1;
  }

  /** j with its run of leading one bits shifted out. */
  function DropLeadingOnes(j: bv32): bv32
    decreases j
  {
    if j & Bit1 != 0 then DropLeadingOnes(j << 1) else j
  }

  /** The word whose c most significant bits are one and the others zero. */
  function HighOnes(c: nat): bv32
    requires c <= 32
  {
    if c == 0 then 0 else (HighOnes(c - 1) >> 1) | Bit1
  }

  /**
   * Row x has an embedded zero at error level i: once its i most significant
   * bits are discarded and then its leading zeros are skipped, a zero bit is
   * left (the test ~R[i] << i, shifted past its leading ones, is nonzero).
   */
  predicate Embedded(x: bv32, i: int)
    requires 0 <= i < 32
  {
    DropLeadingOnes(!x << i) != 0
  }

  /** The i+1 most significant bits of x are all zero. */
  predicate TopClear(x: bv32, i: nat)
    requires i < 32
    decreases i
  {
    x & Bit1 == 0 && (i == 0 || TopClear(x << 1, i - 1))
  }

  /** TopClear is the C's test against the i+1 high bits. */
  lemma {:induction false} TopClearMask(x: bv32, i: nat)
    requires i < 32
    ensures TopClear(x, i) <==> x & HighOnes(i + 1) == 0
    decreases i
  {
    if i > 0 {
      TopClearMask(x << 1, i - 1);
    }
  }

  /** The inner loop of count_errors: shift ~x << i past its leading ones. */
  method ShiftOutLeadingOnes(x: bv32, i: int) returns (j: bv32)
    requires 0 <= i < 32
    ensures (j != 0) == Embedded(x, i)
  {
    var j0 := !x << i;
    j := j0;
    while j & Bit1 != 0
      invariant DropLeadingOnes(j) == DropLeadingOnes(j0)
      decreases j
    {
      j := j << 1;
    }
  }

  /**
   * The number count_errors reports for rows[0..d]: the least row with an
   * embedded zero; failing that, the least row whose i+1 top bits are clear;
   * failing that, -1.
   */
  ghost predicate IsErrorCount(rows: seq<bv32>, d: int, r: int)
    requires 0 <= d < 31 && d < |rows|
  {
    && -1 <= r <= d
    && (forall i :: 0 <= i < r ==> !Embedded(rows[i], i))
    && (0 <= r ==> Embedded(rows[r], r) || TopClear(rows[r], r))
    && ((r == -1 || !Embedded(rows[r], r)) ==> forall i :: 0 <= i <= d ==> !Embedded(rows[i], i))
    && ((r == -1 || !Embedded(rows[r], r)) ==> forall i :: 0 <= i <= d && (r == -1 || i < r) ==> !TopClear(rows[i], i))
  }

  /** One step of top_bits: the mask test and the mask's update. */
  lemma TopBitsTest(x: bv32, topBits: bv32, i: nat)
    requires i < 31 && topBits == HighOnes(i + 1)
    ensures (x & topBits == 0) == TopClear(x, i)
    ensures (topBits >> 1) | Bit1 == HighOnes(i + 2)
  {
    TopClearMask(x, i);
  }

  /** No row below n has an embedded zero. */
  predicate NoneEmbedded(rows: seq<bv32>, n: nat)
    requires n <= |rows| && n <= 32
  {
    n == 0 || (NoneEmbedded(rows, n - 1) && !Embedded(rows[n - 1], n - 1))
  }

  /** No row below n has its top bits clear. */
  predicate NoneTopClear(rows: seq<bv32>, n: nat)
    requires n <= |rows| && n <= 32
  {
    n == 0 || (NoneTopClear(rows, n - 1) && !TopClear(rows[n - 1], n - 1))
  }

  /** The prefix predicates agree with their quantified forms. */
  lemma {:induction false} NoneEmbeddedAll(rows: seq<bv32>, n: nat)
    requires n <= |rows| && n <= 32
    ensures NoneEmbedded(rows, n) <==> forall t :: 0 <= t < n ==> !Embedded(rows[t], t)
  {
    if n > 0 {
      NoneEmbeddedAll(rows, n - 1);
    }
  }

  lemma {:induction false} NoneTopClearAll(rows: seq<bv32>, n: nat)
    requires n <= |rows| && n <= 32
    ensures NoneTopClear(rows, n) <==> forall t :: 0 <= t < n ==> !TopClear(rows[t], t)
  {
    if n > 0 {
      NoneTopClearAll(rows, n - 1);
    }
  }

  /** count_errors returning from inside its loop is right. */
  lemma ErrorCountAtEmbedded(rows: seq<bv32>, d: int, i: int)
    requires 0 <= d < 31 && d < |rows| && 0 <= i <= d
    requires NoneEmbedded(rows, i)
    requires Embedded(rows[i], i)
    ensures IsErrorCount(rows, d, i)
  {
    NoneEmbeddedAll(rows, i);
  }

  /** count_errors returning new_start after its loop is right. */
  lemma ErrorCountAtEnd(rows: seq<bv32>, d: int, newStart: int)
    requires 0 <= d < 31 && d < |rows| && -1 <= newStart <= d
    requires NoneEmbedded(rows, d + 1)
    requires newStart == -1 ==> NoneTopClear(rows, d + 1)
    requires 0 <= newStart ==> NoneTopClear(rows, newStart) && TopClear(rows[newStart], newStart)
    ensures IsErrorCount(rows, d, newStart)
  {
    NoneEmbeddedAll(rows, d + 1);
    if newStart == -1 {
      NoneTopClearAll(rows, d + 1);
    } else {
      NoneTopClearAll(rows, newStart);
    }
  }

  /**
   * count_errors over rows[0..d] (d = D). The C's Bit1 argument is always
   * 1 << 31 and is the constant Bit1 here.
   */
  method CountErrors(rows: seq<bv32>, d: int) returns (r: int)
    requires 0 <= d < 31 && d < |rows|
    ensures IsErrorCount(rows, d, r)
  {
    var newStart := -1;
    var topBits := Bit1;
    var i := 0;
    while i <= d
      invariant 0 <= i <= d + 1
      invariant NoneEmbedded(rows, i)
      invariant topBits == HighOnes(i + 1)
      invariant -1 <= newStart < i
      invariant newStart == -1 ==> NoneTopClear(rows, i)
      invariant 0 <= newStart ==> NoneTopClear(rows, newStart) && TopClear(rows[newStart], newStart)
    {
      var j := ShiftOutLeadingOnes(rows[i], i);
      if j != 0 {
        ErrorCountAtEmbedded(rows, d, i);
        return i;
      }
      newStart, topBits := TopBitsStep(rows, i, newStart, topBits);
      i := i + 1;
    }
    ErrorCountAtEnd(rows, d, newStart);
    return newStart;
  }

  /** The top_bits part of one count_errors iteration: note row i if its i+1 top bits are clear. */
  method TopBitsStep(rows: seq<bv32>, i: int, newStart: int, topBits: bv32) returns (newStart': int, topBits': bv32)
    requires 0 <= i < 31 && i < |rows| && topBits == HighOnes(i + 1) && -1 <= newStart < i
    requires newStart == -1 ==> NoneTopClear(rows, i)
    requires 0 <= newStart ==> NoneTopClear(rows, newStart) && TopClear(rows[newStart], newStart)
    ensures topBits' == HighOnes(i + 2) && -1 <= newStart' <= i
    ensures newStart' == -1 ==> NoneTopClear(rows, i + 1)
    ensures 0 <= newStart' ==> NoneTopClear(rows, newStart') && TopClear(rows[newStart'], newStart')
  {
    TopBitsTest(rows[i], topBits, i);
    newStart' := newStart;
    if newStart == -1 && rows[i] & topBits == 0 {
      newStart' := i;
    }
    topBits' := (topBits >> 1) | Bit1;
  }

  /** A word has at most one zero bit with only ones after it. */
  lemma LastZeroUnique(b: bv32, p1: bv32, p2: bv32)
    requires p1 < 32 && p2 < 32
    requires BitMsb(b, p1) == 0 && OnesAfter(b, p1)
    requires BitMsb(b, p2) == 0 && OnesAfter(b, p2)
    ensures p1 == p2
  {
    if p1 < p2 {
      assert false;
    } else if p2 < p1 {
      assert false;
    }
  }

  /** A bit position read back as an int is the int it came from. */
  lemma SmallToBv(z: int)
    requires 0 <= z < 32
    ensures (z as bv32) as int == z
  {
    var k: bv32 := 0;
    while k as int < z
      invariant k <= 32 && k as int <= z
    {
      k := k + 1;
    }
  }

  /** IsErrorCount pins the answer down: at most one r satisfies it. */
  lemma ErrorCountUnique(rows: seq<bv32>, d: int, r1: int, r2: int)
    requires 0 <= d < 31 && d < |rows|
    requires IsErrorCount(rows, d, r1) && IsErrorCount(rows, d, r2)
    ensures r1 == r2
  {
  }

  /** The bit that stands for pattern position j (Bit1 >> j in the C). */
  function Pos(j: nat): bv32
    requires j < 32
  {
    if j == 0 then Bit1 else Pos(j - 1) >> 1
  }

  /** Bit q of x is one, counting from the most significant bit as bit 0. */
  predicate BitSet(x: bv32, q: nat)
    requires q < 32
  {
    x & Pos(q) != 0
  }

  /** The word that counts up to j, for shifting by a pattern position. */
  function Index(j: nat): (r: bv32)
    requires j < 32
    ensures r as int == j && r < 32
  {
    if j == 0 then 0
    else
      var r' := Index(j - 1);
      assert r' != 31;
      SuccInt(r');
      r' + 1
  }

  lemma SuccInt(k: bv32)
    requires k < 32
    ensures (k + 1) as int == (k as int) + 1
  {
  }

  lemma ShrSucc(y: bv32, k: bv32)
    requires k < 31
    ensures (y >> k) >> 1 == y >> (k + 1)
  {
  }

  /** Pos(j) is the C's Bit1 >> j. */
  lemma {:induction false} PosShift(j: nat, jb: bv32)
    requires j < 32 && jb as int == j
    ensures Pos(j) == Bit1 >> jb
    decreases j
  {
    if j > 0 {
      SuccInt(jb - 1);
      PosShift(j - 1, jb - 1);
      ShrSucc(Bit1, jb - 1);
    }
  }

  lemma PosNonZero(j: nat)
    requires j < 32
    ensures Pos(j) != 0
  {
    PosShift(j, Index(j));
  }

  lemma ShrOneAnd(x: bv32, y: bv32)
    ensures (x >> 1) & (y >> 1) == (x & y) >> 1
    ensures Bit1 & (x >> 1) == 0
  {
  }

  /** Distinct positions have disjoint bits. */
  lemma {:induction false} PosDisjoint(j: nat, k: nat)
    requires j < 32 && k < 32 && j != k
    ensures Pos(j) & Pos(k) == 0
    decreases j + k
  {
    if j > 0 && k > 0 {
      PosDisjoint(j - 1, k - 1);
      ShrOneAnd(Pos(j - 1), Pos(k - 1));
    } else if j > 0 {
      ShrOneAnd(Pos(j - 1), Pos(j - 1));
    } else {
      ShrOneAnd(Pos(k - 1), Pos(k - 1));
    }
  }

  /** Shifting a word right by one moves its bit q to position q+1. */
  lemma ShrOneBit(x: bv32, q: nat)
    requires q < 32
    ensures q + 1 < 32 ==> ((x >> 1) & Pos(q + 1) == 0 <==> x & Pos(q) == 0)
    ensures (x >> 1) & Pos(0) == 0
  {
    if q + 1 < 32 {
      var qb := Index(q);
      PosShift(q, qb);
      SuccInt(qb);
      PosShift(q + 1, qb + 1);
      assert (x >> 1) & (Bit1 >> (qb + 1)) == (x & (Bit1 >> qb)) >> 1;
      assert x & (Bit1 >> qb) == 0 || x & (Bit1 >> qb) == Bit1 >> qb;
    }
  }

  /** The bits of HighOnes(k) are the positions below k. */
  lemma HighOnesBit(k: nat, q: nat)
    requires k <= 32 && q < 32
    ensures HighOnes(k) & Pos(q) != 0 <==> q < k
  {
    if q < k {
      HighOnesSet(k, q);
    } else {
      HighOnesClear(k, q);
    }
  }

  lemma {:induction false} HighOnesSet(k: nat, q: nat)
    requires q < k <= 32
    ensures HighOnes(k) & Pos(q) != 0
    decreases k
  {
    if q > 0 {
      HighOnesSet(k - 1, q - 1);
      ShrOneBit(HighOnes(k - 1), q - 1);
      assert HighOnes(k) & Pos(q) == ((HighOnes(k - 1) >> 1) & Pos(q)) | (Bit1 & Pos(q));
    }
  }

  lemma {:induction false} HighOnesClear(k: nat, q: nat)
    requires k <= q < 32
    ensures HighOnes(k) & Pos(q) == 0
    decreases k
  {
    if k > 0 {
      HighOnesClear(k - 1, q - 1);
      ShrOneBit(HighOnes(k - 1), q - 1);
      PosDisjoint(0, q);
      assert HighOnes(k) & Pos(q) == ((HighOnes(k - 1) >> 1) & Pos(q)) | (Bit1 & Pos(q));
    }
  }

  /** Adding position i to the first i positions gives the first i+1. */
  lemma {:induction false} HighOnesNext(i: nat)
    requires i < 32
    ensures HighOnes(i) | Pos(i) == HighOnes(i + 1)
    decreases i
  {
    if i > 0 {
      HighOnesNext(i - 1);
      assert (HighOnes(i - 1) >> 1) | (Pos(i - 1) >> 1) == (HighOnes(i - 1) | Pos(i - 1)) >> 1;
    }
  }

  /** x shifted right by s, one place at a time. */
  function ShrBy(x: bv32, s: nat): bv32
    requires s < 32
  {
    if s == 0 then x else ShrBy(x, s - 1) >> 1
  }

  lemma {:induction false} ShrByShift(x: bv32, s: nat, sb: bv32)
    requires s < 32 && sb as int == s
    ensures ShrBy(x, s) == x >> sb
    decreases s
  {
    if s > 0 {
      SuccInt(sb - 1);
      ShrByShift(x, s - 1, sb - 1);
      ShrSucc(x, sb - 1);
    }
  }

  /** Shifting right by s moves bit q - s to position q. */
  lemma ShrByBit(x: bv32, s: nat, q: nat)
    requires s < 32 && q < 32
    ensures ShrBy(x, s) & Pos(q) != 0 <==> s <= q && x & Pos(q - s) != 0
  {
    if s <= q {
      ShrByMoves(x, s, q);
    } else {
      ShrByClears(x, s, q);
    }
  }

  lemma ShrByMoves(x: bv32, s: nat, q: nat)
    requires s <= q < 32
    ensures x & Pos(q - s) == 0 ==> ShrBy(x, s) & Pos(q) == 0
    ensures x & Pos(q - s) != 0 ==> ShrBy(x, s) & Pos(q) != 0
  {
    if x & Pos(q - s) == 0 {
      ShrByMovesClear(x, s, q);
    } else {
      ShrByMovesSet(x, s, q);
    }
  }

  lemma {:induction false} ShrByMovesClear(x: bv32, s: nat, q: nat)
    requires s <= q < 32 && x & Pos(q - s) == 0
    ensures ShrBy(x, s) & Pos(q) == 0
    decreases s
  {
    if s > 0 {
      ShrByMovesClear(x, s - 1, q - 1);
      ShrOneClear(ShrBy(x, s - 1), q);
    }
  }

  lemma {:induction false} ShrByMovesSet(x: bv32, s: nat, q: nat)
    requires s <= q < 32 && x & Pos(q - s) != 0
    ensures ShrBy(x, s) & Pos(q) != 0
    decreases s
  {
    if s > 0 {
      ShrByMovesSet(x, s - 1, q - 1);
      ShrOneSet(ShrBy(x, s - 1), q);
    }
  }

  lemma ShrOneSet(y: bv32, q: nat)
    requires 0 < q < 32 && y & Pos(q - 1) != 0
    ensures (y >> 1) & Pos(q) != 0
  {
    ShrOneBit(y, q - 1);
  }

  lemma ShrOneClear(y: bv32, q: nat)
    requires 0 < q < 32 && y & Pos(q - 1) == 0
    ensures (y >> 1) & Pos(q) == 0
  {
    ShrOneBit(y, q - 1);
  }

  lemma {:induction false} ShrByClears(x: bv32, s: nat, q: nat)
    requires q < s < 32
    ensures ShrBy(x, s) & Pos(q) == 0
    decreases s
  {
    if q == 0 {
      ShrOneBit(ShrBy(x, s - 1), 0);
    } else {
      ShrByClears(x, s - 1, q - 1);
      ShrOneBit(ShrBy(x, s - 1), q - 1);
    }
  }
}
