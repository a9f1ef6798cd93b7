/**
 * Constants and shared value types of the agrepy engines (agrepy.h).
 */
module AgrepyDefs {

  const MAXPATLEN: int := 256
  const MAXSYM: int := 256
  const MEMBER_TABLE_SIZE: int := 8192
  const INITPAIRS: int := 10
  const HASHTABLESIZE: int := 65536
  const TWOBYTES: int := 16
  /** Patterns no longer than this go to the short engine, as agrepy.h sets it (a value meant for testing). */
  const SHORT_LONG: int := 1
  /**
   * The threshold the engines are written for: the short engine for simple
   * patterns up to 24 symbols, the long engine for longer ones.
   */
  const INTENDED_SHORT_LONG: int := 24

  /** A text or pattern symbol, read as an unsigned byte. */
  type Byte = b: int | 0 <= b < 256

  /** One reported match: first and last text index of the span. */
  datatype IntPair = IntPair(start: int, end: int)

  /**
   * The byte the C code reads at offset i of a NUL-terminated buffer.
   * Offsets outside the buffer read as NUL; the terminator itself is at |s|.
   */
  function At(s: seq<Byte>, i: int): Byte
  {
    if 0 <= i < |s| then s[i] else 0
  }

  /** min and max on integers. */
  function Min(a: int, b: int): int { if a < b then a else b }
  function Max(a: int, b: int): int { if a < b then b else a }
}
