/** Code points, code units and the surrogate ranges. Shifts and masks are written as arithmetic. */
module Unicode {
  type Byte = b: int | 0 <= b < 0x100
  type CodeUnit = u: int | 0 <= u < 0x1_0000
  type CodePoint = nat

  const MAX_CODE_POINT: CodePoint := 0x10_FFFF
  const BMP_END: CodePoint := 0xFFFF
  /** What the streams and the lexer read at the end of input: past every code point. */
  const EOF_CHAR: nat := 0x11_0000

  /** The byte at a position, or the end marker past the end. */
  function At(buf: seq<Byte>, p: nat): nat {
    if p < |buf| then buf[p] else EOF_CHAR
  }

  const HIGH_START: int := 0xD800
  const HIGH_END: int := 0xDBFF
  const LOW_START: int := 0xDC00
  const LOW_END: int := 0xDFFF

  predicate IsHigh(c: int) { HIGH_START <= c <= HIGH_END }
  predicate IsLow(c: int) { LOW_START <= c <= LOW_END }
  predicate IsSurrogate(c: int) { HIGH_START <= c <= LOW_END }

  function FromPair(high: CodeUnit, low: CodeUnit): (r: CodePoint)
    requires IsHigh(high) && IsLow(low)
    ensures 0x1_0000 <= r <= MAX_CODE_POINT
  {
    (high - HIGH_START) * 0x400 + (low - LOW_START) + 0x1_0000
  }

  /** The high and low surrogates of a supplementary code point. */
  function ToPair(c: CodePoint): (r: (CodeUnit, CodeUnit))
    requires 0x1_0000 <= c <= MAX_CODE_POINT
    ensures IsHigh(r.0) && IsLow(r.1) && FromPair(r.0, r.1) == c
  {
    ((c - 0x1_0000) / 0x400 + HIGH_START, (c - 0x1_0000) % 0x400 + LOW_START)
  }

  lemma PairRoundTrip(high: CodeUnit, low: CodeUnit)
    requires IsHigh(high) && IsLow(low)
    ensures ToPair(FromPair(high, low)) == (high, low)
  {
  }

  predicate InRange(cs: seq<CodePoint>) {
    forall i | 0 <= i < |cs| :: cs[i] <= MAX_CODE_POINT
  }
}
