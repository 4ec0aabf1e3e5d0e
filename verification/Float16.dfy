/**
  Conversion of a 64-bit float to a 16-bit float, on bit patterns.

  Shifts and masks of unsigned integers are written as division and remainder by powers of two.
 */
module Float16 {
  import opened Rounding

  const HIDDEN64: nat := 0x10_0000_0000_0000  // 2^52
  const HIDDEN16: nat := 0x400                // 2^10
  const DROPPED: nat := 0x400_0000_0000       // 2^42, the fraction bits that a 16-bit float lacks
  const SIGN64: nat := 0x8000_0000_0000_0000
  const SIGN16: nat := 0x8000
  const WORD64: nat := 0x1_0000_0000_0000_0000
  const WORD16: nat := 0x1_0000

  const INFINITY64: nat := 0x7FF * HIDDEN64
  const INFINITY16: nat := 0x7C00
  const NAN16: nat := 0x7E00

  const INFINITY_THRESHOLD: nat := (1023 + 16) * HIDDEN64
  const NORMAL_THRESHOLD: nat := (1023 - 14) * HIDDEN64
  const DENORMAL_MAGIC: nat := (1023 - 14 + 52 - 10) * HIDDEN64
  const NORMAL_MAGIC: nat := (WORD64 + (15 - 1023) * HIDDEN64) + (DROPPED / 2 - 1)

  /** How many smallest 64-bit subnormals make one smallest 16-bit subnormal: 2^-24 over 2^-1074. */
  function Scale(): (r: nat)
    ensures r > 0
  {
    Pow2(1050)
  }

  function Value64(bits: nat): nat { Units(HIDDEN64, bits) }

  function Value16(bits: nat): nat { Units(HIDDEN16, bits) }

  /** The magnitude from which on rounding overflows: the largest finite value plus half of its last place. */
  function Overflow(): nat {
    (0xFFF * 0x1000_0000) * Scale()
  }

  /**
    The 16-bit magnitude that section 4.3.1 of IEEE 754-2019 prescribes for a finite value: the nearest
    finite one, ties to even, or infinity from the overflow threshold on.
   */
  ghost predicate CorrectlyRounded(x: nat, h: nat) {
    if x >= Overflow() then h == INFINITY16
    else h < INFINITY16 && NearestEven(HIDDEN16, Scale(), INFINITY16 - 1, x, h)
  }

  /** The result of adding two finite 64-bit magnitudes whose sum does not overflow. */
  ghost predicate IsSum64(a: nat, b: nat, sum: nat) {
    NearestEven(HIDDEN64, 1, INFINITY64 - 1, Value64(a) + Value64(b), sum)
  }

  ghost predicate MagnitudeConverts(magnitude: nat, h: nat) {
    && (magnitude > INFINITY64 ==> h > INFINITY16)
    && (magnitude == INFINITY64 ==> h == INFINITY16)
    && (magnitude < INFINITY64 ==> CorrectlyRounded(Value64(magnitude), h))
  }

  ghost predicate Converts(bits: nat, r: nat) {
    r < WORD16 && r / SIGN16 == bits / SIGN64 && MagnitudeConverts(bits % SIGN64, r % SIGN16)
  }

  /**
    `sum` is what the hardware returns for the addition of the magic number, which is used for small
    values only.
   */
  method F64ToF16(bits: nat, sum: nat) returns (r: nat)
    requires bits < WORD64
    requires bits % SIGN64 < NORMAL_THRESHOLD ==> IsSum64(bits % SIGN64, DENORMAL_MAGIC, sum)
    ensures Converts(bits, r)
  {
    hide Converts, MagnitudeConverts, IsSum64;
    var sign := bits / SIGN64;
    var input := bits % SIGN64;
    var result;
    if input > INFINITY64 {
      result := NAN16;
      NotFinite(input);
    } else if input >= INFINITY_THRESHOLD {
      result := INFINITY16;
      NotFinite(input);
    } else if input < NORMAL_THRESHOLD {
      result := ((sum + WORD64 - DENORMAL_MAGIC) % WORD64) % WORD16;
      SmallConverts(input, sum);
    } else {
      var isMantissaOdd := (input / DROPPED) % 2;
      var shifted := (input + NORMAL_MAGIC) % WORD64;
      shifted := (shifted + isMantissaOdd) % WORD64;
      result := (shifted / DROPPED) % WORD16;
      NormalConverts(input);
    }
    r := result + sign * SIGN16;
    WithSign(bits, result);
  }

  lemma WithSign(bits: nat, h: nat)
    requires bits < WORD64 && h < SIGN16 && MagnitudeConverts(bits % SIGN64, h)
    ensures Converts(bits, h + bits / SIGN64 * SIGN16)
  {
    hide MagnitudeConverts;
    var sign := bits / SIGN64;
    assert sign < 2;
    if sign == 1 { assert (h + SIGN16) % SIGN16 == h; }
  }

  lemma NotFinite(input: nat)
    requires INFINITY_THRESHOLD <= input
    ensures MagnitudeConverts(input, if input > INFINITY64 then NAN16 else INFINITY16)
  {
    if input < INFINITY64 { LargeRounds(input); }
    hide CorrectlyRounded, Value64;
  }

  lemma SmallConverts(input: nat, sum: nat)
    requires input < NORMAL_THRESHOLD && IsSum64(input, DENORMAL_MAGIC, sum)
    ensures DENORMAL_MAGIC <= sum
    ensures
      var h := ((sum + WORD64 - DENORMAL_MAGIC) % WORD64) % WORD16;
      h < SIGN16 && MagnitudeConverts(input, h)
  {
    hide CorrectlyRounded, IsSum64, Value64;
    SmallSum(input, sum);
    WrapsTo(sum - DENORMAL_MAGIC);
  }

  lemma WrapsTo(h: nat)
    requires h < WORD16
    ensures ((h + WORD64) % WORD64) % WORD16 == h
  {
  }

  lemma NormalConverts(input: nat)
    requires NORMAL_THRESHOLD <= input < INFINITY_THRESHOLD
    ensures
      var shifted := ((input + NORMAL_MAGIC) % WORD64 + (input / DROPPED) % 2) % WORD64;
      var h := (shifted / DROPPED) % WORD16;
      h < SIGN16 && MagnitudeConverts(input, h)
  {
    hide CorrectlyRounded, Value64, RoundsUp, FloorPattern;
    NormalRounds(input);
    NormalBits(input);
  }

  /** What adding the magic number does to the pattern of a normal result. */
  lemma NormalBits(input: nat)
    requires NORMAL_THRESHOLD <= input < INFINITY_THRESHOLD
    ensures
      var shifted := ((input + NORMAL_MAGIC) % WORD64 + (input / DROPPED) % 2) % WORD64;
      (shifted / DROPPED) % WORD16
      == (if RoundsUp(input) then FloorPattern(input) + 1 else FloorPattern(input)) <= INFINITY16
  {
    var q, r := input / DROPPED, input % DROPPED;
    var odd := q % 2;
    assert input == q * DROPPED + r;
    assert 1009 * HIDDEN16 <= q < 1039 * HIDDEN16;
    var moved := (q - 1008 * HIDDEN16) * DROPPED + r + (DROPPED / 2 - 1);
    assert input + NORMAL_MAGIC == WORD64 + moved;
    assert (input + NORMAL_MAGIC) % WORD64 == moved;
    assert (moved + odd) % WORD64 == moved + odd;
  }

  /** The 16-bit pattern whose value is the largest up to that of a pattern in the normal range. */
  function FloorPattern(input: nat): int {
    input / DROPPED - 1008 * HIDDEN16
  }

  predicate RoundsUp(input: nat) {
    input % DROPPED > DROPPED / 2 || (input % DROPPED == DROPPED / 2 && (input / DROPPED) % 2 == 1)
  }

  // Powers of two.

  lemma SmallPowers()
    ensures Pow2(12) == 0x1000 && Pow2(42) == DROPPED
  {
    assert Pow2(5) == 32 && Pow2(10) == 0x400 by { Pow2Add(5, 5); }
    assert Pow2(2) == 4;
    Pow2Add(10, 2);
    assert Pow2(20) == 0x10_0000 by { Pow2Add(10, 10); }
    assert Pow2(40) == 0x100_0000_0000 by { Pow2Add(20, 20); }
    Pow2Add(40, 2);
  }

  lemma Times(a: nat, b: nat, p: nat)
    ensures a * (b * p) == (a * b) * p
  {
  }

  // Values of at least 2^16.

  lemma LargeOverflows(input: nat)
    requires INFINITY_THRESHOLD <= input < INFINITY64
    ensures Value64(input) >= Overflow()
  {
    hide Units, Pow2;
    if INFINITY_THRESHOLD < input {
      Monotone(HIDDEN64, INFINITY_THRESHOLD, input);
    }
    SmallPowers();
    Pow2Add(12, 1038);
    PowerOfTwo(HIDDEN64, 1039);
  }

  /** A pattern without a fraction. */
  lemma PowerOfTwo(m: nat, e: nat)
    requires m > 0 && e > 0
    ensures Units(m, e * m) == m * Pow2(e - 1)
  {
    Decompose(m, e, 0);
    hide Pow2;
  }

  lemma LargeRounds(input: nat)
    requires INFINITY_THRESHOLD <= input < INFINITY64
    ensures CorrectlyRounded(Value64(input), INFINITY16)
  {
    LargeOverflows(input);
  }

  // Values below 2^-14, for which the sum with the magic number has the result as its fraction.

  lemma SmallSum(input: nat, sum: nat)
    requires input < NORMAL_THRESHOLD && IsSum64(input, DENORMAL_MAGIC, sum)
    ensures DENORMAL_MAGIC <= sum <= DENORMAL_MAGIC + 0x400
    ensures CorrectlyRounded(Value64(input), sum - DENORMAL_MAGIC)
  {
    hide Units, NearestEven, Scale, CorrectlyRounded;
    var x, s := Value64(input), Scale();
    SmallIsBelow(input);
    var k, rem := Divide(x, s, 0x400);
    var up := 2 * rem > s || (2 * rem == s && k % 2 == 1);
    RoundSum(x, k, rem, up);
    NearestEvenUnique(HIDDEN64, 1, INFINITY64 - 1, x + Value64(DENORMAL_MAGIC), sum,
                      if up then DENORMAL_MAGIC + k + 1 else DENORMAL_MAGIC + k);
    RoundSmall(x, k, rem, up);
  }

  /** `x` is `rem` past the multiple `k` of the place of a 16-bit subnormal. */
  ghost predicate IsPast(x: nat, k: nat, rem: nat) {
    x == k * Scale() + rem
  }

  /** The sum of a small value and the magic number rounds at the last place of a 16-bit subnormal. */
  lemma RoundSum(x: nat, k: nat, rem: nat, up: bool)
    requires k < 0x400 && IsPast(x, k, rem) && rem < Scale()
    requires up <==> 2 * rem > Scale() || (2 * rem == Scale() && k % 2 == 1)
    ensures NearestEven(HIDDEN64, 1, INFINITY64 - 1, x + Value64(DENORMAL_MAGIC),
                        if up then DENORMAL_MAGIC + k + 1 else DENORMAL_MAGIC + k)
  {
    hide Units, NearestEven, Scale, IsPast;
    MagicPlaces(x, k, rem);
    RoundOverGap(HIDDEN64, INFINITY64 - 1, x + Value64(DENORMAL_MAGIC), DENORMAL_MAGIC, k, Scale(), rem, up);
  }

  /** A small value past the magic number lies between two patterns one 16-bit subnormal apart. */
  lemma MagicPlaces(x: nat, k: nat, rem: nat)
    requires k < 0x400 && IsPast(x, k, rem)
    ensures Value64(DENORMAL_MAGIC + k + 1) == Value64(DENORMAL_MAGIC + k) + Scale()
    ensures x + Value64(DENORMAL_MAGIC) == Value64(DENORMAL_MAGIC + k) + rem
  {
    hide Value64, Scale;
    MagicPlus(k);
    MagicPlus(k + 1);
    MagicPlus(0);
    NextMultiple(HIDDEN64 + k, Scale());
    SplitProduct(HIDDEN64, k, Scale());
  }

  /** Rounding a value `rem` past the pattern `k` after an even one, where the next pattern is `gap` further. */
  lemma RoundOverGap(m: nat, limit: nat, x: nat, even: nat, k: nat, gap: nat, rem: nat, up: bool)
    requires m > 0 && even + k + 1 <= limit && even % 2 == 0 && rem < gap
    requires Units(m, even + k + 1) == Units(m, even + k) + gap && x == Units(m, even + k) + rem
    requires up <==> 2 * rem > gap || (2 * rem == gap && k % 2 == 1)
    ensures NearestEven(m, 1, limit, x, if up then even + k + 1 else even + k)
  {
    hide Units, NearestEven;
    RoundBetween(m, 1, limit, x, even + k, up);
  }

  lemma RoundSmall(x: nat, k: nat, rem: nat, up: bool)
    requires k < 0x400 && x == k * Scale() + rem && rem < Scale()
    requires up <==> 2 * rem > Scale() || (2 * rem == Scale() && k % 2 == 1)
    ensures CorrectlyRounded(x, if up then k + 1 else k)
  {
    hide Units, NearestEven, Scale, Overflow;
    SmallValue(k);
    SmallValue(k + 1);
    NextMultiple(k, Scale());
    RoundBetween(HIDDEN16, Scale(), INFINITY16 - 1, x, k, up);
    SmallIsFinite(x, k, rem);
  }

  lemma SmallValue(k: nat)
    requires k <= 0x400
    ensures Value16(k) == k
  {
  }

  lemma SmallIsFinite(x: nat, k: nat, rem: nat)
    requires k < 0x400 && x == k * Scale() + rem && rem < Scale()
    ensures x < Overflow()
  {
    hide Scale;
    NextMultiple(k, Scale());
    if k + 1 < 0x400 { MultiplesApart(k + 1, 0x400, Scale()); }
  }

  lemma SmallIsBelow(input: nat)
    requires input < NORMAL_THRESHOLD
    ensures Value64(input) < 0x400 * Scale()
  {
    hide Units, Pow2;
    Monotone(HIDDEN64, input, NORMAL_THRESHOLD);
    SmallPowers();
    Pow2Add(42, 1008);
    PowerOfTwo(HIDDEN64, 1009);
  }

  lemma MagicPlus(k: nat)
    requires k <= 0x400
    ensures Value64(DENORMAL_MAGIC + k) == (HIDDEN64 + k) * Scale()
  {
    Decompose(HIDDEN64, 1051, k);
  }

  lemma Divide(x: nat, s: nat, bound: nat) returns (k: nat, rem: nat)
    requires s > 0 && x < bound * s
    ensures k < bound && x == k * s + rem && rem < s
  {
    k, rem := x / s, x % s;
    if bound < k { MultiplesApart(bound, k, s); }
  }

  lemma NextMultiple(a: nat, s: nat)
    ensures (a + 1) * s == a * s + s
  {
  }

  lemma SplitProduct(a: nat, b: nat, s: nat)
    ensures (a + b) * s == a * s + b * s
  {
  }

  // Values from 2^-14 on, for which a carry out of the fraction moves the exponent along.

  lemma NormalRounds(input: nat)
    requires NORMAL_THRESHOLD <= input < INFINITY_THRESHOLD
    ensures CorrectlyRounded(Value64(input), if RoundsUp(input) then FloorPattern(input) + 1 else FloorPattern(input))
  {
    hide Units, NearestEven, Scale, Gap, Overflow, Pow2;
    var h := FloorPattern(input);
    var x, s, r := Value64(input), Scale(), input % DROPPED;
    var p := Pow2(input / HIDDEN64 - 1);
    NormalNeighbours(input);
    NextPattern(HIDDEN16, h);
    SplitProduct(Value16(h), Gap(HIDDEN16, h), s);
    Halves(r, DROPPED, p);
    if h < INFINITY16 - 1 {
      RoundBetween(HIDDEN16, s, INFINITY16 - 1, x, h, RoundsUp(input));
      BelowOverflow(h + 1);
    } else {
      TopPattern();
      if !RoundsUp(input) { RoundAtLimit(HIDDEN16, s, INFINITY16 - 1, x); }
    }
  }

  lemma NormalNeighbours(input: nat)
    requires NORMAL_THRESHOLD <= input < INFINITY_THRESHOLD
    ensures
      var h := FloorPattern(input);
      var p := Pow2(input / HIDDEN64 - 1);
      && 0x400 <= h < INFINITY16
      && h % 2 == (input / DROPPED) % 2
      && Value64(input) == Value16(h) * Scale() + (input % DROPPED) * p
      && Gap(HIDDEN16, h) * Scale() == DROPPED * p
  {
    var e, mant, r := Fields(input);
    SameParity(input);
    hide Pow2, FloorPattern;
    var g, p := Pow2(e - 1009), Pow2(e - 1);
    assert g * Scale() == DROPPED * p by {
      SmallPowers();
      Pow2Add(e - 1009, 1050);
      Pow2Add(42, e - 1);
    }
    Regroup(HIDDEN16 + mant, g, Scale(), DROPPED, p);
    SplitProduct((HIDDEN16 + mant) * DROPPED, r, p);
    assert Value16(FloorPattern(input)) == (HIDDEN16 + mant) * g;
    assert Value64(input) == ((HIDDEN16 + mant) * DROPPED + r) * p;
  }

  lemma SameParity(input: nat)
    ensures FloorPattern(input) % 2 == (input / DROPPED) % 2
  {
  }

  /** The exponent and the kept and dropped parts of the fraction of a normal pattern. */
  lemma Fields(input: nat) returns (e: nat, mant: nat, r: nat)
    requires NORMAL_THRESHOLD <= input < INFINITY_THRESHOLD
    ensures e == input / HIDDEN64 && 1009 <= e <= 1038 && mant < HIDDEN16 && r == input % DROPPED
    ensures input % HIDDEN64 == mant * DROPPED + r
    ensures FloorPattern(input) == (e - 1008) * HIDDEN16 + mant
    ensures FloorPattern(input) / HIDDEN16 == e - 1008 && FloorPattern(input) % HIDDEN16 == mant
  {
    e := input / HIDDEN64;
    var f := input % HIDDEN64;
    mant, r := f / DROPPED, f % DROPPED;
    assert input == e * HIDDEN64 + f;
  }

  lemma Regroup(a: nat, g: nat, s: nat, d: nat, p: nat)
    requires g * s == d * p
    ensures (a * g) * s == (a * d) * p
  {
    assert (a * g) * s == a * (g * s);
    assert (a * d) * p == a * (d * p);
  }

  lemma Halves(r: nat, d: nat, p: nat)
    requires p > 0 && r < d && d % 2 == 0
    ensures r * p < d * p
    ensures 2 * (r * p) > d * p <==> r > d / 2
    ensures 2 * (r * p) == d * p <==> r == d / 2
  {
    var half := d / 2;
    assert d * p == 2 * (half * p);
    if r > half { MultiplesApart(half, r, p); }
    if r < half { MultiplesApart(r, half, p); }
    MultiplesApart(r, d, p);
  }

  lemma TopPattern()
    ensures Value16(INFINITY16 - 1) == 0x7FF * 0x2000_0000
    ensures Value16(INFINITY16) == 0x100_0000_0000
    ensures 2 * Overflow() == Value16(INFINITY16 - 1) * Scale() + Value16(INFINITY16) * Scale()
  {
    assert Pow2(5) == 32 && Pow2(10) == 0x400 by { Pow2Add(5, 5); }
    assert Pow2(4) == 16;
    assert Pow2(20) == 0x10_0000 by { Pow2Add(10, 10); }
    assert Pow2(29) == 0x2000_0000 by { Pow2Add(20, 5); Pow2Add(25, 4); }
    assert Pow2(30) == 0x4000_0000;
  }

  lemma BelowOverflow(h: nat)
    requires h < INFINITY16
    ensures Value16(h) * Scale() < Overflow()
  {
    TopPattern();
    if h < INFINITY16 - 1 {
      ScaledMonotone(HIDDEN16, Scale(), h, INFINITY16 - 1);
    }
    ScaledMonotone(HIDDEN16, Scale(), INFINITY16 - 1, INFINITY16);
  }
}
