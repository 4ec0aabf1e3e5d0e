/**
  Binary floating-point formats and rounding to nearest, ties to even (sections 3.4 and 4.3.1 of
  IEEE 754-2019), on the magnitude of a number.

  A format is given by the weight `m` of its hidden bit, a power of two. The bit pattern of a
  magnitude is its biased exponent followed by its fraction, and its value is counted in units of the
  smallest subnormal number.
 */
module Rounding {

  function Pow2(n: nat): (r: nat)
    ensures r > 0
  {
    if n == 0 then 1 else 2 * Pow2(n - 1)
  }

  lemma {:induction false} Pow2Add(a: nat, b: nat)
    ensures Pow2(a + b) == Pow2(a) * Pow2(b)
  {
    if a > 0 {
      Pow2Add(a - 1, b);
      assert Pow2(a) * Pow2(b) == 2 * (Pow2(a - 1) * Pow2(b));
    }
  }

  /** The value of a pattern. Patterns past the largest finite one continue as if exponents were unbounded. */
  function Units(m: nat, bits: nat): nat
    requires m > 0
  {
    var e, f := bits / m, bits % m;
    if e == 0 then f else (m + f) * Pow2(e - 1)
  }

  /** The distance from a pattern to the next. */
  function Gap(m: nat, bits: nat): nat
    requires m > 0
  {
    var e := bits / m;
    if e == 0 then 1 else Pow2(e - 1)
  }

  lemma NextPattern(m: nat, bits: nat)
    requires m > 0
    ensures Units(m, bits + 1) == Units(m, bits) + Gap(m, bits)
    ensures Gap(m, bits) > 0
  {
    var e, f := bits / m, bits % m;
    NextFields(m, bits);
    if e > 0 {
      if f + 1 < m {
        Distribute(m + f, Pow2(e - 1));
      } else {
        assert Pow2(e) == 2 * Pow2(e - 1);
        Double(m, Pow2(e - 1));
        Distribute(m + f, Pow2(e - 1));
      }
    }
  }

  lemma NextFields(m: nat, bits: nat)
    requires m > 0
    ensures
      if bits % m + 1 < m then (bits + 1) / m == bits / m && (bits + 1) % m == bits % m + 1
      else (bits + 1) / m == bits / m + 1 && (bits + 1) % m == 0
  {
    var e, f := bits / m, bits % m;
    assert bits == e * m + f;
    if f + 1 < m {
      Decompose(m, e, f + 1);
    } else {
      assert bits + 1 == (e + 1) * m + 0;
      Decompose(m, e + 1, 0);
    }
  }

  lemma Decompose(m: nat, e: nat, f: nat)
    requires f < m
    ensures (e * m + f) / m == e && (e * m + f) % m == f
  {
    var q := (e * m + f) / m;
    if q < e {
      MultiplesApart(q, e, m);
    } else if e < q {
      MultiplesApart(e, q, m);
    }
  }

  lemma {:induction false} MultiplesApart(a: nat, b: nat, m: nat)
    requires a < b
    ensures a * m + m <= b * m
    decreases b
  {
    Distribute(b - 1, m);
    if a < b - 1 {
      MultiplesApart(a, b - 1, m);
    }
  }

  lemma Distribute(a: nat, b: nat)
    ensures (a + 1) * b == a * b + b
  {
  }

  lemma Double(a: nat, b: nat)
    ensures (a + 0) * (2 * b) == (a + a) * b
  {
  }

  lemma {:induction false} Monotone(m: nat, a: nat, b: nat)
    requires m > 0 && a < b
    ensures Units(m, a) < Units(m, b)
    decreases b - a
  {
    NextPattern(m, b - 1);
    if a < b - 1 {
      Monotone(m, a, b - 1);
    }
  }

  function Distance(a: int, b: int): nat {
    if a < b then b - a else a - b
  }

  /** Pattern `h` is nearer to `x` than `g`, or as near and has the even last bit. */
  ghost predicate IsNearer(m: nat, scale: nat, x: nat, h: nat, g: nat)
    requires m > 0
  {
    var there, here := Distance(Units(m, g) * scale, x), Distance(Units(m, h) * scale, x);
    here < there || (here == there && h % 2 == 0)
  }

  /**
    Among the patterns up to `limit`, one unit of which weighs `scale`, `h` is the nearest to `x`, and
    the one with the even last bit if two are equally near.
   */
  ghost predicate NearestEven(m: nat, scale: nat, limit: nat, x: nat, h: nat)
    requires m > 0
  {
    h <= limit && forall g: nat | g <= limit && g != h :: IsNearer(m, scale, x, h, g)
  }

  /** There is at most one such pattern. */
  lemma NearestEvenUnique(m: nat, scale: nat, limit: nat, x: nat, a: nat, b: nat)
    requires m > 0 && scale > 0
    requires NearestEven(m, scale, limit, x, a) && NearestEven(m, scale, limit, x, b)
    ensures a == b
  {
    if a != b {
      assert IsNearer(m, scale, x, a, b) && IsNearer(m, scale, x, b, a);
      if a + 1 < b {
        assert IsNearer(m, scale, x, a, a + 1);
        MiddleIsNearer(m, scale, x, a, b);
      } else if b + 1 < a {
        assert IsNearer(m, scale, x, b, b + 1);
        MiddleIsNearer(m, scale, x, b, a);
      }
    }
    hide Units;
  }

  lemma MiddleIsNearer(m: nat, scale: nat, x: nat, a: nat, b: nat)
    requires m > 0 && scale > 0 && a + 1 < b
    requires Distance(Units(m, a) * scale, x) == Distance(Units(m, b) * scale, x)
    ensures Distance(Units(m, a + 1) * scale, x) < Distance(Units(m, a) * scale, x)
  {
    ScaledMonotone(m, scale, a, a + 1);
    ScaledMonotone(m, scale, a + 1, b);
  }

  lemma ScaledMonotone(m: nat, scale: nat, a: nat, b: nat)
    requires m > 0 && scale > 0 && a < b
    ensures Units(m, a) * scale < Units(m, b) * scale
  {
    hide Units;
    Monotone(m, a, b);
    TimesMonotone(Units(m, a), Units(m, b), scale);
  }

  lemma TimesMonotone(x: nat, y: nat, scale: nat)
    requires x < y && scale > 0
    ensures x * scale < y * scale
  {
    assert (y - x) * scale > 0;
  }

  /** Rounding a value between two neighbouring patterns by looking at its distance to the lower one. */
  lemma RoundBetween(m: nat, scale: nat, limit: nat, x: nat, h: nat, up: bool)
    requires m > 0 && scale > 0 && h + 1 <= limit
    requires
      var low, high := Units(m, h) * scale, Units(m, h + 1) * scale;
      && low <= x < high
      && (up <==> 2 * (x - low) > high - low || (2 * (x - low) == high - low && h % 2 == 1))
    ensures NearestEven(m, scale, limit, x, if up then h + 1 else h)
  {
    var low, high := Units(m, h) * scale, Units(m, h + 1) * scale;
    forall g: nat | g <= limit
      ensures g < h ==> Units(m, g) * scale < low
      ensures g > h + 1 ==> Units(m, g) * scale > high
    {
      if g < h { ScaledMonotone(m, scale, g, h); }
      if g > h + 1 { ScaledMonotone(m, scale, h + 1, g); }
    }
  }

  /** A value at or above the largest pattern rounds to it. */
  lemma RoundAtLimit(m: nat, scale: nat, limit: nat, x: nat)
    requires m > 0 && scale > 0 && Units(m, limit) * scale <= x
    ensures NearestEven(m, scale, limit, x, limit)
  {
    forall g: nat | g < limit ensures Units(m, g) * scale < Units(m, limit) * scale {
      ScaledMonotone(m, scale, g, limit);
    }
  }
}
