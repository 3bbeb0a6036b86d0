/**
 * Exact decimal arithmetic in the manner of Python's `decimal.Decimal` under
 * the default context: products and sums are exact, and `quantize` to two
 * places rounds half to even.
 */
module Decimals {

  /** A finite decimal whose value is `mant / 10^scale`. This is the shape of
      a Python `Decimal` with exponent `-scale`; trailing zeros are kept, so
      `Dec(50, 0)` ("50") and `Dec(5000, 2)` ("50.00") are two
      representations of one value. */
  datatype Dec = Dec(mant: int, scale: nat)

  function Abs(n: int): nat {
    if n < 0 then -n else n
  }

  function Max(a: nat, b: nat): nat {
    if a < b then b else a
  }

  function Pow10(n: nat): (r: nat)
    ensures r >= 1
  {
    if n == 0 then 1 else 10 * Pow10(n - 1)
  }

  lemma {:induction false} Pow10Add(a: nat, b: nat)
    ensures Pow10(a + b) == Pow10(a) * Pow10(b)
  {
    if a > 0 {
      Pow10Add(a - 1, b);
      calc {
        Pow10(a + b);
        10 * Pow10(a - 1 + b);
        10 * (Pow10(a - 1) * Pow10(b));
        (10 * Pow10(a - 1)) * Pow10(b);
      }
    }
  }

  /** The mantissa of `x` written at the finer scale `s`. */
  function At(x: Dec, s: nat): int
    requires x.scale <= s
  {
    x.mant * Pow10(s - x.scale)
  }

  /** `a` and `b` denote the same number (Python's `a == b`). */
  predicate SameValue(a: Dec, b: Dec) {
    a.mant * Pow10(b.scale) == b.mant * Pow10(a.scale)
  }

  /** Decimal addition: the exponent of the sum is the smaller one. */
  function Add(a: Dec, b: Dec): Dec {
    var s := Max(a.scale, b.scale);
    Dec(At(a, s) + At(b, s), s)
  }

  /** Decimal multiplication: coefficients multiply, exponents add. */
  function Mul(a: Dec, b: Dec): Dec {
    Dec(a.mant * b.mant, a.scale + b.scale)
  }

  /** An integer as a Decimal (`Decimal(n)`, exponent 0). */
  function FromInt(n: int): Dec {
    Dec(n, 0)
  }

  lemma {:induction false} AtFiner(x: Dec, s: nat, k: nat)
    requires x.scale <= s
    ensures At(x, s + k) == At(x, s) * Pow10(k)
  {
    Pow10Add(s - x.scale, k);
    assert s + k - x.scale == (s - x.scale) + k;
  }

  /** Addition is exact: at any common scale the mantissas add. */
  lemma AddExact(a: Dec, b: Dec, s: nat)
    requires a.scale <= s && b.scale <= s
    ensures Add(a, b).scale == Max(a.scale, b.scale)
    ensures At(Add(a, b), s) == At(a, s) + At(b, s)
  {
    var m := Max(a.scale, b.scale);
    AtFiner(a, m, s - m);
    AtFiner(b, m, s - m);
    AtFiner(Add(a, b), m, s - m);
  }

  // ---------------------------------------------------------------------
  // Rounding half to even
  // ---------------------------------------------------------------------

  /** `k` is `n / d` rounded to the nearest integer, a tie going to the even
      neighbour (ROUND_HALF_EVEN, the default rounding of Python's decimal
      context). */
  predicate IsHalfEven(n: int, d: int, k: int)
    requires d > 0
  {
    && 2 * Abs(k * d - n) <= d
    && (2 * Abs(k * d - n) == d ==> k % 2 == 0)
  }

  function RoundHalfEven(n: int, d: int): (k: int)
    requires d > 0
    ensures IsHalfEven(n, d, k)
  {
    var q := n / d;
    var rem := n % d;
    assert q * d == n - rem;
    assert (q + 1) * d == n - rem + d;
    if 2 * rem < d then q
    else if 2 * rem > d then q + 1
    else if q % 2 == 0 then q
    else q + 1
  }

  lemma MulDistribSub(a: int, b: int, d: int)
    ensures (a - b) * d == a * d - b * d
  {
  }

  lemma MulAtLeast(a: int, d: int)
    requires a >= 1 && d > 0
    ensures a * d >= d
  {
  }

  /** There is only one half-even rounding of a quotient. */
  lemma HalfEvenUnique(n: int, d: int, k1: int, k2: int)
    requires d > 0
    requires IsHalfEven(n, d, k1) && IsHalfEven(n, d, k2)
    ensures k1 == k2
  {
    var e1 := k1 * d - n;
    var e2 := k2 * d - n;
    if k1 != k2 {
      var hi, lo := if k1 > k2 then k1 else k2, if k1 > k2 then k2 else k1;
      MulDistribSub(hi, lo, d);
      MulAtLeast(hi - lo, d);
      // hi * d - lo * d >= d, while both errors are at most d / 2
      assert 2 * Abs(e1) == d && 2 * Abs(e2) == d;
      assert k1 % 2 == 0 && k2 % 2 == 0;
      if hi - lo >= 2 {
        MulAtLeast(hi - lo - 1, d);
        MulDistribSub(hi - lo, 1, d);
        assert false;
      }
      assert false;
    }
  }

  lemma AbsScale(e: int, c: int)
    requires c > 0
    ensures Abs(e * c) == Abs(e) * c
  {
    if e < 0 {
      assert e * c == -((-e) * c);
    }
  }

  lemma MulCancelLe(x: int, y: int, c: int)
    requires c > 0
    ensures x * c <= y * c <==> x <= y
    ensures x * c == y * c <==> x == y
  {
    MulDistribSub(y, x, c);
    if x < y { MulAtLeast(y - x, c); }
    if y < x { MulDistribSub(x, y, c); MulAtLeast(x - y, c); }
  }

  /** Scaling numerator and denominator by the same positive factor does not
      change the rounding. */
  lemma HalfEvenScale(n: int, d: int, k: int, c: int)
    requires d > 0 && c > 0
    ensures IsHalfEven(n, d, k) <==> IsHalfEven(n * c, d * c, k)
  {
    var e := k * d - n;
    assert k * (d * c) - n * c == e * c by {
      assert k * (d * c) == (k * d) * c;
      MulDistribSub(k * d, n, c);
    }
    AbsScale(e, c);
    assert 2 * Abs(e * c) == (2 * Abs(e)) * c;
    MulCancelLe(2 * Abs(e), d, c);
  }

  /** `x.quantize(Decimal('0.01'))` under the default context. */
  function Quantize2(x: Dec): (r: Dec)
    ensures r.scale == 2
    ensures IsHalfEven(x.mant * 100, Pow10(x.scale), r.mant)
  {
    if x.scale <= 2 then
      Pow10Add(2 - x.scale, x.scale);
      Dec(x.mant * Pow10(2 - x.scale), 2)
    else
      var d := Pow10(x.scale - 2);
      var k := RoundHalfEven(x.mant, d);
      Pow10Add(x.scale - 2, 2);
      HalfEvenScale(x.mant, d, k, 100);
      Dec(k, 2)
  }

  lemma CrossScale(ma: int, mb: int, pa: int, pb: int)
    requires ma * pb == mb * pa
    ensures (ma * 100) * pb == (mb * 100) * pa
    ensures pa * pb == pb * pa
  {
    assert (ma * 100) * pb == (ma * pb) * 100;
    assert (mb * 100) * pa == (mb * pa) * 100;
  }

  /** Two fractions of equal value round to the same integer. */
  lemma SameRounding(ma: int, pa: int, ka: int, mb: int, pb: int, kb: int)
    requires pa > 0 && pb > 0 && ma * pb == mb * pa
    requires IsHalfEven(ma * 100, pa, ka) && IsHalfEven(mb * 100, pb, kb)
    ensures ka == kb
  {
    HalfEvenScale(ma * 100, pa, ka, pb);
    HalfEvenScale(mb * 100, pb, kb, pa);
    CrossScale(ma, mb, pa, pb);
    HalfEvenUnique((ma * 100) * pb, pa * pb, ka, kb);
  }

  /** Quantizing depends only on the number, not on its representation. */
  lemma QuantizeRespectsValue(a: Dec, b: Dec)
    requires SameValue(a, b)
    ensures Quantize2(a) == Quantize2(b)
  {
    SameRounding(a.mant, Pow10(a.scale), Quantize2(a).mant, b.mant, Pow10(b.scale), Quantize2(b).mant);
  }

  lemma HalfEvenSign(n: int, d: int, k: int)
    requires d > 0 && IsHalfEven(n, d, k)
    ensures n >= 0 ==> k >= 0
    ensures n <= 0 ==> k <= 0
  {
    if n >= 0 && k < 0 {
      MulAtLeast(-k, d);
    }
    if n <= 0 && k > 0 {
      MulAtLeast(k, d);
    }
  }

  /** Rounding keeps the sign (up to zero). */
  lemma QuantizeSign(x: Dec)
    ensures x.mant >= 0 ==> Quantize2(x).mant >= 0
    ensures x.mant <= 0 ==> Quantize2(x).mant <= 0
  {
    HalfEvenSign(x.mant * 100, Pow10(x.scale), Quantize2(x).mant);
  }

  /** A value already at two places is left as it is. */
  lemma QuantizeKeepsTwoPlaces(x: Dec)
    requires x.scale == 2
    ensures Quantize2(x) == x
  {
  }
}
