/** The few pieces of JavaScript number arithmetic the quiz uses, on integers. */
module JsMath {

  /** `Math.floor(a / b)` for integers. Dafny's `/` is Euclidean, which agrees with
      the floor only when the divisor is positive. */
  function FloorDiv(a: int, b: int): (q: int)
    requires b != 0
    ensures b > 0 ==> b * q <= a < b * q + b
    ensures b < 0 ==> b * q >= a > b * q + b
  {
    if b > 0 then a / b else (-a) / (-b)
  }

  /** JavaScript's `a % b` for a positive divisor: the remainder of the quotient
      truncated toward zero, so it carries the sign of `a`. */
  function TruncRem(a: int, b: int): (r: int)
    requires b > 0
    ensures a >= 0 ==> 0 <= r < b
    ensures a < 0 ==> 0 <= -r < b
    ensures a >= 0 ==> r == a % b
    ensures a < 0 ==> r == -((-a) % b)
  {
    if a >= 0 then a % b else -((-a) % b)
  }

  /** `Math.round(num / den)` with exact arithmetic: the integer nearest to num/den,
      a tie going up (towards +infinity), as `Math.round` does. */
  function RoundHalfUp(num: int, den: int): (r: int)
    requires den > 0
    ensures 2 * den * r - den <= 2 * num < 2 * den * r + den
  {
    (2 * num + den) / (2 * den)
  }

  /** The sign of a product with a positive factor is the sign of the other factor. */
  lemma MulSign(d: int, x: int)
    requires d > 0
    ensures x <= 0 ==> d * x <= 0
    ensures x > 0 ==> d * x > 0
  {
  }

  /** A quotient below k + 1/2 rounds to at most k. */
  lemma RoundHalfUpAtMost(num: int, den: int, k: int)
    requires den > 0 && 2 * num < (2 * k + 1) * den
    ensures RoundHalfUp(num, den) <= k
  {
    var r := RoundHalfUp(num, den);
    MulSign(den, 2 * r - 1 - 2 * k);
    assert den * (2 * r - 1 - 2 * k) == 2 * den * r - den - (2 * k + 1) * den + den;
  }

  /** A quotient at or above k - 1/2 rounds to at least k. */
  lemma RoundHalfUpAtLeast(num: int, den: int, k: int)
    requires den > 0 && (2 * k - 1) * den <= 2 * num
    ensures k <= RoundHalfUp(num, den)
  {
    var r := RoundHalfUp(num, den);
    MulSign(den, 2 * k - 1 - 2 * r);
    assert den * (2 * k - 1 - 2 * r) == (2 * k - 1) * den - 2 * den * r;
  }

  /** Rounding keeps a quotient that lies between two integers between them. */
  lemma RoundHalfUpBounds(num: int, den: int, lo: int, hi: int)
    requires den > 0 && lo * den <= num <= hi * den
    ensures lo <= RoundHalfUp(num, den) <= hi
  {
    assert (2 * lo - 1) * den == 2 * (lo * den) - den;
    RoundHalfUpAtLeast(num, den, lo);
    assert (2 * hi + 1) * den == 2 * (hi * den) + den;
    RoundHalfUpAtMost(num, den, hi);
  }

  /** Rounding is monotone in the numerator. */
  lemma RoundHalfUpMonotone(a: int, b: int, den: int)
    requires den > 0 && a <= b
    ensures RoundHalfUp(a, den) <= RoundHalfUp(b, den)
  {
    var ra, rb := RoundHalfUp(a, den), RoundHalfUp(b, den);
    MulSign(2 * den, ra - rb - 1);
    assert 2 * den * (ra - rb - 1) == 2 * den * ra - 2 * den * rb - 2 * den;
  }

  /** The sign of a product with a positive real factor is the sign of the other factor. */
  lemma RealMulSign(d: real, x: real)
    requires d > 0.0
    ensures x < 0.0 ==> d * x < 0.0
    ensures x == 0.0 ==> d * x == 0.0
    ensures x > 0.0 ==> d * x > 0.0
  {
  }

  /** Converting a product to a real is the product of the conversions. */
  lemma CastMul(a: int, b: int)
    ensures (a * b) as real == a as real * b as real
  {
  }

  /** A real between lo * d and hi * d, for a positive d, divides to between lo and hi. */
  lemma RealDivBetween(x: real, d: real, lo: real, hi: real)
    requires d > 0.0 && lo * d <= x < hi * d
    ensures lo <= x / d < hi
  {
    var q := x / d;
    assert q * d == x;
    assert d * (q - lo) == x - lo * d;
    assert d * (hi - q) == hi * d - x;
    RealMulSign(d, q - lo);
    RealMulSign(d, hi - q);
  }

  /** `RoundHalfUp` is `Math.round` of the exact quotient: within a half of it, a
      tie going up. */
  lemma RoundHalfUpNearest(num: int, den: int)
    requires den > 0
    ensures RoundHalfUp(num, den) as real - 0.5 <= num as real / den as real
    ensures num as real / den as real < RoundHalfUp(num, den) as real + 0.5
  {
    var r := RoundHalfUp(num, den);
    var d, rr := den as real, r as real;
    assert 2 * (den * r) - den <= 2 * num < 2 * (den * r) + den;
    CastMul(den, r);
    assert (rr - 0.5) * d == d * rr - 0.5 * d;
    assert (rr + 0.5) * d == d * rr + 0.5 * d;
    RealDivBetween(num as real, d, rr - 0.5, rr + 0.5);
  }

  /** Dividing a non-negative count by a positive one and flooring gives at most
      the count. */
  lemma FloorDivShrinks(a: int, b: int)
    requires a >= 0 && b > 0
    ensures 0 <= FloorDiv(a, b) <= a
  {
    var q := FloorDiv(a, b);
    MulSign(b, q + 1);
    if q > 0 {
      MulSign(q, b - 1);
    }
  }
}
