/**
 * The transcendental functions the renderer takes from the platform's
 * floating-point library, treated as abstract functions, together with the
 * exact real helpers (`max`, `abs`, `signum`, integer `powf`) the source uses.
 */
module Maths {

  /**
   * `sqrt`, `tan`, `ln_1p` and non-integer `powf`, as values: every part of
   * the model that calls one of them receives this record.
   */
  datatype Maths = Maths(
    sqrt: real -> real,
    tan: real -> real,
    ln1p: real -> real,
    pow: (real, real) -> real)
  {
    /** The only facts the model assumes of these functions. */
    ghost predicate Valid() {
      && (forall x: real :: x >= 0.0 ==> sqrt(x) >= 0.0 && sqrt(x) * sqrt(x) == x)
      && (forall x: real :: x > 0.0 ==> sqrt(x) > 0.0)
      && (forall e: real :: pow(1.0, e) == 1.0)
      && (forall x: real, e: real :: x > 0.0 ==> pow(x, e) > 0.0)
      && (forall x: real :: -1.0 < x <= 0.0 ==> ln1p(x) <= 0.0)
    }
  }

  /** `f32::max` on numbers. */
  function Max(x: real, y: real): (r: real)
    ensures r >= x && r >= y && (r == x || r == y)
  {
    if x >= y then x else y
  }

  /** `f32::abs`. */
  function Abs(x: real): (r: real)
    ensures r >= 0.0 && (r == x || r == -x)
  {
    if x < 0.0 then -x else x
  }

  /** `f32::signum`; a real zero is the positive zero, whose sign is 1. */
  function Signum(x: real): (r: real)
    ensures r * r == 1.0
    ensures r * x == Abs(x)
  {
    if x < 0.0 then -1.0 else 1.0
  }

  /** `powf` with a whole exponent, computed exactly. */
  function Pow(x: real, n: nat): real
  {
    if n == 0 then 1.0 else x * Pow(x, n - 1)
  }

  lemma PowTwo(x: real)
    ensures Pow(x, 2) == x * x
  {
    assert Pow(x, 1) == x;
  }

  /** A power of a number in the unit interval stays in the unit interval. */
  lemma {:induction false} PowUnit(x: real, n: nat)
    requires 0.0 <= x <= 1.0
    ensures 0.0 <= Pow(x, n) <= 1.0
  {
    if n > 0 {
      PowUnit(x, n - 1);
      ProductInUnitInterval(Pow(x, n - 1), x);
    }
  }

  /** The square root of a perfect square is the non-negative root. */
  lemma SqrtOfSquare(m: Maths, r: real)
    requires m.Valid()
    requires r >= 0.0
    ensures m.sqrt(r * r) == r
  {
    var s := m.sqrt(r * r);
    assert s >= 0.0 && s * s == r * r;
    assert (s - r) * (s + r) == 0.0;
    if s + r != 0.0 {
      assert s - r == (s - r) * (s + r) / (s + r);
    }
  }

  // ---------------------------------------------------------------------
  // Sign rules for products. They are stated for two factors so that a
  // square is handled as the product of two equal numbers.

  lemma ProductPositive(p: real, q: real)
    requires p > 0.0 && q > 0.0
    ensures p * q > 0.0
  {
  }

  lemma ProductOfNegatives(p: real, q: real)
    requires p < 0.0 && q < 0.0
    ensures p * q > 0.0
  {
  }

  /** The product of a number with itself is never negative, and is positive unless the number is zero. */
  lemma ProductOfEquals(p: real, q: real)
    requires p == q
    ensures p * q >= 0.0
    ensures p != 0.0 ==> p * q > 0.0
  {
    if p > 0.0 {
      ProductPositive(p, q);
    } else if p < 0.0 {
      ProductOfNegatives(p, q);
    }
  }

  /** Scaling a non-negative number by a factor in [0, 1] keeps it between 0 and itself. */
  lemma ProductInUnitInterval(a: real, t: real)
    requires a >= 0.0 && 0.0 <= t <= 1.0
    ensures 0.0 <= a * t <= a
  {
  }

  /** A number in [-1, 1] times itself is at most one. */
  lemma ProductOfEqualsAtMostOne(p: real, q: real)
    requires p == q && -1.0 <= p <= 1.0
    ensures p * q <= 1.0
  {
    if p >= 0.0 {
      ProductInUnitInterval(p, q);
    } else {
      ProductInUnitInterval(-p, -q);
    }
  }

  /** A number equal to the square of a non-zero number is positive. */
  lemma SquarePositive(p: real, q: real, s: real)
    requires p == q && p != 0.0 && s == p * q
    ensures s > 0.0
  {
    ProductOfEquals(p, q);
  }

  /** A number equal to the square of a number is never negative. */
  lemma SquareNonNegative(p: real, q: real, s: real)
    requires p == q && s == p * q
    ensures s >= 0.0
  {
    ProductOfEquals(p, q);
  }

  /** Dividing by a non-zero number and multiplying back is the identity. */
  lemma DivMul(x: real, k: real)
    requires k != 0.0
    ensures k * (x / k) == x
  {
  }

  /** A product is zero only when one of its factors is. */
  lemma ZeroProduct(p: real, q: real)
    requires p * q == 0.0
    ensures p == 0.0 || q == 0.0
  {
    if p != 0.0 {
      assert q == (p * q) / p;
    }
  }

  /** A non-zero factor can be cancelled from both sides of an equation. */
  lemma CancelFactor(k: real, x: real, y: real)
    requires k != 0.0 && k * x == k * y
    ensures x == y
  {
    ZeroProduct(k, x - y);
  }

  /** A non-negative product with a positive factor has a non-negative other factor. */
  lemma NonNegativeFactor(k: real, d: real)
    requires k > 0.0 && k * d >= 0.0
    ensures d >= 0.0
  {
  }

  /** A non-zero number that is its own multiple by `a` forces `a` to be one. */
  lemma UnitFactor(k: real, p: real, a: real)
    requires k != 0.0 && p == k && k == p * a
    ensures a == 1.0
  {
    assert a == (p * a) / p;
    assert (p * a) / p == k / p;
    assert k / p == 1.0;
  }
}
