/**
 * Real-number helpers for the projection engine: whole-number powers (the
 * role Math.pow plays in the discount factor), the laws assumed of the
 * exponential function (the role Math.exp plays in the S-curve), and small
 * facts about products and reciprocals of reals.
 */
module RealArith {

  /** x raised to the whole power n. */
  function Pow(x: real, n: nat): real
  {
    if n == 0 then 1.0 else x * Pow(x, n - 1)
  }

  /**
   * The laws the model relies on of Math.exp: it is positive everywhere,
   * it maps 0 to 1, and it is strictly increasing.
   */
  ghost predicate IsExp(exp: real -> real)
  {
    ExpPositive(exp) && exp(0.0) == 1.0 && ExpIncreasing(exp)
  }

  /** The one law the projection itself needs: 1 + exp(x) is never 0. */
  ghost predicate ExpPositive(exp: real -> real)
  {
    forall x :: exp(x) > 0.0
  }

  /**
   * Strict monotonicity, stated through ExpOrdered so that it is used only
   * where a proof asks for it by name.
   */
  ghost predicate ExpIncreasing(exp: real -> real)
  {
    forall x, y :: ExpOrdered(exp, x, y)
  }

  ghost predicate ExpOrdered(exp: real -> real, x: real, y: real)
  {
    x < y ==> exp(x) < exp(y)
  }

  /** A positive, strictly increasing function with value 1 at 0. */
  function RationalExp(x: real): (e: real)
    ensures e > 0.0
  {
    if x >= 0.0 then 1.0 + x else 1.0 / (1.0 - x)
  }

  /** The laws of IsExp can be met, so no member assuming them is vacuous. */
  lemma ExpLawsSatisfiable()
    ensures exists exp: real -> real :: IsExp(exp)
  {
    var e := (x: real) => RationalExp(x);
    forall x: real, y: real
      ensures ExpOrdered(e, x, y)
    {
      if x >= y {
      } else if y < 0.0 {
        ReciprocalAntitone(1.0 - y, 1.0 - x);
      } else if x < 0.0 {
        ReciprocalBelowOne(1.0 - x);
      }
    }
    assert IsExp(e);
  }

  lemma ReciprocalAntitone(x: real, y: real)
    requires 0.0 < x < y
    ensures 0.0 < 1.0 / y < 1.0 / x
  {
    assert 1.0 / y * y == 1.0;
    assert 1.0 / x * x == 1.0;
    assert (1.0 / x - 1.0 / y) * (x * y) == y - x;
  }

  lemma ReciprocalAntitoneWeak(x: real, y: real)
    requires 0.0 < x <= y
    ensures 0.0 < 1.0 / y <= 1.0 / x
  {
    if x < y {
      ReciprocalAntitone(x, y);
    }
  }

  lemma ReciprocalBelowOne(x: real)
    requires x > 1.0
    ensures 0.0 < 1.0 / x < 1.0
  {
    ReciprocalAntitone(1.0, x);
  }

  lemma MulPositive(x: real, y: real)
    requires x > 0.0 && y > 0.0
    ensures x * y > 0.0
  {
  }

  lemma MulNonNegative(x: real, y: real)
    requires x >= 0.0 && y >= 0.0
    ensures x * y >= 0.0
  {
  }

  /** Multiplying by a positive factor keeps a strict order. */
  lemma MulStrictlyMonotone(x: real, y: real, c: real)
    requires x < y && c > 0.0
    ensures x * c < y * c
  {
    MulPositive(y - x, c);
  }

  lemma MulMonotone(x: real, y: real, c: real)
    requires x <= y && c >= 0.0
    ensures x * c <= y * c
  {
    MulNonNegative(y - x, c);
  }

  /** The same two facts with the factor on the left. */
  lemma MulMonotoneLeft(c: real, x: real, y: real)
    requires x <= y && c >= 0.0
    ensures c * x <= c * y
  {
    MulNonNegative(c, y - x);
  }

  lemma MulStrictlyMonotoneLeft(c: real, x: real, y: real)
    requires x < y && c > 0.0
    ensures c * x < c * y
  {
    MulPositive(c, y - x);
  }

  /** Discounting by a positive factor keeps the order of two cash flows. */
  lemma DiscountedOrder(x: real, y: real, D: real)
    requires x <= y && D > 0.0
    ensures x * D <= y * D
    ensures x < y ==> x * D < y * D
  {
    MulMonotone(x, y, D);
    if x < y {
      MulStrictlyMonotone(x, y, D);
    }
  }

  /**
   * A cash flow that is not negative is worth no more under a smaller
   * discount factor, and strictly less when it is positive.
   */
  lemma DiscountOrder(x: real, y: real, D2: real, D1: real)
    requires x == y && y >= 0.0 && 0.0 < D2 < D1
    ensures x * D2 <= y * D1
    ensures y > 0.0 ==> x * D2 < y * D1
  {
    MulMonotone(D2, D1, y);
    if y > 0.0 {
      MulStrictlyMonotone(D2, D1, y);
    }
  }

  /**
   * Retaining at least as many users at a rate at least as high keeps at
   * least as many, and strictly more when the second count is positive
   * and its rate strictly higher.
   */
  lemma RetainedOrder(u1: real, u2: real, r1: real, r2: real)
    requires 0.0 <= u1 <= u2 && 0.0 <= r1 < r2 && u2 > 0.0
    ensures 0.0 <= u1 * r1 <= u2 * r2
    ensures u1 * r1 < u2 * r2
  {
    MulNonNegative(u1, r1);
    MulMonotone(u1, u2, r1);
    MulStrictlyMonotone(r1, r2, u2);
  }

  /**
   * Revenue minus cost grows when the revenue base grows at least as much
   * as the cost base, and the price is at least the unit cost: x1 * p -
   * y1 * c <= x2 * p - y2 * c.
   */
  lemma RevenueCostGap(x1: real, x2: real, y1: real, y2: real, p: real, c: real)
    requires 0.0 <= y2 - y1 <= x2 - x1 && p >= 0.0 && p >= c
    ensures x1 * p - y1 * c <= x2 * p - y2 * c
  {
    MulMonotone(y2 - y1, x2 - x1, p);
    MulMonotoneLeft(y2 - y1, c, p);
  }

  /** The same gap is strict when the cost base grows and the price exceeds the unit cost. */
  lemma RevenueCostGapStrict(x1: real, x2: real, y1: real, y2: real, p: real, c: real)
    requires 0.0 < y2 - y1 <= x2 - x1 && p >= 0.0 && p > c
    ensures x1 * p - y1 * c < x2 * p - y2 * c
  {
    MulMonotone(y2 - y1, x2 - x1, p);
    MulStrictlyMonotoneLeft(y2 - y1, c, p);
  }

  /**
   * Carrying u1 <= u2 users over at a rate r >= 0 keeps the gap between
   * u * r + n at least the gap between the n's.
   */
  lemma RetainedGap(u1: real, u2: real, n1: real, n2: real, r: real)
    requires u1 <= u2 && r >= 0.0
    ensures (u2 * r + n2) - (u1 * r + n1) >= n2 - n1
  {
    MulMonotone(u1, u2, r);
  }

  lemma {:induction false} PowPositive(x: real, n: nat)
    requires x > 0.0
    ensures Pow(x, n) > 0.0
  {
    if n > 0 {
      PowPositive(x, n - 1);
      MulPositive(x, Pow(x, n - 1));
    }
  }

  lemma {:induction false} PowNonNegative(x: real, n: nat)
    requires x >= 0.0
    ensures Pow(x, n) >= 0.0
  {
    if n > 0 {
      PowNonNegative(x, n - 1);
      MulNonNegative(x, Pow(x, n - 1));
    }
  }

  lemma {:induction false} PowNonZero(x: real, n: nat)
    requires x != 0.0
    ensures Pow(x, n) != 0.0
  {
    if n > 0 {
      PowNonZero(x, n - 1);
    }
  }

  lemma PowSign(x: real, n: nat)
    requires x != 0.0
    ensures Pow(x, n) != 0.0
    ensures x > 0.0 ==> Pow(x, n) > 0.0
  {
    PowNonZero(x, n);
    if x > 0.0 {
      PowPositive(x, n);
    }
  }

  /** On positive bases, a positive power is strictly increasing in the base. */
  lemma {:induction false} PowStrictlyIncreasingInBase(x: real, y: real, n: nat)
    requires 0.0 < x < y && n >= 1
    ensures Pow(x, n) < Pow(y, n)
  {
    if n > 1 {
      PowStrictlyIncreasingInBase(x, y, n - 1);
      PowPositive(x, n - 1);
      // x * Pow(x, n-1) < y * Pow(x, n-1) < y * Pow(y, n-1)
      MulStrictlyMonotone(x, y, Pow(x, n - 1));
      MulStrictlyMonotone(Pow(x, n - 1), Pow(y, n - 1), y);
    }
  }
}
