/**
 * Properties of the freemium model: the growing pool, conversion along the
 * S-curve, which parameters the NPV depends on, and how the NPV moves with
 * price, acquisition cost, retention, discount rate, horizon and growth.
 *
 * As for the trial model, each comparison is proved month by month on the
 * users and present values and then summed over the horizon.
 */
module FreemiumProperties {
  import opened RealArith
  import opened Calculations
  import TrialProperties

  /**
   * The parameter ranges the comparisons assume: a real exponential, a
   * non-empty pool, an S-curve that does not fall, growth and discount
   * rates above -100% and a retention that is not negative.
   */
  ghost predicate Admissible(exp: real -> real, P: Params)
  {
    IsExp(exp) && P.N > 0.0 && P.a >= 0.0 && P.g > -1.0 && P.r >= 0.0 && P.d > -1.0
  }

  /** The pool of month t is N grown t - 1 times by 1 + g. */
  lemma {:induction false} PoolClosedForm(P: Params, t: nat)
    requires t >= 1
    ensures Pool(P, t) == P.N * Pow(1.0 + P.g, t - 1)
  {
    if t > 1 {
      PoolClosedForm(P, t - 1);
      assert Pow(1.0 + P.g, t - 1) == (1.0 + P.g) * Pow(1.0 + P.g, t - 2);
    }
  }

  /** Month 1 converts the share S(1) of the initial pool. */
  lemma FreemiumNewPaidFirstMonth(exp: real -> real, P: Params)
    requires ExpPositive(exp)
    ensures FreemiumNewPaid(exp, P, 1) == P.N * SCurve(exp, 1.0, P.a, P.b)
    ensures FreemiumPaid(exp, P, 1) == FreemiumNewPaid(exp, P, 1)
  {
  }

  /**
   * Without churn (r = 1) and without growth (g = 0) the increments
   * telescope: after k months the paying users are exactly N * S(k).
   */
  lemma {:induction false} FreemiumPaidTelescopes(exp: real -> real, P: Params, k: nat)
    requires ExpPositive(exp) && P.r == 1.0 && P.g == 0.0 && k >= 1
    ensures FreemiumPaid(exp, P, k) == P.N * SCurve(exp, k as real, P.a, P.b)
    ensures Pool(P, k) == P.N
  {
    if k > 1 {
      FreemiumPaidTelescopes(exp, P, k - 1);
      var s0, s1 := SCurve(exp, (k - 1) as real, P.a, P.b), SCurve(exp, k as real, P.a, P.b);
      assert FreemiumNewPaid(exp, P, k) == P.N * (s1 - s0);
      assert P.N * s0 + P.N * (s1 - s0) == P.N * s1;
    }
  }

  // ---------------------------------------------------------------------
  // Which parameters matter

  lemma {:induction false} PoolAgree(P1: Params, P2: Params, t: nat)
    requires t >= 1 && P1.N == P2.N && P1.g == P2.g
    ensures Pool(P1, t) == Pool(P2, t)
  {
    if t > 1 {
      PoolAgree(P1, P2, t - 1);
    }
  }

  lemma NewPaidAgree(exp: real -> real, P1: Params, P2: Params, t: nat)
    requires ExpPositive(exp) && t >= 1
    requires P1.N == P2.N && P1.g == P2.g && P1.a == P2.a && P1.b == P2.b
    ensures FreemiumNewPaid(exp, P1, t) == FreemiumNewPaid(exp, P2, t)
  {
    PoolAgree(P1, P2, t);
  }

  lemma {:induction false} PaidAgree(exp: real -> real, P1: Params, P2: Params, k: nat)
    requires ExpPositive(exp)
    requires P1.N == P2.N && P1.g == P2.g && P1.a == P2.a && P1.b == P2.b && P1.r == P2.r
    ensures FreemiumPaid(exp, P1, k) == FreemiumPaid(exp, P2, k)
  {
    if k > 0 {
      PaidAgree(exp, P1, P2, k - 1);
      NewPaidAgree(exp, P1, P2, k);
    }
  }

  lemma CashFlowAgree(exp: real -> real, P1: Params, P2: Params, t: nat)
    requires ExpPositive(exp) && t >= 1
    requires P1.N == P2.N && P1.g == P2.g && P1.a == P2.a && P1.b == P2.b && P1.r == P2.r
    requires P1.p == P2.p && P1.CAC == P2.CAC
    ensures FreemiumCashFlow(exp, P1, t) == FreemiumCashFlow(exp, P2, t)
  {
    PaidAgree(exp, P1, P2, t);
    NewPaidAgree(exp, P1, P2, t);
  }

  lemma {:induction false} FreemiumNPVUpToAgree(exp: real -> real, P1: Params, P2: Params, k: nat)
    requires ExpPositive(exp) && P1.d != -1.0
    requires P1.N == P2.N && P1.g == P2.g && P1.a == P2.a && P1.b == P2.b && P1.r == P2.r
    requires P1.p == P2.p && P1.CAC == P2.CAC && P1.d == P2.d
    ensures FreemiumNPVUpTo(exp, P1, k) == FreemiumNPVUpTo(exp, P2, k)
  {
    if k > 0 {
      FreemiumNPVUpToAgree(exp, P1, P2, k - 1);
      CashFlowAgree(exp, P1, P2, k);
    }
  }

  /**
   * The freemium NPV reads every parameter except the trial conversion
   * rate c_trial.
   */
  lemma FreemiumNPVIgnoresTrialConversion(exp: real -> real, P1: Params, P2: Params)
    requires ExpPositive(exp) && P1.d != -1.0
    requires P1.N == P2.N && P1.g == P2.g && P1.a == P2.a && P1.b == P2.b && P1.r == P2.r
    requires P1.p == P2.p && P1.CAC == P2.CAC && P1.d == P2.d && P1.T == P2.T
    ensures FreemiumNPV(exp, P1) == FreemiumNPV(exp, P2)
  {
    FreemiumNPVUpToAgree(exp, P1, P2, Months(P1.T));
  }

  // ---------------------------------------------------------------------
  // Signs of the user counts

  lemma {:induction false} PoolPositive(P: Params, t: nat)
    requires t >= 1 && P.N > 0.0 && P.g > -1.0
    ensures Pool(P, t) > 0.0
  {
    if t > 1 {
      PoolPositive(P, t - 1);
      var previous := Pool(P, t - 1);
      var growth := 1.0 + P.g;
      MulPositive(previous, growth);
      assert Pool(P, t) == previous * growth;
    }
  }

  /**
   * Month t's share of the S-curve is not negative when a >= 0; it is
   * positive in month 1, and in every month when a > 0.
   */
  lemma SCurveIncrement(exp: real -> real, P: Params, t: nat)
    requires IsExp(exp) && P.a >= 0.0 && t >= 1
    ensures SCurve(exp, t as real, P.a, P.b) - PreviousSCurve(exp, P, t) >= 0.0
    ensures t == 1 || P.a > 0.0 ==> SCurve(exp, t as real, P.a, P.b) - PreviousSCurve(exp, P, t) > 0.0
  {
    if t > 1 {
      SCurveMonotone(exp, (t - 1) as real, t as real, P.a, P.b);
    }
  }

  /** New paying users are never negative, and month 1 always has some. */
  lemma NewPaidNonNegative(exp: real -> real, P: Params, t: nat)
    requires Admissible(exp, P) && t >= 1
    ensures FreemiumNewPaid(exp, P, t) >= 0.0
    ensures t == 1 || P.a > 0.0 ==> FreemiumNewPaid(exp, P, t) > 0.0
  {
    PoolPositive(P, t);
    SCurveIncrement(exp, P, t);
    var inc := SCurve(exp, t as real, P.a, P.b) - PreviousSCurve(exp, P, t);
    assert FreemiumNewPaid(exp, P, t) == Pool(P, t) * inc;
    MulNonNegative(Pool(P, t), inc);
    if t == 1 || P.a > 0.0 {
      MulPositive(Pool(P, t), inc);
    }
  }

  /** The paying users of month t include that month's new ones and are positive from month 1 on. */
  lemma {:induction false} PaidAtLeastNewPaid(exp: real -> real, P: Params, k: nat)
    requires Admissible(exp, P) && k >= 1
    ensures FreemiumPaid(exp, P, k) >= FreemiumNewPaid(exp, P, k) >= 0.0
    ensures k == 1 || P.r > 0.0 ==> FreemiumPaid(exp, P, k) > 0.0
  {
    NewPaidNonNegative(exp, P, k);
    if k > 1 {
      PaidAtLeastNewPaid(exp, P, k - 1);
      MulNonNegative(FreemiumPaid(exp, P, k - 1), P.r);
      if P.r > 0.0 {
        MulPositive(FreemiumPaid(exp, P, k - 1), P.r);
      }
    }
  }

  // ---------------------------------------------------------------------
  // The cash flow of one month as a function of its user counts
  //
  // Each order comes in a weak and a strict half with one conclusion each;
  // the lemma joining them picks the half by cases.

  /** A higher price raises the cash flow of u >= 0 paying users, strictly when u > 0. */
  lemma MonthCashFlowPriceOrder(u: real, n: real, p1: real, p2: real, c: real)
    requires u >= 0.0 && p1 < p2
    ensures MonthCashFlow(u, n, p1, c) <= MonthCashFlow(u, n, p2, c)
    ensures u > 0.0 ==> MonthCashFlow(u, n, p1, c) < MonthCashFlow(u, n, p2, c)
  {
    if u > 0.0 {
      MonthCashFlowPriceStrict(u, n, p1, p2, c);
    } else {
      MonthCashFlowPriceWeak(u, n, p1, p2, c);
    }
  }

  lemma MonthCashFlowPriceWeak(u: real, n: real, p1: real, p2: real, c: real)
    requires u >= 0.0 && p1 <= p2
    ensures MonthCashFlow(u, n, p1, c) <= MonthCashFlow(u, n, p2, c)
  {
    MulMonotoneLeft(u, p1, p2);
  }

  lemma MonthCashFlowPriceStrict(u: real, n: real, p1: real, p2: real, c: real)
    requires u > 0.0 && p1 < p2
    ensures MonthCashFlow(u, n, p1, c) < MonthCashFlow(u, n, p2, c)
  {
    MulStrictlyMonotoneLeft(u, p1, p2);
  }

  /** A higher CAC lowers the cash flow of n >= 0 new paying users, strictly when n > 0. */
  lemma MonthCashFlowCACOrder(u: real, n: real, p: real, c1: real, c2: real)
    requires n >= 0.0 && c1 < c2
    ensures MonthCashFlow(u, n, p, c2) <= MonthCashFlow(u, n, p, c1)
    ensures n > 0.0 ==> MonthCashFlow(u, n, p, c2) < MonthCashFlow(u, n, p, c1)
  {
    if n > 0.0 {
      MonthCashFlowCACStrict(u, n, p, c1, c2);
    } else {
      MonthCashFlowCACWeak(u, n, p, c1, c2);
    }
  }

  lemma MonthCashFlowCACWeak(u: real, n: real, p: real, c1: real, c2: real)
    requires n >= 0.0 && c1 <= c2
    ensures MonthCashFlow(u, n, p, c2) <= MonthCashFlow(u, n, p, c1)
  {
    MulMonotoneLeft(n, c1, c2);
  }

  lemma MonthCashFlowCACStrict(u: real, n: real, p: real, c1: real, c2: real)
    requires n > 0.0 && c1 < c2
    ensures MonthCashFlow(u, n, p, c2) < MonthCashFlow(u, n, p, c1)
  {
    MulStrictlyMonotoneLeft(n, c1, c2);
  }

  /** More paying users raise the cash flow at a price p >= 0, strictly when p > 0. */
  lemma MonthCashFlowRevenueOrder(u1: real, u2: real, n: real, p: real, c: real)
    requires u1 <= u2 && p >= 0.0
    ensures MonthCashFlow(u1, n, p, c) <= MonthCashFlow(u2, n, p, c)
    ensures u1 < u2 && p > 0.0 ==> MonthCashFlow(u1, n, p, c) < MonthCashFlow(u2, n, p, c)
  {
    if u1 < u2 && p > 0.0 {
      MonthCashFlowRevenueStrict(u1, u2, n, p, c);
    } else {
      MonthCashFlowRevenueWeak(u1, u2, n, p, c);
    }
  }

  lemma MonthCashFlowRevenueWeak(u1: real, u2: real, n: real, p: real, c: real)
    requires u1 <= u2 && p >= 0.0
    ensures MonthCashFlow(u1, n, p, c) <= MonthCashFlow(u2, n, p, c)
  {
    MulMonotone(u1, u2, p);
  }

  lemma MonthCashFlowRevenueStrict(u1: real, u2: real, n: real, p: real, c: real)
    requires u1 < u2 && p > 0.0
    ensures MonthCashFlow(u1, n, p, c) < MonthCashFlow(u2, n, p, c)
  {
    MulStrictlyMonotone(u1, u2, p);
  }

  /**
   * When the paying users grow at least as much as the new ones and the
   * price is not negative and at least CAC, the cash flow grows, strictly
   * when the new users grow and the price exceeds CAC.
   */
  lemma MonthCashFlowGrowthOrder(u1: real, n1: real, u2: real, n2: real, p: real, c: real)
    requires 0.0 <= n2 - n1 <= u2 - u1 && p >= 0.0 && p >= c
    ensures MonthCashFlow(u1, n1, p, c) <= MonthCashFlow(u2, n2, p, c)
    ensures n1 < n2 && p > c ==> MonthCashFlow(u1, n1, p, c) < MonthCashFlow(u2, n2, p, c)
  {
    if n1 < n2 && p > c {
      MonthCashFlowGrowthStrict(u1, n1, u2, n2, p, c);
    } else {
      MonthCashFlowGrowthWeak(u1, n1, u2, n2, p, c);
    }
  }

  lemma MonthCashFlowGrowthWeak(u1: real, n1: real, u2: real, n2: real, p: real, c: real)
    requires 0.0 <= n2 - n1 <= u2 - u1 && p >= 0.0 && p >= c
    ensures MonthCashFlow(u1, n1, p, c) <= MonthCashFlow(u2, n2, p, c)
  {
    RevenueCostGap(u1, u2, n1, n2, p, c);
  }

  lemma MonthCashFlowGrowthStrict(u1: real, n1: real, u2: real, n2: real, p: real, c: real)
    requires 0.0 < n2 - n1 <= u2 - u1 && p >= 0.0 && p > c
    ensures MonthCashFlow(u1, n1, p, c) < MonthCashFlow(u2, n2, p, c)
  {
    RevenueCostGapStrict(u1, u2, n1, n2, p, c);
  }

  /**
   * With 0 <= n <= u and a price p >= 0 above CAC, the cash flow is not
   * negative; it is positive when n > 0, or when u > 0 and p > 0.
   */
  lemma MonthCashFlowSign(u: real, n: real, p: real, c: real)
    requires 0.0 <= n <= u && p >= 0.0 && p > c
    ensures MonthCashFlow(u, n, p, c) >= 0.0
    ensures n > 0.0 || (u > 0.0 && p > 0.0) ==> MonthCashFlow(u, n, p, c) > 0.0
  {
    if n > 0.0 || (u > 0.0 && p > 0.0) {
      MonthCashFlowPositive(u, n, p, c);
    } else {
      MonthCashFlowNonNegative(u, n, p, c);
    }
  }

  lemma MonthCashFlowNonNegative(u: real, n: real, p: real, c: real)
    requires 0.0 <= n <= u && p >= 0.0 && p > c
    ensures MonthCashFlow(u, n, p, c) >= 0.0
  {
    MulMonotone(n, u, p);
    MulMonotoneLeft(n, c, p);
  }

  lemma MonthCashFlowPositive(u: real, n: real, p: real, c: real)
    requires 0.0 <= n <= u && p >= 0.0 && p > c
    requires n > 0.0 || (u > 0.0 && p > 0.0)
    ensures MonthCashFlow(u, n, p, c) > 0.0
  {
    MulMonotone(n, u, p);
    if n > 0.0 {
      MulStrictlyMonotoneLeft(n, c, p);
    } else {
      MulPositive(u, p);
    }
  }

  // ---------------------------------------------------------------------
  // From cash flows to present values

  /**
   * Two projections with the same discount rate order month t's present
   * values as they order its cash flows.
   */
  lemma PresentValueOrder(exp: real -> real, P1: Params, P2: Params, t: nat)
    requires ExpPositive(exp) && P1.d > -1.0 && P2.d == P1.d && t >= 1
    requires FreemiumCashFlow(exp, P1, t) <= FreemiumCashFlow(exp, P2, t)
    ensures FreemiumPresentValue(exp, P1, t) <= FreemiumPresentValue(exp, P2, t)
    ensures FreemiumCashFlow(exp, P1, t) < FreemiumCashFlow(exp, P2, t) ==>
              FreemiumPresentValue(exp, P1, t) < FreemiumPresentValue(exp, P2, t)
  {
    DiscountedOrder(FreemiumCashFlow(exp, P1, t), FreemiumCashFlow(exp, P2, t), Discount(P1.d, t));
  }

  // ---------------------------------------------------------------------
  // Price

  /** A higher price strictly raises every month's cash flow that has paying users. */
  lemma CashFlowPriceOrder(exp: real -> real, P: Params, p2: real, t: nat)
    requires ExpPositive(exp) && P.p < p2 && t >= 1
    requires FreemiumPaid(exp, P, t) >= 0.0
    ensures FreemiumCashFlow(exp, P, t) <= FreemiumCashFlow(exp, P.(p := p2), t)
    ensures FreemiumPaid(exp, P, t) > 0.0 ==> FreemiumCashFlow(exp, P, t) < FreemiumCashFlow(exp, P.(p := p2), t)
  {
    PaidAgree(exp, P, P.(p := p2), t);
    NewPaidAgree(exp, P, P.(p := p2), t);
    MonthCashFlowPriceOrder(FreemiumPaid(exp, P, t), FreemiumNewPaid(exp, P, t), P.p, p2, P.CAC);
  }

  lemma {:induction false} FreemiumNPVUpToPriceOrder(exp: real -> real, P: Params, p2: real, k: nat)
    requires Admissible(exp, P) && P.p < p2
    ensures FreemiumNPVUpTo(exp, P, k) <= FreemiumNPVUpTo(exp, P.(p := p2), k)
    ensures k >= 1 ==> FreemiumNPVUpTo(exp, P, k) < FreemiumNPVUpTo(exp, P.(p := p2), k)
  {
    if k > 0 {
      var P2 := P.(p := p2);
      FreemiumNPVUpToPriceOrder(exp, P, p2, k - 1);
      PaidAtLeastNewPaid(exp, P, k);
      CashFlowPriceOrder(exp, P, p2, k);
      PresentValueOrder(exp, P, P2, k);
    }
  }

  /** Over at least one month, a higher price strictly raises the freemium NPV. */
  lemma FreemiumNPVIncreasingInPrice(exp: real -> real, P: Params, p2: real)
    requires Admissible(exp, P) && P.p < p2 && P.T >= 1
    ensures FreemiumNPV(exp, P) < FreemiumNPV(exp, P.(p := p2))
  {
    FreemiumNPVUpToPriceOrder(exp, P, p2, Months(P.T));
  }

  // ---------------------------------------------------------------------
  // Acquisition cost

  /** A higher CAC strictly lowers every month's cash flow that has new paying users. */
  lemma CashFlowCACOrder(exp: real -> real, P: Params, c2: real, t: nat)
    requires ExpPositive(exp) && P.CAC < c2 && t >= 1
    requires FreemiumNewPaid(exp, P, t) >= 0.0
    ensures FreemiumCashFlow(exp, P.(CAC := c2), t) <= FreemiumCashFlow(exp, P, t)
    ensures FreemiumNewPaid(exp, P, t) > 0.0 ==> FreemiumCashFlow(exp, P.(CAC := c2), t) < FreemiumCashFlow(exp, P, t)
  {
    PaidAgree(exp, P, P.(CAC := c2), t);
    NewPaidAgree(exp, P, P.(CAC := c2), t);
    MonthCashFlowCACOrder(FreemiumPaid(exp, P, t), FreemiumNewPaid(exp, P, t), P.p, P.CAC, c2);
  }

  lemma {:induction false} FreemiumNPVUpToCACOrder(exp: real -> real, P: Params, c2: real, k: nat)
    requires Admissible(exp, P) && P.CAC < c2
    ensures FreemiumNPVUpTo(exp, P.(CAC := c2), k) <= FreemiumNPVUpTo(exp, P, k)
    ensures k >= 1 ==> FreemiumNPVUpTo(exp, P.(CAC := c2), k) < FreemiumNPVUpTo(exp, P, k)
  {
    if k > 0 {
      var P2 := P.(CAC := c2);
      FreemiumNPVUpToCACOrder(exp, P, c2, k - 1);
      NewPaidNonNegative(exp, P, k);
      CashFlowCACOrder(exp, P, c2, k);
      PresentValueOrder(exp, P2, P, k);
    }
  }

  /** Over at least one month, a higher CAC strictly lowers the freemium NPV. */
  lemma FreemiumNPVDecreasingInCAC(exp: real -> real, P: Params, c2: real)
    requires Admissible(exp, P) && P.CAC < c2 && P.T >= 1
    ensures FreemiumNPV(exp, P.(CAC := c2)) < FreemiumNPV(exp, P)
  {
    FreemiumNPVUpToCACOrder(exp, P, c2, Months(P.T));
  }

  // ---------------------------------------------------------------------
  // Sign and horizon

  /**
   * When the price is not negative and exceeds CAC, no month has a
   * negative cash flow, and month 1 (or, with r > 0 and p > 0, every
   * month) a positive one.
   */
  lemma FreemiumCashFlowSigns(exp: real -> real, P: Params, t: nat)
    requires Admissible(exp, P) && P.p > P.CAC && P.p >= 0.0 && t >= 1
    ensures FreemiumCashFlow(exp, P, t) >= 0.0
    ensures t == 1 || (P.r > 0.0 && P.p > 0.0) ==> FreemiumCashFlow(exp, P, t) > 0.0
  {
    PaidAtLeastNewPaid(exp, P, t);
    NewPaidNonNegative(exp, P, t);
    CashFlowSign(exp, P, t);
  }

  /** The sign of a month's cash flow follows from the order of its user counts. */
  lemma CashFlowSign(exp: real -> real, P: Params, t: nat)
    requires ExpPositive(exp) && P.p > P.CAC && P.p >= 0.0 && t >= 1
    requires 0.0 <= FreemiumNewPaid(exp, P, t) <= FreemiumPaid(exp, P, t)
    ensures FreemiumCashFlow(exp, P, t) >= 0.0
    ensures FreemiumNewPaid(exp, P, t) > 0.0 || (FreemiumPaid(exp, P, t) > 0.0 && P.p > 0.0) ==>
              FreemiumCashFlow(exp, P, t) > 0.0
  {
    MonthCashFlowSign(FreemiumPaid(exp, P, t), FreemiumNewPaid(exp, P, t), P.p, P.CAC);
  }

  /** A month whose cash flow is not negative (positive) has a present value that is not negative (positive). */
  lemma PresentValueSign(exp: real -> real, P: Params, t: nat)
    requires ExpPositive(exp) && P.d > -1.0 && t >= 1
    requires FreemiumCashFlow(exp, P, t) >= 0.0
    ensures FreemiumPresentValue(exp, P, t) >= 0.0
    ensures FreemiumCashFlow(exp, P, t) > 0.0 ==> FreemiumPresentValue(exp, P, t) > 0.0
  {
    MulNonNegative(FreemiumCashFlow(exp, P, t), Discount(P.d, t));
    if FreemiumCashFlow(exp, P, t) > 0.0 {
      MulPositive(FreemiumCashFlow(exp, P, t), Discount(P.d, t));
    }
  }

  lemma {:induction false} FreemiumNPVUpToPositive(exp: real -> real, P: Params, k: nat)
    requires Admissible(exp, P) && P.p > P.CAC && P.p >= 0.0 && k >= 1
    ensures FreemiumNPVUpTo(exp, P, k) > 0.0
  {
    FreemiumCashFlowSigns(exp, P, k);
    PresentValueSign(exp, P, k);
    if k > 1 {
      FreemiumNPVUpToPositive(exp, P, k - 1);
    }
  }

  /** When the price exceeds CAC, the freemium NPV over at least one month is positive. */
  lemma FreemiumNPVPositive(exp: real -> real, P: Params)
    requires Admissible(exp, P) && P.p > P.CAC && P.p >= 0.0 && P.T >= 1
    ensures FreemiumNPV(exp, P) > 0.0
  {
    FreemiumNPVUpToPositive(exp, P, Months(P.T));
  }

  lemma {:induction false} FreemiumNPVUpToIncreasing(exp: real -> real, P: Params, k1: nat, k2: nat)
    requires Admissible(exp, P) && P.p > P.CAC && P.p > 0.0 && P.r > 0.0
    requires k1 < k2
    ensures FreemiumNPVUpTo(exp, P, k1) < FreemiumNPVUpTo(exp, P, k2)
  {
    if k1 < k2 - 1 {
      FreemiumNPVUpToIncreasing(exp, P, k1, k2 - 1);
    }
    FreemiumCashFlowSigns(exp, P, k2);
    PresentValueSign(exp, P, k2);
  }

  /** With a positive price above CAC and positive retention, a longer horizon strictly raises the freemium NPV. */
  lemma FreemiumNPVGrowsWithHorizon(exp: real -> real, P: Params, T2: int)
    requires Admissible(exp, P) && P.p > P.CAC && P.p > 0.0 && P.r > 0.0
    requires 0 <= P.T < T2
    ensures FreemiumNPV(exp, P) < FreemiumNPV(exp, P.(T := T2))
  {
    FreemiumNPVUpToIncreasing(exp, P, Months(P.T), Months(T2));
    FreemiumNPVUpToAgree(exp, P, P.(T := T2), Months(T2));
  }

  // ---------------------------------------------------------------------
  // Retention

  /**
   * A higher retention keeps at least as many paying users in every
   * month, and strictly more from month 2 on.
   */
  lemma {:induction false} PaidRetentionOrder(exp: real -> real, P: Params, r2: real, k: nat)
    requires Admissible(exp, P) && P.r < r2 && k >= 1
    ensures 0.0 <= FreemiumPaid(exp, P, k) <= FreemiumPaid(exp, P.(r := r2), k)
    ensures k >= 2 ==> FreemiumPaid(exp, P, k) < FreemiumPaid(exp, P.(r := r2), k)
  {
    var P2 := P.(r := r2);
    NewPaidAgree(exp, P, P2, k);
    PaidAtLeastNewPaid(exp, P, k);
    if k > 1 {
      PaidRetentionOrder(exp, P, r2, k - 1);
      PaidAtLeastNewPaid(exp, P2, k - 1);
      RetainedOrder(FreemiumPaid(exp, P, k - 1), FreemiumPaid(exp, P2, k - 1), P.r, P2.r);
    }
  }

  /** With new users unchanged, the extra paying users a higher retention keeps raise the cash flow. */
  lemma CashFlowRetentionOrder(exp: real -> real, P: Params, r2: real, t: nat)
    requires ExpPositive(exp) && t >= 1 && P.p > 0.0
    requires FreemiumPaid(exp, P, t) <= FreemiumPaid(exp, P.(r := r2), t)
    ensures FreemiumCashFlow(exp, P, t) <= FreemiumCashFlow(exp, P.(r := r2), t)
    ensures FreemiumPaid(exp, P, t) < FreemiumPaid(exp, P.(r := r2), t) ==>
              FreemiumCashFlow(exp, P, t) < FreemiumCashFlow(exp, P.(r := r2), t)
  {
    NewPaidAgree(exp, P, P.(r := r2), t);
    MonthCashFlowRevenueOrder(FreemiumPaid(exp, P, t), FreemiumPaid(exp, P.(r := r2), t), FreemiumNewPaid(exp, P, t), P.p, P.CAC);
  }

  lemma {:induction false} FreemiumNPVUpToRetentionOrder(exp: real -> real, P: Params, r2: real, k: nat)
    requires Admissible(exp, P) && P.p > 0.0 && P.r < r2
    ensures FreemiumNPVUpTo(exp, P, k) <= FreemiumNPVUpTo(exp, P.(r := r2), k)
    ensures k >= 2 ==> FreemiumNPVUpTo(exp, P, k) < FreemiumNPVUpTo(exp, P.(r := r2), k)
  {
    if k > 0 {
      var P2 := P.(r := r2);
      FreemiumNPVUpToRetentionOrder(exp, P, r2, k - 1);
      PaidRetentionOrder(exp, P, r2, k);
      CashFlowRetentionOrder(exp, P, r2, k);
      PresentValueOrder(exp, P, P2, k);
    }
  }

  /** Over two months or more, a higher retention strictly raises the freemium NPV. */
  lemma FreemiumNPVIncreasingInRetention(exp: real -> real, P: Params, r2: real)
    requires Admissible(exp, P) && P.p > 0.0 && P.r < r2 && P.T >= 2
    ensures FreemiumNPV(exp, P) < FreemiumNPV(exp, P.(r := r2))
  {
    FreemiumNPVUpToRetentionOrder(exp, P, r2, Months(P.T));
  }

  // ---------------------------------------------------------------------
  // Discount rate

  /**
   * A higher discount rate gives a month whose cash flow is not negative
   * a present value no larger, and strictly smaller when the cash flow is
   * positive.
   */
  lemma PresentValueDiscountOrder(exp: real -> real, P: Params, d2: real, t: nat)
    requires ExpPositive(exp) && -1.0 < P.d < d2 && t >= 1
    requires FreemiumCashFlow(exp, P, t) >= 0.0
    ensures FreemiumPresentValue(exp, P.(d := d2), t) <= FreemiumPresentValue(exp, P, t)
    ensures FreemiumCashFlow(exp, P, t) > 0.0 ==> FreemiumPresentValue(exp, P.(d := d2), t) < FreemiumPresentValue(exp, P, t)
  {
    CashFlowAgree(exp, P, P.(d := d2), t);
    DiscountDecreasingInRate(P.d, d2, t);
    DiscountOrder(FreemiumCashFlow(exp, P.(d := d2), t), FreemiumCashFlow(exp, P, t), Discount(d2, t), Discount(P.d, t));
  }

  lemma {:induction false} FreemiumNPVUpToDiscountOrder(exp: real -> real, P: Params, d2: real, k: nat)
    requires Admissible(exp, P) && P.p > P.CAC && P.p >= 0.0 && P.d < d2
    ensures FreemiumNPVUpTo(exp, P.(d := d2), k) <= FreemiumNPVUpTo(exp, P, k)
    ensures k >= 1 ==> FreemiumNPVUpTo(exp, P.(d := d2), k) < FreemiumNPVUpTo(exp, P, k)
  {
    if k > 0 {
      var P2 := P.(d := d2);
      FreemiumNPVUpToDiscountOrder(exp, P, d2, k - 1);
      FreemiumCashFlowSigns(exp, P, k);
      PresentValueDiscountOrder(exp, P, d2, k);
    }
  }

  /** When the price exceeds CAC, a higher discount rate strictly lowers the freemium NPV. */
  lemma FreemiumNPVDecreasingInDiscount(exp: real -> real, P: Params, d2: real)
    requires Admissible(exp, P) && P.p > P.CAC && P.p >= 0.0 && P.d < d2 && P.T >= 1
    ensures FreemiumNPV(exp, P.(d := d2)) < FreemiumNPV(exp, P)
  {
    FreemiumNPVUpToDiscountOrder(exp, P, d2, Months(P.T));
  }

  // ---------------------------------------------------------------------
  // Growth

  /** A faster-growing pool is at least as large in every month, and strictly larger from month 2 on. */
  lemma {:induction false} PoolGrowthOrder(P: Params, g2: real, t: nat)
    requires P.N > 0.0 && -1.0 < P.g < g2 && t >= 1
    ensures 0.0 < Pool(P, t) <= Pool(P.(g := g2), t)
    ensures t >= 2 ==> Pool(P, t) < Pool(P.(g := g2), t)
  {
    var P2 := P.(g := g2);
    PoolPositive(P, t);
    if t > 1 {
      PoolGrowthOrder(P, g2, t - 1);
      RetainedOrder(Pool(P, t - 1), Pool(P2, t - 1), 1.0 + P.g, 1.0 + P2.g);
    }
  }

  lemma NewPaidGrowthOrder(exp: real -> real, P: Params, g2: real, t: nat)
    requires Admissible(exp, P) && P.g < g2 && t >= 1
    ensures 0.0 <= FreemiumNewPaid(exp, P, t) <= FreemiumNewPaid(exp, P.(g := g2), t)
    ensures t >= 2 && P.a > 0.0 ==> FreemiumNewPaid(exp, P, t) < FreemiumNewPaid(exp, P.(g := g2), t)
  {
    var P2 := P.(g := g2);
    PoolGrowthOrder(P, g2, t);
    SCurveIncrement(exp, P, t);
    NewPaidNonNegative(exp, P, t);
    var inc := SCurve(exp, t as real, P.a, P.b) - PreviousSCurve(exp, P, t);
    assert PreviousSCurve(exp, P2, t) == PreviousSCurve(exp, P, t);
    MulMonotone(Pool(P, t), Pool(P2, t), inc);
    if t >= 2 && P.a > 0.0 {
      MulStrictlyMonotone(Pool(P, t), Pool(P2, t), inc);
    }
  }

  /** One month of the paid-user recurrence keeps the gap faster growth opens. */
  lemma PaidGrowthStep(exp: real -> real, P: Params, g2: real, k: nat)
    requires ExpPositive(exp) && P.r >= 0.0 && k >= 1
    requires FreemiumPaid(exp, P, k - 1) <= FreemiumPaid(exp, P.(g := g2), k - 1)
    ensures FreemiumPaid(exp, P.(g := g2), k) - FreemiumPaid(exp, P, k)
         >= FreemiumNewPaid(exp, P.(g := g2), k) - FreemiumNewPaid(exp, P, k)
  {
    RetainedGap(FreemiumPaid(exp, P, k - 1), FreemiumPaid(exp, P.(g := g2), k - 1),
                FreemiumNewPaid(exp, P, k), FreemiumNewPaid(exp, P.(g := g2), k), P.r);
  }

  /** Faster growth adds at least as many paying users as it adds new ones. */
  lemma {:induction false} PaidGrowthOrder(exp: real -> real, P: Params, g2: real, k: nat)
    requires Admissible(exp, P) && P.g < g2 && k >= 1
    ensures FreemiumPaid(exp, P.(g := g2), k) - FreemiumPaid(exp, P, k)
         >= FreemiumNewPaid(exp, P.(g := g2), k) - FreemiumNewPaid(exp, P, k) >= 0.0
  {
    NewPaidGrowthOrder(exp, P, g2, k);
    if k > 1 {
      PaidGrowthOrder(exp, P, g2, k - 1);
    }
    PaidGrowthStep(exp, P, g2, k);
  }

  /**
   * When the price is not negative and at least CAC, faster growth never
   * lowers a month's cash flow; it raises it strictly when it adds new
   * paying users and the price exceeds CAC, which happens from month 2 on
   * when a > 0.
   */
  lemma CashFlowGrowthOrder(exp: real -> real, P: Params, g2: real, t: nat)
    requires Admissible(exp, P) && P.g < g2 && P.p >= 0.0 && P.p >= P.CAC && t >= 1
    ensures FreemiumCashFlow(exp, P, t) <= FreemiumCashFlow(exp, P.(g := g2), t)
    ensures FreemiumNewPaid(exp, P, t) < FreemiumNewPaid(exp, P.(g := g2), t) && P.p > P.CAC ==>
              FreemiumCashFlow(exp, P, t) < FreemiumCashFlow(exp, P.(g := g2), t)
    ensures t >= 2 && P.a > 0.0 && P.p > P.CAC ==>
              FreemiumCashFlow(exp, P, t) < FreemiumCashFlow(exp, P.(g := g2), t)
  {
    PaidGrowthOrder(exp, P, g2, t);
    NewPaidGrowthOrder(exp, P, g2, t);
    MonthCashFlowGrowthOrder(FreemiumPaid(exp, P, t), FreemiumNewPaid(exp, P, t),
                             FreemiumPaid(exp, P.(g := g2), t), FreemiumNewPaid(exp, P.(g := g2), t), P.p, P.CAC);
  }

  lemma {:induction false} FreemiumNPVUpToGrowthOrder(exp: real -> real, P: Params, g2: real, k: nat)
    requires Admissible(exp, P) && P.p > P.CAC && P.p >= 0.0 && P.g < g2
    ensures FreemiumNPVUpTo(exp, P, k) <= FreemiumNPVUpTo(exp, P.(g := g2), k)
    ensures k >= 2 && P.a > 0.0 ==> FreemiumNPVUpTo(exp, P, k) < FreemiumNPVUpTo(exp, P.(g := g2), k)
  {
    if k > 0 {
      FreemiumNPVUpToGrowthOrder(exp, P, g2, k - 1);
      CashFlowGrowthOrder(exp, P, g2, k);
      PresentValueOrder(exp, P, P.(g := g2), k);
    }
  }

  /**
   * Faster growth of the pool raises the freemium NPV by more than it
   * raises the trial NPV, which it leaves unchanged.
   */
  lemma GrowthFavoursFreemium(exp: real -> real, P: Params, g2: real)
    requires Admissible(exp, P) && P.a > 0.0 && P.p > P.CAC && P.p >= 0.0 && P.g < g2 && P.T >= 2
    ensures FreemiumNPV(exp, P.(g := g2)) - FreemiumNPV(exp, P) > TrialNPV(P.(g := g2)) - TrialNPV(P)
    ensures TrialNPV(P.(g := g2)) == TrialNPV(P)
  {
    FreemiumNPVUpToGrowthOrder(exp, P, g2, Months(P.T));
    TrialProperties.TrialNPVIgnoresFreemiumParams(P, P.(g := g2));
  }

  // ---------------------------------------------------------------------
  // Empty pool

  lemma {:induction false} FreemiumNPVUpToNoUsers(exp: real -> real, P: Params, k: nat)
    requires ExpPositive(exp) && P.d != -1.0 && P.N == 0.0
    ensures FreemiumNPVUpTo(exp, P, k) == 0.0
    ensures FreemiumPaid(exp, P, k) == 0.0
  {
    if k > 0 {
      FreemiumNPVUpToNoUsers(exp, P, k - 1);
      PoolClosedForm(P, k);
    }
  }

  /** An empty user pool gives a freemium NPV of exactly 0. */
  lemma FreemiumNPVNoUsers(exp: real -> real, P: Params)
    requires ExpPositive(exp) && P.d != -1.0 && P.N == 0.0
    ensures FreemiumNPV(exp, P) == 0.0
  {
    FreemiumNPVUpToNoUsers(exp, P, Months(P.T));
  }
}
