/**
 * The projection engine: the S-curve, the month-by-month trial and freemium
 * recurrences, and the NPV each of them accumulates.
 *
 * Numbers are reals, not IEEE doubles. Math.pow(1 + d, t) is Pow, and
 * Math.exp is a function `exp` supplied by the caller; the projection
 * needs only that it is positive (ExpPositive), and the lemmas about it
 * assume the laws of IsExp.
 * The recursive functions below are the specification of the two loops:
 * for a month t >= 1 they give the quantities the loop body computes in
 * that month, and the NPV accumulated after k months.
 */
module Calculations {
  import opened RealArith

  /** The business parameters of a projection. */
  datatype Params = Params(
    N: real,        // initial user pool
    p: real,        // price per paying user per month
    c_trial: real,  // trial-to-paid conversion fraction
    a: real,        // S-curve steepness
    b: real,        // S-curve inflection month
    r: real,        // monthly retention of paying users
    CAC: real,      // acquisition cost per new paying user
    d: real,        // monthly discount rate
    g: real,        // monthly growth of the freemium pool
    T: int          // months to simulate
  )

  /** The number of iterations of `for (t = 1; t <= T; t++)`. */
  function Months(T: int): (n: nat)
    ensures T >= 1 ==> n == T
    ensures T < 1 ==> n == 0
  {
    if T > 0 then T else 0
  }

  /** The logistic S-curve 1 / (1 + exp(-a (t - b))). */
  function SCurve(exp: real -> real, t: real, a: real, b: real): (s: real)
    requires ExpPositive(exp)
    ensures 0.0 < s < 1.0
  {
    var e := exp(-a * (t - b));
    ReciprocalBelowOne(1.0 + e);
    1.0 / (1.0 + e)
  }

  /** The curve passes through 1/2 at its inflection month b, whatever its steepness. */
  lemma SCurveAtInflection(exp: real -> real, a: real, b: real)
    requires IsExp(exp)
    ensures SCurve(exp, b, a, b) == 0.5
  {
    assert -a * (b - b) == 0.0;
  }

  /** The exponent -a (t - b) does not grow with t when a >= 0, and falls when a > 0. */
  lemma ExponentOrder(t1: real, t2: real, a: real, b: real)
    requires a >= 0.0 && t1 <= t2
    ensures -a * (t2 - b) <= -a * (t1 - b)
    ensures a > 0.0 && t1 < t2 ==> -a * (t2 - b) < -a * (t1 - b)
    ensures a == 0.0 || t1 == t2 ==> -a * (t2 - b) == -a * (t1 - b)
  {
    assert -a * (t1 - b) - -a * (t2 - b) == a * (t2 - t1);
    MulNonNegative(a, t2 - t1);
    if a > 0.0 && t1 < t2 {
      MulPositive(a, t2 - t1);
    }
  }

  /**
   * With a >= 0 the curve never falls as t grows (it is flat when a == 0),
   * and with a > 0 it rises strictly.
   */
  lemma SCurveMonotone(exp: real -> real, t1: real, t2: real, a: real, b: real)
    requires IsExp(exp) && a >= 0.0 && t1 <= t2
    ensures SCurve(exp, t1, a, b) <= SCurve(exp, t2, a, b)
    ensures a > 0.0 && t1 < t2 ==> SCurve(exp, t1, a, b) < SCurve(exp, t2, a, b)
  {
    ExponentOrder(t1, t2, a, b);
    if a > 0.0 && t1 < t2 {
      assert ExpOrdered(exp, -a * (t2 - b), -a * (t1 - b));
      ReciprocalAntitone(1.0 + exp(-a * (t2 - b)), 1.0 + exp(-a * (t1 - b)));
    } else {
      assert -a * (t2 - b) == -a * (t1 - b);
    }
  }

  /** The discount factor 1 / (1 + d)^t of month t. */
  function Discount(d: real, t: nat): (f: real)
    requires d != -1.0
    ensures f != 0.0
    ensures d > -1.0 ==> f > 0.0
  {
    PowSign(1.0 + d, t);
    1.0 / Pow(1.0 + d, t)
  }

  /** A higher discount rate gives every month from the first on a strictly smaller factor. */
  lemma DiscountDecreasingInRate(d1: real, d2: real, t: nat)
    requires -1.0 < d1 < d2 && t >= 1
    ensures 0.0 < Discount(d2, t) < Discount(d1, t)
  {
    PowStrictlyIncreasingInBase(1.0 + d1, 1.0 + d2, t);
    PowPositive(1.0 + d1, t);
    ReciprocalAntitone(Pow(1.0 + d1, t), Pow(1.0 + d2, t));
  }

  // ---------------------------------------------------------------------
  // Trial model

  /** The paying users of month t: one cohort of N * c_trial, decayed by r after each month. */
  function TrialUsers(P: Params, t: nat): real
    requires t >= 1
  {
    if t == 1 then P.N * P.c_trial else TrialUsers(P, t - 1) * P.r
  }

  /** The acquisition cost of month t: charged on the first month only. */
  function TrialCosts(P: Params, t: nat): real
    requires t >= 1
  {
    if t == 1 then TrialUsers(P, t) * P.CAC else 0.0
  }

  function TrialCashFlow(P: Params, t: nat): real
    requires t >= 1
  {
    TrialUsers(P, t) * P.p - TrialCosts(P, t)
  }

  /** The present value of month t's cash flow. */
  function TrialPresentValue(P: Params, t: nat): real
    requires P.d != -1.0 && t >= 1
  {
    TrialCashFlow(P, t) * Discount(P.d, t)
  }

  /** The trial NPV after k months: the present values of months 1..k. */
  function TrialNPVUpTo(P: Params, k: nat): real
    requires P.d != -1.0
  {
    if k == 0 then 0.0 else TrialNPVUpTo(P, k - 1) + TrialPresentValue(P, k)
  }

  function TrialNPV(P: Params): real
    requires P.d != -1.0
  {
    TrialNPVUpTo(P, Months(P.T))
  }

  /** The trial loop; its result is the NPV of months 1..T. */
  method CalculateTrialNPV(P: Params) returns (npv: real)
    requires P.d != -1.0
    ensures npv == TrialNPVUpTo(P, Months(P.T))
    ensures P.T < 1 ==> npv == 0.0
  {
    npv := 0.0;
    var users := P.N * P.c_trial;
    var t := 1;
    while t <= P.T
      invariant 1 <= t <= Months(P.T) + 1
      invariant users == TrialUsers(P, t)
      invariant npv == TrialNPVUpTo(P, t - 1)
    {
      var revenue := users * P.p;
      var costs := if t == 1 then users * P.CAC else 0.0;
      var cashFlow := revenue - costs;
      var discountFactor := Discount(P.d, t);
      npv := npv + cashFlow * discountFactor;
      users := users * P.r;
      t := t + 1;
    }
  }

  // ---------------------------------------------------------------------
  // Freemium model

  /** The user pool entering month t: N, grown by (1 + g) after each month. */
  function Pool(P: Params, t: nat): real
    requires t >= 1
  {
    if t == 1 then P.N else Pool(P, t - 1) * (1.0 + P.g)
  }

  /** The S-curve value of the month before t, or 0 for the first month. */
  function PreviousSCurve(exp: real -> real, P: Params, t: nat): real
    requires ExpPositive(exp) && t >= 1
  {
    if t > 1 then SCurve(exp, (t - 1) as real, P.a, P.b) else 0.0
  }

  /** The new paying users of month t: the pool times the S-curve's increment. */
  function FreemiumNewPaid(exp: real -> real, P: Params, t: nat): real
    requires ExpPositive(exp) && t >= 1
  {
    Pool(P, t) * (SCurve(exp, t as real, P.a, P.b) - PreviousSCurve(exp, P, t))
  }

  /** The paying users after month k (0 before the first month). */
  function FreemiumPaid(exp: real -> real, P: Params, k: nat): real
    requires ExpPositive(exp)
  {
    if k == 0 then 0.0 else FreemiumPaid(exp, P, k - 1) * P.r + FreemiumNewPaid(exp, P, k)
  }

  /** Revenue minus acquisition cost of a month with the given paying and new paying users. */
  function MonthCashFlow(paidUsers: real, newPaidUsers: real, p: real, CAC: real): real
  {
    paidUsers * p - newPaidUsers * CAC
  }

  function FreemiumCashFlow(exp: real -> real, P: Params, t: nat): real
    requires ExpPositive(exp) && t >= 1
  {
    MonthCashFlow(FreemiumPaid(exp, P, t), FreemiumNewPaid(exp, P, t), P.p, P.CAC)
  }

  /** The present value of month t's cash flow. */
  function FreemiumPresentValue(exp: real -> real, P: Params, t: nat): real
    requires ExpPositive(exp) && P.d != -1.0 && t >= 1
  {
    FreemiumCashFlow(exp, P, t) * Discount(P.d, t)
  }

  /** The freemium NPV after k months: the present values of months 1..k. */
  function FreemiumNPVUpTo(exp: real -> real, P: Params, k: nat): real
    requires ExpPositive(exp) && P.d != -1.0
  {
    if k == 0 then 0.0 else FreemiumNPVUpTo(exp, P, k - 1) + FreemiumPresentValue(exp, P, k)
  }

  function FreemiumNPV(exp: real -> real, P: Params): real
    requires ExpPositive(exp) && P.d != -1.0
  {
    FreemiumNPVUpTo(exp, P, Months(P.T))
  }

  // Each step of the freemium loop, stated over the loop's own variables so
  // that the loop's proof needs no arithmetic of its own.

  lemma NewPaidStep(exp: real -> real, P: Params, t: nat, totalUsers: real, conversionRate: real, previousRate: real)
    requires ExpPositive(exp) && t >= 1
    requires totalUsers == Pool(P, t)
    requires conversionRate == SCurve(exp, t as real, P.a, P.b)
    requires previousRate == PreviousSCurve(exp, P, t)
    ensures totalUsers * (conversionRate - previousRate) == FreemiumNewPaid(exp, P, t)
  {
  }

  lemma PaidStep(exp: real -> real, P: Params, t: nat, paidUsers: real, newPaidUsers: real)
    requires ExpPositive(exp) && t >= 1
    requires paidUsers == FreemiumPaid(exp, P, t - 1)
    requires newPaidUsers == FreemiumNewPaid(exp, P, t)
    ensures paidUsers * P.r + newPaidUsers == FreemiumPaid(exp, P, t)
  {
  }

  lemma NPVStep(exp: real -> real, P: Params, t: nat, npv: real, cashFlow: real, discountFactor: real)
    requires ExpPositive(exp) && P.d != -1.0 && t >= 1
    requires npv == FreemiumNPVUpTo(exp, P, t - 1)
    requires cashFlow == FreemiumCashFlow(exp, P, t)
    requires discountFactor == Discount(P.d, t)
    ensures npv + cashFlow * discountFactor == FreemiumNPVUpTo(exp, P, t)
  {
  }

  lemma CashFlowStep(exp: real -> real, P: Params, t: nat, paidUsers: real, newPaidUsers: real)
    requires ExpPositive(exp) && t >= 1
    requires paidUsers == FreemiumPaid(exp, P, t)
    requires newPaidUsers == FreemiumNewPaid(exp, P, t)
    ensures MonthCashFlow(paidUsers, newPaidUsers, P.p, P.CAC) == FreemiumCashFlow(exp, P, t)
  {
  }

  lemma PoolStep(P: Params, t: nat, totalUsers: real)
    requires t >= 1 && totalUsers == Pool(P, t)
    ensures totalUsers * (1.0 + P.g) == Pool(P, t + 1)
  {
  }

  /** The freemium loop; its result is the NPV of months 1..T. */
  method CalculateFreemiumNPV(exp: real -> real, P: Params) returns (npv: real)
    requires ExpPositive(exp) && P.d != -1.0
    ensures npv == FreemiumNPVUpTo(exp, P, Months(P.T))
    ensures P.T < 1 ==> npv == 0.0
  {
    npv := 0.0;
    var totalUsers := P.N;
    var paidUsers := 0.0;
    var t := 1;
    while t <= P.T
      invariant 1 <= t <= Months(P.T) + 1
      invariant totalUsers == Pool(P, t)
      invariant paidUsers == FreemiumPaid(exp, P, t - 1)
      invariant npv == FreemiumNPVUpTo(exp, P, t - 1)
    {
      var conversionRate := SCurve(exp, t as real, P.a, P.b);
      var previousRate := if t > 1 then SCurve(exp, (t - 1) as real, P.a, P.b) else 0.0;
      NewPaidStep(exp, P, t, totalUsers, conversionRate, previousRate);
      var newPaidUsers := totalUsers * (conversionRate - previousRate);
      PaidStep(exp, P, t, paidUsers, newPaidUsers);
      paidUsers := paidUsers * P.r + newPaidUsers;

      var revenue := paidUsers * P.p;
      var costs := newPaidUsers * P.CAC;
      CashFlowStep(exp, P, t, paidUsers, newPaidUsers);
      var cashFlow := revenue - costs;
      var discountFactor := Discount(P.d, t);
      NPVStep(exp, P, t, npv, cashFlow, discountFactor);
      npv := npv + cashFlow * discountFactor;

      PoolStep(P, t, totalUsers);
      totalUsers := totalUsers * (1.0 + P.g);
      t := t + 1;
    }
  }
}
