/**
 * Properties of the trial model: the single decaying cohort, the one-off
 * acquisition cost, which parameters the NPV depends on, and how the NPV
 * moves with price, acquisition cost, retention, discount rate and horizon.
 *
 * Each comparison is proved month by month on the present values and then
 * summed by induction over the horizon.
 */
module TrialProperties {
  import opened RealArith
  import opened Calculations

  /** The paying users of month t are the initial cohort decayed t - 1 times. */
  lemma {:induction false} TrialUsersClosedForm(P: Params, t: nat)
    requires t >= 1
    ensures TrialUsers(P, t) == P.N * P.c_trial * Pow(P.r, t - 1)
  {
    if t > 1 {
      TrialUsersClosedForm(P, t - 1);
      assert Pow(P.r, t - 1) == P.r * Pow(P.r, t - 2);
    }
  }

  /** Acquisition cost is the first cohort's N * c_trial * CAC in month 1 and nothing afterwards. */
  lemma TrialCostsOnlyFirstMonth(P: Params, t: nat)
    requires t >= 1
    ensures TrialCosts(P, t) == if t == 1 then P.N * P.c_trial * P.CAC else 0.0
  {
  }

  lemma {:induction false} TrialUsersAgree(P1: Params, P2: Params, t: nat)
    requires t >= 1
    requires P1.N == P2.N && P1.c_trial == P2.c_trial && P1.r == P2.r
    ensures TrialUsers(P1, t) == TrialUsers(P2, t)
  {
    if t > 1 {
      TrialUsersAgree(P1, P2, t - 1);
    }
  }

  lemma TrialCashFlowAgree(P1: Params, P2: Params, t: nat)
    requires t >= 1
    requires P1.N == P2.N && P1.p == P2.p && P1.c_trial == P2.c_trial && P1.r == P2.r && P1.CAC == P2.CAC
    ensures TrialCashFlow(P1, t) == TrialCashFlow(P2, t)
  {
    TrialUsersAgree(P1, P2, t);
    var users := TrialUsers(P1, t);
    assert TrialCosts(P2, t) == TrialCosts(P1, t) by {
      if t == 1 {
        assert TrialCosts(P2, t) == users * P1.CAC;
      }
    }
    assert TrialCashFlow(P2, t) == users * P1.p - TrialCosts(P1, t);
  }

  lemma TrialPresentValueAgree(P1: Params, P2: Params, t: nat)
    requires P1.d != -1.0 && t >= 1
    requires P1.N == P2.N && P1.p == P2.p && P1.c_trial == P2.c_trial && P1.r == P2.r
    requires P1.CAC == P2.CAC && P1.d == P2.d
    ensures TrialPresentValue(P1, t) == TrialPresentValue(P2, t)
  {
    TrialCashFlowAgree(P1, P2, t);
    var cashFlow := TrialCashFlow(P1, t);
    var factor := Discount(P1.d, t);
    assert TrialPresentValue(P2, t) == cashFlow * factor;
  }

  lemma {:induction false} TrialNPVUpToAgree(P1: Params, P2: Params, k: nat)
    requires P1.d != -1.0
    requires P1.N == P2.N && P1.p == P2.p && P1.c_trial == P2.c_trial && P1.r == P2.r
    requires P1.CAC == P2.CAC && P1.d == P2.d
    ensures TrialNPVUpTo(P1, k) == TrialNPVUpTo(P2, k)
  {
    if k > 0 {
      TrialNPVUpToAgree(P1, P2, k - 1);
      TrialPresentValueAgree(P1, P2, k);
    }
  }

  /**
   * The trial NPV reads only N, p, c_trial, r, CAC, d and T: the freemium
   * parameters a, b and g have no effect on it.
   */
  lemma TrialNPVIgnoresFreemiumParams(P1: Params, P2: Params)
    requires P1.d != -1.0
    requires P1.N == P2.N && P1.p == P2.p && P1.c_trial == P2.c_trial && P1.r == P2.r
    requires P1.CAC == P2.CAC && P1.d == P2.d && P1.T == P2.T
    ensures TrialNPV(P1) == TrialNPV(P2)
  {
    TrialNPVUpToAgree(P1, P2, Months(P1.T));
  }

  lemma {:induction false} TrialUsersNonNegative(P: Params, t: nat)
    requires t >= 1 && P.N * P.c_trial >= 0.0 && P.r >= 0.0
    ensures TrialUsers(P, t) >= 0.0
  {
    if t > 1 {
      TrialUsersNonNegative(P, t - 1);
      MulNonNegative(TrialUsers(P, t - 1), P.r);
    }
  }

  lemma {:induction false} TrialUsersPositive(P: Params, t: nat)
    requires t >= 1 && P.N * P.c_trial > 0.0 && P.r > 0.0
    ensures TrialUsers(P, t) > 0.0
  {
    if t > 1 {
      TrialUsersPositive(P, t - 1);
      MulPositive(TrialUsers(P, t - 1), P.r);
    }
  }

  // ---------------------------------------------------------------------
  // Price

  lemma TrialPresentValuePriceOrder(P: Params, p2: real, t: nat)
    requires P.d > -1.0 && P.N * P.c_trial > 0.0 && P.r >= 0.0 && P.p < p2 && t >= 1
    ensures TrialPresentValue(P, t) <= TrialPresentValue(P.(p := p2), t)
    ensures t == 1 ==> TrialPresentValue(P, t) < TrialPresentValue(P.(p := p2), t)
  {
    var P2 := P.(p := p2);
    TrialUsersAgree(P, P2, t);
    var u := TrialUsers(P, t);
    TrialUsersNonNegative(P, t);
    assert TrialCashFlow(P2, t) - TrialCashFlow(P, t) == u * (p2 - P.p);
    MulNonNegative(u, p2 - P.p);
    if t == 1 {
      MulPositive(u, p2 - P.p);
    }
    DiscountedOrder(TrialCashFlow(P, t), TrialCashFlow(P2, t), Discount(P.d, t));
  }

  lemma {:induction false} TrialNPVUpToPriceOrder(P: Params, p2: real, k: nat)
    requires P.d > -1.0 && P.N * P.c_trial > 0.0 && P.r >= 0.0 && P.p < p2
    ensures TrialNPVUpTo(P, k) <= TrialNPVUpTo(P.(p := p2), k)
    ensures k >= 1 ==> TrialNPVUpTo(P, k) < TrialNPVUpTo(P.(p := p2), k)
  {
    if k > 0 {
      TrialNPVUpToPriceOrder(P, p2, k - 1);
      TrialPresentValuePriceOrder(P, p2, k);
    }
  }

  /** With a paying cohort, a positive discount factor and at least one month, a higher price strictly raises the trial NPV. */
  lemma TrialNPVIncreasingInPrice(P: Params, p2: real)
    requires P.d > -1.0 && P.N * P.c_trial > 0.0 && P.r >= 0.0 && P.p < p2 && P.T >= 1
    ensures TrialNPV(P) < TrialNPV(P.(p := p2))
  {
    TrialNPVUpToPriceOrder(P, p2, Months(P.T));
  }

  // ---------------------------------------------------------------------
  // Acquisition cost

  lemma TrialPresentValueCACOrder(P: Params, c2: real, t: nat)
    requires P.d > -1.0 && P.N * P.c_trial > 0.0 && P.CAC < c2 && t >= 1
    ensures t > 1 ==> TrialPresentValue(P.(CAC := c2), t) == TrialPresentValue(P, t)
    ensures t == 1 ==> TrialPresentValue(P.(CAC := c2), t) < TrialPresentValue(P, t)
  {
    var P2 := P.(CAC := c2);
    TrialUsersAgree(P, P2, t);
    if t == 1 {
      var u := P.N * P.c_trial;
      assert TrialCashFlow(P, t) - TrialCashFlow(P2, t) == u * (c2 - P.CAC);
      MulPositive(u, c2 - P.CAC);
      DiscountedOrder(TrialCashFlow(P2, t), TrialCashFlow(P, t), Discount(P2.d, t));
    } else {
      assert TrialCashFlow(P2, t) == TrialCashFlow(P, t);
    }
  }

  lemma {:induction false} TrialNPVUpToCACOrder(P: Params, c2: real, k: nat)
    requires P.d > -1.0 && P.N * P.c_trial > 0.0 && P.CAC < c2
    ensures TrialNPVUpTo(P.(CAC := c2), k) <= TrialNPVUpTo(P, k)
    ensures k >= 1 ==> TrialNPVUpTo(P.(CAC := c2), k) < TrialNPVUpTo(P, k)
  {
    if k > 0 {
      TrialNPVUpToCACOrder(P, c2, k - 1);
      TrialPresentValueCACOrder(P, c2, k);
    }
  }

  /** With a paying cohort, a positive discount factor and at least one month, a higher CAC strictly lowers the trial NPV. */
  lemma TrialNPVDecreasingInCAC(P: Params, c2: real)
    requires P.d > -1.0 && P.N * P.c_trial > 0.0 && P.CAC < c2 && P.T >= 1
    ensures TrialNPV(P.(CAC := c2)) < TrialNPV(P)
  {
    TrialNPVUpToCACOrder(P, c2, Months(P.T));
  }

  // ---------------------------------------------------------------------
  // Sign and horizon

  /**
   * When the price exceeds CAC, month 1 has a positive cash flow and no
   * later month a negative one.
   */
  lemma TrialCashFlowSigns(P: Params, t: nat)
    requires t >= 1 && P.N * P.c_trial > 0.0 && P.p > P.CAC && P.p >= 0.0 && P.r >= 0.0
    ensures TrialCashFlow(P, t) >= 0.0
    ensures t == 1 ==> TrialCashFlow(P, t) > 0.0
  {
    var u := TrialUsers(P, t);
    TrialUsersNonNegative(P, t);
    if t == 1 {
      assert u == P.N * P.c_trial;
      MulStrictlyMonotoneLeft(u, P.CAC, P.p);
      assert TrialCosts(P, t) == u * P.CAC;
      assert TrialCashFlow(P, t) == u * P.p - u * P.CAC;
    } else {
      MulNonNegative(u, P.p);
      assert TrialCashFlow(P, t) == u * P.p;
    }
  }

  lemma {:induction false} TrialNPVUpToPositive(P: Params, k: nat)
    requires P.d > -1.0 && P.N * P.c_trial > 0.0 && P.p > P.CAC && P.p >= 0.0 && P.r >= 0.0
    requires k >= 1
    ensures TrialNPVUpTo(P, k) > 0.0
  {
    TrialCashFlowSigns(P, k);
    if k == 1 {
      MulPositive(TrialCashFlow(P, k), Discount(P.d, k));
    } else {
      TrialNPVUpToPositive(P, k - 1);
      MulNonNegative(TrialCashFlow(P, k), Discount(P.d, k));
    }
  }

  /** When the price exceeds CAC the trial NPV over at least one month is positive. */
  lemma TrialNPVPositive(P: Params)
    requires P.d > -1.0 && P.N * P.c_trial > 0.0 && P.p > P.CAC && P.p >= 0.0 && P.r >= 0.0
    requires P.T >= 1
    ensures TrialNPV(P) > 0.0
  {
    TrialNPVUpToPositive(P, Months(P.T));
  }

  /** Each month after the first adds a positive amount when price and retention are positive. */
  lemma {:induction false} TrialNPVUpToIncreasing(P: Params, k1: nat, k2: nat)
    requires P.d > -1.0 && P.N * P.c_trial > 0.0 && P.p > 0.0 && P.r > 0.0
    requires 1 <= k1 < k2
    ensures TrialNPVUpTo(P, k1) < TrialNPVUpTo(P, k2)
  {
    if k1 < k2 - 1 {
      TrialNPVUpToIncreasing(P, k1, k2 - 1);
    }
    TrialUsersPositive(P, k2);
    MulPositive(TrialUsers(P, k2), P.p);
    MulPositive(TrialCashFlow(P, k2), Discount(P.d, k2));
  }

  /** A longer horizon strictly raises the trial NPV when price and retention are positive. */
  lemma TrialNPVGrowsWithHorizon(P: Params, T2: int)
    requires P.d > -1.0 && P.N * P.c_trial > 0.0 && P.p > 0.0 && P.r > 0.0
    requires 1 <= P.T < T2
    ensures TrialNPV(P) < TrialNPV(P.(T := T2))
  {
    TrialNPVUpToIncreasing(P, Months(P.T), Months(T2));
    TrialNPVUpToAgree(P, P.(T := T2), Months(T2));
  }

  // ---------------------------------------------------------------------
  // Retention

  /**
   * A higher retention keeps more users in every month: the users of
   * month t never fall, and from month 2 on they rise strictly.
   */
  lemma {:induction false} TrialUsersRetentionOrder(P: Params, r2: real, t: nat)
    requires t >= 1 && P.N * P.c_trial > 0.0 && 0.0 <= P.r < r2
    ensures 0.0 <= TrialUsers(P, t) <= TrialUsers(P.(r := r2), t)
    ensures t >= 2 ==> TrialUsers(P, t) < TrialUsers(P.(r := r2), t)
  {
    var P2 := P.(r := r2);
    if t > 1 {
      TrialUsersRetentionOrder(P, r2, t - 1);
      TrialUsersPositive(P2, t - 1);
      RetainedOrder(TrialUsers(P, t - 1), TrialUsers(P2, t - 1), P.r, P2.r);
    }
  }

  lemma TrialPresentValueRetentionOrder(P: Params, r2: real, t: nat)
    requires P.d > -1.0 && P.N * P.c_trial > 0.0 && P.p > 0.0 && 0.0 <= P.r < r2 && t >= 1
    ensures TrialPresentValue(P, t) <= TrialPresentValue(P.(r := r2), t)
    ensures t >= 2 ==> TrialPresentValue(P, t) < TrialPresentValue(P.(r := r2), t)
  {
    var P2 := P.(r := r2);
    TrialUsersRetentionOrder(P, r2, t);
    if t >= 2 {
      MulStrictlyMonotone(TrialUsers(P, t), TrialUsers(P2, t), P.p);
    } else {
      assert TrialCashFlow(P2, t) == TrialCashFlow(P, t);
    }
    DiscountedOrder(TrialCashFlow(P, t), TrialCashFlow(P2, t), Discount(P.d, t));
  }

  lemma {:induction false} TrialNPVUpToRetentionOrder(P: Params, r2: real, k: nat)
    requires P.d > -1.0 && P.N * P.c_trial > 0.0 && P.p > 0.0 && 0.0 <= P.r < r2
    ensures TrialNPVUpTo(P, k) <= TrialNPVUpTo(P.(r := r2), k)
    ensures k >= 2 ==> TrialNPVUpTo(P, k) < TrialNPVUpTo(P.(r := r2), k)
  {
    if k > 0 {
      TrialNPVUpToRetentionOrder(P, r2, k - 1);
      TrialPresentValueRetentionOrder(P, r2, k);
    }
  }

  /** Over two months or more, a higher retention strictly raises the trial NPV. */
  lemma TrialNPVIncreasingInRetention(P: Params, r2: real)
    requires P.d > -1.0 && P.N * P.c_trial > 0.0 && P.p > 0.0 && 0.0 <= P.r < r2
    requires P.T >= 2
    ensures TrialNPV(P) < TrialNPV(P.(r := r2))
  {
    TrialNPVUpToRetentionOrder(P, r2, Months(P.T));
  }

  // ---------------------------------------------------------------------
  // Discount rate

  lemma TrialPresentValueDiscountOrder(P: Params, d2: real, t: nat)
    requires -1.0 < P.d < d2 && P.N * P.c_trial > 0.0 && P.p > P.CAC && P.p >= 0.0 && P.r >= 0.0 && t >= 1
    ensures TrialPresentValue(P.(d := d2), t) <= TrialPresentValue(P, t)
    ensures t == 1 ==> TrialPresentValue(P.(d := d2), t) < TrialPresentValue(P, t)
  {
    var P2 := P.(d := d2);
    TrialUsersAgree(P, P2, t);
    TrialCashFlowSigns(P, t);
    assert TrialCashFlow(P2, t) == TrialCashFlow(P, t);
    DiscountDecreasingInRate(P.d, d2, t);
    DiscountOrder(TrialCashFlow(P2, t), TrialCashFlow(P, t), Discount(P2.d, t), Discount(P.d, t));
  }

  lemma {:induction false} TrialNPVUpToDiscountOrder(P: Params, d2: real, k: nat)
    requires -1.0 < P.d < d2 && P.N * P.c_trial > 0.0 && P.p > P.CAC && P.p >= 0.0 && P.r >= 0.0
    ensures TrialNPVUpTo(P.(d := d2), k) <= TrialNPVUpTo(P, k)
    ensures k >= 1 ==> TrialNPVUpTo(P.(d := d2), k) < TrialNPVUpTo(P, k)
  {
    if k > 0 {
      TrialNPVUpToDiscountOrder(P, d2, k - 1);
      TrialPresentValueDiscountOrder(P, d2, k);
    }
  }

  /** When the price exceeds CAC, a higher discount rate strictly lowers the trial NPV. */
  lemma TrialNPVDecreasingInDiscount(P: Params, d2: real)
    requires -1.0 < P.d < d2 && P.N * P.c_trial > 0.0 && P.p > P.CAC && P.p >= 0.0 && P.r >= 0.0
    requires P.T >= 1
    ensures TrialNPV(P.(d := d2)) < TrialNPV(P)
  {
    TrialNPVUpToDiscountOrder(P, d2, Months(P.T));
  }

  // ---------------------------------------------------------------------
  // Empty pool

  lemma {:induction false} TrialNPVUpToNoUsers(P: Params, k: nat)
    requires P.d != -1.0 && P.N == 0.0
    ensures TrialNPVUpTo(P, k) == 0.0
  {
    if k > 0 {
      TrialNPVUpToNoUsers(P, k - 1);
      TrialUsersClosedForm(P, k);
    }
  }

  /** An empty user pool gives a trial NPV of exactly 0. */
  lemma TrialNPVNoUsers(P: Params)
    requires P.d != -1.0 && P.N == 0.0
    ensures TrialNPV(P) == 0.0
  {
    TrialNPVUpToNoUsers(P, Months(P.T));
  }
}
