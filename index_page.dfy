/**
 * The home page's use of the projection: the monthly series of running
 * NPVs of both models, and calculateResults, which reports the last
 * month's NPVs and the first month in which the freemium NPV has caught
 * up with the trial NPV.
 */
module HomePage {
  import opened RealArith
  import opened Calculations

  datatype Option<T> = None | Some(value: T)

  /** One month of the series: its 1-based number and the running NPV of each model. */
  datatype MonthRecord = MonthRecord(month: int, trialNPV: real, freemiumNPV: real)

  /** What calculateResults stores: the last month's NPVs, the break-even month and the series. */
  datatype Results = Results(
    trialNPV: real,
    freemiumNPV: real,
    breakEvenMonth: Option<nat>,
    monthlyData: seq<MonthRecord>
  )

  /** A month breaks even when the freemium NPV is at least the trial NPV. */
  predicate BreaksEven(m: MonthRecord)
  {
    m.freemiumNPV >= m.trialNPV
  }

  /**
   * The reference definition of the break-even month: the 1-based
   * position of the first record that breaks even, or None.
   */
  function FirstBreakEven(data: seq<MonthRecord>): (r: Option<nat>)
    ensures r.None? <==> forall i :: 0 <= i < |data| ==> !BreaksEven(data[i])
    ensures r.Some? ==>
              1 <= r.value <= |data| && BreaksEven(data[r.value - 1]) &&
              forall i :: 0 <= i < r.value - 1 ==> !BreaksEven(data[i])
  {
    if |data| == 0 then None
    else if BreaksEven(data[0]) then Some(1)
    else match FirstBreakEven(data[1..])
      case None => None
      case Some(m) => Some(m + 1)
  }

  /**
   * The body of calculateResults after the series is built: the last
   * record's NPVs, the first break-even month, and the series unchanged.
   * The series must not be empty (with T < 1 there is no last month).
   */
  method ScanMonthlyData(monthlyData: seq<MonthRecord>) returns (results: Results)
    requires |monthlyData| > 0
    ensures results.monthlyData == monthlyData
    ensures results.trialNPV == monthlyData[|monthlyData| - 1].trialNPV
    ensures results.freemiumNPV == monthlyData[|monthlyData| - 1].freemiumNPV
    ensures results.breakEvenMonth == FirstBreakEven(monthlyData)
    ensures results.breakEvenMonth.None? <==> forall i :: 0 <= i < |monthlyData| ==> !BreaksEven(monthlyData[i])
    ensures results.breakEvenMonth.Some? ==>
              1 <= results.breakEvenMonth.value <= |monthlyData| &&
              BreaksEven(monthlyData[results.breakEvenMonth.value - 1]) &&
              forall i :: 0 <= i < results.breakEvenMonth.value - 1 ==> !BreaksEven(monthlyData[i])
  {
    var lastMonth := monthlyData[|monthlyData| - 1];
    var breakEvenMonth: Option<nat> := None;
    var i := 0;
    while i < |monthlyData|
      invariant 0 <= i <= |monthlyData|
      invariant breakEvenMonth.None?
      invariant forall j :: 0 <= j < i ==> !BreaksEven(monthlyData[j])
    {
      if monthlyData[i].freemiumNPV >= monthlyData[i].trialNPV {
        breakEvenMonth := Some(i + 1);
        break;
      }
      i := i + 1;
    }
    FirstBreakEvenUnique(monthlyData, breakEvenMonth);
    results := Results(lastMonth.trialNPV, lastMonth.freemiumNPV, breakEvenMonth, monthlyData);
  }

  /** Any answer with the first-match properties is the reference answer. */
  lemma FirstBreakEvenUnique(data: seq<MonthRecord>, r: Option<nat>)
    requires r.None? ==> forall i :: 0 <= i < |data| ==> !BreaksEven(data[i])
    requires r.Some? ==>
               1 <= r.value <= |data| && BreaksEven(data[r.value - 1]) &&
               forall i :: 0 <= i < r.value - 1 ==> !BreaksEven(data[i])
    ensures r == FirstBreakEven(data)
  {
  }

  /**
   * The monthly series after k months: record i holds month i + 1 and the
   * running NPV of each model after that month.
   */
  function MonthlySeries(exp: real -> real, P: Params, k: nat): (s: seq<MonthRecord>)
    requires ExpPositive(exp) && P.d != -1.0
    ensures |s| == k
    ensures forall i :: 0 <= i < k ==>
              s[i] == MonthRecord(i + 1, TrialNPVUpTo(P, i + 1), FreemiumNPVUpTo(exp, P, i + 1))
  {
    if k == 0 then []
    else MonthlySeries(exp, P, k - 1) + [MonthRecord(k, TrialNPVUpTo(P, k), FreemiumNPVUpTo(exp, P, k))]
  }

  /**
   * Over T >= 1 months the series has T records, and its last record holds
   * the NPVs the two loops return.
   */
  lemma MonthlySeriesLast(exp: real -> real, P: Params)
    requires ExpPositive(exp) && P.d != -1.0 && P.T >= 1
    ensures |MonthlySeries(exp, P, Months(P.T))| == P.T
    ensures MonthlySeries(exp, P, Months(P.T))[P.T - 1] == MonthRecord(P.T, TrialNPV(P), FreemiumNPV(exp, P))
  {
  }

  /**
   * calculateResults on a projection over T >= 1 months: it reports the
   * NPVs of both loops over months 1..T, and breaks even at a month m
   * exactly when m is the first month whose running freemium NPV is at
   * least the running trial NPV.
   */
  method CalculateResults(exp: real -> real, P: Params) returns (results: Results)
    requires ExpPositive(exp) && P.d != -1.0 && P.T >= 1
    ensures results.monthlyData == MonthlySeries(exp, P, Months(P.T))
    ensures |results.monthlyData| == P.T
    ensures results.trialNPV == TrialNPV(P)
    ensures results.freemiumNPV == FreemiumNPV(exp, P)
    ensures results.breakEvenMonth.Some? ==>
              var m := results.breakEvenMonth.value;
              1 <= m <= P.T && FreemiumNPVUpTo(exp, P, m) >= TrialNPVUpTo(P, m) &&
              forall k :: 1 <= k < m ==> FreemiumNPVUpTo(exp, P, k) < TrialNPVUpTo(P, k)
    ensures results.breakEvenMonth.None? ==>
              forall k :: 1 <= k <= P.T ==> FreemiumNPVUpTo(exp, P, k) < TrialNPVUpTo(P, k)
  {
    var monthlyData := MonthlySeries(exp, P, Months(P.T));
    MonthlySeriesLast(exp, P);
    results := ScanMonthlyData(monthlyData);
    if results.breakEvenMonth.Some? {
      var m := results.breakEvenMonth.value;
      forall k | 1 <= k < m
        ensures FreemiumNPVUpTo(exp, P, k) < TrialNPVUpTo(P, k)
      {
        assert !BreaksEven(monthlyData[k - 1]);
      }
      assert BreaksEven(monthlyData[m - 1]);
    } else {
      forall k | 1 <= k <= P.T
        ensures FreemiumNPVUpTo(exp, P, k) < TrialNPVUpTo(P, k)
      {
        assert !BreaksEven(monthlyData[k - 1]);
      }
    }
  }
}
