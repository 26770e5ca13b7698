/**
 * The 40-year monthly projection of the financial-independence calculator:
 * the inputs, the injected environment (clock, calendar, `Math.pow`, `Number`),
 * the compounding recurrence and the 481-point series built from it.
 */
module Projection {
  import opened Common

  /** The calculator's form inputs (`CalculatorInputs`); percentages as typed, e.g. 9.0 for 9%. */
  datatype Inputs = Inputs(
    birthDate: string,
    totalInvested: real,
    monthlyContribution: real,
    annualReturn: real,
    safeWithdrawalRate: real,
    inflation: real)

  /**
   * What the component takes from the browser rather than computing:
   * `ageOn(birthDate)` is the fractional current age on today's date,
   * `monthLabel(k)` the short month label of today moved by `k` months,
   * `monthsUntil(d)` the whole-month difference between date string `d` and today
   * (None when `new Date(d)` is invalid), `pow` is `Math.pow` and
   * `toNumber` is `Number(...)` on a string (None for NaN).
   */
  datatype Env = Env(
    ageOn: string -> real,
    monthLabel: real -> string,
    monthsUntil: string -> Option<int>,
    pow: (real, real) -> real,
    toNumber: string -> Option<real>)

  /** `Math.pow` is taken as an uninterpreted positive function. */
  ghost predicate ValidEnv(env: Env) {
    forall b: real, e: real :: env.pow(b, e) > 0.0
  }

  /** One row of the series (`ProjectionData`). */
  datatype ProjectionPoint = ProjectionPoint(
    age: real,
    date: string,
    netWorth: real,
    timeFromNow: real,
    passiveIncome: real,
    passiveIncomeInflationAdjusted: real)

  /** The last month of the 40-year horizon. */
  const Horizon: nat := 480

  function MonthlyReturn(inp: Inputs): real {
    inp.annualReturn / 100.0 / 12.0
  }

  function CurrentAge(inp: Inputs, env: Env): real {
    env.ageOn(inp.birthDate)
  }

  /** One month of growth: compounding first, then the contribution. */
  function Grow(inp: Inputs, v: real): real {
    v * (1.0 + MonthlyReturn(inp)) + inp.monthlyContribution
  }

  /** The unrounded net worth carried after `k` months of growth. */
  function Value(inp: Inputs, k: nat): real {
    if k == 0 then inp.totalInvested else Grow(inp, Value(inp, k - 1))
  }

  function InflationFactor(inp: Inputs, env: Env, years: real): (f: real)
    requires ValidEnv(env)
    ensures f > 0.0
  {
    env.pow(1.0 + inp.inflation / 100.0, years)
  }

  function PassiveIncomeOf(inp: Inputs, netWorth: real): real {
    netWorth * (inp.safeWithdrawalRate / 100.0)
  }

  /** The record the projection pushes for month `month`. */
  function PointAt(inp: Inputs, env: Env, month: nat): ProjectionPoint
    requires ValidEnv(env)
  {
    var v := Value(inp, month);
    var passive := PassiveIncomeOf(inp, v);
    ProjectionPoint(
      RoundTenth(CurrentAge(inp, env) + month as real / 12.0),
      env.monthLabel(month as real),
      RoundR(v),
      month as real / 12.0,
      RoundR(passive),
      RoundR(passive / InflationFactor(inp, env, month as real / 12.0)))
  }

  /** The whole series, months 0..480. */
  function Series(inp: Inputs, env: Env): (data: seq<ProjectionPoint>)
    requires ValidEnv(env)
    ensures |data| == Horizon + 1
    ensures forall m :: 0 <= m < |data| ==> data[m] == PointAt(inp, env, m)
  {
    seq(Horizon + 1, m requires 0 <= m < Horizon + 1 => PointAt(inp, env, m))
  }

  /**
   * The projection loop: months 0..480, growth skipped at month 0, the carried
   * value kept unrounded and only the pushed record rounded.
   */
  method ProjectionData(inp: Inputs, env: Env) returns (data: seq<ProjectionPoint>)
    requires ValidEnv(env)
    ensures |data| == Horizon + 1
    ensures forall m :: 0 <= m < |data| ==> data[m] == PointAt(inp, env, m)
    ensures data == Series(inp, env)
  {
    data := [];
    var monthlyReturn := inp.annualReturn / 100.0 / 12.0;
    var currentValue := inp.totalInvested;
    var currentAge := env.ageOn(inp.birthDate);
    for month := 0 to Horizon + 1
      invariant |data| == month
      invariant forall k :: 0 <= k < month ==> data[k] == PointAt(inp, env, k)
      invariant currentValue == Value(inp, if month == 0 then 0 else month - 1)
    {
      var age := currentAge + month as real / 12.0;
      if month > 0 {
        currentValue := currentValue * (1.0 + monthlyReturn) + inp.monthlyContribution;
      }
      var passiveIncome := currentValue * (inp.safeWithdrawalRate / 100.0);
      var inflationFactor := env.pow(1.0 + inp.inflation / 100.0, month as real / 12.0);
      var adjusted := passiveIncome / inflationFactor;
      var point := ProjectionPoint(
        Round(age * 10.0) as real / 10.0,
        env.monthLabel(month as real),
        Round(currentValue) as real,
        month as real / 12.0,
        Round(passiveIncome) as real,
        Round(adjusted) as real);
      assert currentValue == Value(inp, month);
      assert passiveIncome == PassiveIncomeOf(inp, Value(inp, month));
      assert inflationFactor == InflationFactor(inp, env, month as real / 12.0);
      assert point == PointAt(inp, env, month);
      data := data + [point];
    }
  }

  /** Month 0 is the starting balance, rounded, with no growth applied. */
  lemma FirstPointUngrown(inp: Inputs, env: Env)
    requires ValidEnv(env)
    ensures PointAt(inp, env, 0).netWorth == RoundR(inp.totalInvested)
    ensures PointAt(inp, env, 0).timeFromNow == 0.0
    ensures PointAt(inp, env, 0).passiveIncome == RoundR(inp.totalInvested * (inp.safeWithdrawalRate / 100.0))
  {
    assert Value(inp, 0) == inp.totalInvested;
    assert PassiveIncomeOf(inp, Value(inp, 0)) == inp.totalInvested * (inp.safeWithdrawalRate / 100.0);
  }

  /**
   * For a later month the shown net worth is the rounding of the previous
   * month's unrounded value grown by one month: rounding never feeds back.
   */
  lemma NetWorthRecurrence(inp: Inputs, env: Env, m: nat)
    requires ValidEnv(env) && m >= 1
    ensures PointAt(inp, env, m).netWorth
         == RoundR(Value(inp, m - 1) * (1.0 + inp.annualReturn / 100.0 / 12.0) + inp.monthlyContribution)
  {
    var v := Value(inp, m - 1);
    var grown := v * (1.0 + inp.annualReturn / 100.0 / 12.0) + inp.monthlyContribution;
    assert Value(inp, m) == grown;
    assert PointAt(inp, env, m).netWorth == RoundR(grown);
    assert grown == Value(inp, m - 1) * (1.0 + inp.annualReturn / 100.0 / 12.0) + inp.monthlyContribution;
    assert RoundR(grown) == RoundR(Value(inp, m - 1) * (1.0 + inp.annualReturn / 100.0 / 12.0) + inp.monthlyContribution);
  }

  /** `timeFromNow` is the month index in years, so it strictly increases along the series. */
  lemma TimeFromNowIncreasing(inp: Inputs, env: Env, j: nat, k: nat)
    requires ValidEnv(env) && j < k
    ensures PointAt(inp, env, k).timeFromNow == k as real / 12.0
    ensures PointAt(inp, env, j).timeFromNow < PointAt(inp, env, k).timeFromNow
  {
  }

  /**
   * With a non-negative start, return and contribution, the carried value never
   * decreases, and neither does the rounded net worth shown for it.
   */
  lemma {:induction false} ValueNonDecreasing(inp: Inputs, j: nat, k: nat)
    requires inp.totalInvested >= 0.0 && inp.annualReturn >= 0.0 && inp.monthlyContribution >= 0.0
    requires j <= k
    ensures 0.0 <= Value(inp, j) <= Value(inp, k)
  {
    if j < k {
      ValueNonDecreasing(inp, j, k - 1);
      var v := Value(inp, k - 1);
      assert v * MonthlyReturn(inp) >= 0.0;
      assert Value(inp, k) == v + v * MonthlyReturn(inp) + inp.monthlyContribution;
    } else if j > 0 {
      ValueNonDecreasing(inp, j - 1, j);
    }
  }

  lemma NetWorthNonDecreasing(inp: Inputs, env: Env, j: nat, k: nat)
    requires ValidEnv(env)
    requires inp.totalInvested >= 0.0 && inp.annualReturn >= 0.0 && inp.monthlyContribution >= 0.0
    requires j <= k
    ensures PointAt(inp, env, j).netWorth <= PointAt(inp, env, k).netWorth
  {
    ValueNonDecreasing(inp, j, k);
    RoundMonotone(Value(inp, j), Value(inp, k));
  }

  /**
   * The inflation-adjusted income never exceeds the nominal one when the
   * inflation factor is at least 1 and the income is non-negative.
   */
  lemma AdjustedAtMostNominal(inp: Inputs, env: Env, m: nat)
    requires ValidEnv(env)
    requires InflationFactor(inp, env, m as real / 12.0) >= 1.0
    requires PassiveIncomeOf(inp, Value(inp, m)) >= 0.0
    ensures PointAt(inp, env, m).passiveIncomeInflationAdjusted <= PointAt(inp, env, m).passiveIncome
  {
    var p := PassiveIncomeOf(inp, Value(inp, m));
    var f := InflationFactor(inp, env, m as real / 12.0);
    assert p / f <= p by {
      var q := p / f;
      assert q * f == p;
      assert q >= 0.0;
      assert q * (f - 1.0) >= 0.0;
    }
    RoundMonotone(p / f, p);
  }

  /** The default inputs: 140,000 invested, 5,000 a month at 9% give 146,050 after one month. */
  lemma DefaultSecondMonth(env: Env, birthDate: string)
    requires ValidEnv(env)
    ensures PointAt(Inputs(birthDate, 140000.0, 5000.0, 9.0, 4.0, 4.0), env, 0).netWorth == 140000.0
    ensures PointAt(Inputs(birthDate, 140000.0, 5000.0, 9.0, 4.0, 4.0), env, 1).netWorth == 146050.0
  {
    var inp := Inputs(birthDate, 140000.0, 5000.0, 9.0, 4.0, 4.0);
    assert Value(inp, 1) == 146050.0;
  }
}
