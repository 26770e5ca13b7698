/**
 * The five "solve from one field" functions of the calculator: given the value
 * typed into one column, simulate the recurrence and derive the other columns
 * of that row. Each result is a partial row (`Partial<ProjectionData>`).
 */
module Solvers {
  import opened Common
  import opened Projection

  /**
   * A partial row. `None` stands for a field the solver leaves out and for a
   * field it computes as NaN: the edit handler treats both alike (`|| 0`).
   */
  datatype Partial = Partial(
    age: Option<real>,
    date: Option<string>,
    netWorth: Option<real>,
    timeFromNow: Option<real>,
    passiveIncome: Option<real>,
    passiveIncomeInflationAdjusted: Option<real>)

  // ---------------------------------------------------------------------------
  // Solving from a target net worth: a bounded search.
  // ---------------------------------------------------------------------------

  /**
   * The value the net-worth search holds after `month` passes of its loop: the
   * first pass only moves the month counter, so pass `k + 1` holds `Value(k)`.
   */
  function Carried(inp: Inputs, month: nat): real {
    if month == 0 then inp.totalInvested else Value(inp, month - 1)
  }

  lemma CarriedStep(inp: Inputs, month: nat)
    requires month > 0
    ensures Carried(inp, month + 1) == Carried(inp, month) * (1.0 + MonthlyReturn(inp)) + inp.monthlyContribution
  {
  }

  /** The month counter the search stops at when resumed from `month`. */
  function StopFrom(inp: Inputs, target: real, month: nat): nat
    requires month <= Horizon + 1
    decreases Horizon + 1 - month
  {
    if Carried(inp, month) < target && month <= Horizon then StopFrom(inp, target, month + 1) else month
  }

  function StopMonth(inp: Inputs, target: real): nat {
    StopFrom(inp, target, 0)
  }

  lemma {:induction false} StopFromSpec(inp: Inputs, target: real, month: nat)
    requires month <= Horizon + 1
    decreases Horizon + 1 - month
    ensures month <= StopFrom(inp, target, month) <= Horizon + 1
    ensures forall j :: month <= j < StopFrom(inp, target, month) ==> Carried(inp, j) < target
    ensures StopFrom(inp, target, month) == Horizon + 1 || Carried(inp, StopFrom(inp, target, month)) >= target
  {
    if Carried(inp, month) < target && month <= Horizon {
      StopFromSpec(inp, target, month + 1);
    }
  }

  /**
   * The search stops at month 0 exactly when the start already reaches the
   * target; otherwise it stops one month after the first grown value that
   * reaches it, or at 481 when none of months 1..480 does.
   */
  lemma StopMonthSpec(inp: Inputs, target: real)
    ensures StopMonth(inp, target) <= Horizon + 1
    ensures StopMonth(inp, target) == 0 <==> inp.totalInvested >= target
    ensures StopMonth(inp, target) != 1
    ensures StopMonth(inp, target) > 0 ==>
              StopMonth(inp, target) == Horizon + 1 || Value(inp, StopMonth(inp, target) - 1) >= target
    ensures forall i :: 0 <= i < StopMonth(inp, target) - 1 ==> Value(inp, i) < target
  {
    StopFromSpec(inp, target, 0);
    var m := StopMonth(inp, target);
    if inp.totalInvested < target {
      assert Carried(inp, 0) < target;
      assert StopFrom(inp, target, 0) == StopFrom(inp, target, 1);
      assert Carried(inp, 1) == inp.totalInvested;
    }
    forall i: int | 0 <= i < m as int - 1
      ensures Value(inp, i) < target
    {
      assert Carried(inp, i + 1) == Value(inp, i);
    }
  }

  /**
   * When month `k`'s unrounded value reaches the target, the search reports a
   * month of at most `k + 1` (month 0 when `k` is 0).
   */
  lemma SearchFindsKnownValue(inp: Inputs, target: real, k: nat)
    requires k <= Horizon && Value(inp, k) >= target
    ensures StopMonth(inp, target) <= k + 1
    ensures k == 0 ==> StopMonth(inp, target) == 0
  {
    StopMonthSpec(inp, target);
  }

  /** The reported month can indeed be `k + 1`: the search is one month behind the series. */
  lemma SearchReportsMonthAfter()
    ensures var inp := Inputs("", 0.0, 1.0, 0.0, 4.0, 0.0);
            Value(inp, 1) >= 1.0 && Value(inp, 0) < 1.0 && StopMonth(inp, 1.0) == 2
  {
    var inp := Inputs("", 0.0, 1.0, 0.0, 4.0, 0.0);
    assert Value(inp, 1) == 1.0;
    assert Carried(inp, 2) == 1.0;
    assert StopFrom(inp, 1.0, 2) == 2;
    assert Carried(inp, 1) == 0.0;
    assert StopFrom(inp, 1.0, 1) == 2;
  }

  function FromNetWorth(inp: Inputs, env: Env, target: real): Partial
    requires ValidEnv(env)
  {
    var month := StopMonth(inp, target) as real;
    var passive := PassiveIncomeOf(inp, target);
    Partial(
      Some(RoundTenth(CurrentAge(inp, env) + month / 12.0)),
      Some(env.monthLabel(month)),
      None,
      Some(month / 12.0),
      Some(RoundR(passive)),
      Some(RoundR(passive / InflationFactor(inp, env, month / 12.0))))
  }

  /**
   * The net-worth solver reports no net worth, and derives its passive income
   * from the target itself, whatever the simulation reached.
   */
  lemma NetWorthIncomeFromTarget(inp: Inputs, env: Env, target: real)
    requires ValidEnv(env)
    ensures FromNetWorth(inp, env, target).netWorth.None?
    ensures FromNetWorth(inp, env, target).passiveIncome
         == Some(RoundR(target * (inp.safeWithdrawalRate / 100.0)))
    ensures FromNetWorth(inp, env, target).timeFromNow
         == Some(StopMonth(inp, target) as real / 12.0)
  {
    assert PassiveIncomeOf(inp, target) == target * (inp.safeWithdrawalRate / 100.0);
  }

  /** The search loop of `calculateFromNetWorth`: the month counter it stops at. */
  method SearchMonth(inp: Inputs, targetNetWorth: real) returns (month: nat)
    ensures month == StopMonth(inp, targetNetWorth)
  {
    var monthlyReturn := inp.annualReturn / 100.0 / 12.0;
    var currentValue := inp.totalInvested;
    month := 0;
    while currentValue < targetNetWorth && month <= Horizon
      invariant month <= Horizon + 1
      invariant currentValue == Carried(inp, month)
      invariant StopFrom(inp, targetNetWorth, month) == StopMonth(inp, targetNetWorth)
      decreases Horizon + 1 - month
    {
      if month > 0 {
        CarriedStep(inp, month);
        currentValue := currentValue * (1.0 + monthlyReturn) + inp.monthlyContribution;
      }
      month := month + 1;
    }
  }

  /** `calculateFromNetWorth`: the search loop, then the row at the month it stopped. */
  method CalculateFromNetWorth(inp: Inputs, env: Env, targetNetWorth: real) returns (r: Partial)
    requires ValidEnv(env)
    ensures r == FromNetWorth(inp, env, targetNetWorth)
  {
    var month := SearchMonth(inp, targetNetWorth);
    var years := month as real / 12.0;
    var age := env.ageOn(inp.birthDate) + years;
    var passiveIncome := targetNetWorth * (inp.safeWithdrawalRate / 100.0);
    var inflationFactor := env.pow(1.0 + inp.inflation / 100.0, years);
    var adjusted := passiveIncome / inflationFactor;
    assert passiveIncome == PassiveIncomeOf(inp, targetNetWorth);
    assert inflationFactor == InflationFactor(inp, env, years);
    r := Partial(
      Some(Round(age * 10.0) as real / 10.0),
      Some(env.monthLabel(month as real)),
      None,
      Some(years),
      Some(Round(passiveIncome) as real),
      Some(Round(adjusted) as real));
  }

  // ---------------------------------------------------------------------------
  // Solving from a fixed month offset: `for (let month = 1; month <= monthsDiff; month++)`.
  // ---------------------------------------------------------------------------

  /** How many times `for (month = 1; month <= d; month++)` runs: no rounding of `d`. */
  function Steps(d: real): nat {
    if d < 1.0 then 0 else d.Floor
  }

  /** The months the loop visits are exactly 1..Steps(d). */
  lemma StepsCountsLoopMonths(d: real, m: int)
    ensures (1 <= m <= Steps(d)) <==> (1 <= m && m as real <= d)
  {
    if d >= 1.0 {
      assert d.Floor as real <= d < d.Floor as real + 1.0;
    }
  }

  /** The shared growth loop of the date, age and years-from-now solvers. */
  method GrowMonths(inp: Inputs, monthsDiff: real) returns (currentValue: real)
    ensures currentValue == Value(inp, Steps(monthsDiff))
  {
    var monthlyReturn := inp.annualReturn / 100.0 / 12.0;
    currentValue := inp.totalInvested;
    var month: int := 1;
    while month as real <= monthsDiff
      invariant 1 <= month && month - 1 <= Steps(monthsDiff)
      invariant currentValue == Value(inp, month - 1)
      decreases Steps(monthsDiff) - (month - 1)
    {
      assert monthsDiff.Floor as real <= monthsDiff < monthsDiff.Floor as real + 1.0;
      currentValue := currentValue * (1.0 + monthlyReturn) + inp.monthlyContribution;
      assert currentValue == Grow(inp, Value(inp, month - 1));
      month := month + 1;
    }
    assert monthsDiff.Floor as real <= monthsDiff < monthsDiff.Floor as real + 1.0;
  }

  /** The row for a target date; an unparsable date leaves the month offset NaN. */
  function FromDate(inp: Inputs, env: Env, targetDate: string): Partial
    requires ValidEnv(env)
  {
    match env.monthsUntil(targetDate)
    case None =>
      Partial(None, None, Some(RoundR(inp.totalInvested)), None,
              Some(RoundR(PassiveIncomeOf(inp, inp.totalInvested))), None)
    case Some(n) =>
      var v := Value(inp, Steps(n as real));
      var passive := PassiveIncomeOf(inp, v);
      Partial(
        Some(RoundTenth(CurrentAge(inp, env) + n as real / 12.0)),
        None,
        Some(RoundR(v)),
        Some(n as real / 12.0),
        Some(RoundR(passive)),
        Some(RoundR(passive / InflationFactor(inp, env, n as real / 12.0))))
  }

  method CalculateFromDate(inp: Inputs, env: Env, targetDate: string) returns (r: Partial)
    requires ValidEnv(env)
    ensures r == FromDate(inp, env, targetDate)
  {
    var monthsDiff := env.monthsUntil(targetDate);
    var passive: real;
    if monthsDiff.None? {
      // A NaN offset: the loop does not run and every offset-derived field is NaN.
      passive := inp.totalInvested * (inp.safeWithdrawalRate / 100.0);
      r := Partial(None, None, Some(Round(inp.totalInvested) as real), None, Some(Round(passive) as real), None);
      assert passive == PassiveIncomeOf(inp, inp.totalInvested);
    } else {
      var n := monthsDiff.value;
      var currentValue := GrowMonths(inp, n as real);
      var age := env.ageOn(inp.birthDate) + n as real / 12.0;
      passive := currentValue * (inp.safeWithdrawalRate / 100.0);
      var inflationFactor := env.pow(1.0 + inp.inflation / 100.0, n as real / 12.0);
      var adjusted := passive / inflationFactor;
      r := Partial(
        Some(Round(age * 10.0) as real / 10.0),
        None,
        Some(Round(currentValue) as real),
        Some(n as real / 12.0),
        Some(Round(passive) as real),
        Some(Round(adjusted) as real));
      assert passive == PassiveIncomeOf(inp, Value(inp, Steps(n as real)));
      assert inflationFactor == InflationFactor(inp, env, n as real / 12.0);
    }
  }

  /** The row for a target age; the offset `(targetAge - currentAge) * 12` is not rounded. */
  function FromAge(inp: Inputs, env: Env, targetAge: real): Partial
    requires ValidEnv(env)
  {
    var monthsDiff := (targetAge - CurrentAge(inp, env)) * 12.0;
    var v := Value(inp, Steps(monthsDiff));
    var passive := PassiveIncomeOf(inp, v);
    Partial(
      None,
      Some(env.monthLabel(monthsDiff)),
      Some(RoundR(v)),
      Some(monthsDiff / 12.0),
      Some(RoundR(passive)),
      Some(RoundR(passive / InflationFactor(inp, env, monthsDiff / 12.0))))
  }

  method CalculateFromAge(inp: Inputs, env: Env, targetAge: real) returns (r: Partial)
    requires ValidEnv(env)
    ensures r == FromAge(inp, env, targetAge)
  {
    var monthsDiff := (targetAge - env.ageOn(inp.birthDate)) * 12.0;
    var currentValue := GrowMonths(inp, monthsDiff);
    var passive := currentValue * (inp.safeWithdrawalRate / 100.0);
    var inflationFactor := env.pow(1.0 + inp.inflation / 100.0, monthsDiff / 12.0);
    var adjusted := passive / inflationFactor;
    r := Partial(
      None,
      Some(env.monthLabel(monthsDiff)),
      Some(Round(currentValue) as real),
      Some(monthsDiff / 12.0),
      Some(Round(passive) as real),
      Some(Round(adjusted) as real));
    assert passive == PassiveIncomeOf(inp, Value(inp, Steps(monthsDiff)));
    assert inflationFactor == InflationFactor(inp, env, monthsDiff / 12.0);
  }

  /**
   * The row for a number of years from now; the inflation factor uses the
   * years as typed, and the row carries no `timeFromNow`.
   */
  function FromTimeFromNow(inp: Inputs, env: Env, targetYears: real): Partial
    requires ValidEnv(env)
  {
    var monthsDiff := targetYears * 12.0;
    var v := Value(inp, Steps(monthsDiff));
    var passive := PassiveIncomeOf(inp, v);
    Partial(
      Some(RoundTenth(CurrentAge(inp, env) + targetYears)),
      Some(env.monthLabel(monthsDiff)),
      Some(RoundR(v)),
      None,
      Some(RoundR(passive)),
      Some(RoundR(passive / InflationFactor(inp, env, targetYears))))
  }

  method CalculateFromTimeFromNow(inp: Inputs, env: Env, targetYears: real) returns (r: Partial)
    requires ValidEnv(env)
    ensures r == FromTimeFromNow(inp, env, targetYears)
  {
    var monthsDiff := targetYears * 12.0;
    var currentValue := GrowMonths(inp, monthsDiff);
    var age := env.ageOn(inp.birthDate) + targetYears;
    var passive := currentValue * (inp.safeWithdrawalRate / 100.0);
    var inflationFactor := env.pow(1.0 + inp.inflation / 100.0, targetYears);
    var adjusted := passive / inflationFactor;
    r := Partial(
      Some(Round(age * 10.0) as real / 10.0),
      Some(env.monthLabel(monthsDiff)),
      Some(Round(currentValue) as real),
      None,
      Some(Round(passive) as real),
      Some(Round(adjusted) as real));
    assert passive == PassiveIncomeOf(inp, Value(inp, Steps(monthsDiff)));
    assert inflationFactor == InflationFactor(inp, env, targetYears);
  }

  /**
   * A target less than one month ahead (in particular one in the past) runs no
   * growth step: the net worth and the passive income shown are the starting
   * balance's, rounded.
   */
  lemma ShortOffsetsUngrown(inp: Inputs, env: Env, targetDate: string, targetAge: real, targetYears: real)
    requires ValidEnv(env)
    ensures (env.monthsUntil(targetDate).Some? && env.monthsUntil(targetDate).value <= 0) ==>
              FromDate(inp, env, targetDate).netWorth == Some(RoundR(inp.totalInvested))
              && FromDate(inp, env, targetDate).passiveIncome == Some(RoundR(PassiveIncomeOf(inp, inp.totalInvested)))
    ensures (targetAge - CurrentAge(inp, env)) * 12.0 < 1.0 ==>
              FromAge(inp, env, targetAge).netWorth == Some(RoundR(inp.totalInvested))
              && FromAge(inp, env, targetAge).passiveIncome == Some(RoundR(PassiveIncomeOf(inp, inp.totalInvested)))
    ensures targetYears * 12.0 < 1.0 ==>
              FromTimeFromNow(inp, env, targetYears).netWorth == Some(RoundR(inp.totalInvested))
              && FromTimeFromNow(inp, env, targetYears).passiveIncome == Some(RoundR(PassiveIncomeOf(inp, inp.totalInvested)))
  {
  }

  /**
   * An unparsable target date still yields the starting balance and its income,
   * while age, years from now and the inflation-adjusted income are NaN.
   */
  lemma InvalidDateRow(inp: Inputs, env: Env, targetDate: string)
    requires ValidEnv(env) && env.monthsUntil(targetDate).None?
    ensures var r := FromDate(inp, env, targetDate);
            r.netWorth == Some(RoundR(inp.totalInvested))
            && r.passiveIncome == Some(RoundR(PassiveIncomeOf(inp, inp.totalInvested)))
            && r.age.None? && r.timeFromNow.None? && r.passiveIncomeInflationAdjusted.None?
  {
  }

  // ---------------------------------------------------------------------------
  // Solving from a target passive income: delegate, then overwrite the net worth.
  // ---------------------------------------------------------------------------

  function FromPassiveIncome(inp: Inputs, env: Env, targetPassiveIncome: real): Partial
    requires ValidEnv(env) && inp.safeWithdrawalRate != 0.0
  {
    var targetNetWorth := targetPassiveIncome / (inp.safeWithdrawalRate / 100.0);
    FromNetWorth(inp, env, targetNetWorth).(netWorth := Some(RoundR(targetNetWorth)))
  }

  /**
   * The reported net worth is always the rounded equivalent target, even when
   * the search saturated; every other field is the net-worth solver's.
   */
  lemma PassiveIncomeEchoesNetWorth(inp: Inputs, env: Env, target: real)
    requires ValidEnv(env) && inp.safeWithdrawalRate != 0.0
    ensures var nw := target / (inp.safeWithdrawalRate / 100.0);
            FromPassiveIncome(inp, env, target).netWorth == Some(RoundR(nw))
            && FromPassiveIncome(inp, env, target).(netWorth := None) == FromNetWorth(inp, env, nw)
  {
  }

  /** 80,000 a year at a 4% withdrawal rate is a 2,000,000 net worth. */
  lemma PassiveIncomeExample(inp: Inputs, env: Env)
    requires ValidEnv(env) && inp.safeWithdrawalRate == 4.0
    ensures FromPassiveIncome(inp, env, 80000.0).netWorth == Some(2000000.0)
  {
    assert 80000.0 / (inp.safeWithdrawalRate / 100.0) == 2000000.0;
  }

  method CalculateFromPassiveIncome(inp: Inputs, env: Env, targetPassiveIncome: real) returns (r: Partial)
    requires ValidEnv(env) && inp.safeWithdrawalRate != 0.0
    ensures r == FromPassiveIncome(inp, env, targetPassiveIncome)
  {
    var targetNetWorth := targetPassiveIncome / (inp.safeWithdrawalRate / 100.0);
    r := CalculateFromNetWorth(inp, env, targetNetWorth);
    r := r.(netWorth := Some(Round(targetNetWorth) as real));
  }
}
