/**
 * The calculator component's state and handlers: the form inputs, the goals
 * and the overlay of user-edited rows, the cell-edit handler that parses the
 * typed value, solves the rest of the row from it and upserts the row, and the
 * derived views (projection, goals with achievement, table).
 */
module Calculator {
  import opened Common
  import opened Projection
  import opened Solvers
  import opened Goals
  import opened Table

  // ---------------------------------------------------------------------------
  // Parsing the typed value.
  // ---------------------------------------------------------------------------

  /** What the replacement leaves of one character. */
  function KeptChar(c: char): string {
    if c == '$' || c == ',' then [] else [c]
  }

  /** `value.replace(/[$,]/g, "")`. */
  function StripCurrency(v: string): (r: string)
    ensures |r| <= |v|
    ensures forall i :: 0 <= i < |r| ==> r[i] != '$' && r[i] != ','
  {
    if v == [] then []
    else KeptChar(v[0]) + StripCurrency(v[1..])
  }

  /** Text without `$` or `,` is left as it is, and nothing is added. */
  lemma StripCurrencyKeeps(v: string)
    ensures (forall i :: 0 <= i < |v| ==> v[i] != '$' && v[i] != ',') ==> StripCurrency(v) == v
    ensures multiset(StripCurrency(v)) <= multiset(v)
  {
    if forall i :: 0 <= i < |v| ==> v[i] != '$' && v[i] != ',' {
      StripCurrencyPlain(v);
    }
    StripCurrencySubset(v);
  }

  lemma {:induction false} StripCurrencyPlain(v: string)
    requires forall i :: 0 <= i < |v| ==> v[i] != '$' && v[i] != ','
    ensures StripCurrency(v) == v
  {
    if v != [] {
      StripCurrencyPlain(v[1..]);
      assert v == [v[0]] + v[1..];
    }
  }

  lemma {:induction false} StripCurrencySubset(v: string)
    ensures multiset(StripCurrency(v)) <= multiset(v)
  {
    if v != [] {
      StripCurrencyCons(v);
      StripCurrencySubset(v[1..]);
      SubMultisetCons(v[0], KeptChar(v[0]), StripCurrency(v[1..]), v[1..], StripCurrency(v), v);
    }
  }

  lemma StripCurrencyCons(v: string)
    requires v != []
    ensures StripCurrency(v) == KeptChar(v[0]) + StripCurrency(v[1..])
    ensures v == [v[0]] + v[1..]
  {
    SplitFirst(v);
  }

  lemma SplitFirst(v: string)
    requires v != []
    ensures v == [v[0]] + v[1..]
  {
  }

  /** Keeping or dropping one front character preserves being a sub-multiset. */
  lemma SubMultisetCons(c: char, head: string, rest: string, tail: string, result: string, whole: string)
    requires head == [] || head == [c]
    requires multiset(rest) <= multiset(tail)
    requires result == head + rest && whole == [c] + tail
    ensures multiset(result) <= multiset(whole)
  {
    assert multiset(head + rest) == multiset(head) + multiset(rest);
    assert multiset([c] + tail) == multiset([c]) + multiset(tail);
  }

  /** Stripping works piece by piece, so the kept characters stay in their order. */
  lemma {:induction false} StripCurrencyAppend(a: string, b: string)
    ensures StripCurrency(a + b) == StripCurrency(a) + StripCurrency(b)
  {
    if a != [] {
      StripCurrencyCons(a);
      assert (a + b)[0] == a[0] && (a + b)[1..] == a[1..] + b;
      StripCurrencyCons(a + b);
      StripCurrencyAppend(a[1..], b);
      assert KeptChar(a[0]) + (StripCurrency(a[1..]) + StripCurrency(b))
          == (KeptChar(a[0]) + StripCurrency(a[1..])) + StripCurrency(b);
    } else {
      assert a + b == b;
    }
  }

  /** Each `$` and `,` is dropped and every other character is kept once. */
  lemma StripCurrencyChar(c: char)
    ensures StripCurrency([c]) == KeptChar(c)
  {
    StripCurrencyCons([c]);
  }

  /** Every character other than `$` and `,` occurs as often as in the input, and those two not at all. */
  lemma {:induction false} StripCurrencyCount(v: string, c: char)
    ensures multiset(StripCurrency(v))[c] == if c == '$' || c == ',' then 0 else multiset(v)[c]
  {
    if v != [] {
      StripCurrencyCons(v);
      StripCurrencyCount(v[1..], c);
      CountCons(v[0], KeptChar(v[0]), StripCurrency(v[1..]), v[1..], StripCurrency(v), v, c);
    }
  }

  /** `"$1,000"` becomes `"1000"`. */
  lemma StripCurrencyExample()
    ensures StripCurrency("$1,000") == "1000"
  {
    var dollar, rest := "$1", ",000";
    assert dollar + rest == "$1,000";
    StripCurrencyAppend(dollar, rest);
    StripCurrencyCons(dollar);
    assert dollar[1..] == "1";
    StripCurrencyPlain("1");
    StripCurrencyCons(rest);
    assert rest[1..] == "000";
    StripCurrencyPlain("000");
  }

  /** Stripping twice strips nothing more. */
  lemma StripCurrencyIdempotent(v: string)
    ensures StripCurrency(StripCurrency(v)) == StripCurrency(v)
  {
    StripCurrencyKeeps(StripCurrency(v));
  }

  /** The numeric value of the edit: 0 for a date, otherwise `Number(...)` of the stripped text (None for NaN). */
  function ParsedValue(env: Env, field: Field, value: string): Option<real> {
    if field == Date then Some(0.0) else env.toNumber(StripCurrency(value))
  }

  // ---------------------------------------------------------------------------
  // Solving the row and defaulting the missing fields.
  // ---------------------------------------------------------------------------

  /** The `switch (field)` of `handleCellEdit`: solve from the edited field, then put the typed value back. */
  function Solved(inp: Inputs, env: Env, field: Field, value: string, num: real): Partial
    requires ValidEnv(env)
    requires field == PassiveIncome ==> inp.safeWithdrawalRate != 0.0
  {
    match field
    case NetWorth => FromNetWorth(inp, env, num).(netWorth := Some(num))
    case Date => FromDate(inp, env, value).(date := Some(value))
    case Age => FromAge(inp, env, num).(age := Some(num))
    case TimeFromNow => FromTimeFromNow(inp, env, num).(timeFromNow := Some(num))
    case PassiveIncome => FromPassiveIncome(inp, env, num).(passiveIncome := Some(num))
    case PassiveIncomeInflationAdjusted => Partial(None, None, None, None, None, None)
  }

  /** `x || 0` for a number that is absent or NaN. */
  function OrZero(x: Option<real>): real {
    match x
    case Some(v) => v
    case None => 0.0
  }

  /** `x || ""` for a string that is absent. */
  function OrEmpty(x: Option<string>): string {
    match x
    case Some(v) => v
    case None => ""
  }

  /** The `newRow` of `handleCellEdit`. */
  function RowOf(rowId: string, p: Partial): Row {
    Row(rowId, true, ProjectionPoint(
      OrZero(p.age), OrEmpty(p.date), OrZero(p.netWorth), OrZero(p.timeFromNow),
      OrZero(p.passiveIncome), OrZero(p.passiveIncomeInflationAdjusted)))
  }

  /** The row an edit produces, or None when the typed number is NaN. */
  function EditedRow(inp: Inputs, env: Env, rowId: string, field: Field, value: string): Option<Row>
    requires ValidEnv(env)
    requires field == PassiveIncome ==> inp.safeWithdrawalRate != 0.0
  {
    match ParsedValue(env, field, value)
    case None => None
    case Some(num) => Some(RowOf(rowId, Solved(inp, env, field, value, num)))
  }

  /**
   * An edit is dropped exactly when the field is numeric and the stripped text
   * is not a number; a date edit is never dropped. A kept edit makes a custom
   * row with the edited row's id.
   */
  lemma EditedRowDropped(inp: Inputs, env: Env, rowId: string, field: Field, value: string)
    requires ValidEnv(env)
    requires field == PassiveIncome ==> inp.safeWithdrawalRate != 0.0
    ensures EditedRow(inp, env, rowId, field, value).None?
        <==> field != Date && env.toNumber(StripCurrency(value)).None?
    ensures EditedRow(inp, env, rowId, field, value).Some? ==>
              EditedRow(inp, env, rowId, field, value).value.id == rowId
              && EditedRow(inp, env, rowId, field, value).value.isCustom
  {
  }

  /** The edited cell shows exactly the value the user typed. */
  lemma EditEchoesValue(inp: Inputs, env: Env, rowId: string, field: Field, value: string, num: real)
    requires ValidEnv(env)
    requires field == PassiveIncome ==> inp.safeWithdrawalRate != 0.0
    requires field != Date && env.toNumber(StripCurrency(value)) == Some(num)
    ensures EditedRow(inp, env, rowId, field, value).Some?
    ensures var p := EditedRow(inp, env, rowId, field, value).value.point;
            (field == NetWorth ==> p.netWorth == num)
            && (field == Age ==> p.age == num)
            && (field == TimeFromNow ==> p.timeFromNow == num)
            && (field == PassiveIncome ==> p.passiveIncome == num)
  {
  }

  /** A date edit keeps the typed text as the row's date. */
  lemma EditEchoesDate(inp: Inputs, env: Env, rowId: string, value: string)
    requires ValidEnv(env)
    ensures EditedRow(inp, env, rowId, Date, value).Some?
    ensures EditedRow(inp, env, rowId, Date, value).value.point.date == value
  {
  }

  /**
   * A net-worth edit: the income is the typed amount's, and the month is where
   * the search stopped.
   */
  lemma NetWorthEditRow(inp: Inputs, env: Env, rowId: string, value: string, num: real)
    requires ValidEnv(env) && env.toNumber(StripCurrency(value)) == Some(num)
    ensures EditedRow(inp, env, rowId, NetWorth, value).Some?
    ensures var p := EditedRow(inp, env, rowId, NetWorth, value).value.point;
            p.netWorth == num
            && p.passiveIncome == RoundR(num * (inp.safeWithdrawalRate / 100.0))
            && p.timeFromNow == StopMonth(inp, num) as real / 12.0
            && p.date == env.monthLabel(StopMonth(inp, num) as real)
  {
    NetWorthIncomeFromTarget(inp, env, num);
  }

  /**
   * An unparsable date still makes a row: the typed text, the starting balance
   * and its income, and zeros for the fields that come out NaN.
   */
  lemma InvalidDateEditRow(inp: Inputs, env: Env, rowId: string, value: string)
    requires ValidEnv(env) && env.monthsUntil(value).None?
    ensures EditedRow(inp, env, rowId, Date, value)
         == Some(Row(rowId, true, ProjectionPoint(
              0.0, value, RoundR(inp.totalInvested), 0.0,
              RoundR(inp.totalInvested * (inp.safeWithdrawalRate / 100.0)), 0.0)))
  {
    assert PassiveIncomeOf(inp, inp.totalInvested) == inp.totalInvested * (inp.safeWithdrawalRate / 100.0);
  }

  /** Editing the never-editable column (the switch's fall-through) upserts an all-default row. */
  lemma AdjustedColumnEditRow(inp: Inputs, env: Env, rowId: string, value: string, num: real)
    requires ValidEnv(env) && env.toNumber(StripCurrency(value)) == Some(num)
    ensures EditedRow(inp, env, rowId, PassiveIncomeInflationAdjusted, value)
         == Some(Row(rowId, true, ProjectionPoint(0.0, "", 0.0, 0.0, 0.0, 0.0)))
  {
  }

  // ---------------------------------------------------------------------------
  // The component's state.
  // ---------------------------------------------------------------------------

  const DefaultInputs: Inputs := Inputs("1998-10-19", 140000.0, 5000.0, 9.0, 4.0, 4.0)

  const DefaultGoals: seq<Goal> := [
    Goal("1", Passive, "Passive Income Goal (Minimum)", 80000.0, "bg-yellow-500", None, None),
    Goal("2", Passive, "Passive Income Goal (Ideal)", 150000.0, "bg-green-500", None, None),
    Goal("3", Networth, "Net Worth Goal (Short term)", 1000000.0, "bg-red-500", None, None),
    Goal("4", Networth, "Net Worth Goal (Medium term)", 10000000.0, "bg-purple-500", None, None),
    Goal("5", Networth, "Net Worth Goal (Long term)", 100000000.0, "bg-blue-500", None, None)
  ]

  /** `FinancialCalculator`: its `useState` slots as fields, the browser as `env`. */
  class FinancialCalculator {
    var inputs: Inputs
    var goals: seq<Goal>
    var customRows: seq<Row>
    const env: Env

    /** The overlay holds at most one row per id. */
    ghost predicate Valid()
      reads this
    {
      ValidEnv(env) && DistinctIds(customRows)
    }

    constructor(env: Env)
      requires ValidEnv(env)
      ensures Valid()
      ensures this.env == env
      ensures inputs == DefaultInputs && goals == DefaultGoals && customRows == []
    {
      this.env := env;
      inputs := DefaultInputs;
      goals := DefaultGoals;
      customRows := [];
    }

    /**
     * `handleCellEdit`: parse, leave the overlay alone on NaN, otherwise solve
     * the row, put the typed value back, default the missing fields and upsert
     * the row by id.
     */
    method HandleCellEdit(rowId: string, field: Field, value: string)
      requires Valid()
      requires field == PassiveIncome ==> inputs.safeWithdrawalRate != 0.0
      modifies this
      ensures Valid()
      ensures inputs == old(inputs) && goals == old(goals)
      ensures customRows == match EditedRow(old(inputs), env, rowId, field, value)
                            case None => old(customRows)
                            case Some(row) => Upsert(old(customRows), row)
    {
      var numValue := if field == Date then Some(0.0) else env.toNumber(StripCurrency(value));
      if numValue.None? {
        return;
      }
      var n := numValue.value;
      var updatedData := Partial(None, None, None, None, None, None);
      match field {
        case NetWorth =>
          updatedData := CalculateFromNetWorth(inputs, env, n);
          updatedData := updatedData.(netWorth := Some(n));
        case Date =>
          updatedData := CalculateFromDate(inputs, env, value);
          updatedData := updatedData.(date := Some(value));
        case Age =>
          updatedData := CalculateFromAge(inputs, env, n);
          updatedData := updatedData.(age := Some(n));
        case TimeFromNow =>
          updatedData := CalculateFromTimeFromNow(inputs, env, n);
          updatedData := updatedData.(timeFromNow := Some(n));
        case PassiveIncome =>
          updatedData := CalculateFromPassiveIncome(inputs, env, n);
          updatedData := updatedData.(passiveIncome := Some(n));
        case PassiveIncomeInflationAdjusted =>
      }
      var newRow := Row(rowId, true, ProjectionPoint(
        OrZero(updatedData.age), OrEmpty(updatedData.date), OrZero(updatedData.netWorth),
        OrZero(updatedData.timeFromNow), OrZero(updatedData.passiveIncome),
        OrZero(updatedData.passiveIncomeInflationAdjusted)));
      assert newRow == RowOf(rowId, Solved(inputs, env, field, value, n));
      UpsertKeepsIdsDistinct(customRows, newRow);
      var existingIndex := FindIndex(customRows, rowId);
      if existingIndex >= 0 {
        customRows := customRows[existingIndex := newRow];
      } else {
        customRows := customRows + [newRow];
      }
    }

    /** `handleGoalChange`: only the amounts of goals with `goalId` change. */
    method HandleGoalChange(goalId: string, amount: real)
      requires Valid()
      modifies this
      ensures Valid()
      ensures goals == ChangeGoalAmount(old(goals), goalId, amount)
      ensures inputs == old(inputs) && customRows == old(customRows)
    {
      goals := ChangeGoalAmount(goals, goalId, amount);
    }

    /** `projectionData`, recomputed from the current inputs. */
    method ProjectionSeries() returns (data: seq<ProjectionPoint>)
      requires Valid()
      ensures data == Series(inputs, env)
    {
      data := ProjectionData(inputs, env);
    }

    /** `goalsWithAchievement`. */
    method GoalsWithAchievement() returns (out: seq<Goal>)
      requires Valid()
      ensures |out| == |goals|
      ensures forall k :: 0 <= k < |goals| ==> out[k] == Evaluated(goals[k], Series(inputs, env))
    {
      var data := ProjectionData(inputs, env);
      out := EvaluateGoals(goals, data);
    }

    /** `tableData`. */
    method TableData() returns (rows: seq<Row>)
      requires Valid()
      ensures rows == TableRows(Series(inputs, env), customRows)
    {
      var data := ProjectionData(inputs, env);
      rows := MergeRows(DefaultRows(data), customRows);
    }
  }
}
