# A verified model of the `life` calculators

This project models, in Dafny, the logic of four parts of the `life` web app.

- **Financial-independence calculator.**
  - A 40-year projection (months 0..480) that compounds a starting balance and a monthly contribution.
  - Five solvers, each of which fills in a table row from one field the user typed: net worth, date, age, years from now or passive income.
  - The cell-edit handler, which parses the typed value, solves the row and upserts it into the overlay of custom rows by id.
  - The goal tracker, which marks a goal achieved at the first month whose metric reaches it.
  - The table, which picks up to five default rows from the projection and merges the overlay into them.
  - The rule that says which cell of which row may be edited.
- **Date-remembering hook.**
  - A typed day, month or year is cut into two-digit chunks.
  - Each chunk is looked up in a word map, and the options are combined (a row-major product for two chunks).
  - A word index per part cycles through the options.
  - The chosen words are joined.
- **Date-form rules.** The event, day, month and year validators.
  - The day and month patterns are written out alternative by alternative, and each is proved equal to a plain "one or two digits with a value in range" condition.
  - The year pattern `^\d{1,4}$` has no alternatives. It is read directly as "one to four digits". It is proved that every accepted year spells a number in 0..9999, and that the plain decimal spelling of every such year is accepted.
- **Image naming in the image route.**
  - The folder name is derived from the request's words and date.
  - The next file name `image-N.png` is numbered one past the largest number already in the folder.
  - The route returns the relative path.

Code that updates state step by step is imperative Dafny, proved against specification functions:
- the projection loop, the net-worth search, the fixed-offset growth loop, the goal scan, the table merge, chunk splitting and the next-number scan are loops with invariants;
- the component's state (`FinancialCalculator`) and the hook's state (`RememberingDates`) are classes whose methods state their whole new state.

Expression-shaped code becomes functions, with lemmas about them: the sanitiser, the word enumeration, the validators, `isCellEditable` and `handleGoalChange`.

The browser and the clock are injected into the calculator as `Projection.Env`:
- the current age;
- the month label of a month offset;
- the whole-month difference to a typed date;
- `Math.pow`;
- `Number(...)`.

The word map is a parameter of the hook. The directory listing and today's date are parameters of the image naming.

Modules: `Common` (rounding, digits, trimming), `Projection`, `Solvers`, `Goals`, `Table`, `Calculator`, `Mnemonic`, `Validation` and `ImageNaming`.

### Where the code differs from what its names suggest (the model follows the code)

- **Net-worth search.** It advances the month counter once before its first growth step. When the start does not already reach the target, it reports the month *after* the first grown value that reaches it. A target first reached at month `k` is therefore reported at month `k + 1`, not at `k` or before (`Solvers.SearchReportsMonthAfter` gives an instance).
- **Age and years-from-now offsets.** These are not rounded to whole months. The loop `for (month = 1; month <= d; month++)` runs `floor(d)` times for `d >= 1` and not at all otherwise. The fractional offset itself goes into `timeFromNow` and the inflation exponent. The date label is passed the same offset, but `setMonth` truncates the month sum, so the label depends only on a whole month.

## Model

| member | source | states |
|---|---|---|
| Common.RoundMonotone | web/src/app/features/financial/components/financial-independence-calculator.component.tsx:101 | `Math.round` (half up, as `floor(x + 0.5)`) is monotone, so rounding preserves the order of unrounded values |
| Common.Round | web/src/app/features/financial/components/financial-independence-calculator.component.tsx:101 | `Math.round` as `floor(x + 0.5)`; see `Common.RoundMonotone` |
| Common.NatToString | api/start/routes.ts:75 | the decimal spelling of a number is a non-empty run of digits; see `Common.NatToStringValue` |
| Common.NatToStringValue | api/start/routes.ts:75 | reading back the decimal spelling of `n` gives `n` |
| Common.NatToStringInjective | api/start/routes.ts:75 | different numbers have different spellings |
| Common.TrimStart | api/start/routes.ts:53 | the result is a suffix of the text, every dropped character is whitespace, and the result does not start with whitespace |
| Common.TrimEnd | api/start/routes.ts:53 | the result is a prefix of the text, every dropped character is whitespace, and the result does not end with whitespace |
| Common.Trim | api/start/routes.ts:53 | `trim` removes leading and trailing whitespace; see `Common.TrimStart` and `Common.TrimEnd` |
| Common.Join | web/src/app/features/memory/dates/components/use-remembering-dates.hook.ts:128 | `join(", ")`; see `Mnemonic.JoinWordsThree` and `Mnemonic.JoinWordsExamples` |
| Projection.Series | web/src/app/features/financial/components/financial-independence-calculator.component.tsx:84-105 | the series has exactly 481 points, one per month 0..480, point `m` being the record for month `m` |
| Projection.ProjectionData | web/src/app/features/financial/components/financial-independence-calculator.component.tsx:76-117 | the loop pushes exactly the 481 records of the series, its carried value staying the unrounded value after `month` growth steps |
| Projection.FirstPointUngrown | web/src/app/features/financial/components/financial-independence-calculator.component.tsx:90-105 | month 0 applies no growth: net worth is `round(totalInvested)`, `timeFromNow` 0, income from the starting balance |
| Projection.NetWorthRecurrence | web/src/app/features/financial/components/financial-independence-calculator.component.tsx:90-92 | for month `m >= 1` the shown net worth is `round(prev * (1 + r/1200) + contribution)` of the previous unrounded value: rounding never feeds back |
| Projection.TimeFromNowIncreasing | web/src/app/features/financial/components/financial-independence-calculator.component.tsx:102 | `timeFromNow` is `month / 12` and strictly increases along the series |
| Projection.ValueNonDecreasing | web/src/app/features/financial/components/financial-independence-calculator.component.tsx:90-92 | with non-negative start, return and contribution the carried value is non-negative and never decreases |
| Projection.NetWorthNonDecreasing | web/src/app/features/financial/components/financial-independence-calculator.component.tsx:90-101 | under the same conditions the rounded net worth shown never decreases from month to month |
| Projection.AdjustedAtMostNominal | web/src/app/features/financial/components/financial-independence-calculator.component.tsx:94-104 | with an inflation factor of at least 1 and non-negative income, the inflation-adjusted income never exceeds the nominal one |
| Projection.DefaultSecondMonth | web/src/app/features/financial/components/financial-independence-calculator.component.tsx:44-51 | with the default inputs the series starts at 140,000 and shows 146,050 after one month |
| Projection.InflationFactor | web/src/app/features/financial/components/financial-independence-calculator.component.tsx:95 | the inflation factor is positive, so dividing by it is defined |
| Projection.Value | web/src/app/features/financial/components/financial-independence-calculator.component.tsx:80-92 | the unrounded carried value after `m` months of growth; see `Projection.NetWorthRecurrence` and `Projection.ValueNonDecreasing` |
| Projection.PointAt | web/src/app/features/financial/components/financial-independence-calculator.component.tsx:84-105 | the record pushed for month `m`; see `Projection.FirstPointUngrown`, `Projection.NetWorthRecurrence` and `Projection.TimeFromNowIncreasing` |
| Solvers.StopFromSpec | web/src/app/features/financial/components/financial-independence-calculator.component.tsx:125-130 | resumed at any month, the search stops within 481, every month it passes holds a value below target, and it stops on a value reaching the target or at 481 |
| Solvers.StopMonthSpec | web/src/app/features/financial/components/financial-independence-calculator.component.tsx:121-130 | the search stops at month 0 exactly when the starting balance reaches the target, never at 1, otherwise one month after a grown value reaching it or at 481; all earlier values are below target |
| Solvers.SearchFindsKnownValue | web/src/app/features/financial/components/financial-independence-calculator.component.tsx:125-130 | if month `k`'s value reaches the target the search reports at most `k + 1`, and 0 when `k` is 0 |
| Solvers.SearchReportsMonthAfter | web/src/app/features/financial/components/financial-independence-calculator.component.tsx:125-130 | an input whose target is first reached at month 1 is reported at month 2 |
| Solvers.SearchMonth | web/src/app/features/financial/components/financial-independence-calculator.component.tsx:120-130 | the search loop terminates and returns the stopping month `StopMonth` |
| Solvers.NetWorthIncomeFromTarget | web/src/app/features/financial/components/financial-independence-calculator.component.tsx:132-146 | the net-worth solver reports no net worth, passive income `round(target * rate / 100)` whatever the simulation reached, and `timeFromNow` the stopping month over 12 |
| Solvers.CalculateFromNetWorth | web/src/app/features/financial/components/financial-independence-calculator.component.tsx:119-147 | the solver's row is the one `FromNetWorth` describes, at the month the search stopped |
| Solvers.StepsCountsLoopMonths | web/src/app/features/financial/components/financial-independence-calculator.component.tsx:157 | the months `for (month = 1; month <= d; month++)` visits are exactly `1..Steps(d)`: `floor(d)` steps, none for `d < 1` |
| Solvers.GrowMonths | web/src/app/features/financial/components/financial-independence-calculator.component.tsx:157-159 | the growth loop ends holding the value after exactly `Steps(d)` growth steps |
| Solvers.CalculateFromDate | web/src/app/features/financial/components/financial-independence-calculator.component.tsx:149-173 | the date solver's row is `FromDate`: grown for the whole-month offset, with NaN fields for an unparsable date |
| Solvers.CalculateFromAge | web/src/app/features/financial/components/financial-independence-calculator.component.tsx:175-198 | the age solver's row is `FromAge`, grown for the unrounded offset `(targetAge - currentAge) * 12` |
| Solvers.CalculateFromTimeFromNow | web/src/app/features/financial/components/financial-independence-calculator.component.tsx:207-231 | the years solver's row is `FromTimeFromNow`, grown for `targetYears * 12` months and deflated over `targetYears` |
| Solvers.ShortOffsetsUngrown | web/src/app/features/financial/components/financial-independence-calculator.component.tsx:157-159 | an offset below one month (so any past date) runs no growth step: the net worth is the starting balance, rounded, and the passive income is that balance's income, rounded, for all three fixed-offset solvers |
| Solvers.InvalidDateRow | web/src/app/features/financial/components/financial-independence-calculator.component.tsx:150-172 | an unparsable date still gives the starting balance, rounded, and that balance's passive income, rounded, with age, years from now and adjusted income NaN |
| Solvers.PassiveIncomeEchoesNetWorth | web/src/app/features/financial/components/financial-independence-calculator.component.tsx:200-205 | the passive-income solver reports net worth `round(target / (rate / 100))` even when the search saturated, and otherwise exactly the net-worth solver's row for that net worth |
| Solvers.PassiveIncomeExample | web/src/app/features/financial/components/financial-independence-calculator.component.tsx:200-205 | 80,000 a year at a 4% rate gives a net worth of exactly 2,000,000 |
| Solvers.CalculateFromPassiveIncome | web/src/app/features/financial/components/financial-independence-calculator.component.tsx:200-205 | the method delegates to the net-worth solver and overwrites its net worth, giving `FromPassiveIncome` |
| Solvers.StopMonth | web/src/app/features/financial/components/financial-independence-calculator.component.tsx:121-130 | the month the net-worth search stops at; see `Solvers.StopMonthSpec` |
| Solvers.FromNetWorth | web/src/app/features/financial/components/financial-independence-calculator.component.tsx:119-147 | `calculateFromNetWorth`; see `Solvers.StopMonthSpec` and `Solvers.NetWorthIncomeFromTarget` |
| Solvers.Steps | web/src/app/features/financial/components/financial-independence-calculator.component.tsx:157-159 | the number of growth steps of a fixed-offset loop; see `Solvers.StepsCountsLoopMonths` |
| Solvers.FromDate | web/src/app/features/financial/components/financial-independence-calculator.component.tsx:149-173 | `calculateFromDate`; see `Solvers.ShortOffsetsUngrown` and `Solvers.InvalidDateRow` |
| Solvers.FromAge | web/src/app/features/financial/components/financial-independence-calculator.component.tsx:175-198 | `calculateFromAge`; see `Solvers.ShortOffsetsUngrown` |
| Solvers.FromTimeFromNow | web/src/app/features/financial/components/financial-independence-calculator.component.tsx:207-231 | `calculateFromTimeFromNow`; see `Solvers.ShortOffsetsUngrown` |
| Solvers.FromPassiveIncome | web/src/app/features/financial/components/financial-independence-calculator.component.tsx:200-205 | `calculateFromPassiveIncome`; see `Solvers.PassiveIncomeEchoesNetWorth` and `Solvers.PassiveIncomeExample` |
| Goals.FirstReached | web/src/app/features/financial/components/financial-independence-calculator.component.tsx:290-298 | the index found is the first at or after the start whose metric reaches the amount; none is found exactly when no point reaches it |
| Goals.EvaluatedSpec | web/src/app/features/financial/components/financial-independence-calculator.component.tsx:285-301 | only `achieved` and `ageAchieved` change; `achieved` holds iff some point's metric reaches the amount; the age is the first such point's, else 0 |
| Goals.UnreachableGoal | web/src/app/features/financial/components/financial-independence-calculator.component.tsx:285-301 | an amount above every point's metric is not achieved and has age 0 |
| Goals.GoalMetAtStart | web/src/app/features/financial/components/financial-independence-calculator.component.tsx:285-301 | an amount equal to the first point's metric is achieved at the first point's age |
| Goals.EvaluateGoal | web/src/app/features/financial/components/financial-independence-calculator.component.tsx:287-300 | the scan with `break` gives the evaluated goal `Evaluated` |
| Goals.EvaluateGoals | web/src/app/features/financial/components/financial-independence-calculator.component.tsx:285-302 | one evaluated goal per goal, in the same order |
| Goals.ChangeGoalAmount | web/src/app/features/financial/components/financial-independence-calculator.component.tsx:370-372 | the list keeps its length; goals with the id get the new amount, and nothing else about any goal changes |
| Goals.ChangeGoalAmountRestores | web/src/app/features/financial/components/financial-independence-calculator.component.tsx:370-372 | changing a goal's amount and then setting the old amount back restores the goal list |
| Goals.Evaluated | web/src/app/features/financial/components/financial-independence-calculator.component.tsx:286-301 | one goal marked against the series; see `Goals.EvaluatedSpec`, `Goals.UnreachableGoal` and `Goals.GoalMetAtStart` |
| Table.FindIndex | web/src/app/features/financial/components/financial-independence-calculator.component.tsx:263 | `findIndex` gives the first position holding the id, or -1 exactly when no row has it |
| Table.FindIndexFirst | web/src/app/features/financial/components/financial-independence-calculator.component.tsx:263 | the first position holding the id is what `findIndex` returns |
| Table.UpsertSpec | web/src/app/features/financial/components/financial-independence-calculator.component.tsx:275-281 | the new row replaces the first entry with its id and every other entry stays; with no such entry it is appended |
| Table.UpsertKeepsIdsDistinct | web/src/app/features/financial/components/financial-independence-calculator.component.tsx:262-282 | an overlay with distinct ids keeps distinct ids after an upsert, and afterwards holds the new row's id |
| Table.UpsertIdempotent | web/src/app/features/financial/components/financial-independence-calculator.component.tsx:262-282 | applying the same edit row twice leaves the overlay as applying it once |
| Table.KeptFrom | web/src/app/features/financial/components/financial-independence-calculator.component.tsx:388-394 | the filter keeps exactly the indices passing it (the first point, every 60th month, the month net worth crosses a million), in ascending order |
| Table.DefaultRowsSpec | web/src/app/features/financial/components/financial-independence-calculator.component.tsx:388-400 | at most five default rows with distinct ids `default-0`, `default-1`, ..., not custom, each a kept point; the first is the month-0 point |
| Table.Merged | web/src/app/features/financial/components/financial-independence-calculator.component.tsx:402-408 | the merge never changes the number of rows |
| Table.LastWithId | web/src/app/features/financial/components/financial-independence-calculator.component.tsx:403-407 | the last custom row with a given id, if there is one, is a custom row with that id; if none is found, no custom row has it |
| Table.MergedSpec | web/src/app/features/financial/components/financial-independence-calculator.component.tsx:402-410 | the merge never adds, removes or renames a row; each default row shows the last custom row with its id, or itself |
| Table.MergeRows | web/src/app/features/financial/components/financial-independence-calculator.component.tsx:402-408 | the `forEach` that assigns into `mergedRows` computes the merge |
| Table.LastWithIdAt | web/src/app/features/financial/components/financial-independence-calculator.component.tsx:403-407 | a custom row with no later row of the same id is the one the merge keeps |
| Table.UpsertedRowIsLast | web/src/app/features/financial/components/financial-independence-calculator.component.tsx:262-282 | in an overlay keyed by id, the row just upserted is the one the merge keeps for its id |
| Table.TableRows | web/src/app/features/financial/components/financial-independence-calculator.component.tsx:387-411 | the table has as many rows as there are default rows |
| Table.TableRowsSpec | web/src/app/features/financial/components/financial-independence-calculator.component.tsx:387-411 | at most five rows; row `k` has id `default-k` and shows the latest custom row with that id, else the default row |
| Table.EditShowsInTable | web/src/app/features/financial/components/financial-independence-calculator.component.tsx:262-282 | after an edit of row `default-k` the table shows the new row at position `k` |
| Table.CellEditability | web/src/app/features/financial/components/financial-independence-calculator.component.tsx:469-495 | the adjusted-income column is never editable; rows 0..4 each have exactly one editable cell, each in a different column; other rows have none |
| Table.Upsert | web/src/app/features/financial/components/financial-independence-calculator.component.tsx:262-281 | the overlay update; see `Table.UpsertSpec`, `Table.UpsertKeepsIdsDistinct` and `Table.UpsertIdempotent` |
| Table.DefaultRows | web/src/app/features/financial/components/financial-independence-calculator.component.tsx:388-400 | the default rows; see `Table.DefaultRowsSpec` |
| Table.IsCellEditable | web/src/app/features/financial/components/financial-independence-calculator.component.tsx:469-495 | `isCellEditable`; see `Table.CellEditability` |
| Calculator.StripCurrency | web/src/app/features/financial/components/financial-independence-calculator.component.tsx:234 | removing `$` and `,` leaves no `$` or `,` and never lengthens the text |
| Calculator.StripCurrencyAppend | web/src/app/features/financial/components/financial-independence-calculator.component.tsx:234 | stripping a concatenation is the concatenation of the stripped parts, so the kept characters stay in order |
| Calculator.StripCurrencyChar | web/src/app/features/financial/components/financial-independence-calculator.component.tsx:234 | a single `$` or `,` strips to nothing and any other character is kept |
| Calculator.StripCurrencyCount | web/src/app/features/financial/components/financial-independence-calculator.component.tsx:234 | every character other than `$` and `,` occurs exactly as often as in the input |
| Calculator.StripCurrencyExample | web/src/app/features/financial/components/financial-independence-calculator.component.tsx:234 | `$1,000` strips to `1000` |
| Calculator.StripCurrencyKeeps | web/src/app/features/financial/components/financial-independence-calculator.component.tsx:234 | text without `$` or `,` is left as it is, and the result is a sub-multiset of the input |
| Calculator.StripCurrencyIdempotent | web/src/app/features/financial/components/financial-independence-calculator.component.tsx:234 | stripping twice strips nothing more |
| Calculator.EditedRowDropped | web/src/app/features/financial/components/financial-independence-calculator.component.tsx:234-235 | an edit is dropped exactly when the field is numeric and the stripped text is NaN; a kept edit gives a custom row with the edited id |
| Calculator.EditEchoesValue | web/src/app/features/financial/components/financial-independence-calculator.component.tsx:239-259 | the edited numeric cell shows exactly the number typed, for each of net worth, age, years from now and passive income |
| Calculator.EditEchoesDate | web/src/app/features/financial/components/financial-independence-calculator.component.tsx:244-247 | a date edit is never dropped and keeps the typed text as the row's date |
| Calculator.NetWorthEditRow | web/src/app/features/financial/components/financial-independence-calculator.component.tsx:240-243 | a net-worth edit shows the typed amount, the income of the typed amount, and the month where the search stopped |
| Calculator.InvalidDateEditRow | web/src/app/features/financial/components/financial-independence-calculator.component.tsx:244-247 | an unparsable date still makes a row: the text, the starting balance and its income, zeros for the NaN fields |
| Calculator.AdjustedColumnEditRow | web/src/app/features/financial/components/financial-independence-calculator.component.tsx:239-273 | a numeric edit of the adjusted-income column (the switch's fall-through) upserts an all-default row |
| Calculator.FinancialCalculator.constructor | web/src/app/features/financial/components/financial-independence-calculator.component.tsx:44-61 | the state starts with the default inputs, the five default goals and an empty overlay |
| Calculator.FinancialCalculator.HandleCellEdit | web/src/app/features/financial/components/financial-independence-calculator.component.tsx:233-283 | a dropped edit leaves the overlay alone; otherwise the solved row is upserted by id; inputs and goals do not change and ids stay distinct |
| Calculator.FinancialCalculator.HandleGoalChange | web/src/app/features/financial/components/financial-independence-calculator.component.tsx:370-372 | only the goals' amounts change, as `ChangeGoalAmount` says; the object stays valid |
| Calculator.FinancialCalculator.ProjectionSeries | web/src/app/features/financial/components/financial-independence-calculator.component.tsx:76-117 | the projection is the series of the current inputs |
| Calculator.FinancialCalculator.GoalsWithAchievement | web/src/app/features/financial/components/financial-independence-calculator.component.tsx:285-302 | one goal per goal, each evaluated against the current series |
| Calculator.FinancialCalculator.TableData | web/src/app/features/financial/components/financial-independence-calculator.component.tsx:387-411 | the table is the current series' default rows with the overlay merged in |
| Calculator.ParsedValue | web/src/app/features/financial/components/financial-independence-calculator.component.tsx:234 | the numeric value of an edit; see `Calculator.EditedRowDropped` |
| Calculator.Solved | web/src/app/features/financial/components/financial-independence-calculator.component.tsx:237-260 | the solver row of an edit; see `Calculator.EditEchoesValue`, `Calculator.NetWorthEditRow` and `Calculator.AdjustedColumnEditRow` |
| Calculator.EditedRow | web/src/app/features/financial/components/financial-independence-calculator.component.tsx:233-282 | the row an edit upserts, or none; see `Calculator.EditedRowDropped`, `Calculator.EditEchoesDate` and `Calculator.InvalidDateEditRow` |
| Mnemonic.ConcatAppend | web/src/app/features/memory/dates/components/use-remembering-dates.hook.ts:80 | flattening distributes over concatenation |
| Mnemonic.ChunksSpec | web/src/app/features/memory/dates/components/use-remembering-dates.hook.ts:51-58 | `ceil(n / 2)` chunks; chunk `k` is `s[2k..2k+2]` clamped; all but the last have two characters and the last one or two; joined they give `s` back |
| Mnemonic.SplitIntoChunks | web/src/app/features/memory/dates/components/use-remembering-dates.hook.ts:51-58 | the loop stepping two characters at a time produces exactly the chunks |
| Mnemonic.PaddedChunksSpec | web/src/app/features/memory/dates/components/use-remembering-dates.hook.ts:32-36 | padding adds one `'0'` in front exactly when the length is odd; the padded chunks join to the padded value and all have two characters |
| Mnemonic.PaddedChunksExamples | web/src/app/features/memory/dates/components/use-remembering-dates.hook.ts:25-36 | `123` gives `01`,`23`; `1234` gives `12`,`34`; `12345` gives `01`,`23`,`45` |
| Mnemonic.DigitPrefix | web/src/app/features/memory/dates/components/use-remembering-dates.hook.ts:43 | the digits `parseInt` reads are the prefix of the text that ends at its first non-digit (or at its end) |
| Mnemonic.DigitStringParses | web/src/app/features/memory/dates/components/use-remembering-dates.hook.ts:43 | `parseInt` of a digit string without a leading zero is its decimal value |
| Mnemonic.ParseIntExamples | web/src/app/features/memory/dates/components/use-remembering-dates.hook.ts:43 | `parseInt` gives NaN for `ab` and for a bare `0x`, and -7 for `-7x` |
| Mnemonic.ShortParseIntBelowThousand | web/src/app/features/memory/dates/components/use-remembering-dates.hook.ts:43 | at most two characters never parse to 1000 or more, so the large-number branch is never taken for a chunk |
| Mnemonic.ShortWordOptions | web/src/app/features/memory/dates/components/use-remembering-dates.hook.ts:39-49 | a key of the map gives its own list; a one- or two-character miss gives no options |
| Mnemonic.LongWordOptionsExample | web/src/app/features/memory/dates/components/use-remembering-dates.hook.ts:43-47 | a four-digit miss such as `1905` is looked up as chunks `19` and `05`, leading zeros dropped by `Number` |
| Mnemonic.LongWordOptions | web/src/app/features/memory/dates/components/use-remembering-dates.hook.ts:39-47 | a value missing from the map that parses to 1000 or more takes the concatenated words of its padded chunks |
| Mnemonic.FourDigitChunks | web/src/app/features/memory/dates/components/use-remembering-dates.hook.ts:43-44 | `1905` parses to 1905 and pads into chunks `19`, `05` |
| Mnemonic.ChunkWordsExample | web/src/app/features/memory/dates/components/use-remembering-dates.hook.ts:46 | chunk `05` is looked up under key `5` |
| Mnemonic.SplitAndGetWordOptionsSpec | web/src/app/features/memory/dates/components/use-remembering-dates.hook.ts:60-64 | no options for a null or empty value; otherwise one option list per chunk, in chunk order, each the map's entry or nothing |
| Mnemonic.CombinationsLength | web/src/app/features/memory/dates/components/use-remembering-dates.hook.ts:74-76 | there are exactly `|A| * |B|` combinations |
| Mnemonic.CombinationsAt | web/src/app/features/memory/dates/components/use-remembering-dates.hook.ts:74-76 | combination `i * |B| + j` is `A[i] + " " + B[j]` (row-major order) |
| Mnemonic.TwoChunkWords | web/src/app/features/memory/dates/components/use-remembering-dates.hook.ts:66-81 | for a two-chunk value, word `i * |B| + j` is option `i` of the first chunk, a space, option `j` of the second |
| Mnemonic.TotalMatchesWordList | web/src/app/features/memory/dates/components/use-remembering-dates.hook.ts:95-101 | the count cycling uses is exactly the number of words `getWords` enumerates, and each index below it names the word at that position |
| Mnemonic.ChangeDirectionRange | web/src/app/features/memory/dates/components/use-remembering-dates.hook.ts:106-118 | with options, a non-negative index stays in `[0, total)`; with none it becomes NaN, and NaN stays NaN |
| Mnemonic.ChangeDirectionInverse | web/src/app/features/memory/dates/components/use-remembering-dates.hook.ts:106-118 | up then down, and down then up, restore any index in range |
| Mnemonic.CycledIndexNamesWord | web/src/app/features/memory/dates/components/use-remembering-dates.hook.ts:87-104 | after cycling a non-blank value that has options, the index names a word |
| Mnemonic.Present | web/src/app/features/memory/dates/components/use-remembering-dates.hook.ts:128 | `filter(Boolean)` keeps exactly the present, non-empty words |
| Mnemonic.PresentAppend | web/src/app/features/memory/dates/components/use-remembering-dates.hook.ts:128 | the filter keeps order: it distributes over concatenation |
| Mnemonic.JoinWordsExamples | web/src/app/features/memory/dates/components/use-remembering-dates.hook.ts:127-129 | `hat`, `toe`, `lake` join to `hat, toe, lake`; a missing and an empty word are skipped |
| Mnemonic.RememberingDates.constructor | web/src/app/features/memory/dates/components/use-remembering-dates.hook.ts:15-21 | the hook starts with the given parts and every word index at 0 |
| Mnemonic.RememberingDates.HandleChange | web/src/app/features/memory/dates/components/use-remembering-dates.hook.ts:131-144 | a change stores the value and resets that part's index to 0; the other parts are untouched |
| Mnemonic.RememberingDates.CycleWord | web/src/app/features/memory/dates/components/use-remembering-dates.hook.ts:87-125 | the cycled part's index takes one step over the option count (unchanged for a blank value); values and other indices are untouched |
| Mnemonic.RememberingDates.SetIndex | web/src/app/features/memory/dates/components/use-remembering-dates.hook.ts:19-21 | a setter changes only its own part's index |
| Mnemonic.RememberingDates.GetWord | web/src/app/features/memory/dates/components/use-remembering-dates.hook.ts:83-85 | a getter yields a word exactly when the part's index is a number in `[0, total)` for the count cycling uses, and the word is that entry of the enumerated list |
| Mnemonic.JoinWordsThree | web/src/app/features/memory/dates/components/use-remembering-dates.hook.ts:127-129 | joining keeps the day, month and year words in that order, each exactly when it is present and non-empty, separated by `, ` |
| Mnemonic.RememberingDates.ConcatWords | web/src/app/features/memory/dates/components/use-remembering-dates.hook.ts:127-129 | the result is the day, month and year words, in that order, with null and empty words dropped, joined with `, ` |
| Mnemonic.Chunks | web/src/app/features/memory/dates/components/use-remembering-dates.hook.ts:51-58 | `splitIntoChunks`; see `Mnemonic.ChunksSpec` |
| Mnemonic.PaddedChunks | web/src/app/features/memory/dates/components/use-remembering-dates.hook.ts:32-36 | `paddingChunkedValues`; see `Mnemonic.PaddedChunksSpec` |
| Mnemonic.ParseInt | web/src/app/features/memory/dates/components/use-remembering-dates.hook.ts:43 | `Number.parseInt` with no radix; see `Mnemonic.DigitStringParses`, `Mnemonic.ParseIntExamples` and `Mnemonic.ShortParseIntBelowThousand` |
| Mnemonic.WordOptions | web/src/app/features/memory/dates/components/use-remembering-dates.hook.ts:39-49 | `getWordOptions`; see `Mnemonic.ShortWordOptions` and `Mnemonic.LongWordOptions` |
| Mnemonic.SplitAndGetWordOptions | web/src/app/features/memory/dates/components/use-remembering-dates.hook.ts:60-64 | `splitAndGetWordOptions`; see `Mnemonic.SplitAndGetWordOptionsSpec` |
| Mnemonic.Combinations | web/src/app/features/memory/dates/components/use-remembering-dates.hook.ts:74-76 | the two-chunk product; see `Mnemonic.CombinationsLength` and `Mnemonic.CombinationsAt` |
| Mnemonic.WordList | web/src/app/features/memory/dates/components/use-remembering-dates.hook.ts:70-80 | the list a word index points into; see `Mnemonic.TotalMatchesWordList` |
| Mnemonic.GetWords | web/src/app/features/memory/dates/components/use-remembering-dates.hook.ts:66-81 | `getWords`; see `Mnemonic.TotalMatchesWordList` and `Mnemonic.TwoChunkWords` |
| Mnemonic.TotalCombinations | web/src/app/features/memory/dates/components/use-remembering-dates.hook.ts:93-101 | the count `cycleWord` computes; see `Mnemonic.TotalMatchesWordList` |
| Mnemonic.ChangeDirection | web/src/app/features/memory/dates/components/use-remembering-dates.hook.ts:106-118 | `changeDirection`; see `Mnemonic.ChangeDirectionRange` and `Mnemonic.ChangeDirectionInverse` |
| Mnemonic.CycledIndex | web/src/app/features/memory/dates/components/use-remembering-dates.hook.ts:87-104 | `cycleWord` on the index; see `Mnemonic.CycledIndexNamesWord` |
| Mnemonic.JoinWords | web/src/app/features/memory/dates/components/use-remembering-dates.hook.ts:127-129 | `concatWords` over three words; see `Mnemonic.JoinWordsThree` |
| Validation.DayPatternIsRange | web/src/app/features/memory/dates/validation.ts:5-10 | the day pattern accepts exactly the one- or two-digit spellings of 1..31 |
| Validation.MonthPatternIsRange | web/src/app/features/memory/dates/validation.ts:12-17 | the month pattern accepts exactly the one- or two-digit spellings of 1..12 |
| Validation.LeadingZero | web/src/app/features/memory/dates/validation.ts:9 | a leading zero is accepted only in front of 1..9, for days and months alike |
| Validation.ValidationExamples | web/src/app/features/memory/dates/validation.ts:4-21 | the event is required; empty days and months pass, `0`, `00`, `32`, `13` fail; the year needs one to four digits, so `""`, `12345` and `19a9` fail |
| Validation.EventValid | web/src/app/features/memory/dates/validation.ts:4 | the event rule; see `Validation.ValidationExamples` |
| Validation.MatchesDayPattern | web/src/app/features/memory/dates/validation.ts:9 | the day pattern; see `Validation.DayPatternIsRange` and `Validation.LeadingZero` |
| Validation.MatchesMonthPattern | web/src/app/features/memory/dates/validation.ts:16 | the month pattern; see `Validation.MonthPatternIsRange` and `Validation.LeadingZero` |
| Validation.MatchesYearPattern | web/src/app/features/memory/dates/validation.ts:20 | the year pattern; see `Validation.YearPatternIsRange` |
| Validation.DayValid | web/src/app/features/memory/dates/validation.ts:5-10 | the day rule; see `Validation.ValidationExamples` |
| Validation.MonthValid | web/src/app/features/memory/dates/validation.ts:12-17 | the month rule; see `Validation.ValidationExamples` |
| Validation.YearValid | web/src/app/features/memory/dates/validation.ts:19-21 | the year rule; see `Validation.ValidationExamples` |
| Validation.YearPatternIsRange | web/src/app/features/memory/dates/validation.ts:20 | every accepted year spells a number in 0..9999, and the decimal spelling of every year in 0..9999 is accepted |
| ImageNaming.DropSeparators | api/start/routes.ts:54 | dropping a leading separator run never lengthens the text and shortens it when it starts with a separator |
| ImageNaming.DropSeparatorsSpec | api/start/routes.ts:54 | what is dropped is a run of commas or whitespace at the front, and what remains does not start with one |
| ImageNaming.CollapseRemovesSeparators | api/start/routes.ts:54 | no comma or whitespace survives the collapse |
| ImageNaming.CollapseRun | api/start/routes.ts:54 | a maximal run of commas and whitespace between two words becomes a single `-` |
| ImageNaming.CollapseAppend | api/start/routes.ts:54 | collapsing works piece by piece across a boundary after a non-separator |
| ImageNaming.CollapseWithoutSeparators | api/start/routes.ts:54 | text with no separators is left as it is by the collapse |
| ImageNaming.StripDisallowed | api/start/routes.ts:55 | stripping leaves only `[a-zA-Z0-9_-]` |
| ImageNaming.StripDisallowedAppend | api/start/routes.ts:55 | stripping a concatenation is the concatenation of the stripped parts, so the allowed characters stay in order |
| ImageNaming.StripDisallowedChar | api/start/routes.ts:55 | a single character is kept exactly when it is in `[a-zA-Z0-9_-]` |
| ImageNaming.StripDisallowedCount | api/start/routes.ts:55 | every allowed character occurs exactly as often as in the input, every other one not at all |
| ImageNaming.StripDisallowedExample | api/start/routes.ts:55 | `a!b` strips to `ab` |
| ImageNaming.StripDisallowedSpec | api/start/routes.ts:55 | text wholly outside the class strips to nothing, text wholly inside it is kept |
| ImageNaming.LowerAscii | api/start/routes.ts:56 | lowering changes each character on its own and keeps the length |
| ImageNaming.WordsFolderCharset | api/start/routes.ts:51-57 | whatever the words, the folder name uses only `[a-z0-9_-]` |
| ImageNaming.EmptyWordsUntitled | api/start/routes.ts:51-57 | missing or empty words give `untitled` |
| ImageNaming.BlankWordsGiveEmptyName | api/start/routes.ts:51-57 | non-empty words made only of whitespace give the empty name, not `untitled` |
| ImageNaming.PunctuationGivesEmptyName | api/start/routes.ts:51-57 | non-empty words made only of disallowed non-separator characters give the empty name |
| ImageNaming.ListedFiles | api/start/routes.ts:63-65 | the filter keeps exactly the listed names starting `image-` and ending `.png` |
| ImageNaming.TrailingDigits | api/start/routes.ts:68 | the digits captured are the longest run of digits ending the name stem |
| ImageNaming.MatchPartsComplete | api/start/routes.ts:68-70 | every name `<prefix>image-<digits>.png` matches the pattern with exactly those digits and parses to their value |
| ImageNaming.MaxNumberSpec | api/start/routes.ts:66-73 | the maximum is at least every matched number and is 0 or one of them |
| ImageNaming.NextImageNumber | api/start/routes.ts:63-74 | the `forEach` scan gives one more than the largest matched number among the listed files |
| ImageNaming.ImageFileNameMatches | api/start/routes.ts:75 | the new file name passes the filter and reads back as its number |
| ImageNaming.NextNumberIsFresh | api/start/routes.ts:63-75 | the next number exceeds every listed image's number, so the new name is not in the listing; with no listed images it is 1 |
| ImageNaming.ImagePathSpec | api/start/routes.ts:58-79 | the returned path lies under `images/` and its file name reads back as the chosen number |
| ImageNaming.GenerateImagePath | api/start/routes.ts:50-79 | the path is `images/<date or today>/<words folder>/image-<next>.png` |
| ImageNaming.CollapseSeparators | api/start/routes.ts:54 | the collapse of separator runs; see `ImageNaming.CollapseRemovesSeparators`, `ImageNaming.CollapseRun`, `ImageNaming.CollapseAppend` and `ImageNaming.CollapseWithoutSeparators` |
| ImageNaming.WordsFolder | api/start/routes.ts:51-57 | `wordsFolder`; see `ImageNaming.WordsFolderCharset` and the four edge-case lemmas |
| ImageNaming.CommasGiveDash | api/start/routes.ts:51-57 | words made only of commas give the folder `-`, not `untitled` or the empty name |
| ImageNaming.MatchParts | api/start/routes.ts:68 | a match splits the name into text, `image-`, a digit run and `.png`; see `ImageNaming.MatchPartsComplete` for the converse |
| ImageNaming.MatchNumber | api/start/routes.ts:68-70 | the parsed number of a matching name; see `ImageNaming.MatchPartsComplete` |
| ImageNaming.MaxNumber | api/start/routes.ts:66-73 | the largest matched number; see `ImageNaming.MaxNumberSpec` |
| ImageNaming.NextNumber | api/start/routes.ts:74 | `nextNum`; see `ImageNaming.NextNumberIsFresh` |
| ImageNaming.ImageFileName | api/start/routes.ts:75 | `image-${nextNum}.png`; see `ImageNaming.ImageFileNameMatches` |
| ImageNaming.DateFolder | api/start/routes.ts:50 | the given date unless it is missing or empty, else today; used by `ImageNaming.GenerateImagePath` |
| ImageNaming.FolderPath | api/start/routes.ts:59 | the static folder path; see `ImageNaming.ImagePathSpec` |
| ImageNaming.ImagePath | api/start/routes.ts:79 | the returned path; see `ImageNaming.ImagePathSpec` |

## Left out

- `Math.pow` is an uninterpreted function that is only assumed positive (`Projection.ValidEnv`). Its value for fractional exponents is not modelled.
- IEEE-754 doubles are modelled as exact reals. Rounding error, overflow to `Infinity` and `-0` are not modelled.
- The clock and calendar are parameters of `Projection.Env`: `new Date()`, `setMonth`, `toLocaleDateString`, the month difference of a typed date and the current-age computation on lines 64-73.
- `Number(...)` on the stripped text is a parameter of `Projection.Env`. JavaScript's number grammar is not modelled.
- Calculator.FinancialCalculator.HandleCellEdit: requires a non-zero withdrawal rate for a passive-income edit. The source divides by it and would carry `Infinity` or NaN into the row.
- Solvers.FromPassiveIncome: requires a non-zero withdrawal rate, for the same reason.
- Solvers.CalculateFromPassiveIncome: requires a non-zero withdrawal rate, for the same reason.
- Calculator.Solved: requires a non-zero withdrawal rate for the passive-income case, for the same reason.
- Calculator.EditedRow: requires a non-zero withdrawal rate for the passive-income case, for the same reason.
- Calculator.FinancialCalculator.HandleCellEdit: works on one of the six column names (`Table.Field`). A field string naming no column is not modelled.
- Solvers: a NaN solver field and a missing one are both `None`, since the edit handler's `|| 0` treats them alike. A solved 0 shows as 0 either way.
- Projection.CurrentAge: the age is a real for every birth date. The source's age on lines 64-73 is NaN for an empty or unparsable birth date, which would make every age in the series, the solved rows and each goal's `ageAchieved` NaN. The model assumes the birth date parses, as the default one does and as nothing in the model changes it.
- `handleInputChange` (lines 366-368) is not modelled. It is a generic field setter over an untyped value, and the inputs stay as constructed.
- `editingCell`, `EditableCell`, the chart options, `formatCurrency` and `formatNumber` are not modelled. They are rendering or `Intl` formatting.
- Mnemonic.WordOptions: a chunk that is not all digits, or a key missing from the map, contributes no words in the large-number branch. The source would insert `undefined` there. For chunks this branch is unreachable (`Mnemonic.ShortParseIntBelowThousand`).
- Mnemonic.ParseInt: models leading whitespace, sign, `0x` and the digit run over unbounded integers. It does not model `Infinity` for very long digit runs or precision loss above 2^53.
- The contents of the word map are not modelled. The map is a parameter.
- jotai atoms are fields of `Mnemonic.RememberingDates` set by its constructor. The hook's image generation (`handleGenerateImage`, lines 146-163) and the query state are not modelled. They only build a prompt and call the image service.
- The yup library is not modelled. Its `required`, `nullable`, `test` and `matches` rules are written as predicates on `Option<string>`.
- The image route's OpenAI call, the base64 decoding, `fs.mkdirSync`, `fs.readdirSync`, `fs.writeFileSync` and the console are not modelled. The `public/` copy of the folder path is also left out. The directory listing and today's ISO date are parameters.
- Calculator.StripCurrency: its own ensures give only the charset and the length. That the other characters are kept, in order, is stated by `StripCurrencyAppend`, `StripCurrencyChar` and `StripCurrencyCount`.
- ImageNaming.StripDisallowed: its own ensures give only the charset. That the allowed characters are kept, in order, is stated by `StripDisallowedAppend`, `StripDisallowedChar` and `StripDisallowedCount`.
- Strings are sequences of Dafny characters, so JavaScript's UTF-16 code units and surrogate pairs are not modelled.
