# Recurrence projection of the finance planner

The planner keeps income, credit-card, expense, debit-account and cash rows
in five sections. Each row may carry a recurring item (`meta`: an amount, a
start date and a recurrence such as `weekly` or `monthly`). The planner
projects that item onto the columns of the current year's timeline (calendar
months, or fixed steps of 1, 3, 7, 14 or 15 days). This project models that
engine in Dafny:

- the calendar helpers and the column generator;
- the bucket a date falls into;
- the occurrence iterator and the projection of a row onto the columns;
- the recompute of all rows and the row edits;
- the balance and cumulative rows and the savings-target line;
- the card-statement computation of the transactions table and the
  month grid of the calendar card.

Modules, one per file:

- `Wrappers` (wrappers.dfy): `Option`, `Result` and the two ways the source throws.
- `CalendarDates` (dates.dfy): proleptic Gregorian dates with the month counted from 0, as `getMonth` gives it; day numbers; `new Date(y, m, d)` normalisation; the calendar helpers.
- `Labels` (labels.dfy): `fmt`, the month labels, string order.
- `Columns` (columns.dfy): cadences, `genColumns`, `bucketStartFor`.
- `Recurrences` (recurrences.dfy): the step table and `iterateOccurrences`, over a generic "step until past a bound" engine.
- `Projection` (projection.dfy): `projectRowToColumns`.
- `Ledger` (ledger.dfy): rows and sections, `recomputeAll`, `addRow`/`updateCell`/`updateLabel`/`updateMeta`/`removeRow`, `sumSection`, `balanceRow`, `cumulativeRow`.
- `TargetLine` (target.dfy): the `Target` field of the chart points.
- `Statements` (statements.dfy): `calc` of the transactions table.
- `CalendarGrid` (calendar_grid.dfy): `getMatrix` of the calendar card.

The clock is a parameter. "The current year" is the argument `year`. "Now"
in `calc` is the argument `today`. The fresh row id is the argument `id`.

Two source operations throw, and the model returns `Err` for both:

- `stepMap[recurrence]` of an unknown recurrence name gives `NoStepFor`;
- `prev[sectionKey].map(...)` on a missing section gives `NoSection`.

The error reaches the callers: the projection, the recompute and the row
edits.

The recompute's properties (a successful recompute is in step, recomputing
again changes nothing, a projection error sticks) are stated for any
function from a recurring item to a row of cells, the `Projector`. The
loops of `recomputeAll` are proved to compute the recompute with
`ProjectorFor(columns, cadence, year)`, the projection of
`projectRowToColumns` for the year's columns.

## Model

| member | source | states |
|---|---|---|
| `CalendarDates.StartOfYear` | app.js:272 | 1 January of the year: its year is the year and its day number is the count of days before the year |
| `CalendarDates.EndOfYear` | app.js:273 | 31 December: the day just before the next year starts |
| `CalendarDates.AddDays` | app.js:274 | moves the day number by exactly `n`, across month and year ends |
| `CalendarDates.MakeDate` | app.js:275 | `new Date(y, m, d)` normalises any month and day: the result is day `d - 1` after the start of month `12y + m` |
| `CalendarDates.MakeDateValid` | app.js:275 | a date that already exists comes back unchanged |
| `CalendarDates.MakeDateRollover` | app.js:275 | a day past the end of the month rolls into the next month, or into January of the next year |
| `CalendarDates.AddMonths` | app.js:275 | `addMonths` by one or more months always gives a strictly later date |
| `CalendarDates.AddMonthsKeepsDay` | app.js:275 | when the target month has the day, `addMonths` keeps the day of the month |
| `CalendarDates.AddMonthsFromJanuary31` | app.js:275 | one month after 31 January of a common year is 3 March, not the end of February |
| `CalendarDates.NextMonthStart` | app.js:275 | from the 1st, one month on is the 1st of the next month, across December |
| `CalendarDates.StartOfMonth` | app.js:276 | the 1st of the date's month; the date lies within that month's days |
| `CalendarDates.NextYear` | app.js:324 | the yearly step `new Date(y + 1, m, d)` is `addMonths` by twelve, and strictly later |
| `CalendarDates.NextYearFromLeapDay` | app.js:324 | one year after 29 February is 1 March |
| `CalendarDates.InYear` | app.js:311-314 | comparing with 1 January and 31 December is comparing years, in all three directions |
| `CalendarDates.DayNumberOrder` | app.js:313 | the order of dates (`<`, `<=` on timestamps) is lexicographic on year, month and day, and equal day numbers are equal dates |
| `CalendarDates.FromDayNumberOf` | app.js:274 | every day number is exactly one date |
| `CalendarDates.DayOfYear` | app.js:304 | `Math.floor((date - s) / msPerDay)` is the number of days since 1 January |
| `CalendarDates.MonthLength` | app.js:1100 | each month is as long as the number of days in it |
| `CalendarDates.Weekday` | app.js:1099 | `getDay`: a number from 0 to 6, advancing by one each day from Thursday 1 January 1970 |
| `CalendarDates.WeekdayOfUnixEpoch` | app.js:1099 | `getDay` is anchored: 1 January 1970 is a Thursday |
| `Labels.Fmt` | app.js:277 | `fmt` is six characters with a dash in the middle |
| `Labels.FmtDay` | app.js:277 | `fmt`: the day padded to two digits, whose value is the day of the month, then the dash and the month's short name |
| `Labels.MonthLabel` | app.js:287 | the monthly column label starts with the month's short name and a space |
| `Labels.MonthLabelYear` | app.js:287 | after the space, the label spells the year: its digits denote the year, behind a minus sign when it is negative |
| `Labels.NatToString` | app.js:277 | `String(n)`: at least one decimal digit, no leading zero, a single digit exactly below 10 |
| `Labels.NatToStringValue` | app.js:277 | the digits `String(n)` writes denote `n` |
| `Labels.IntToStringValue` | app.js:287 | `String(y)` of the year: its digits denote `y`, after a minus sign when `y` is negative |
| `Labels.Pad2Value` | app.js:277 | `padStart(2, "0")` keeps the value of the digits |
| `Labels.LexLessAt` | app.js:444 | JavaScript string order: the first differing character decides |
| `Labels.LexLessTotal` | app.js:444 | string order is total and antisymmetric |
| `Labels.LexLessTransitive` | app.js:444 | string order is transitive |
| `Columns.CadenceOf` | app.js:285-290 | "1m" is monthly; the day-step table gives 1, 3, 14 or 15; every other key falls back to 7 days |
| `Columns.GenColumns` | app.js:282-294 | the loop's columns are the year's column starts with their labels |
| `Columns.MonthColumns` | app.js:285-289 | the monthly loop pushes the twelve 1sts of the year |
| `Columns.StepColumns` | app.js:290-293 | the day-step loop pushes 1 January and every `step` days after it up to 31 December |
| `Columns.YearColumns` | app.js:282-294 | one column per start, labelled by `fmt` or the month label |
| `Columns.MonthTurn` | app.js:286-287 | monthly column `i` starts on the 1st of month `i`; the loop stops after December |
| `Columns.MonthColumnAt` | app.js:286-287 | monthly column `i` is the 1st of month `i` with its month label |
| `Columns.MonthStep` | app.js:286-287 | the 1st of each month is no later than 31 December; one month on is the next 1st, and after December it is 1 January of the next year, past the end of the year, so the loop stops at twelve columns |
| `Columns.StepTurn` | app.js:291-292 | a date `n` steps after 1 January and not past 31 December is column `n` |
| `Columns.ColumnStartInYear` | app.js:283-292 | every column starts in the year, the first on 1 January |
| `Columns.ColumnStartsIncrease` | app.js:286-292 | column starts strictly increase |
| `Columns.ColumnStartsOneStepApart` | app.js:292 | consecutive day-step columns are exactly `step` days apart |
| `Columns.LastColumnCoversYearEnd` | app.js:291-292 | the last day-step column starts at most one step before 31 December, so the columns cover the year |
| `Columns.WholeStepsIsFloor` | app.js:305 | the bucket index is `Math.floor(days / step)` |
| `Columns.OffsetIsProduct` | app.js:306 | the bucket offset is `bucketIndex * step` |
| `Columns.BucketIndexIsQuotient` | app.js:303-305 | the day-step bucket index is the day of the year divided by the step, rounded down |
| `Columns.BucketStartFor` | app.js:297-307 | `bucketStartFor` stays in the date's year; monthly it is the 1st of the date's month |
| `Columns.BucketStartIsIndexTimesStep` | app.js:306 | the bucket starts `index * step` days after 1 January |
| `Columns.BucketStartBounds` | app.js:297-307 | the bucket start is in the same year and not after the date; monthly it is the 1st, and day-step the date is less than one step after it |
| `Columns.EveryDayHasColumn` | app.js:297-307 | every day of the year has its bucket among the year's columns, at exactly one index |
| `Recurrences.RecurrenceOf` | app.js:315-326 | the step table: "none" is one-time; five day steps, three month steps and "yearly"; any other name has no step |
| `Recurrences.StepFnAdvances` | app.js:315-324 | every step in the table moves the date strictly forward, so both loops end |
| `Recurrences.IterateOccurrences` | app.js:310-338 | the iterator run to completion: no start, a start after the year, one-time, fast-forward then yield, or a throw on an unknown name |
| `Recurrences.SteppedLoops` | app.js:327-337 | the fast-forward loop and the yield loop compute the stepped occurrences |
| `Recurrences.FastForwardIsFirst` | app.js:328 | the fast-forward stops at the first iterate that is not before 1 January |
| `Recurrences.CollectIsIterates` | app.js:334-337 | the yield loop yields consecutive iterates up to the bound and stops at the first one past it |
| `Recurrences.CollectIncreases` | app.js:334-337 | the yielded values strictly increase |
| `Recurrences.WindowMembers` | app.js:327-337 | an iterate lies between the two bounds exactly when it is among those yielded |
| `Recurrences.NoOccurrences` | app.js:312-313 | no start date, or a start after 31 December, yields nothing |
| `Recurrences.Occurrences` | app.js:310-338 | what the iterator yields: nothing without a start; a throw exactly for an unknown name and a start not after the year; otherwise only dates of the year |
| `Recurrences.SteppedInYear` | app.js:327-337 | every date the two loops yield is in the year |
| `Recurrences.OccurrencesFail` | app.js:316-328 | the iterator throws exactly when the name is unknown and the start is not after the year |
| `Recurrences.OneTimeOccurrences` | app.js:330-332 | a one-time item yields its start date when it is in the year, and nothing otherwise |
| `Recurrences.SteppingOccurrences` | app.js:327-337 | a stepping item starting no later than the year yields the fast-forwarded window |
| `Recurrences.OccurrencesAreIterates` | app.js:327-337 | the yielded dates are consecutive steps from the start date |
| `Recurrences.IterateInYear` | app.js:327-337 | no step from the start date that lands in the year is skipped |
| `Recurrences.OccurrencesIncrease` | app.js:334-337 | the yielded dates strictly increase |
| `Recurrences.YearlyFromLeapDay` | app.js:324 | a yearly item from 29 February occurs on 1 March the next year |
| `Recurrences.MonthlyFromJanuary31` | app.js:321 | a monthly item from 31 January of a common year occurs on 31 January, 3 March and 3 April |
| `Recurrences.JanuaryStep` | app.js:321 | one month after 31 January of a common year is 3 March |
| `Recurrences.MarchStep` | app.js:321 | one month after 3 March is 3 April |
| `Projection.RecurrenceKey` | app.js:344 | `recurrence \|\| 'none'`: an empty name becomes "none", others are kept |
| `Projection.Nulls` | app.js:345 | `Array(n).fill(null)`: `n` null cells |
| `Projection.IndexMap` | app.js:348 | `new Map` of the column dates: every date maps to an index holding it, and the last such index wins |
| `Projection.MapIndex` | app.js:348 | the loop building the map computes `IndexMap` of the column dates |
| `Projection.AddOccurrences` | app.js:350-356 | the accumulation loop on the array adds the amount once per occurrence whose bucket is in the map |
| `Projection.AddKey` | app.js:351-355 | one occurrence on the array: the slot its key maps to grows by the amount, a null slot counting as 0; a key not in the map changes nothing |
| `Projection.AccumulateStep` | app.js:350-356 | one turn of the loop: accumulating from occurrence `k` is adding occurrence `k`'s key, then accumulating from `k + 1` |
| `Projection.ProjectRowToColumns` | app.js:341-358 | all null without an amount or a start date; otherwise the occurrences accumulated into their buckets; throws as the iterator does |
| `Projection.AccumulateSlot` | app.js:350-356 | a slot stays as it was when no occurrence reaches it, and otherwise holds its old value plus the amount times the hits |
| `Projection.AccumulateTotal` | app.js:350-356 | the accumulation adds the amount to the row total once per occurrence that finds a column |
| `Projection.TimesIsProduct` | app.js:354 | adding the amount `n` times is `n * amount` |
| `Projection.Project` | app.js:341-358 | `projectRowToColumns`: one cell per column on success; all null when the guard stops the row |
| `Projection.ProjectFails` | app.js:341-358 | the projection throws exactly when the row passes the guard and the iterator throws |
| `Projection.ProjectSlot` | app.js:341-358 | cell `i` is null exactly when no occurrence's bucket maps to `i`, and otherwise holds the amount times the hits |
| `Projection.KeyOfDateInYear` | app.js:348-353 | on the generated columns, a date of the year finds the column of its bucket |
| `Projection.HitsThroughMap` | app.js:351-353 | when every key is in the map, a slot's hits are the occurrences listed for that slot |
| `Projection.GeneratedColumnsHit` | app.js:351-353 | on the generated columns no occurrence of the year is dropped |
| `Projection.ProjectOntoGenerated` | app.js:341-358 | on the generated columns, cell `i` is the amount times the number of occurrences in bucket `i` |
| `Projection.ProjectConserves` | app.js:341-358 | on the generated columns, the row's cells add up to the amount times the number of occurrences |
| `Projection.AccumulateConserves` | app.js:350-356 | accumulating the year's occurrences onto the generated columns' null cells adds the amount once per occurrence |
| `Ledger.RecomputeAll` | app.js:645-655 | the loops over sections and rows compute the recompute |
| `Ledger.RecomputeKeys` | app.js:647-654 | the loop over the section keys recomputes those sections in order, stopping at the first throw |
| `Ledger.ReprojectList` | app.js:648-651 | the `.map` over a section re-projects every row in order |
| `Ledger.RowErrorSticks` | app.js:648-651 | after a row throws, the later rows do not matter |
| `Ledger.SectionErrorSticks` | app.js:647-654 | after a section throws, the later sections do not matter |
| `Ledger.ReprojectSucceeds` | app.js:648-651 | re-projecting a section succeeds exactly when every row's projection does |
| `Ledger.ReprojectRows` | app.js:648-651 | re-projecting keeps the length, the order and every field but the cells, which become the row's projection |
| `Ledger.ReprojectAllOk` | app.js:648-651 | when every row projects, the `.map` does not throw |
| `Ledger.ReprojectOneErr` | app.js:648-651 | when one row's projection throws, the `.map` throws |
| `Ledger.ReprojectKeepsRows` | app.js:648-651 | re-projecting keeps the length and every field but the cells |
| `Ledger.ReprojectCells` | app.js:648-651 | re-projecting sets each row's cells to the projection of its item |
| `Ledger.ReprojectFixpoint` | app.js:648-651 | a section is its own re-projection exactly when every row holds its projection |
| `Ledger.RecomputeSectionsShape` | app.js:645-655 | the result holds exactly the section keys, each the re-projection of that section (`\|\| []` when missing) |
| `Ledger.RecomputeSectionsDependsOn` | app.js:645-655 | the recompute reads only the sections it recomputes |
| `Ledger.RecomputeSectionsFails` | app.js:645-655 | the recompute throws only when some section's re-projection does |
| `Ledger.InSyncIsFixpoint` | app.js:645-655 | rows are in step with their items exactly when the recompute gives them back |
| `Ledger.FixpointIsInSync` | app.js:645-655 | a fixpoint of the recompute is in step |
| `Ledger.InSyncIsKept` | app.js:645-655 | recomputing rows in step gives them back |
| `Ledger.RecomputeIdempotent` | app.js:645-655 | a successful recompute is in step, so recomputing again changes nothing |
| `Ledger.ReprojectIdempotent` | app.js:648-651 | re-projecting twice is re-projecting once |
| `Ledger.Merge` | app.js:472 | `{ ...meta, ...nextMeta }`: every field the patch carries replaces the row's |
| `Ledger.AddRow` | app.js:448-455 | `addRow` throws exactly when the payload's projection does; otherwise the new row, labelled by the payload and holding its projection, is appended to the section (created if missing) and no other section changes |
| `Ledger.UpdateCell` | app.js:456-463 | `updateCell` throws exactly on a missing section; otherwise cell `col` of each row with the id becomes the value, and every other cell, every row's id, label and item, every cell count and every other section stay |
| `Ledger.UpdateLabel` | app.js:464-466 | `updateLabel` throws exactly on a missing section; otherwise every row with the id takes the new label and nothing else changes |
| `Ledger.FindIndex` | app.js:470 | `findIndex`: the first row with the id, or none when no row has it |
| `Ledger.UpdateMeta` | app.js:467-479 | `updateMeta` throws only when a row with the id exists (its new projection throws); otherwise the section keys and every other section stay, and the section keeps its length and each row's id and label in place |
| `Ledger.WithoutId` | app.js:481 | `filter`: no kept row has the id, and every row without it is kept |
| `Ledger.RemoveRow` | app.js:480-482 | `removeRow` throws exactly on a missing section; otherwise that section becomes its rows without the id and the others stay |
| `Ledger.NoMatchKeepsAll` | app.js:481 | filtering out an id no row has keeps the list |
| `Ledger.RemoveUndoesAppend` | app.js:480-482 | removing a row just appended under a fresh id gives the state back |
| `Ledger.RemoveUndoesAdd` | app.js:448-482 | `removeRow` undoes `addRow` under a fresh id |
| `Ledger.AddRowKeepsSync` | app.js:448-455 | adding a projected row to a section keeps the rows in step |
| `Ledger.UpdateMetaKeepsSync` | app.js:467-479 | changing a row's item and re-projecting it keeps the rows in step |
| `Ledger.SetSectionKeepsSync` | app.js:476-477 | replacing a section by rows that hold their projections keeps the rows in step |
| `Ledger.RemoveRowKeepsSync` | app.js:480-482 | removing rows keeps the rows in step |
| `Ledger.UpdateLabelKeepsSync` | app.js:464-466 | renaming rows keeps the rows in step |
| `Ledger.UpdateMetaNoMatch` | app.js:467-471 | with no row holding the id, the state comes back as it was |
| `Ledger.UpdateMetaFirstMatch` | app.js:467-479 | only the first row with the id changes: it keeps its id and label and takes the merged item and that item's projection as cells; the update throws exactly when that projection does |
| `Ledger.RecomputeDiscardsCellEdits` | app.js:456-463 | a hand-edited cell does not survive the next recompute |
| `Ledger.ReprojectIgnoresValues` | app.js:648-651 | re-projection does not read the cells it overwrites |
| `Ledger.BalanceRow` | app.js:421-427 | one balance per column: income − card − expenses + debit + cash |
| `Ledger.ColumnSum` | app.js:419 | the `reduce` is the sum of the column's cells, a missing or null cell counting as 0 |
| `Ledger.SumSection` | app.js:418-420 | `sumSection`: 0 for a missing section, else the sum of its rows' cells in the column |
| `Ledger.Balance` | app.js:421-427 | each balance is the signed total of the five section sums |
| `Ledger.SectionsSignedTotal` | app.js:421-427 | the signed total over the sections is income − card − expenses + debit + cash |
| `Ledger.ColumnSumAppend` | app.js:419 | the section sum over two lists is the sum of their sums |
| `Ledger.ColumnSumSameCells` | app.js:419 | lists whose rows agree on a column have the same sum there |
| `Ledger.AppendMovesSum` | app.js:418-420 | appending a row moves only its own section's sum, by its cell |
| `Ledger.AppendMovesBalance` | app.js:418-427 | appending a row moves every balance by its cell, with the section's sign |
| `Ledger.AddRowMovesBalance` | app.js:418-455 | `addRow` moves each balance by the new row's projected cell, with the section's sign |
| `Ledger.UpdateCellKeepsOtherColumns` | app.js:456-463 | editing a cell leaves the balance of every other column as it was |
| `Ledger.CumulativeRow` | app.js:428 | the running total: each entry is the sum of the balances up to it |
| `TargetLine.Level` | app.js:432 | the line's level: the target amount when it is a number above zero, else none |
| `TargetLine.FindColumn` | app.js:437 | `columns.find`: the first column starting on the date, or none |
| `TargetLine.TargetSeries` | app.js:430-446 | each point is the target level or none; with no target column every point is the level, and the target's own column always has it |
| `TargetLine.TargetSeriesByDate` | app.js:430-446 | the line cut off by date has the same guarantees as the one cut off by label |
| `TargetLine.ByDateDownwardClosed` | app.js:430-446 | cut off by date, a column no later than one on the line is also on it |
| `TargetLine.BucketColumnIsUnique` | app.js:434-438 | on the generated columns, the bucket of a date of the year is the start of exactly one column |
| `TargetLine.TargetColumnIsBucket` | app.js:434-438 | on the generated columns, a target date of the year selects its own bucket's column |
| `TargetLine.ColumnOrder` | app.js:282-294 | the generated columns are in the order of their start dates, in both directions |
| `TargetLine.ByDateStopsAtTargetColumn` | app.js:431-446 | cut off by date, the line is drawn exactly up to the target's column |
| `TargetLine.LabelCutoffIsNotChronological` | app.js:444 | cut off by label as written, a June target leaves March out and draws December |
| `TargetLine.JuneLabelOrder` | app.js:444 | "Mar …" sorts after "Jun …" and "Dec …" before it |
| `Statements.CutoffDay` | app.js:972 | `parseInt(corte) \|\| parseInt(diacorta) \|\| 1`: `corte` when non-zero, else `diacorta` when non-zero, else 1; never 0 |
| `Statements.Calc` | app.js:971-984 | only the four computed fields change; the statement date is the next statement from the transaction date (today when blank) for the cut-off day, on that day and later for days 1 to 28; the amount goes to charges on a credit card and to debits otherwise; the difference is amount minus balance |
| `Statements.CutoffLaterThisMonth` | app.js:974 | a cut-off day still to come this month is this month's statement |
| `Statements.CutoffNextMonth` | app.js:975 | a cut-off day already reached moves to next month and comes after the transaction |
| `Statements.NextStatement` | app.js:972-976 | for cut-off days 1 to 28: the cut-off day of this month when still to come, else of the next month; on that day and strictly after the transaction |
| `Statements.BlankRowDueNextMonth` | app.js:972-976 | a row with no date and no cut-off is due on the 1st of the month after today |
| `CalendarGrid.GetMatrix` | app.js:1096-1105 | the grid of the month: the 1st in its weekday column, then the days, in rows of seven |
| `CalendarGrid.Layout` | app.js:1101-1103 | the three loops: leading zeros, the days with a row pushed at seven, the last row padded |
| `CalendarGrid.LastDayOfMonth` | app.js:1100 | `new Date(y, m + 1, 0)` is the month's last day |
| `CalendarGrid.GridCell` | app.js:1101-1103 | a cell holds a day exactly inside the month's span, and that day is its position from the 1st |
| `CalendarGrid.Weeks` | app.js:1102-1103 | the rows are just enough for the cells |
| `CalendarGrid.Grid` | app.js:1101-1103 | rows of seven, as many as the shifted days need |
| `CalendarGrid.DayPosition` | app.js:1101-1102 | each day sits at its shifted position in the grid |
| `CalendarGrid.WeekdayOfDay` | app.js:1099 | each day's weekday is its column in the grid |
| `CalendarGrid.DaysAppearOnce` | app.js:1101-1103 | no day appears in two cells |
| `CalendarGrid.FourToSixRows` | app.js:1096-1105 | a month spans four to six rows |

## Left out

- Floating point. Amounts are exact reals, so `Number`, `parseFloat`, `toFixed(2)` and the rounding of sums are not modelled. `Times(n, a)` stands for `n` additions of `a`.
- Non-numeric input. `NaN` and empty strings become `None`, and `|| 0` becomes `GetOr(0.0)`.
- Invalid dates. An unparsable start date or target date becomes `None`, which has the same effect in the source: nothing occurs and no column matches.
- Time of day, daylight saving and time zones. Dates are calendar days and timestamps are compared as day numbers.
- Date parsing. `new Date("YYYY-MM-DD")` parses as UTC; here the start date is taken as the calendar day it names.
- `toISOString`. In `calc` it is taken to give the statement date itself; the local-versus-UTC day shift is not modelled.
- Two-digit years. `new Date(y, m, d)` maps years 0 to 99 to 1900 to 1999; `MakeDate` does not.
- `toDateString` keys of the column map are modelled as date equality.
- `uid` randomness and `new Date()` are parameters (`id`, `year`, `today`).
- `WithoutId`: states which rows are kept, not that `filter` keeps their order.
- `NextStatement`: its contract covers cut-off days 1 to 28. Days 29 to 31, which roll over in short months, and negative days are computed by the same definition but not described by it.
- `RecurrenceOf`: a recurrence name that a plain object inherits (`constructor`, `toString`, `valueOf`, `hasOwnProperty`, …) is treated as unknown, giving `NoStepFor`. In the source, `stepMap[name]` then finds the inherited function instead of `undefined`, so nothing throws. `constructor` returns the date unchanged, so the loop at app.js:328 never ends for a start before the year, and the loop at app.js:334-337 never ends for a start inside it. `toString` turns the date into a string, which compares false with dates, so the loops stop: nothing is yielded for a start before the year, and only the start for a start inside it. Such names reach the engine only through an imported file (app.js:541-547).
- `CadenceOf`: a cadence key inherited the same way (`constructor`, `toString`, …) falls back to 7 days here. In the source the lookup finds a function, which is truthy, so `addDays` computes an invalid date and `genColumns` stops after a single column.
- `Calc`: the transaction date is empty or a valid date. An unparsable `fecha`, which only an imported file can hold (app.js:543), makes `toISOString` throw a `RangeError` (app.js:976) the next time a field of that row is edited (app.js:961). That throw is not modelled.
- React state, rendering, the service worker `sw.js`, translations, `localStorage`, export and import, toasts, timers and `money` formatting are outside the engine.

## Findings

| source | as written | input that shows it | evidently intended | confidence | as-written member | corrected member |
|---|---|---|---|---|---|---|
| app.js:444 | the target line is cut off with `c.label <= lastLabel`, a string comparison of column labels | monthly cadence and a target dated in June: "Mar 2025" sorts after "Jun 2025", so March has no line, while "Dec 2025" sorts before it, so December has one | draw the line on the columns up to the target's column in time | not executed | `TargetLine.LabelCutoffIsNotChronological` | `TargetLine.ByDateStopsAtTargetColumn` |
