/** The bucket generator (`genColumns`) and the bucket resolver
    (`bucketStartFor`): the year is cut into month buckets or into buckets
    of a fixed number of days counted from 1 January, and a date is mapped to
    the start of the bucket that holds it. */
module Columns {
  import opened CalendarDates
  import opened Labels

  /** A timeline cadence: calendar months, or a fixed number of days. */
  datatype Cadence = Monthly | Every(days: Positive)

  /** Reads a cadence key: "1m" is monthly; the day-step table maps the other
      keys, and a key missing from it falls back to seven days. */
  function CadenceOf(key: string): (c: Cadence)
    ensures c.Monthly? <==> key == "1m"
    ensures c.Every? ==> c.days in {1, 3, 7, 14, 15}
    ensures key == "daily" ==> c == Every(1)
    ensures key == "3d" ==> c == Every(3)
    ensures key == "14d" ==> c == Every(14)
    ensures key == "15d" ==> c == Every(15)
    ensures key !in {"1m", "daily", "3d", "14d", "15d"} ==> c == Every(7)
  {
    if key == "1m" then Monthly
    else if key == "daily" then Every(1)
    else if key == "3d" then Every(3)
    else if key == "7d" then Every(7)
    else if key == "14d" then Every(14)
    else if key == "15d" then Every(15)
    else Every(7)
  }

  /** i steps of `step` days (the source's `i * step`), built one step at a time. */
  function Offset(i: nat, step: Positive): nat {
    if i == 0 then 0 else Offset(i - 1, step) + step
  }

  /** The number of whole steps in `days` days (the source's
      `Math.floor(days / step)`), counted one step at a time. */
  function WholeSteps(days: nat, step: Positive): nat
    decreases days
  {
    if days < step then 0 else 1 + WholeSteps(days - step, step)
  }

  lemma ProductStep(i: int, step: int)
    ensures i * step == (i - 1) * step + step
  {
  }

  lemma DivisionFacts(days: nat, step: Positive)
    ensures days == (days / step) * step + days % step && 0 <= days % step < step
  {
  }

  lemma ProductShift(i: int, j: int, step: int)
    ensures j * step == i * step + (j - i) * step
  {
  }

  lemma ProductAtLeast(k: int, step: int)
    requires step >= 1 && k >= 1
    ensures k * step >= step
  {
  }

  lemma ProductsApart(i: int, j: int, step: Positive)
    requires i < j
    ensures i * step + step <= j * step
  {
    ProductShift(i, j, step);
    ProductAtLeast(j - i, step);
  }

  /** Offset is multiplication. */
  lemma {:induction false} OffsetIsProduct(i: nat, step: Positive)
    ensures Offset(i, step) == i * step
  {
    if i > 0 {
      OffsetIsProduct(i - 1, step);
      ProductStep(i, step);
    }
  }

  /** WholeSteps(days, step) whole steps fit into `days`, one more does not. */
  lemma {:induction false} WholeStepsBounds(days: nat, step: Positive)
    ensures Offset(WholeSteps(days, step), step) <= days < Offset(WholeSteps(days, step), step) + step
    decreases days
  {
    if days >= step {
      WholeStepsBounds(days - step, step);
    }
  }

  /** WholeSteps is rounded-down division. */
  lemma WholeStepsIsFloor(days: nat, step: Positive)
    ensures WholeSteps(days, step) == days / step
  {
    WholeStepsBounds(days, step);
    OffsetIsProduct(WholeSteps(days, step), step);
    DivisionFacts(days, step);
    if WholeSteps(days, step) < days / step {
      ProductsApart(WholeSteps(days, step), days / step, step);
    } else if WholeSteps(days, step) > days / step {
      ProductsApart(days / step, WholeSteps(days, step), step);
    }
  }

  /** Offsets grow by at least one step per step. */
  lemma {:induction false} OffsetGrows(i: nat, j: nat, step: Positive)
    requires i < j
    ensures Offset(i, step) + step <= Offset(j, step)
    decreases j
  {
    if i < j - 1 {
      OffsetGrows(i, j - 1, step);
    }
  }

  /** i steps stay within the first L + 1 days exactly when i is at most the
      number of whole steps in L. */
  lemma OffsetFits(L: nat, step: Positive, i: nat)
    ensures Offset(i, step) <= L <==> i <= WholeSteps(L, step)
  {
    WholeStepsBounds(L, step);
    if i < WholeSteps(L, step) {
      OffsetGrows(i, WholeSteps(L, step), step);
    } else if i > WholeSteps(L, step) {
      OffsetGrows(WholeSteps(L, step), i, step);
    }
  }

  /** One timeline column: the first date of its bucket (`full`) and its
      display label (`caption`, the source's `label`). */
  datatype Column = Column(full: ValidDate, caption: string)

  function ColumnLabel(t: ValidDate, c: Cadence): string {
    if c.Monthly? then MonthLabel(t) else Fmt(t)
  }

  /** Number of buckets in a year: twelve months, or every whole step that
      still starts on or before 31 December. */
  function ColumnCount(year: int, c: Cadence): nat {
    match c
    case Monthly => 12
    case Every(step) => WholeSteps(DaysInYear(year) - 1, step) + 1
  }

  /** Start of bucket i: the first of month i, or i steps after 1 January. */
  function ColumnStart(year: int, c: Cadence, i: nat): ValidDate
    requires i < ColumnCount(year, c)
  {
    match c
    case Monthly => Date(year, i, 1)
    case Every(step) => AddDays(StartOfYear(year), Offset(i, step))
  }

  function ColumnStarts(year: int, c: Cadence): (r: seq<ValidDate>)
    ensures |r| == ColumnCount(year, c)
    ensures forall i :: 0 <= i < |r| ==> r[i] == ColumnStart(year, c, i)
  {
    seq(ColumnCount(year, c), i requires 0 <= i < ColumnCount(year, c) => ColumnStart(year, c, i))
  }

  /** The columns of a year under a cadence, labelled. */
  function YearColumns(year: int, c: Cadence): (r: seq<Column>)
    ensures |r| == ColumnCount(year, c)
    ensures forall i :: 0 <= i < |r| ==> r[i] == Column(ColumnStart(year, c, i), ColumnLabel(ColumnStart(year, c, i), c))
  {
    seq(ColumnCount(year, c), i requires 0 <= i < ColumnCount(year, c) =>
      Column(ColumnStart(year, c, i), ColumnLabel(ColumnStart(year, c, i), c)))
  }

  /** The columns up to n + 1 are those up to n and column n. */
  lemma ColumnsPrefix(cols: seq<Column>, n: nat)
    requires n < |cols|
    ensures cols[..n + 1] == cols[..n] + [cols[n]]
  {
  }

  /** `genColumns(cadenceKey)` for the given current year: month buckets
      for "1m", fixed-step buckets otherwise. */
  method GenColumns(year: int, cadenceKey: string) returns (out: seq<Column>)
    ensures out == YearColumns(year, CadenceOf(cadenceKey))
  {
    if cadenceKey == "1m" {
      out := MonthColumns(year);
    } else {
      out := StepColumns(year, CadenceOf(cadenceKey).days);
    }
  }

  /** What one turn of the month loop needs: the first of month i is
      within the year and is column i, and adding a month reaches the first
      of the next month, which after December is past the year's end. */
  lemma MonthTurn(year: int, i: nat)
    requires i < 12
    ensures DayNumber(Date(year, i, 1)) <= DayNumber(EndOfYear(year))
    ensures YearColumns(year, Monthly)[i] == Column(Date(year, i, 1), MonthLabel(Date(year, i, 1)))
    ensures AddMonths(Date(year, i, 1), 1) == if i < 11 then Date(year, i + 1, 1) else Date(year + 1, 0, 1)
    ensures DayNumber(Date(year + 1, 0, 1)) > DayNumber(EndOfYear(year))
  {
    MonthColumnAt(year, i);
    MonthStep(year, i);
  }

  /** Monthly column i starts on the first of month i. */
  lemma MonthColumnAt(year: int, i: nat)
    requires i < 12
    ensures YearColumns(year, Monthly)[i] == Column(Date(year, i, 1), MonthLabel(Date(year, i, 1)))
  {
  }

  /** The first of month i is in the year; a month on is the first of the
      next month, past the year's end after December. */
  lemma MonthStep(year: int, i: nat)
    requires i < 12
    ensures DayNumber(Date(year, i, 1)) <= DayNumber(EndOfYear(year))
    ensures AddMonths(Date(year, i, 1), 1) == if i < 11 then Date(year, i + 1, 1) else Date(year + 1, 0, 1)
    ensures DayNumber(Date(year + 1, 0, 1)) > DayNumber(EndOfYear(year))
  {
    InYear(Date(year, i, 1), year);
    NextMonthStart(Date(year, i, 1));
    AfterYear(Date(year + 1, 0, 1), year);
  }

  /** The "1m" branch of `genColumns`: from 1 January, one column per
      `addMonths(t, 1)` while t is on or before 31 December. */
  method MonthColumns(year: int) returns (out: seq<Column>)
    ensures out == YearColumns(year, Monthly)
  {
    var s := StartOfYear(year);
    var e := EndOfYear(year);
    ghost var cols := YearColumns(year, Monthly);
    out := [];
    var t := StartOfMonth(s);
    MonthTurn(year, 0);
    while DayNumber(t) <= DayNumber(e)
      invariant |out| <= 12
      invariant |out| < 12 ==> t == Date(year, |out|, 1)
      invariant |out| == 12 ==> t == Date(year + 1, 0, 1)
      invariant out == cols[..|out|]
      decreases 12 - |out|
    {
      MonthTurn(year, |out|);
      ColumnsPrefix(cols, |out|);
      out := out + [Column(t, MonthLabel(t))];
      t := AddMonths(t, 1);
    }
    assert cols[..12] == cols;
  }

  /** The fixed-step branch of `genColumns`: from 1 January, one column per
      `addDays(t, step)` while t is on or before 31 December. */
  method StepColumns(year: int, step: Positive) returns (out: seq<Column>)
    ensures out == YearColumns(year, Every(step))
  {
    var s := StartOfYear(year);
    var e := EndOfYear(year);
    ghost var cols := YearColumns(year, Every(step));
    out := [];
    var t := s;
    while DayNumber(t) <= DayNumber(e)
      invariant |out| <= |cols|
      invariant DayNumber(t) == DayNumber(s) + Offset(|out|, step)
      invariant out == cols[..|out|]
      decreases DayNumber(e) - DayNumber(t)
    {
      StepTurn(year, step, |out|, t);
      ColumnsPrefix(cols, |out|);
      out := out + [Column(t, Fmt(t))];
      t := AddDays(t, step);
    }
    OffsetFits(DaysInYear(year) - 1, step, |out|);
    assert cols[..|cols|] == cols;
  }

  /** What one turn of the step loop needs: a date n steps after 1 January
      and on or before 31 December is the start of column n. */
  lemma StepTurn(year: int, step: Positive, n: nat, t: ValidDate)
    requires DayNumber(t) == DayNumber(StartOfYear(year)) + Offset(n, step)
    requires DayNumber(t) <= DayNumber(EndOfYear(year))
    ensures n < ColumnCount(year, Every(step))
    ensures YearColumns(year, Every(step))[n] == Column(t, Fmt(t))
  {
    OffsetFits(DaysInYear(year) - 1, step, n);
    DayNumberInjective(t, ColumnStart(year, Every(step), n));
  }

  /** Bucket starts lie in the requested year, and the first is 1 January. */
  lemma ColumnStartInYear(year: int, c: Cadence, i: nat)
    requires i < ColumnCount(year, c)
    ensures ColumnStart(year, c, i).year == year
    ensures i == 0 ==> ColumnStart(year, c, i) == StartOfYear(year)
  {
    if c.Every? {
      OffsetFits(DaysInYear(year) - 1, c.days, i);
      InYear(ColumnStart(year, c, i), year);
      if i == 0 {
        DayNumberInjective(ColumnStart(year, c, i), StartOfYear(year));
      }
    }
  }

  /** Bucket starts strictly increase. */
  lemma ColumnStartsIncrease(year: int, c: Cadence, i: nat, j: nat)
    requires i < j < ColumnCount(year, c)
    ensures DayNumber(ColumnStart(year, c, i)) < DayNumber(ColumnStart(year, c, j))
  {
    match c
    case Monthly =>
      MonthStartsIncrease(year, i, j);
    case Every(step) =>
      OffsetGrows(i, j, step);
  }

  /** Consecutive fixed-step bucket starts are exactly one step apart. */
  lemma ColumnStartsOneStepApart(year: int, step: Positive, i: nat)
    requires i + 1 < ColumnCount(year, Every(step))
    ensures DayNumber(ColumnStart(year, Every(step), i + 1)) == DayNumber(ColumnStart(year, Every(step), i)) + step
  {
  }

  /** The last fixed-step bucket is the last one starting on or before
      31 December: the year ends less than one step after it starts. */
  lemma LastColumnCoversYearEnd(year: int, step: Positive)
    ensures var last := ColumnStart(year, Every(step), ColumnCount(year, Every(step)) - 1);
      DayNumber(last) <= DayNumber(EndOfYear(year)) < DayNumber(last) + step
  {
    WholeStepsBounds(DaysInYear(year) - 1, step);
    YearLength(year);
  }

  /** Index of the bucket holding d: its month, or the number of whole
      steps from 1 January of d's own year. */
  function BucketIndex(d: ValidDate, c: Cadence): nat {
    match c
    case Monthly => d.month
    case Every(step) => WholeSteps(DayOfYear(d), step)
  }

  /** `bucketStartFor(date, cadenceKey)`: the start of the bucket holding the
      date, anchored at 1 January of the date's own year, which it never
      leaves; for months, the first of the date's month. */
  function BucketStartFor(d: ValidDate, c: Cadence): (r: ValidDate)
    ensures r.year == d.year
    ensures c.Monthly? ==> r == Date(d.year, d.month, 1)
  {
    match c
    case Monthly => Date(d.year, d.month, 1)
    case Every(step) =>
      var r := AddDays(StartOfYear(d.year), Offset(BucketIndex(d, c), step));
      WholeStepsBounds(DayOfYear(d), step);
      DayOfYearBound(d);
      YearLength(d.year);
      InYear(r, d.year);
      r
  }

  /** The fixed-step bucket index is the source's rounded-down quotient of
      the days since 1 January by the step. */
  lemma BucketIndexIsQuotient(d: ValidDate, step: Positive)
    ensures BucketIndex(d, Every(step)) == DayOfYear(d) / step
  {
    WholeStepsIsFloor(DayOfYear(d), step);
  }

  /** A fixed-step bucket starts BucketIndex whole steps after 1 January,
      as the source's `addDays(s, bucketIndex * step)`. */
  lemma BucketStartIsIndexTimesStep(d: ValidDate, step: Positive)
    ensures DayNumber(BucketStartFor(d, Every(step)))
         == DayNumber(StartOfYear(d.year)) + BucketIndex(d, Every(step)) * step
  {
    OffsetIsProduct(BucketIndex(d, Every(step)), step);
  }

  /** The bucket start is in the date's year, on or before the date, and
      the date lies within the bucket: the same month, or less than one step
      after the start. */
  lemma BucketStartBounds(d: ValidDate, c: Cadence)
    ensures BucketStartFor(d, c).year == d.year
    ensures DayNumber(BucketStartFor(d, c)) <= DayNumber(d)
    ensures c.Monthly? ==> BucketStartFor(d, c) == Date(d.year, d.month, 1)
    ensures c.Every? ==> DayNumber(d) < DayNumber(BucketStartFor(d, c)) + c.days
  {
    match c
    case Monthly =>
      MonthLength(d.year, d.month);
    case Every(step) =>
      WholeStepsBounds(DayOfYear(d), step);
      DayOfYearBound(d);
      YearLength(d.year);
      InYear(BucketStartFor(d, c), d.year);
  }

  /** Every day of the year resolves to exactly one generated bucket start:
      the one at BucketIndex. */
  lemma EveryDayHasColumn(year: int, c: Cadence, d: ValidDate)
    requires d.year == year
    ensures BucketIndex(d, c) < ColumnCount(year, c)
    ensures ColumnStart(year, c, BucketIndex(d, c)) == BucketStartFor(d, c)
    ensures forall j :: 0 <= j < ColumnCount(year, c) && ColumnStart(year, c, j) == BucketStartFor(d, c)
                        ==> j == BucketIndex(d, c)
  {
    match c
    case Monthly =>
    case Every(step) =>
      WholeStepsBounds(DayOfYear(d), step);
      DayOfYearBound(d);
      OffsetFits(DaysInYear(year) - 1, step, BucketIndex(d, c));
    forall j | 0 <= j < ColumnCount(year, c) && ColumnStart(year, c, j) == BucketStartFor(d, c)
      ensures j == BucketIndex(d, c)
    {
      if j < BucketIndex(d, c) {
        ColumnStartsIncrease(year, c, j, BucketIndex(d, c));
      } else if j > BucketIndex(d, c) {
        ColumnStartsIncrease(year, c, BucketIndex(d, c), j);
      }
    }
  }
}
