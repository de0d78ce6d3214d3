/** Local calendar dates as the source uses them: year, month (0..11, as
    `getMonth()` returns it) and day of the month. A date is mapped to a day
    number (days since 1 January of year 0 of the proleptic Gregorian
    calendar) so that comparisons of dates are comparisons of day numbers,
    as comparisons of JavaScript `Date` values are. The JavaScript `Date`
    constructor's rollover of out-of-range months and days is modelled by
    MakeDate. */
module CalendarDates {

  datatype Date = Date(year: int, month: int, day: int)

  /** A step length: a whole number of days or months, at least one. */
  type Positive = n: int | n >= 1 witness 1

  predicate IsLeapYear(y: int) {
    y % 4 == 0 && (y % 100 != 0 || y % 400 == 0)
  }

  function DaysInYear(y: int): int {
    if IsLeapYear(y) then 366 else 365
  }

  function DaysInMonth(y: int, m: int): int
    requires 0 <= m < 12
  {
    if m == 1 then (if IsLeapYear(y) then 29 else 28)
    else if m == 3 || m == 5 || m == 8 || m == 10 then 30
    else 31
  }

  predicate IsValid(d: Date) {
    0 <= d.month < 12 && 1 <= d.day <= DaysInMonth(d.year, d.month)
  }

  /** A date every field of which is in range: what a JavaScript `Date`
      reports through getFullYear/getMonth/getDate. */
  type ValidDate = d: Date | IsValid(d) witness Date(1970, 0, 1)

  /** Days from 1 January of year 0 to 1 January of year y (negative for
      years before 0). */
  function DaysBeforeYear(y: int): int
    decreases if y < 0 then -y else y
  {
    if y == 0 then 0
    else if y > 0 then DaysBeforeYear(y - 1) + DaysInYear(y - 1)
    else DaysBeforeYear(y + 1) - DaysInYear(y)
  }

  /** Days from 1 January to the first of month m (m == 12 gives the whole year). */
  function DaysBeforeMonth(y: int, m: int): int
    requires 0 <= m <= 12
  {
    (if m == 0 then 0 else if m == 1 then 31 else if m == 2 then 59 else if m == 3 then 90
     else if m == 4 then 120 else if m == 5 then 151 else if m == 6 then 181 else if m == 7 then 212
     else if m == 8 then 243 else if m == 9 then 273 else if m == 10 then 304 else if m == 11 then 334 else 365)
    + (if m >= 2 && IsLeapYear(y) then 1 else 0)
  }

  function DayNumber(d: ValidDate): int {
    DaysBeforeYear(d.year) + DaysBeforeMonth(d.year, d.month) + d.day - 1
  }

  /** Day number of the first day of month k, counted in months since
      January of year 0; k / 12 and k % 12 are the normalised year and month. */
  function MonthStart(k: int): int {
    DaysBeforeYear(k / 12) + DaysBeforeMonth(k / 12, k % 12)
  }

  lemma YearLength(y: int)
    ensures DaysBeforeYear(y + 1) == DaysBeforeYear(y) + DaysInYear(y)
  {
  }

  /** The usual closed form: 365 days a year plus one for every leap year
      before y. */
  function ClosedForm(y: int): int {
    365 * y + (y + 3) / 4 - (y + 99) / 100 + (y + 399) / 400
  }

  lemma {:induction false} DaysBeforeYearClosedForm(y: int)
    ensures DaysBeforeYear(y) == ClosedForm(y)
    decreases if y < 0 then -y else y
  {
    if y > 0 {
      DaysBeforeYearClosedForm(y - 1);
      LeapCount(y - 1);
    } else if y < 0 {
      DaysBeforeYearClosedForm(y + 1);
      LeapCount(y);
    }
  }

  /** The closed form grows by the length of each year. */
  lemma LeapCount(y: int)
    ensures ClosedForm(y + 1) == ClosedForm(y) + DaysInYear(y)
  {
    NextQuotient4(y);
    NextQuotient100(y);
    NextQuotient400(y);
    if y % 400 == 0 {
      Multiple400(y);
    }
    if y % 100 == 0 {
      Multiple100(y);
    }
  }

  /** A multiple of 400 is a multiple of 100. */
  lemma Multiple400(y: int)
    requires y % 400 == 0
    ensures y % 100 == 0
  {
    var q := y / 400;
    assert y == 100 * (4 * q);
  }

  /** A multiple of 100 is a multiple of 4. */
  lemma Multiple100(y: int)
    requires y % 100 == 0
    ensures y % 4 == 0
  {
    var q := y / 100;
    assert y == 4 * (25 * q);
  }

  /** Moving past a multiple of 4 raises the quotient by one. */
  lemma NextQuotient4(y: int)
    ensures (y + 4) / 4 == (y + 3) / 4 + (if y % 4 == 0 then 1 else 0)
  {
    var q := (y + 3) / 4;
    assert y + 3 == 4 * q + (y + 3) % 4;
  }

  /** Moving past a multiple of 100 raises the quotient by one. */
  lemma NextQuotient100(y: int)
    ensures (y + 100) / 100 == (y + 99) / 100 + (if y % 100 == 0 then 1 else 0)
  {
    var q := (y + 99) / 100;
    assert y + 99 == 100 * q + (y + 99) % 100;
  }

  /** Moving past a multiple of 400 raises the quotient by one. */
  lemma NextQuotient400(y: int)
    ensures (y + 400) / 400 == (y + 399) / 400 + (if y % 400 == 0 then 1 else 0)
  {
    var q := (y + 399) / 400;
    assert y + 399 == 400 * q + (y + 399) % 400;
  }

  lemma {:induction false} DaysBeforeYearMonotone(a: int, b: int)
    requires a <= b
    ensures DaysBeforeYear(a) + 365 * (b - a) <= DaysBeforeYear(b)
    decreases b - a
  {
    if a < b {
      DaysBeforeYearMonotone(a, b - 1);
      YearLength(b - 1);
    }
  }

  lemma MonthLength(y: int, m: int)
    requires 0 <= m < 12
    ensures DaysBeforeMonth(y, m + 1) == DaysBeforeMonth(y, m) + DaysInMonth(y, m)
  {
  }

  lemma MonthStartStep(k: int)
    ensures MonthStart(k + 1) == MonthStart(k) + DaysInMonth(k / 12, k % 12)
  {
    var y, m := k / 12, k % 12;
    if m < 11 {
      assert (k + 1) / 12 == y && (k + 1) % 12 == m + 1;
    } else {
      assert (k + 1) / 12 == y + 1 && (k + 1) % 12 == 0;
      YearLength(y);
    }
  }

  /** The month after (y, m) starts when (y, m) has run its days. */
  lemma MonthEnd(y: int, m: int)
    requires 0 <= m < 12
    ensures MonthStart(12 * y + m + 1) == MonthStart(12 * y + m) + DaysInMonth(y, m)
  {
    var k := 12 * y + m;
    MonthStartStep(k);
    assert k / 12 == y && k % 12 == m;
  }

  /** Month starts grow by at least 28 days per month. */
  lemma {:induction false} MonthStartMonotone(a: int, b: int)
    requires a <= b
    ensures MonthStart(a) + 28 * (b - a) <= MonthStart(b)
    decreases b - a
  {
    if a < b {
      MonthStartMonotone(a, b - 1);
      MonthStartStep(b - 1);
    }
  }

  lemma MonthStartOf(k: int, y: int, m: int)
    requires 0 <= m < 12 && k == 12 * y + m
    ensures MonthStart(k) == DaysBeforeYear(y) + DaysBeforeMonth(y, m)
  {
    assert k / 12 == y && k % 12 == m;
  }

  /** The day number of a valid date, through its month's start. */
  lemma DayNumberByMonth(d: ValidDate)
    ensures DayNumber(d) == MonthStart(12 * d.year + d.month) + d.day - 1
  {
    MonthStartOf(12 * d.year + d.month, d.year, d.month);
  }

  /** Days elapsed since 1 January of the date's own year (0 on 1 January). */
  function DayOfYear(d: ValidDate): (r: nat)
    ensures DayNumber(d) == DaysBeforeYear(d.year) + r
    ensures r == DayNumber(d) - DayNumber(StartOfYear(d.year))
  {
    DaysBeforeMonth(d.year, d.month) + d.day - 1
  }

  lemma DayOfYearBound(d: ValidDate)
    ensures DayOfYear(d) <= DaysInYear(d.year) - 1
  {
    MonthLength(d.year, d.month);
    if d.month < 11 {
      MonthStartsIncrease(d.year, d.month + 1, 12);
    }
  }

  /** Later months of a year start later. */
  lemma {:induction false} MonthStartsIncrease(y: int, i: int, j: int)
    requires 0 <= i < j <= 12
    ensures DaysBeforeMonth(y, i) < DaysBeforeMonth(y, j)
    decreases j
  {
    MonthLength(y, j - 1);
    if i < j - 1 {
      MonthStartsIncrease(y, i, j - 1);
    }
  }

  /** Adding a month to the first of a month gives the first of the next
      month, or of the next January after December. */
  lemma NextMonthStart(d: ValidDate)
    requires d.day == 1
    ensures AddMonths(d, 1) == if d.month < 11 then Date(d.year, d.month + 1, 1) else Date(d.year + 1, 0, 1)
  {
    if d.month < 11 {
      MonthAfter(d, Date(d.year, d.month + 1, 1));
    } else {
      MonthAfter(d, Date(d.year + 1, 0, 1));
    }
  }

  /** One month after the first of a month is the first of the month that
      follows it. */
  lemma MonthAfter(d: ValidDate, e: ValidDate)
    requires d.day == 1 && e.day == 1
    requires 12 * e.year + e.month == 12 * d.year + (d.month + 1)
    ensures AddMonths(d, 1) == e
  {
    MonthStartOf(12 * d.year + (d.month + 1), e.year, e.month);
    DayNumberInjective(AddMonths(d, 1), e);
  }

  /** A valid date lies inside its own year's span of day numbers. */
  lemma DayNumberWithinYear(d: ValidDate)
    ensures DaysBeforeYear(d.year) <= DayNumber(d) < DaysBeforeYear(d.year + 1)
  {
    YearLength(d.year);
    MonthLength(d.year, d.month);
  }

  function ScanYearUp(n: int, y: int): (r: int)
    requires DaysBeforeYear(y) <= n
    ensures DaysBeforeYear(r) <= n < DaysBeforeYear(r) + DaysInYear(r)
    decreases n - DaysBeforeYear(y)
  {
    YearLength(y);
    if n < DaysBeforeYear(y + 1) then y else ScanYearUp(n, y + 1)
  }

  function ScanYearDown(n: int, y: int): (r: int)
    ensures DaysBeforeYear(r) <= n < DaysBeforeYear(r) + DaysInYear(r)
    decreases if n < DaysBeforeYear(y) then DaysBeforeYear(y) - n else 0
  {
    YearLength(y - 1);
    if n < DaysBeforeYear(y) then ScanYearDown(n, y - 1) else ScanYearUp(n, y)
  }

  function ScanMonth(y: int, o: int, m: int): (r: int)
    requires 0 <= m < 12 && DaysBeforeMonth(y, m) <= o < DaysInYear(y)
    ensures 0 <= r < 12 && DaysBeforeMonth(y, r) <= o < DaysBeforeMonth(y, r) + DaysInMonth(y, r)
    decreases 12 - m
  {
    MonthLength(y, m);
    if o < DaysBeforeMonth(y, m + 1) then m else ScanMonth(y, o, m + 1)
  }

  /** The calendar date with day number n. */
  function FromDayNumber(n: int): (d: ValidDate)
    ensures DayNumber(d) == n
  {
    DayNumberOnto(n);
    DayNumberOneToOne();
    var d: ValidDate :| DayNumber(d) == n; d
  }

  lemma DayNumberOnto(n: int)
    ensures exists d: ValidDate :: DayNumber(d) == n
  {
    var y := ScanYearDown(n, 0);
    var m := ScanMonth(y, n - DaysBeforeYear(y), 0);
    var d: ValidDate := Date(y, m, n - DaysBeforeYear(y) - DaysBeforeMonth(y, m) + 1);
    assert DayNumber(d) == n;
  }

  lemma DayNumberOneToOne()
    ensures forall a: ValidDate, b: ValidDate :: DayNumber(a) == DayNumber(b) ==> a == b
  {
    forall a: ValidDate, b: ValidDate | DayNumber(a) == DayNumber(b) ensures a == b {
      DayNumberInjective(a, b);
    }
  }

  /** Different valid dates have different day numbers, and the order of day
      numbers is the order of (year, month, day). */
  lemma {:induction false} DayNumberOrder(a: ValidDate, b: ValidDate)
    ensures DayNumber(a) < DayNumber(b) <==>
      a.year < b.year || (a.year == b.year && (a.month < b.month || (a.month == b.month && a.day < b.day)))
    ensures DayNumber(a) == DayNumber(b) <==> a == b
  {
    DayNumberWithinYear(a);
    DayNumberWithinYear(b);
    if a.year < b.year {
      DaysBeforeYearMonotone(a.year + 1, b.year);
    } else if b.year < a.year {
      DaysBeforeYearMonotone(b.year + 1, a.year);
    } else {
      MonthLength(a.year, a.month);
      MonthLength(b.year, b.month);
    }
  }

  lemma DayNumberInjective(a: ValidDate, b: ValidDate)
    requires DayNumber(a) == DayNumber(b)
    ensures a == b
  {
    DayNumberOrder(a, b);
  }

  lemma FromDayNumberOf(d: ValidDate)
    ensures FromDayNumber(DayNumber(d)) == d
  {
    DayNumberInjective(FromDayNumber(DayNumber(d)), d);
  }

  /** `new Date(y, m, day)`: month and day out of range roll over into the
      neighbouring months and years instead of being clamped. */
  function MakeDate(y: int, m: int, day: int): (r: ValidDate)
    ensures DayNumber(r) == MonthStart(12 * y + m) + day - 1
  {
    FromDayNumber(MonthStart(12 * y + m) + day - 1)
  }

  /** `new Date(y, m, day)` depends on y and m only through the month
      index 12 * y + m. */
  lemma MakeDateInMonth(y: int, m: int, day: int, k: int)
    requires k == 12 * y + m
    ensures MakeDate(y, m, day) == FromDayNumber(MonthStart(k) + day - 1)
  {
  }

  /** Two (year, month) pairs naming the same month give the same date. */
  lemma MakeDateSameMonth(y1: int, m1: int, y2: int, m2: int, day: int)
    requires 12 * y1 + m1 == 12 * y2 + m2
    ensures MakeDate(y1, m1, day) == MakeDate(y2, m2, day)
  {
    var k := 12 * y1 + m1;
    MakeDateInMonth(y1, m1, day, k);
    MakeDateInMonth(y2, m2, day, k);
  }

  /** A triple that is already a valid date is returned as it is. */
  lemma MakeDateValid(d: ValidDate)
    ensures MakeDate(d.year, d.month, d.day) == d
  {
    var r := MakeDate(d.year, d.month, d.day);
    DayNumberByMonth(d);
    assert DayNumber(r) == DayNumber(d);
    DayNumberInjective(r, d);
  }

  /** `new Date(y, m, day)` is the valid date with that day number. */
  lemma MakeDateIs(y: int, m: int, day: int, t: ValidDate)
    requires DayNumber(t) == MonthStart(12 * y + m) + day - 1
    ensures MakeDate(y, m, day) == t
  {
    DayNumberInjective(MakeDate(y, m, day), t);
  }

  /** The last day of month (y, m) is the day before the next month starts. */
  lemma LastDayNumber(y: int, m: int, last: ValidDate)
    requires 0 <= m < 12 && last == Date(y, m, DaysInMonth(y, m))
    ensures DayNumber(last) == MonthStart(12 * y + (m + 1)) - 1
  {
    DayNumberByMonth(last);
    MonthEnd(y, m);
  }

  /** A day past the end of the month continues into the next month. */
  lemma MakeDateRollover(y: int, m: int, day: int)
    requires 0 <= m < 12
    requires DaysInMonth(y, m) < day <= DaysInMonth(y, m) + 28
    ensures MakeDate(y, m, day) ==
      if m < 11 then Date(y, m + 1, day - DaysInMonth(y, m)) else Date(y + 1, 0, day - DaysInMonth(y, m))
  {
    MonthEnd(y, m);
    if m < 11 {
      var next: ValidDate := Date(y, m + 1, day - DaysInMonth(y, m));
      DayNumberByMonth(next);
      MakeDateIs(y, m, day, next);
    } else {
      var next: ValidDate := Date(y + 1, 0, day - DaysInMonth(y, m));
      DayNumberByMonth(next);
      MakeDateIs(y, m, day, next);
    }
  }

  function StartOfYear(y: int): (r: ValidDate)
    ensures r.year == y && DayNumber(r) == DaysBeforeYear(y)
  {
    Date(y, 0, 1)
  }

  function EndOfYear(y: int): (r: ValidDate)
    ensures r.year == y && DayNumber(r) == DaysBeforeYear(y + 1) - 1
  {
    YearLength(y);
    Date(y, 11, 31)
  }

  function StartOfMonth(d: ValidDate): (r: ValidDate)
    ensures r.year == d.year && r.month == d.month && r.day == 1
    ensures DayNumber(r) <= DayNumber(d) < DayNumber(r) + DaysInMonth(d.year, d.month)
  {
    Date(d.year, d.month, 1)
  }

  /** A date lies between 1 January and 31 December of a year exactly when
      it is in that year. */
  lemma InYear(d: ValidDate, y: int)
    ensures DayNumber(StartOfYear(y)) <= DayNumber(d) <= DayNumber(EndOfYear(y)) <==> d.year == y
    ensures DayNumber(d) < DayNumber(StartOfYear(y)) <==> d.year < y
    ensures DayNumber(d) > DayNumber(EndOfYear(y)) <==> d.year > y
  {
    DayNumberWithinYear(d);
    if d.year < y {
      BeforeYear(d, y);
    } else if d.year > y {
      AfterYear(d, y);
    }
  }

  lemma BeforeYear(d: ValidDate, y: int)
    requires d.year < y
    ensures DayNumber(d) < DaysBeforeYear(y)
  {
    DayNumberWithinYear(d);
    DaysBeforeYearMonotone(d.year + 1, y);
  }

  lemma AfterYear(d: ValidDate, y: int)
    requires d.year > y
    ensures DayNumber(d) >= DaysBeforeYear(y + 1)
  {
    DayNumberWithinYear(d);
    DaysBeforeYearMonotone(y + 1, d.year);
  }

  /** `addDays(date, n)`: the date n days later (earlier for negative n). */
  function AddDays(d: ValidDate, n: int): (r: ValidDate)
    ensures DayNumber(r) == DayNumber(d) + n
  {
    FromDayNumber(DayNumber(d) + n)
  }

  /** `addMonths(date, n)`: the same (year, month + n, day) triple, rebuilt
      by MakeDate, so a day the target month lacks rolls over. */
  function AddMonths(d: ValidDate, n: int): (r: ValidDate)
    ensures n >= 1 ==> DayNumber(r) > DayNumber(d)
  {
    assert n >= 1 ==> MonthStart(12 * d.year + (d.month + n)) + d.day - 1 > DayNumber(d) by {
      if n >= 1 {
        MonthStartMonotone(12 * d.year + d.month, 12 * d.year + (d.month + n));
        DayNumberByMonth(d);
      }
    }
    MakeDate(d.year, d.month + n, d.day)
  }

  /** When the day exists in the target month, addMonths keeps it. */
  lemma AddMonthsKeepsDay(d: ValidDate, n: int)
    requires d.day <= DaysInMonth((12 * d.year + d.month + n) / 12, (12 * d.year + d.month + n) % 12)
    ensures AddMonths(d, n) == Date((12 * d.year + d.month + n) / 12, (12 * d.year + d.month + n) % 12, d.day)
  {
    var k := 12 * d.year + d.month + n;
    var t: ValidDate := Date(k / 12, k % 12, d.day);
    assert 12 * t.year + t.month == k;
    DayNumberByMonth(t);
    var r := AddMonths(d, n);
    assert DayNumber(r) == MonthStart(k) + d.day - 1;
    DayNumberInjective(r, t);
  }

  /** The step of a yearly recurrence: `new Date(y + 1, m, d)`. */
  /** It is adding twelve months: both rebuild (y, m, d) with the same
      normalised month, so a year step always moves forward. */
  function NextYear(d: ValidDate): (r: ValidDate)
    ensures r == AddMonths(d, 12)
    ensures DayNumber(r) > DayNumber(d)
  {
    MakeDateSameMonth(d.year + 1, d.month, d.year, d.month + 12, d.day);
    MakeDate(d.year + 1, d.month, d.day)
  }

  /** Yearly stepping from 29 February lands on 1 March. */
  lemma NextYearFromLeapDay(y: int)
    requires IsLeapYear(y)
    ensures !IsLeapYear(y + 1)
    ensures NextYear(Date(y, 1, 29)) == Date(y + 1, 2, 1)
  {
    MakeDateRollover(y + 1, 1, 29);
  }

  /** Monthly stepping from 31 January of a common year skips February. */
  lemma AddMonthsFromJanuary31(y: int)
    requires !IsLeapYear(y)
    ensures AddMonths(Date(y, 0, 31), 1) == Date(y, 2, 3)
  {
    MakeDateRollover(y, 1, 31);
  }

  /** Day of the week, 0 for Sunday, as `getDay()` reports it: counted on
      from the Thursday 1 January 1970, day 719528. */
  function Weekday(d: ValidDate): (r: int)
    ensures 0 <= r < 7
    ensures r == (4 + (DayNumber(d) - 719528)) % 7
  {
    assert DayNumber(d) + 6 == 4 + (DayNumber(d) - 719528) + 7 * 102790;
    (DayNumber(d) + 6) % 7
  }

  /** 1 January 1970 was a Thursday. */
  lemma WeekdayOfUnixEpoch(epoch: ValidDate)
    requires epoch.year == 1970 && epoch.month == 0 && epoch.day == 1
    ensures Weekday(epoch) == 4
  {
    assert DaysBeforeYear(epoch.year) == 719528 by {
      DaysBeforeYearClosedForm(epoch.year);
    }
    assert DayNumber(epoch) + 6 == 7 * 102790 + 4;
  }

}
