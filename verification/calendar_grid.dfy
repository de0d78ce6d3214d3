/** The month grid of the calendar card (`getMatrix`): weeks as rows of
    seven cells, Sunday first, holding the day of the month or 0 for a cell
    outside the month. */
module CalendarGrid {
  import opened CalendarDates

  /** The cell at position `p` (counted from the top-left cell) of a grid
      whose first day falls in column `first` and that holds `days` days. */
  function GridCell(first: int, days: int, p: int): (v: int)
    ensures v != 0 <==> first <= p < first + days
    ensures v != 0 ==> p == first + v - 1
  {
    if first <= p < first + days then p - first + 1 else 0
  }

  /** `new Date(y, m, 1).getDay()`: the column of the 1st. */
  function FirstColumn(date: ValidDate): (r: int)
    ensures 0 <= r < 7
  {
    Weekday(StartOfMonth(date))
  }

  /** Rows of seven that `n` cells fill, the last one possibly in part. */
  function Weeks(n: nat): (r: nat)
    ensures 7 * r - 7 < n <= 7 * r
  {
    (n + 6) / 7
  }

  /** A grid whose first day falls in column `first` and that holds `days`
      days: as many rows as the shifted days need. */
  function Grid(first: nat, days: nat): (g: seq<seq<int>>)
    ensures |g| == Weeks(first + days)
    ensures forall r :: 0 <= r < |g| ==> |g[r]| == 7
  {
    seq(Weeks(first + days), r => seq(7, k => GridCell(first, days, 7 * r + k)))
  }

  /** The grid of the month of `date`. */
  function MonthGrid(date: ValidDate): seq<seq<int>> {
    Grid(FirstColumn(date), DaysInMonth(date.year, date.month))
  }

  /** `new Date(y, m + 1, 0).getDate()`: day 0 of the next month is the last
      day of this one. */
  lemma LastDayOfMonth(y: int, m: int)
    requires 0 <= m < 12
    ensures MakeDate(y, m + 1, 0) == Date(y, m, DaysInMonth(y, m))
  {
    var last: ValidDate := Date(y, m, DaysInMonth(y, m));
    LastDayNumber(y, m, last);
    MakeDateIs(y, m + 1, 0, last);
  }

  /** `getMatrix(date)`: leading zeros up to the column of the 1st, then the
      days, a row pushed whenever it reaches seven cells, and a last row
      padded with zeros. */
  method GetMatrix(date: ValidDate) returns (mat: seq<seq<int>>)
    ensures mat == Grid(FirstColumn(date), DaysInMonth(date.year, date.month))
  {
    var y := date.year;
    var m := date.month;
    MakeDateValid(Date(y, m, 1));
    var first := Weekday(MakeDate(y, m, 1));
    LastDayOfMonth(y, m);
    var days := MakeDate(y, m + 1, 0).day;
    assert first == FirstColumn(date) && days == DaysInMonth(y, m);
    mat := Layout(first, days);
  }

  /** The three loops of `getMatrix` on the column of the 1st and the
      number of days. */
  method Layout(first: nat, days: nat) returns (mat: seq<seq<int>>)
    requires first < 7
    ensures mat == Grid(first, days)
  {
    mat := [];
    var row: seq<int> := [];
    var i := 0;
    while i < first
      invariant 0 <= i <= first
      invariant row == seq(i, k => 0)
    {
      row := row + [0];
      i := i + 1;
    }
    var d := 1;
    while d <= days
      invariant 1 <= d <= days + 1
      invariant 7 * |mat| + |row| == first + d - 1 && |row| < 7
      invariant forall r :: 0 <= r < |mat| ==> |mat[r]| == 7
      invariant forall r, k :: 0 <= r < |mat| && 0 <= k < 7 ==> mat[r][k] == GridCell(first, days, 7 * r + k)
      invariant forall k :: 0 <= k < |row| ==> row[k] == GridCell(first, days, 7 * |mat| + k)
    {
      row := row + [d];
      if |row| == 7 {
        mat := mat + [row];
        row := [];
      }
      d := d + 1;
    }
    if |row| > 0 {
      while |row| < 7
        invariant 7 * |mat| + |row| >= first + days && |row| <= 7
        invariant forall k :: 0 <= k < |row| ==> row[k] == GridCell(first, days, 7 * |mat| + k)
      {
        row := row + [0];
      }
      mat := mat + [row];
    }
    GridOfCells(first, days, mat);
  }

  /** Rows of seven cells, as many as the grid has, each cell the grid's,
      are the grid. */
  lemma GridOfCells(first: nat, days: nat, mat: seq<seq<int>>)
    requires 7 * |mat| - 7 < first + days <= 7 * |mat|
    requires forall r :: 0 <= r < |mat| ==> |mat[r]| == 7
    requires forall r, k :: 0 <= r < |mat| && 0 <= k < 7 ==> mat[r][k] == GridCell(first, days, 7 * r + k)
    ensures mat == Grid(first, days)
  {
    assert |mat| == Weeks(first + days);
    assert forall r :: 0 <= r < |mat| ==> mat[r] == Grid(first, days)[r];
  }

  /** Cell `k` of row `r` is the cell at position `7 * r + k`. */
  lemma GridAt(first: nat, days: nat, r: int, k: int)
    requires 0 <= r < |Grid(first, days)| && 0 <= k < 7
    ensures Grid(first, days)[r][k] == GridCell(first, days, 7 * r + k)
  {
  }

  /** Every day sits in the grid at its shifted position. */
  lemma DayPosition(first: nat, days: nat, d: int)
    requires first < 7 && 1 <= d <= days
    ensures (first + d - 1) / 7 < |Grid(first, days)|
    ensures Grid(first, days)[(first + d - 1) / 7][ColumnAfter(first, d - 1)] == d
  {
    var p := first + d - 1;
    assert 7 * (p / 7) + p % 7 == p;
    GridAt(first, days, p / 7, p % 7);
    assert ColumnAfter(first, d - 1) == p % 7;
  }

  /** The column `n` days on from column `w`, wrapping round the week. */
  function ColumnAfter(w: int, n: int): (r: int)
    ensures 0 <= r < 7
  {
    (w + n) % 7
  }

  /** Seven-day weeks: moving `n` days on moves the weekday `n` columns on. */
  lemma WeekdayShift(a: int, b: int, n: int)
    requires b == a + n
    ensures (b + 6) % 7 == ColumnAfter((a + 6) % 7, n)
  {
    var q := (a + 6) / 7;
    assert a + 6 == 7 * q + (a + 6) % 7;
    assert b + 6 == 7 * q + ((a + 6) % 7 + n);
  }

  /** `n` days after a date the weekday is `n` columns on. */
  lemma WeekdayAfter(a: ValidDate, b: ValidDate, n: int)
    requires DayNumber(b) == DayNumber(a) + n
    ensures Weekday(b) == ColumnAfter(Weekday(a), n)
  {
    WeekdayShift(DayNumber(a), DayNumber(b), n);
  }

  /** A day comes `day - 1` days after the 1st of its month. */
  lemma DaysIntoMonth(day: ValidDate)
    ensures DayNumber(day) == DayNumber(StartOfMonth(day)) + (day.day - 1)
  {
    DayNumberByMonth(StartOfMonth(day));
    DayNumberByMonth(day);
  }

  /** The weekday of a day is `day - 1` columns on from the column of the
      1st of its month. */
  lemma WeekdayOfDay(day: ValidDate)
    ensures Weekday(day) == ColumnAfter(FirstColumn(day), day.day - 1)
  {
    DaysIntoMonth(day);
    WeekdayAfter(StartOfMonth(day), day, day.day - 1);
  }

  /** A day appears only once: two cells holding the same day are the same
      cell, and the cells that hold a day are exactly the days 1 to `days`. */
  lemma DaysAppearOnce(first: nat, days: nat, r1: int, k1: int, r2: int, k2: int)
    requires 0 <= r1 < |Grid(first, days)| && 0 <= k1 < 7
    requires 0 <= r2 < |Grid(first, days)| && 0 <= k2 < 7
    requires Grid(first, days)[r1][k1] != 0 && Grid(first, days)[r1][k1] == Grid(first, days)[r2][k2]
    ensures r1 == r2 && k1 == k2
  {
    GridAt(first, days, r1, k1);
    GridAt(first, days, r2, k2);
    assert 7 * r1 + k1 == 7 * r2 + k2;
  }

  /** A month of 28 to 31 days spans four to six weeks. */
  lemma FourToSixRows(date: ValidDate)
    ensures 4 <= |MonthGrid(date)| <= 6
  {
    MonthLength(date.year, date.month);
  }
}
