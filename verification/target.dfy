/** The savings-target line of the chart: a constant level drawn over the
    columns up to the column of the target date. The cut-off compares
    column labels as strings; `TargetSeriesByDate` is the same line cut off
    by date. */
module TargetLine {
  import opened Wrappers
  import opened CalendarDates
  import opened Labels
  import opened Columns

  /** The `target` state: `{ amount, date }`. `amount` is `Number(amount)`,
      `None` for `NaN`; `date` is `None` when missing, empty or not a date
      (an Invalid Date matches no column). */
  datatype Target = Target(amount: Option<real>, date: Option<ValidDate>)

  /** `target && Number(target.amount) > 0 ? Number(target.amount) : null`. */
  function Level(target: Option<Target>): (r: Option<real>)
    ensures r.Some? <==> target.Some? && target.value.amount.Some? && target.value.amount.value > 0.0
    ensures r.Some? ==> r.value == target.value.amount.value
  {
    if target.Some? && target.value.amount.Some? && target.value.amount.value > 0.0 then Some(target.value.amount.value)
    else None
  }

  /** `columns.find(c => c.full.toDateString() === d.toDateString())`, as an
      index. */
  function FindColumn(columns: seq<Column>, d: ValidDate): (r: Option<nat>)
    ensures r.Some? ==> r.value < |columns| && columns[r.value].full == d
    ensures r.Some? ==> forall j :: 0 <= j < r.value ==> columns[j].full != d
    ensures r.None? ==> forall j :: 0 <= j < |columns| ==> columns[j].full != d
  {
    if columns == [] then None
    else if columns[0].full == d then Some(0)
    else
      match FindColumn(columns[1..], d)
      case None => None
      case Some(i) => Some(i + 1)
  }

  /** The column of the target date's bucket, when there is a target date
      and a column starts on its bucket. */
  function TargetColumn(target: Option<Target>, columns: seq<Column>, c: Cadence): (r: Option<nat>)
    ensures r.Some? ==> r.value < |columns|
  {
    if target.Some? && target.value.date.Some? then FindColumn(columns, BucketStartFor(target.value.date.value, c))
    else None
  }

  /** `lastLabel`: the label of that column, or `null`. */
  function LastLabel(target: Option<Target>, columns: seq<Column>, c: Cadence): Option<string> {
    match TargetColumn(target, columns, c)
    case None => None
    case Some(i) => Some(columns[i].caption)
  }

  /** The `Target` field of the chart points: the level wherever
      `lastLabel == null || c.label <= lastLabel` holds, as strings. Every
      point is the level or null; with no target column the line covers
      every column, and it always covers the target column itself. */
  function TargetSeries(target: Option<Target>, columns: seq<Column>, c: Cadence): (r: seq<Option<real>>)
    ensures |r| == |columns|
    ensures forall i :: 0 <= i < |r| ==> r[i] == Level(target) || r[i].None?
    ensures TargetColumn(target, columns, c).None? ==> forall i :: 0 <= i < |r| ==> r[i] == Level(target)
    ensures TargetColumn(target, columns, c).Some? ==> r[TargetColumn(target, columns, c).value] == Level(target)
  {
    var level := Level(target);
    var last := LastLabel(target, columns, c);
    assert last.Some? ==> !LexLess(last.value, last.value) by {
      if last.Some? {
        LexLessTotal(last.value, last.value);
      }
    }
    seq(|columns|, i requires 0 <= i < |columns| =>
      if level.Some? && (last.None? || LexLessEq(columns[i].caption, last.value)) then level else None)
  }

  /** The same points cut off by date: the level on every column that does
      not start after the target date's column. */
  function TargetSeriesByDate(target: Option<Target>, columns: seq<Column>, c: Cadence): (r: seq<Option<real>>)
    ensures |r| == |columns|
    ensures forall i :: 0 <= i < |r| ==> r[i] == Level(target) || r[i].None?
    ensures TargetColumn(target, columns, c).None? ==> forall i :: 0 <= i < |r| ==> r[i] == Level(target)
    ensures TargetColumn(target, columns, c).Some? ==> r[TargetColumn(target, columns, c).value] == Level(target)
  {
    var level := Level(target);
    var last := TargetColumn(target, columns, c);
    seq(|columns|, i requires 0 <= i < |columns| =>
      if level.Some? && (last.None? || DayNumber(columns[i].full) <= DayNumber(columns[last.value].full)) then level else None)
  }

  /** On the generated columns, a target date of the year selects the
      column of its own bucket. */
  lemma TargetColumnIsBucket(year: int, c: Cadence, t: Target)
    requires t.date.Some? && t.date.value.year == year
    ensures TargetColumn(Some(t), YearColumns(year, c), c) == Some(BucketIndex(t.date.value, c))
  {
    var d := t.date.value;
    BucketColumnIsUnique(year, c, d);
    FindUniqueColumn(YearColumns(year, c), BucketStartFor(d, c), BucketIndex(d, c));
  }

  /** Among the generated columns, only the one at the date's bucket index
      starts on the date's bucket start. */
  lemma BucketColumnIsUnique(year: int, c: Cadence, d: ValidDate)
    requires d.year == year
    ensures BucketIndex(d, c) < |YearColumns(year, c)|
    ensures YearColumns(year, c)[BucketIndex(d, c)].full == BucketStartFor(d, c)
    ensures forall j :: 0 <= j < |YearColumns(year, c)| && YearColumns(year, c)[j].full == BucketStartFor(d, c) ==>
      j == BucketIndex(d, c)
  {
    var cols := YearColumns(year, c);
    EveryDayHasColumn(year, c, d);
    forall j | 0 <= j < |cols| && cols[j].full == BucketStartFor(d, c) ensures j == BucketIndex(d, c) {
      assert cols[j].full == ColumnStart(year, c, j);
    }
  }

  /** A start date only column b has is found at b. */
  lemma FindUniqueColumn(columns: seq<Column>, d: ValidDate, b: nat)
    requires b < |columns| && columns[b].full == d
    requires forall j :: 0 <= j < |columns| && columns[j].full == d ==> j == b
    ensures FindColumn(columns, d) == Some(b)
  {
  }

  /** Point `i` of the line cut off by date. */
  lemma ByDateAt(target: Option<Target>, columns: seq<Column>, c: Cadence, i: nat, b: nat)
    requires i < |columns| && TargetColumn(target, columns, c) == Some(b)
    ensures TargetSeriesByDate(target, columns, c)[i].Some? <==>
      Level(target).Some? && DayNumber(columns[i].full) <= DayNumber(columns[b].full)
  {
  }

  /** Cut off by date, the covered columns are closed downwards in time: a
      column starting no later than a covered one is covered. */
  lemma ByDateDownwardClosed(target: Option<Target>, columns: seq<Column>, c: Cadence, i: nat, j: nat)
    requires i < |columns| && j < |columns|
    requires TargetSeriesByDate(target, columns, c)[j].Some?
    requires DayNumber(columns[i].full) <= DayNumber(columns[j].full)
    ensures TargetSeriesByDate(target, columns, c)[i].Some?
  {
    match TargetColumn(target, columns, c)
    case None =>
    case Some(b) =>
      ByDateAt(target, columns, c, i, b);
      ByDateAt(target, columns, c, j, b);
  }

  /** The generated columns are in the order of their start dates. */
  lemma ColumnOrder(year: int, c: Cadence, i: nat, j: nat)
    requires i < ColumnCount(year, c) && j < ColumnCount(year, c)
    ensures DayNumber(YearColumns(year, c)[i].full) <= DayNumber(YearColumns(year, c)[j].full) <==> i <= j
  {
    if i < j {
      ColumnStartsIncrease(year, c, i, j);
    } else if j < i {
      ColumnStartsIncrease(year, c, j, i);
    }
  }

  /** Cut off by date, the line on the generated columns is drawn exactly
      on the columns up to the target date's own column. */
  lemma ByDateStopsAtTargetColumn(year: int, c: Cadence, t: Target, i: nat)
    requires t.date.Some? && t.date.value.year == year
    requires i < ColumnCount(year, c)
    ensures TargetSeriesByDate(Some(t), YearColumns(year, c), c)[i].Some? <==>
      Level(Some(t)).Some? && i <= BucketIndex(t.date.value, c)
  {
    var b := BucketIndex(t.date.value, c);
    TargetColumnIsBucket(year, c, t);
    ByDateAt(Some(t), YearColumns(year, c), c, i, b);
    ColumnOrder(year, c, i, b);
  }

  /** Strings starting "M", "J" and "D": the "M" one sorts after the "J"
      one and the "D" one before it. */
  lemma InitialsOrder(m: string, j: string, d: string)
    requires |m| > 0 && |j| > 0 && |d| > 0 && m[0] == 'M' && j[0] == 'J' && d[0] == 'D'
    ensures !LexLessEq(m, j) && LexLessEq(d, j)
  {
    LexLessAt(m, j, 0);
    LexLessAt(d, j, 0);
    LexLessTotal(d, j);
  }

  /** Against any June label, a March label sorts after and a December
      label before: the month names already differ in the first letter. */
  lemma JuneLabelOrder(march: ValidDate, june: ValidDate, december: ValidDate)
    requires march.month == 2 && june.month == 5 && december.month == 11
    ensures !LexLessEq(MonthLabel(march), MonthLabel(june))
    ensures LexLessEq(MonthLabel(december), MonthLabel(june))
  {
    MonthLabelInitial(march);
    MonthLabelInitial(june);
    MonthLabelInitial(december);
    MonthInitials();
    InitialsOrder(MonthLabel(march), MonthLabel(june), MonthLabel(december));
  }

  /** Cut off by label, a June target date on the monthly columns leaves
      March without the line and draws it in December: "Mar 2025" sorts
      after "Jun 2025" and "Dec 2025" before it. */
  lemma LabelCutoffIsNotChronological(year: int, c: Cadence, t: Target)
    requires c.Monthly? && t.date.Some? && t.date.value.year == year && t.date.value.month == 5
    requires Level(Some(t)).Some?
    ensures TargetSeries(Some(t), YearColumns(year, c), c)[2] == None
    ensures TargetSeries(Some(t), YearColumns(year, c), c)[11] == Level(Some(t))
    ensures TargetSeriesByDate(Some(t), YearColumns(year, c), c)[2] == Level(Some(t))
    ensures TargetSeriesByDate(Some(t), YearColumns(year, c), c)[11] == None
  {
    var cols := YearColumns(year, c);
    var d := t.date.value;
    BucketStartBounds(d, c);
    MonthTurn(year, 5);
    MonthTurn(year, 2);
    MonthTurn(year, 11);
    var r := TargetColumn(Some(t), cols, c);
    assert r == Some(5) by {
      assert r.Some?;
      MonthTurn(year, r.value);
    }
    JuneLabelOrder(Date(year, 2, 1), Date(year, 5, 1), Date(year, 11, 1));
    ByDateStopsAtTargetColumn(year, c, t, 2);
    ByDateStopsAtTargetColumn(year, c, t, 11);
    assert BucketIndex(d, c) == 5;
  }
}
