/** The card-statement rule applied to every transaction row (`calc`): the
    next statement date after the transaction, the split of its amount into
    card charges and immediate debits, and its difference to the balance. */
module Statements {
  import opened Wrappers
  import opened CalendarDates

  /** A transaction row, with its fields under the names the export gives
      them. Numbers are what `parseInt`/`parseFloat` give, `None` for `NaN`;
      `date` is `None` when empty. The last four fields are computed. */
  datatype Transaction = Transaction(
    date: Option<ValidDate>,       // fecha
    amount: Option<real>,          // monto
    payment: string,               // metodo
    cycleDay: Option<int>,         // diacorta
    cycleInput: Option<int>,       // corte
    currentBalance: Option<real>,  // balanceAl
    nextStatement: Option<ValidDate>,  // proxCorte
    chargesOnStatement: real,      // creditosAlCorte
    immediateDebits: real,         // debitosAlCorte
    diff: real)                    // dif

  /** `parseInt(r.corte) || parseInt(r.diacorta) || 1`: the first of the two
      that is a non-zero number, else 1. */
  function CutoffDay(t: Transaction): (day: int)
    ensures day != 0
    ensures t.cycleInput.Some? && t.cycleInput.value != 0 ==> day == t.cycleInput.value
    ensures (t.cycleInput.None? || t.cycleInput.value == 0) && t.cycleDay.Some? && t.cycleDay.value != 0 ==>
      day == t.cycleDay.value
    ensures (t.cycleInput.None? || t.cycleInput.value == 0) && (t.cycleDay.None? || t.cycleDay.value == 0) ==>
      day == 1
  {
    if t.cycleInput.Some? && t.cycleInput.value != 0 then t.cycleInput.value
    else if t.cycleDay.Some? && t.cycleDay.value != 0 then t.cycleDay.value
    else 1
  }

  /** `new Date(y, m, cutoffDay)` in the transaction's month, moved on a
      month (`setMonth(getMonth() + 1)`) when it is not after the
      transaction. With a cut-off day every month has (1 to 28), that is
      the first date after the transaction falling on that day. */
  function NextStatement(tran: ValidDate, cutoffDay: int): (r: ValidDate)
    ensures 1 <= cutoffDay <= 28 ==> r.day == cutoffDay && DayNumber(r) > DayNumber(tran)
    ensures 1 <= cutoffDay <= 28 ==>
      r == if cutoffDay > tran.day then Date(tran.year, tran.month, cutoffDay) else NextMonthFirst(tran).(day := cutoffDay)
  {
    var first := MakeDate(tran.year, tran.month, cutoffDay);
    var later := NextMonthFirst(tran).(day := cutoffDay);
    assert 1 <= cutoffDay <= 28 && cutoffDay > tran.day ==>
      first == Date(tran.year, tran.month, cutoffDay) && DayNumber(first) > DayNumber(tran) by {
      if 1 <= cutoffDay <= 28 && cutoffDay > tran.day {
        CutoffLaterThisMonth(tran, cutoffDay);
      }
    }
    assert 1 <= cutoffDay <= tran.day && cutoffDay <= 28 ==>
      DayNumber(first) <= DayNumber(tran) && AddMonths(first, 1) == later && DayNumber(later) > DayNumber(tran) by {
      if 1 <= cutoffDay <= tran.day && cutoffDay <= 28 {
        CutoffNextMonth(tran, cutoffDay);
      }
    }
    if DayNumber(first) <= DayNumber(tran) then AddMonths(first, 1) else first
  }

  /** `["Credit Card", "Tarjeta de crédito"].includes(r.metodo)`. */
  predicate IsCreditCard(payment: string) {
    payment == "Credit Card" || payment == "Tarjeta de cr\U{E9}dito"
  }

  /** `calc(r)`, with `today` standing for `new Date()` when the row has no
      date. */
  function Calc(t: Transaction, today: ValidDate): (r: Transaction)
    ensures r.(nextStatement := t.nextStatement, chargesOnStatement := t.chargesOnStatement,
               immediateDebits := t.immediateDebits, diff := t.diff) == t
    ensures r.nextStatement == Some(NextStatement(t.date.GetOr(today), CutoffDay(t)))
    ensures 1 <= CutoffDay(t) <= 28 ==>
      r.nextStatement.value.day == CutoffDay(t) && DayNumber(r.nextStatement.value) > DayNumber(t.date.GetOr(today))
    ensures r.chargesOnStatement + r.immediateDebits == t.amount.GetOr(0.0)
    ensures IsCreditCard(t.payment) ==> r.immediateDebits == 0.0
    ensures !IsCreditCard(t.payment) ==> r.chargesOnStatement == 0.0
    ensures r.diff == t.amount.GetOr(0.0) - t.currentBalance.GetOr(0.0)
  {
    var amount := t.amount.GetOr(0.0);
    var card := IsCreditCard(t.payment);
    t.(nextStatement := Some(NextStatement(t.date.GetOr(today), CutoffDay(t))),
       chargesOnStatement := if card then amount else 0.0,
       immediateDebits := if card then 0.0 else amount,
       diff := amount - t.currentBalance.GetOr(0.0))
  }

  /** The first of the month after the transaction's month. */
  function NextMonthFirst(tran: ValidDate): (r: ValidDate)
    ensures r.day == 1
  {
    if tran.month < 11 then Date(tran.year, tran.month + 1, 1) else Date(tran.year + 1, 0, 1)
  }

  /** A cut-off day still to come this month is this month's statement. */
  lemma CutoffLaterThisMonth(tran: ValidDate, cutoffDay: int)
    requires tran.day < cutoffDay <= 28
    ensures MakeDate(tran.year, tran.month, cutoffDay) == Date(tran.year, tran.month, cutoffDay)
    ensures DayNumber(MakeDate(tran.year, tran.month, cutoffDay)) > DayNumber(tran)
  {
    var first: ValidDate := Date(tran.year, tran.month, cutoffDay);
    MakeDateValid(first);
  }

  /** Any day of the month after the transaction's month comes after the
      transaction. */
  lemma NextMonthIsLater(tran: ValidDate, day: int)
    requires 1 <= day <= 28
    ensures DayNumber(NextMonthFirst(tran).(day := day)) > DayNumber(tran)
  {
    var next: ValidDate := NextMonthFirst(tran).(day := day);
    DayNumberByMonth(next);
    DayNumberByMonth(tran);
    assert 12 * next.year + next.month == 12 * tran.year + tran.month + 1;
    MonthEnd(tran.year, tran.month);
  }

  /** A cut-off day already reached this month moves to next month, where
      it exists, and so comes after the transaction. */
  lemma CutoffNextMonth(tran: ValidDate, cutoffDay: int)
    requires 1 <= cutoffDay <= tran.day && cutoffDay <= 28
    ensures DayNumber(MakeDate(tran.year, tran.month, cutoffDay)) <= DayNumber(tran)
    ensures AddMonths(MakeDate(tran.year, tran.month, cutoffDay), 1) == NextMonthFirst(tran).(day := cutoffDay)
    ensures DayNumber(NextMonthFirst(tran).(day := cutoffDay)) > DayNumber(tran)
  {
    var first: ValidDate := Date(tran.year, tran.month, cutoffDay);
    var k := 12 * tran.year + tran.month + 1;
    assert k / 12 == NextMonthFirst(tran).year && k % 12 == NextMonthFirst(tran).month;
    assert MakeDate(tran.year, tran.month, cutoffDay) == first && DayNumber(first) <= DayNumber(tran) by {
      MakeDateValid(first);
      DayNumberByMonth(first);
      DayNumberByMonth(tran);
    }
    AddMonthsKeepsDay(first, 1);
    NextMonthIsLater(tran, cutoffDay);
  }

  /** A new, empty transaction row is due at the statement on the first of
      the month after today. */
  lemma BlankRowDueNextMonth(t: Transaction, today: ValidDate)
    requires t.date.None? && t.cycleInput.None? && t.cycleDay.None?
    ensures Calc(t, today).nextStatement == Some(NextMonthFirst(today))
  {
  }
}
