/** The occurrence iterator (`iterateOccurrences`): a start date is
    fast-forwarded by its recurrence step until it reaches 1 January of the
    current year, then every stepped date up to 31 December is produced. */
module Recurrences {
  import opened Wrappers
  import opened CalendarDates

  /** What a recurrence key selects from the step table. */
  datatype Recurrence =
    | OneTime                      // "none": no step
    | DaysApart(days: Positive)    // addDays(dt, days)
    | MonthsApart(months: Positive) // addMonths(dt, months)
    | Yearly                       // new Date(y + 1, m, d)
    | Unknown(key: string)         // no entry: calling the step throws

  /** The step table, keyed by recurrence name. */
  function RecurrenceOf(key: string): (r: Recurrence)
    ensures r.OneTime? <==> key == "none"
    ensures r.DaysApart? <==> key in {"daily", "every3", "weekly", "biweekly", "every15"}
    ensures r.MonthsApart? <==> key in {"monthly", "bimonthly", "quarterly"}
    ensures r.Yearly? <==> key == "yearly"
    ensures r.DaysApart? ==> r.days in {1, 3, 7, 14, 15}
    ensures r.MonthsApart? ==> r.months in {1, 2, 3}
    ensures r.Unknown? ==> r.key == key
  {
    if key == "none" then OneTime
    else if key == "daily" then DaysApart(1)
    else if key == "every3" then DaysApart(3)
    else if key == "weekly" then DaysApart(7)
    else if key == "biweekly" then DaysApart(14)
    else if key == "every15" then DaysApart(15)
    else if key == "monthly" then MonthsApart(1)
    else if key == "bimonthly" then MonthsApart(2)
    else if key == "quarterly" then MonthsApart(3)
    else if key == "yearly" then Yearly
    else Unknown(key)
  }

  /** The recurrence has a step function. */
  predicate Steps(r: Recurrence) {
    r.DaysApart? || r.MonthsApart? || r.Yearly?
  }

  /** The step function the table holds for a stepping recurrence. */
  function StepFn(r: Recurrence): ValidDate -> ValidDate
    requires Steps(r)
  {
    match r
    case DaysApart(n) => (d: ValidDate) => AddDays(d, n)
    case MonthsApart(n) => (d: ValidDate) => AddMonths(d, n)
    case Yearly => (d: ValidDate) => NextYear(d)
  }

  /** A step function that always moves strictly forward in the order
      given by `rank`. */
  ghost predicate Advances<T(!new)>(next: T -> T, rank: T -> int) {
    forall x :: rank(next(x)) > rank(x)
  }

  /** Every step of the table strictly advances the date, which is why the
      fast-forward loop and the yield loop end. */
  lemma StepFnAdvances(r: Recurrence)
    requires Steps(r)
    ensures Advances(StepFn(r), DayNumber)
  {
    forall d: ValidDate ensures DayNumber(StepFn(r)(d)) > DayNumber(d) {
      match r
      case DaysApart(n) =>
      case MonthsApart(n) =>
      case Yearly =>
    }
  }

  /** x after k steps. */
  function Iterate<T(!new)>(x: T, next: T -> T, k: nat): T {
    if k == 0 then x else next(Iterate(x, next, k - 1))
  }

  lemma {:induction false} IterateShift<T(!new)>(x: T, next: T -> T, k: nat)
    ensures Iterate(next(x), next, k) == Iterate(x, next, k + 1)
  {
    if k > 0 {
      IterateShift(x, next, k - 1);
    }
  }

  /** Stepping i times after stepping m times is stepping m + i times. */
  lemma {:induction false} IterateCompose<T(!new)>(x: T, next: T -> T, m: nat, i: nat)
    ensures Iterate(Iterate(x, next, m), next, i) == Iterate(x, next, m + i)
  {
    if i > 0 {
      IterateCompose(x, next, m, i - 1);
    }
  }

  /** Later iterates rank higher. */
  lemma {:induction false} IterateIncreases<T(!new)>(x: T, next: T -> T, rank: T -> int, i: nat, j: nat)
    requires Advances(next, rank) && i < j
    ensures rank(Iterate(x, next, i)) < rank(Iterate(x, next, j))
    decreases j
  {
    if i < j - 1 {
      IterateIncreases(x, next, rank, i, j - 1);
    }
  }

  /** The fast-forward loop `while (d < s) d = step(d)`. */
  function FastForward<T(!new)>(x: T, next: T -> T, rank: T -> int, s: int): T
    requires Advances(next, rank)
    decreases s - rank(x)
  {
    if rank(x) < s then FastForward(next(x), next, rank, s) else x
  }

  /** How many steps the fast-forward takes. */
  function FastForwardSteps<T(!new)>(x: T, next: T -> T, rank: T -> int, s: int): nat
    requires Advances(next, rank)
    decreases s - rank(x)
  {
    if rank(x) < s then FastForwardSteps(next(x), next, rank, s) + 1 else 0
  }

  /** The fast-forward lands on the first iterate that is not before s:
      every earlier iterate is before s. */
  lemma {:induction false} FastForwardIsFirst<T(!new)>(x: T, next: T -> T, rank: T -> int, s: int)
    requires Advances(next, rank)
    ensures FastForward(x, next, rank, s) == Iterate(x, next, FastForwardSteps(x, next, rank, s))
    ensures rank(FastForward(x, next, rank, s)) >= s
    ensures forall k :: 0 <= k < FastForwardSteps(x, next, rank, s) ==> rank(Iterate(x, next, k)) < s
    decreases s - rank(x)
  {
    if rank(x) < s {
      FastForwardIsFirst(next(x), next, rank, s);
      IterateShift(x, next, FastForwardSteps(next(x), next, rank, s));
      forall k | 0 < k < FastForwardSteps(x, next, rank, s) ensures rank(Iterate(x, next, k)) < s {
        IterateShift(x, next, k - 1);
      }
    }
  }

  /** The yield loop `while (d <= e) { yield d; d = step(d) }`, collecting
      what it yields. */
  function Collect<T(!new)>(x: T, next: T -> T, rank: T -> int, e: int): seq<T>
    requires Advances(next, rank)
    decreases e - rank(x) + 1
  {
    if rank(x) <= e then [x] + Collect(next(x), next, rank, e) else []
  }

  /** The collected values are the iterates 0, 1, ... that are not after e,
      in order, and the next iterate is after e. */
  lemma {:induction false} CollectIsIterates<T(!new)>(x: T, next: T -> T, rank: T -> int, e: int)
    requires Advances(next, rank)
    ensures forall i :: 0 <= i < |Collect(x, next, rank, e)| ==>
      Collect(x, next, rank, e)[i] == Iterate(x, next, i) && rank(Iterate(x, next, i)) <= e
    ensures rank(Iterate(x, next, |Collect(x, next, rank, e)|)) > e
    decreases e - rank(x) + 1
  {
    if rank(x) <= e {
      var rest := Collect(next(x), next, rank, e);
      CollectIsIterates(next(x), next, rank, e);
      IterateShift(x, next, |rest|);
      forall i | 0 < i < |Collect(x, next, rank, e)|
        ensures Collect(x, next, rank, e)[i] == Iterate(x, next, i) && rank(Iterate(x, next, i)) <= e
      {
        IterateShift(x, next, i - 1);
      }
    }
  }

  /** The collected values strictly increase in rank. */
  lemma {:induction false} CollectIncreases<T(!new)>(x: T, next: T -> T, rank: T -> int, e: int)
    requires Advances(next, rank)
    ensures forall i, j :: 0 <= i < j < |Collect(x, next, rank, e)| ==>
      rank(Collect(x, next, rank, e)[i]) < rank(Collect(x, next, rank, e)[j])
  {
    CollectIsIterates(x, next, rank, e);
    forall i, j | 0 <= i < j < |Collect(x, next, rank, e)|
      ensures rank(Collect(x, next, rank, e)[i]) < rank(Collect(x, next, rank, e)[j])
    {
      IterateIncreases(x, next, rank, i, j);
    }
  }

  /** Fast-forwarding to s and then collecting up to e produces iterates in
      order: the i-th produced value is iterate m + i, where m is the number
      of fast-forward steps. */
  lemma {:induction false} WindowIsIterates<T(!new)>(x: T, next: T -> T, rank: T -> int, s: int, e: int, m: nat)
    requires Advances(next, rank) && m == FastForwardSteps(x, next, rank, s)
    ensures forall i :: 0 <= i < |Collect(FastForward(x, next, rank, s), next, rank, e)| ==>
      Collect(FastForward(x, next, rank, s), next, rank, e)[i] == Iterate(x, next, m + i)
  {
    var f := FastForward(x, next, rank, s);
    FastForwardIsFirst(x, next, rank, s);
    CollectIsIterates(f, next, rank, e);
    forall i | 0 <= i < |Collect(f, next, rank, e)| ensures Collect(f, next, rank, e)[i] == Iterate(x, next, m + i) {
      IterateCompose(x, next, m, i);
    }
  }

  /** The produced values are exactly the iterates whose rank lies between
      s and e. */
  lemma {:induction false} WindowMembers<T(!new)>(x: T, next: T -> T, rank: T -> int, s: int, e: int, m: nat, k: nat)
    requires Advances(next, rank) && m == FastForwardSteps(x, next, rank, s)
    ensures s <= rank(Iterate(x, next, k)) <= e <==> m <= k < m + |Collect(FastForward(x, next, rank, s), next, rank, e)|
  {
    var f := FastForward(x, next, rank, s);
    var ds := Collect(f, next, rank, e);
    FastForwardIsFirst(x, next, rank, s);
    CollectIsIterates(f, next, rank, e);
    if k < m {
    } else if k >= m + |ds| {
      IterateCompose(x, next, m, |ds|);
      if k > m + |ds| {
        IterateIncreases(x, next, rank, m + |ds|, k);
      }
    } else {
      IterateCompose(x, next, m, k - m);
      if m < k {
        IterateIncreases(x, next, rank, m, k);
      }
    }
  }

  /** `iterateOccurrences({ startDate, recurrence })` for the current year:
      the produced dates, or the exception raised when the recurrence has no
      step function. */
  function Occurrences(year: int, start: Option<ValidDate>, r: Recurrence): (res: Result<seq<ValidDate>>)
    ensures start.None? ==> res == Ok([])
    ensures res.Err? <==> start.Some? && start.value.year <= year && r.Unknown?
    ensures res.Ok? ==> forall i :: 0 <= i < |res.value| ==> res.value[i].year == year
  {
    match start
    case None => Ok([])
    case Some(d) =>
      if d.year > year then Ok([])
      else
        match r
        case OneTime => Ok(if d.year == year then [d] else [])
        case Unknown(key) => Err(NoStepFor(key))
        case _ =>
          SteppedInYear(year, d, r);
          Ok(SteppedOf(year, d, r))
  }

  /** Every stepped date is in the year. */
  lemma SteppedInYear(year: int, d: ValidDate, r: Recurrence)
    requires Steps(r)
    ensures forall i :: 0 <= i < |SteppedOf(year, d, r)| ==> SteppedOf(year, d, r)[i].year == year
  {
    StepFnAdvances(r);
    SteppedAreIterates(year, d, r);
    forall i | 0 <= i < |SteppedOf(year, d, r)| ensures SteppedOf(year, d, r)[i].year == year {
      var k := StepsBefore(year, d, r) + i;
      WindowMembers<ValidDate>(d, StepFn(r), DayNumber, DayNumber(StartOfYear(year)), DayNumber(EndOfYear(year)), StepsBefore(year, d, r), k);
      InYear(Iterate<ValidDate>(d, StepFn(r), k), year);
    }
  }

  /** The dates a stepping recurrence produces from d in the year. */
  function SteppedOf(year: int, d: ValidDate, r: Recurrence): seq<ValidDate>
    requires Steps(r)
  {
    StepFnAdvances(r);
    SteppedOccurrences(year, d, StepFn(r))
  }

  /** The two loops of the iterator for a step function `next`: fast-forward
      to 1 January, then collect up to 31 December. */
  function SteppedOccurrences(year: int, d: ValidDate, next: ValidDate -> ValidDate): seq<ValidDate>
    requires Advances(next, DayNumber)
  {
    Collect<ValidDate>(FastForward<ValidDate>(d, next, DayNumber, DayNumber(StartOfYear(year))), next, DayNumber, DayNumber(EndOfYear(year)))
  }

  /** `iterateOccurrences`, run to completion: the fast-forward loop, then
      the yield loop, collecting what is yielded. */
  method IterateOccurrences(year: int, start: Option<ValidDate>, key: string) returns (res: Result<seq<ValidDate>>)
    ensures res == Occurrences(year, start, RecurrenceOf(key))
  {
    var s := StartOfYear(year);
    var e := EndOfYear(year);
    var r := RecurrenceOf(key);
    if start.None? {
      NoOccurrences(year, start, r);
      return Ok([]);
    }
    var d := start.value;
    InYear(d, year);
    if DayNumber(d) > DayNumber(e) {
      NoOccurrences(year, start, r);
      return Ok([]);
    }
    if r.OneTime? {
      OneTimeOccurrences(year, d, r);
      InYear(d, year);
      if DayNumber(d) >= DayNumber(s) {
        return Ok([d]);
      }
      return Ok([]);
    }
    if r.Unknown? {
      // Either the fast-forward loop or the yield loop, after its first
      // yield, calls the missing step function.
      return Err(NoStepFor(key));
    }
    StepFnAdvances(r);
    var out := SteppedLoops(year, d, StepFn(r));
    return Ok(out);
  }

  /** The two loops of the iterator for a step function `next`. */
  method SteppedLoops(year: int, start: ValidDate, next: ValidDate -> ValidDate) returns (out: seq<ValidDate>)
    requires Advances(next, DayNumber)
    ensures out == SteppedOccurrences(year, start, next)
  {
    var s := StartOfYear(year);
    var e := EndOfYear(year);
    var d := start;
    while DayNumber(d) < DayNumber(s)
      invariant FastForward<ValidDate>(d, next, DayNumber, DayNumber(s)) == FastForward<ValidDate>(start, next, DayNumber, DayNumber(s))
      decreases DayNumber(s) - DayNumber(d)
    {
      d := next(d);
    }
    out := [];
    ghost var first := d;
    while DayNumber(d) <= DayNumber(e)
      invariant out + Collect<ValidDate>(d, next, DayNumber, DayNumber(e)) == Collect<ValidDate>(first, next, DayNumber, DayNumber(e))
      decreases DayNumber(e) - DayNumber(d) + 1
    {
      out := out + [d];
      d := next(d);
    }
  }

  /** Nothing occurs without a start date or when the start is after
      31 December. */
  lemma NoOccurrences(year: int, start: Option<ValidDate>, r: Recurrence)
    requires start.None? || DayNumber(start.value) > DayNumber(EndOfYear(year))
    ensures Occurrences(year, start, r) == Ok([])
  {
    if start.Some? {
      InYear(start.value, year);
    }
  }

  /** The iterator fails exactly for a recurrence without a step, with a
      start date on or before 31 December. */
  lemma OccurrencesFail(year: int, start: Option<ValidDate>, r: Recurrence)
    ensures Occurrences(year, start, r).Err? <==>
      r.Unknown? && start.Some? && DayNumber(start.value) <= DayNumber(EndOfYear(year))
  {
    if start.Some? {
      InYear(start.value, year);
    }
  }

  /** A one-time item occurs once, on its start date, when that date is in
      the year, and not at all otherwise. */
  lemma OneTimeOccurrences(year: int, d: ValidDate, r: Recurrence)
    requires r.OneTime?
    ensures DayNumber(StartOfYear(year)) <= DayNumber(d) <= DayNumber(EndOfYear(year)) ==> Occurrences(year, Some(d), r) == Ok([d])
    ensures !(DayNumber(StartOfYear(year)) <= DayNumber(d) <= DayNumber(EndOfYear(year))) ==> Occurrences(year, Some(d), r) == Ok([])
  {
    assert Occurrences(year, Some(d), r) == Ok(if d.year == year then [d] else []);
    InYear(d, year);
  }

  /** A stepping recurrence whose start is not after the year produces the
      stepped dates. */
  lemma SteppingOccurrences(year: int, d: ValidDate, r: Recurrence)
    requires Steps(r) && d.year <= year
    ensures Occurrences(year, Some(d), r) == Ok(SteppedOf(year, d, r))
  {
    match r
    case DaysApart(_) =>
    case MonthsApart(_) =>
    case Yearly =>
  }

  /** How many iterates of d come before 1 January of the year. */
  function StepsBefore(year: int, d: ValidDate, r: Recurrence): nat
    requires Steps(r)
  {
    StepFnAdvances(r);
    FastForwardSteps<ValidDate>(d, StepFn(r), DayNumber, DayNumber(StartOfYear(year)))
  }

  /** For a stepping recurrence the produced dates are consecutive iterates
      of the start date: the i-th is iterate m + i, where m counts the
      iterates before 1 January. */
  lemma OccurrencesAreIterates(year: int, d: ValidDate, r: Recurrence)
    requires Steps(r) && DayNumber(d) <= DayNumber(EndOfYear(year))
    ensures forall i :: 0 <= i < |Occurrences(year, Some(d), r).value| ==>
      Occurrences(year, Some(d), r).value[i] == Iterate<ValidDate>(d, StepFn(r), StepsBefore(year, d, r) + i)
  {
    InYear(d, year);
    SteppingOccurrences(year, d, r);
    SteppedAreIterates(year, d, r);
  }

  /** The stepped dates are consecutive iterates of the start date. */
  lemma SteppedAreIterates(year: int, d: ValidDate, r: Recurrence)
    requires Steps(r)
    ensures forall i :: 0 <= i < |SteppedOf(year, d, r)| ==>
      SteppedOf(year, d, r)[i] == Iterate<ValidDate>(d, StepFn(r), StepsBefore(year, d, r) + i)
  {
    StepFnAdvances(r);
    WindowIsIterates<ValidDate>(d, StepFn(r), DayNumber, DayNumber(StartOfYear(year)), DayNumber(EndOfYear(year)), StepsBefore(year, d, r));
  }

  /** No iterate of the start date in the year is left out: an iterate is
      in the year exactly when it is one of the produced dates. */
  lemma IterateInYear(year: int, d: ValidDate, r: Recurrence, k: nat)
    requires Steps(r) && DayNumber(d) <= DayNumber(EndOfYear(year))
    ensures Iterate<ValidDate>(d, StepFn(r), k).year == year <==>
      StepsBefore(year, d, r) <= k < StepsBefore(year, d, r) + |Occurrences(year, Some(d), r).value|
  {
    StepFnAdvances(r);
    InYear(d, year);
    SteppingOccurrences(year, d, r);
    WindowMembers<ValidDate>(d, StepFn(r), DayNumber, DayNumber(StartOfYear(year)), DayNumber(EndOfYear(year)), StepsBefore(year, d, r), k);
    InYear(Iterate<ValidDate>(d, StepFn(r), k), year);
  }


  /** The produced dates strictly increase. */
  lemma OccurrencesIncrease(year: int, start: Option<ValidDate>, r: Recurrence)
    requires Occurrences(year, start, r).Ok?
    ensures forall i, j :: 0 <= i < j < |Occurrences(year, start, r).value| ==>
      DayNumber(Occurrences(year, start, r).value[i]) < DayNumber(Occurrences(year, start, r).value[j])
  {
    if start.Some? && Steps(r) && start.value.year <= year {
      var d := start.value;
      InYear(d, year);
      StepFnAdvances(r);
      SteppingOccurrences(year, d, r);
      CollectIncreases<ValidDate>(FastForward<ValidDate>(d, StepFn(r), DayNumber, DayNumber(StartOfYear(year))), StepFn(r), DayNumber, DayNumber(EndOfYear(year)));
    }
  }

  /** A yearly item that starts on 29 February of a leap year occurs on
      1 March the following year: `new Date(y + 1, 1, 29)` rolls over. */
  lemma YearlyFromLeapDay(y: int, r: Recurrence)
    requires r.Yearly? && IsLeapYear(y)
    ensures Occurrences(y + 1, Some(Date(y, 1, 29)), r) == Ok([Date(y + 1, 2, 1)])
  {
    LeapDayCount(y, r);
    LeapDayFirst(y, r);
    var ds := Occurrences(y + 1, Some(Date(y, 1, 29)), r).value;
    assert ds == [ds[0]];
  }

  /** From 29 February exactly one yearly step falls in the next year. */
  lemma LeapDayCount(y: int, r: Recurrence)
    requires r.Yearly? && IsLeapYear(y)
    ensures Occurrences(y + 1, Some(Date(y, 1, 29)), r).Ok?
    ensures |Occurrences(y + 1, Some(Date(y, 1, 29)), r).value| == 1
  {
    var start: ValidDate := Date(y, 1, 29);
    LeapDaySteps(y, r);
    InYear(start, y + 1);
    SteppingOccurrences(y + 1, start, r);
    IterateInYear(y + 1, start, r, 1);
    IterateInYear(y + 1, start, r, 2);
  }

  /** The first yearly step from 29 February in the next year is 1 March. */
  lemma LeapDayFirst(y: int, r: Recurrence)
    requires r.Yearly? && IsLeapYear(y)
    requires Occurrences(y + 1, Some(Date(y, 1, 29)), r).Ok?
    requires |Occurrences(y + 1, Some(Date(y, 1, 29)), r).value| >= 1
    ensures Occurrences(y + 1, Some(Date(y, 1, 29)), r).value[0] == Date(y + 1, 2, 1)
  {
    var start: ValidDate := Date(y, 1, 29);
    SteppingOccurrences(y + 1, start, r);
    FirstStepped(y + 1, start, r);
    LeapDayFirstStep(y, r);
    LeapDayStepsBefore(y, r);
  }

  /** The first stepped date is the first iterate that reaches the year. */
  lemma FirstStepped(year: int, d: ValidDate, r: Recurrence)
    requires Steps(r) && |SteppedOf(year, d, r)| >= 1
    ensures SteppedOf(year, d, r)[0] == Iterate<ValidDate>(d, StepFn(r), StepsBefore(year, d, r))
  {
    SteppedAreIterates(year, d, r);
    FirstIterate(SteppedOf(year, d, r), d, StepFn(r), StepsBefore(year, d, r));
  }

  /** The first of a run of consecutive iterates starting at iterate m. */
  lemma FirstIterate<T(!new)>(ds: seq<T>, x: T, next: T -> T, m: nat)
    requires |ds| >= 1
    requires forall i :: 0 <= i < |ds| ==> ds[i] == Iterate(x, next, m + i)
    ensures ds[0] == Iterate(x, next, m)
  {
    assert ds[0] == Iterate(x, next, m + 0);
  }

  /** The yearly steps from 29 February: 1 March of the next two years, and
      one step is needed to reach the next year. */
  lemma LeapDaySteps(y: int, r: Recurrence)
    requires r.Yearly? && IsLeapYear(y)
    ensures Iterate<ValidDate>(Date(y, 1, 29), StepFn(r), 1) == Date(y + 1, 2, 1)
    ensures Iterate<ValidDate>(Date(y, 1, 29), StepFn(r), 2) == Date(y + 2, 2, 1)
    ensures StepsBefore(y + 1, Date(y, 1, 29), r) == 1
  {
    var march: ValidDate := Date(y + 1, 2, 1);
    LeapDayFirstStep(y, r);
    YearlyFromMarch(march, r);
    LeapDayStepsBefore(y, r);
  }

  /** One yearly step from 29 February lands on 1 March. */
  lemma LeapDayFirstStep(y: int, r: Recurrence)
    requires r.Yearly? && IsLeapYear(y)
    ensures Iterate<ValidDate>(Date(y, 1, 29), StepFn(r), 1) == Date(y + 1, 2, 1)
  {
    NextYearFromLeapDay(y);
  }

  /** A yearly step from 1 March lands on 1 March. */
  lemma YearlyFromMarch(d: ValidDate, r: Recurrence)
    requires r.Yearly? && d.month == 2 && d.day == 1
    ensures StepFn(r)(d) == Date(d.year + 1, 2, 1)
  {
    MakeDateValid(Date(d.year + 1, 2, 1));
  }

  /** From 29 February one step reaches the next year. */
  lemma LeapDayStepsBefore(y: int, r: Recurrence)
    requires r.Yearly? && IsLeapYear(y)
    ensures StepsBefore(y + 1, Date(y, 1, 29), r) == 1
  {
    var start: ValidDate := Date(y, 1, 29);
    var march: ValidDate := Date(y + 1, 2, 1);
    StepFnAdvances(r);
    LeapDayFirstStep(y, r);
    var s := DayNumber(StartOfYear(y + 1));
    InYear(start, y + 1);
    InYear(march, y + 1);
    assert FastForwardSteps<ValidDate>(march, StepFn(r), DayNumber, s) == 0;
    assert FastForwardSteps<ValidDate>(start, StepFn(r), DayNumber, s) == 1;
  }

  /** A monthly item that starts on 31 January of a common year skips
      February and then keeps the day it rolled over to: its first three
      dates are 31 January, 3 March and 3 April. */
  lemma MonthlyFromJanuary31(y: int, r: Recurrence)
    requires r.MonthsApart? && r.months == 1 && !IsLeapYear(y)
    ensures |Occurrences(y, Some(Date(y, 0, 31)), r).value| >= 3
    ensures Occurrences(y, Some(Date(y, 0, 31)), r).value[..3] == [Date(y, 0, 31), Date(y, 2, 3), Date(y, 3, 3)]
  {
    var jan: ValidDate := Date(y, 0, 31);
    January31Steps(y, r);
    assert StepsBefore(y, jan, r) == 0 by {
      StepFnAdvances(r);
      InYear(jan, y);
    }
    IterateInYear(y, jan, r, 2);
    OccurrencesAreIterates(y, jan, r);
  }

  /** The first two monthly steps from 31 January of a common year. */
  lemma January31Steps(y: int, r: Recurrence)
    requires r.MonthsApart? && r.months == 1 && !IsLeapYear(y)
    ensures Iterate<ValidDate>(Date(y, 0, 31), StepFn(r), 1) == Date(y, 2, 3)
    ensures Iterate<ValidDate>(Date(y, 0, 31), StepFn(r), 2) == Date(y, 3, 3)
  {
    var jan: ValidDate := Date(y, 0, 31);
    var march: ValidDate := Date(y, 2, 3);
    JanuaryStep(y, r);
    MarchStep(y, r);
    assert Iterate<ValidDate>(jan, StepFn(r), 1) == StepFn(r)(jan);
    assert Iterate<ValidDate>(jan, StepFn(r), 2) == StepFn(r)(Iterate<ValidDate>(jan, StepFn(r), 1));
  }

  /** A month on from 31 January of a common year is 3 March. */
  lemma JanuaryStep(y: int, r: Recurrence)
    requires r.MonthsApart? && r.months == 1 && !IsLeapYear(y)
    ensures StepFn(r)(Date(y, 0, 31)) == Date(y, 2, 3)
  {
    AddMonthsFromJanuary31(y);
  }

  /** A month on from 3 March is 3 April. */
  lemma MarchStep(y: int, r: Recurrence)
    requires r.MonthsApart? && r.months == 1
    ensures StepFn(r)(Date(y, 2, 3)) == Date(y, 3, 3)
  {
    AddMonthsKeepsDay(Date(y, 2, 3), 1);
  }
}
