/**
 * Workday date arithmetic: weekend classification, the end date of a task budgeted in
 * hours at six work-hours per weekday, and the workdays left until a target date.
 * Dates are day numbers; "today" is a parameter.
 */
module DateUtils {
  import opened Types

  const WorkHoursPerDay: int := 6

  /** Day of the week as `Date.prototype.getDay` numbers it: 0 is Sunday, 6 is Saturday. */
  function DayOfWeek(d: Day): (w: int)
    ensures 0 <= w < 7
  {
    (d + 4) % 7
  }

  /** `isWeekend`: Sunday or Saturday. */
  predicate IsWeekend(d: Day)
  {
    DayOfWeek(d) == 0 || DayOfWeek(d) == 6
  }

  /**
   * Day 2 (1970-01-03) was a Saturday and day 3 a Sunday, so the weekend days are exactly those
   * congruent to 2 or 3 modulo 7.
   */
  lemma WeekendDays(d: Day)
    ensures IsWeekend(d) <==> d % 7 == 2 || d % 7 == 3
  {
  }

  /** The number of Monday-to-Friday days in the inclusive range [lo, hi]; 0 when hi < lo. */
  function CountWorkdays(lo: Day, hi: Day): (n: nat)
    ensures n <= if hi < lo then 0 else hi - lo + 1
    decreases hi - lo
  {
    if hi < lo then 0 else CountWorkdays(lo, hi - 1) + (if IsWeekend(hi) then 0 else 1)
  }

  /** `Math.ceil(hours / WORK_HOURS_PER_DAY)` for a positive whole number of hours. */
  function WorkdaysNeeded(hours: int): (n: int)
    requires hours > 0
    ensures n >= 1
    ensures (n - 1) * WorkHoursPerDay < hours <= n * WorkHoursPerDay
  {
    (hours + WorkHoursPerDay - 1) / WorkHoursPerDay
  }

  /** The day the code's first loop stops on: `d` itself, or the Monday after a weekend day. */
  function FirstWorkday(d: Day): (m: Day)
    ensures d <= m <= d + 2 && !IsWeekend(m)
    ensures forall x :: d <= x < m ==> IsWeekend(x)
  {
    if DayOfWeek(d) == 6 then d + 2 else if DayOfWeek(d) == 0 then d + 1 else d
  }

  /** The `n`-th workday of the calendar counted from workday `m`, `m` itself being the first. */
  function NthWorkday(m: Day, n: int): (e: Day)
    requires !IsWeekend(m) && n >= 1
    ensures m <= e && !IsWeekend(e)
    ensures CountWorkdays(m, e) == n
    decreases n
  {
    if n == 1 then m
    else
      var prev := NthWorkday(m, n - 1);
      var e := FirstWorkday(prev + 1);
      CountSplit(m, prev, e);
      CountWeekendRun(prev + 1, e);
      e
  }

  /**
   * How many workdays of [FirstWorkday(start), end] the code walks through before stopping. A
   * weekday start counts itself as the first; a weekend start reaches Monday with the counter
   * still at 0, so Monday is walked through without being counted and one more is needed.
   */
  function WorkdaysWalked(start: Day, hours: int): int
    requires hours > 0
  {
    WorkdaysNeeded(hours) + (if IsWeekend(start) then 1 else 0)
  }

  /**
   * `calculateEndDate` as a function: the start unchanged for an empty start or a non-positive
   * budget (an empty start stays an invalid date), otherwise a workday no earlier than the start.
   */
  function EndDate(start: Option<Day>, hours: int): (r: Option<Day>)
    ensures start.None? ==> r.None?
    ensures hours <= 0 ==> r == start
    ensures start.Some? && hours > 0 ==> r.Some? && start.value <= r.value && !IsWeekend(r.value)
  {
    if start.None? || hours <= 0 then start
    else Some(NthWorkday(FirstWorkday(start.value), WorkdaysWalked(start.value, hours)))
  }

  /** `calculateEndDate`, with its two day-by-day loops. */
  method CalculateEndDate(start: Option<Day>, hours: int) returns (end: Option<Day>)
    ensures end == EndDate(start, hours)
  {
    if start.None? || hours <= 0 {
      return start;
    }
    var s := start.value;
    var needed := WorkdaysNeeded(hours);
    var current := s;
    var counted := 0;
    if !IsWeekend(current) {
      counted := 1;
    }
    ghost var m := FirstWorkday(s);
    while IsWeekend(current)
      invariant s <= current <= m
      decreases m - current
    {
      current := current + 1;
    }
    ghost var uncounted := if IsWeekend(s) then 1 else 0;
    while counted < needed
      invariant m <= current
      invariant 0 <= counted <= needed
      invariant counted + uncounted == CountWorkdays(m, current)
      invariant counted == needed ==> !IsWeekend(current)
      decreases needed - counted, FirstWorkday(current + 1) - current
    {
      current := current + 1;
      if !IsWeekend(current) {
        counted := counted + 1;
      }
    }
    WorkdayDeterminedByCount(m, current, NthWorkday(m, needed + uncounted));
    return Some(current);
  }

  /** The workdays left from `today` to `target`, both counted; an invalid target leaves none. */
  function RemainingWorkdays(target: Option<Day>, today: Day): (remaining: nat)
    ensures target.None? ==> remaining == 0
    ensures target.Some? && target.value < today ==> remaining == 0
    ensures target.Some? && today <= target.value ==> remaining <= target.value - today + 1
  {
    match target
    case None => 0
    case Some(t) => CountWorkdays(today, t)
  }

  /** `calculateRemainingWorkdays`, with its day-by-day loop; `today` is given, not read. */
  method CalculateRemainingWorkdays(target: Option<Day>, today: Day) returns (remaining: int)
    ensures remaining == RemainingWorkdays(target, today)
    ensures target.Some? && today > target.value ==> remaining == 0
    ensures target == Some(today) && !IsWeekend(today) ==> remaining == 1
  {
    if target.None? {
      // Comparisons with an invalid date are false: neither branch nor loop runs.
      return 0;
    }
    var t := target.value;
    if today > t {
      return 0;
    }
    var count := 0;
    var current := today;
    while current <= t
      invariant today <= current <= t + 1
      invariant count == CountWorkdays(today, current - 1)
      decreases t - current
    {
      if !IsWeekend(current) {
        count := count + 1;
      }
      current := current + 1;
    }
    remaining := if count > 0 then count else 0;
  }

  // ---- properties of the end date ----

  /**
   * From a weekday start the end date is the first day by which the workdays of
   * [start, end] reach ceil(hours / 6), and they reach it exactly.
   */
  lemma EndDateFromWeekday(s: Day, hours: int)
    requires !IsWeekend(s) && hours > 0
    ensures var e := EndDate(Some(s), hours).value;
      && CountWorkdays(s, e) == WorkdaysNeeded(hours)
      && forall x :: s <= x < e ==> CountWorkdays(s, x) < WorkdaysNeeded(hours)
  {
    var e := EndDate(Some(s), hours).value;
    forall x | s <= x < e
      ensures CountWorkdays(s, x) < WorkdaysNeeded(hours)
    {
      CountStrict(s, x, e);
    }
  }

  /** A budget of at most one workday's hours ends on the weekday it starts. */
  lemma EndDateWithinOneDay(s: Day, hours: int)
    requires !IsWeekend(s) && 0 < hours <= WorkHoursPerDay
    ensures EndDate(Some(s), hours) == Some(s)
  {
  }

  /**
   * From a weekend start the Monday reached first is walked through uncounted: the workdays
   * of [start, end] are one more than ceil(hours / 6), the end being the first day to reach that.
   */
  lemma EndDateFromWeekend(s: Day, hours: int)
    requires IsWeekend(s) && hours > 0
    ensures var e := EndDate(Some(s), hours).value;
      && FirstWorkday(s) < e
      && CountWorkdays(s, e) == WorkdaysNeeded(hours) + 1
      && forall x :: s <= x < e ==> CountWorkdays(s, x) < WorkdaysNeeded(hours) + 1
  {
    var m := FirstWorkday(s);
    var e := EndDate(Some(s), hours).value;
    CountSplit(s, m - 1, e);
    CountAllWeekend(s, m - 1);
    forall x | s <= x < e
      ensures CountWorkdays(s, x) < WorkdaysNeeded(hours) + 1
    {
      CountStrict(s, x, e);
    }
  }

  /** More hours never give an earlier end date. */
  lemma EndDateMonotone(start: Option<Day>, h1: int, h2: int)
    requires start.Some? && h1 <= h2
    ensures EndDate(start, h1).value <= EndDate(start, h2).value
  {
    if h1 > 0 {
      var s := start.value;
      var m := FirstWorkday(s);
      var e1 := EndDate(start, h1).value;
      var e2 := EndDate(start, h2).value;
      if e2 < e1 {
        CountStrict(m, e2, e1);
      }
    }
  }

  /** On its start weekday a task has exactly ceil(hours / 6) workdays remaining. */
  lemma RemainingOnStartDay(s: Day, hours: int)
    requires !IsWeekend(s) && hours > 0
    ensures RemainingWorkdays(EndDate(Some(s), hours), s) == WorkdaysNeeded(hours)
  {
    EndDateFromWeekday(s, hours);
  }

  /** The remaining workdays never fall as the target moves later. */
  lemma RemainingMonotone(t1: Day, t2: Day, today: Day)
    requires t1 <= t2
    ensures RemainingWorkdays(Some(t1), today) <= RemainingWorkdays(Some(t2), today)
  {
    CountMonotone(today, t1, t2);
  }

  /** Each passing workday up to the target takes one off the remaining count; a weekend day none. */
  lemma RemainingNextDay(t: Day, today: Day)
    requires today <= t
    ensures RemainingWorkdays(Some(t), today)
         == RemainingWorkdays(Some(t), today + 1) + (if IsWeekend(today) then 0 else 1)
  {
    CountSplit(today, today, t);
  }

  // ---- the calendar ----

  lemma NextDayOfWeek(d: Day)
    ensures DayOfWeek(d + 1) == if DayOfWeek(d) == 6 then 0 else DayOfWeek(d) + 1
  {
  }

  /** Any seven consecutive days hold exactly five workdays. */
  lemma FiveWorkdaysPerWeek(a: Day)
    ensures CountWorkdays(a, a + 6) == 5
  {
    NextDayOfWeek(a); NextDayOfWeek(a + 1); NextDayOfWeek(a + 2);
    NextDayOfWeek(a + 3); NextDayOfWeek(a + 4); NextDayOfWeek(a + 5);
    assert CountWorkdays(a, a + 6) == CountWorkdays(a, a + 5) + (if IsWeekend(a + 6) then 0 else 1);
    assert CountWorkdays(a, a + 5) == CountWorkdays(a, a + 4) + (if IsWeekend(a + 5) then 0 else 1);
    assert CountWorkdays(a, a + 4) == CountWorkdays(a, a + 3) + (if IsWeekend(a + 4) then 0 else 1);
    assert CountWorkdays(a, a + 3) == CountWorkdays(a, a + 2) + (if IsWeekend(a + 3) then 0 else 1);
    assert CountWorkdays(a, a + 2) == CountWorkdays(a, a + 1) + (if IsWeekend(a + 2) then 0 else 1);
    assert CountWorkdays(a, a + 1) == CountWorkdays(a, a) + (if IsWeekend(a + 1) then 0 else 1);
  }

  // ---- worked dates (2024-06-03 is a Monday) ----

  const Mon20240603: Day := 19877
  const Tue20240604: Day := 19878
  const Fri20240607: Day := 19881
  const Sat20240608: Day := 19882
  const Mon20240610: Day := 19884
  const Tue20240611: Day := 19885

  lemma WorkedDateWeekdays()
    ensures DayOfWeek(Mon20240603) == 1 && DayOfWeek(Fri20240607) == 5 && DayOfWeek(Sat20240608) == 6
  {
  }

  lemma WorkedDateMondaySixHours()
    ensures EndDate(Some(Mon20240603), 6) == Some(Mon20240603)
  {
  }

  lemma WorkedDateMondayTwelveHours()
    ensures EndDate(Some(Mon20240603), 12) == Some(Tue20240604)
  {
  }

  lemma WorkedDateFridayTwelveHours()
    ensures EndDate(Some(Fri20240607), 12) == Some(Mon20240610)
  {
  }

  lemma WorkedDateOverdue()
    ensures RemainingWorkdays(Some(Fri20240607), Sat20240608) == 0
  {
  }

  // ---- weekend starts: the end date as evidently intended ----

  /**
   * The end date when the first workday reached from a weekend start counts as day 1, as a
   * weekday start counts itself.
   */
  function IntendedEndDate(start: Option<Day>, hours: int): (r: Option<Day>)
    ensures start.None? ==> r.None?
    ensures hours <= 0 ==> r == start
    ensures start.Some? && hours > 0 ==> r.Some? && start.value <= r.value && !IsWeekend(r.value)
  {
    if start.None? || hours <= 0 then start
    else Some(NthWorkday(FirstWorkday(start.value), WorkdaysNeeded(hours)))
  }

  /**
   * Whatever day a task starts on, the intended end date is the first day by which the
   * workdays of [start, end] reach ceil(hours / 6), and they reach it exactly.
   */
  lemma IntendedEndDateCountsFromStart(s: Day, hours: int)
    requires hours > 0
    ensures var e := IntendedEndDate(Some(s), hours).value;
      && CountWorkdays(s, e) == WorkdaysNeeded(hours)
      && forall x :: s <= x < e ==> CountWorkdays(s, x) < WorkdaysNeeded(hours)
  {
    var m := FirstWorkday(s);
    var e := IntendedEndDate(Some(s), hours).value;
    CountSplit(s, m - 1, e);
    CountAllWeekend(s, m - 1);
    forall x | s <= x < e
      ensures CountWorkdays(s, x) < WorkdaysNeeded(hours)
    {
      CountStrict(s, x, e);
    }
  }

  /** The two definitions differ only for weekend starts. */
  lemma IntendedEndDateOnWeekdays(start: Option<Day>, hours: int)
    requires start.Some? ==> !IsWeekend(start.value)
    ensures IntendedEndDate(start, hours) == EndDate(start, hours)
  {
  }

  /**
   * The code as written: a six-hour task starting on Saturday 2024-06-08 ends on Tuesday
   * 2024-06-11, two workdays for a one-workday budget, where the intended end is Monday.
   */
  lemma WeekendStartOvershoots()
    ensures EndDate(Some(Sat20240608), 6) == Some(Tue20240611)
    ensures CountWorkdays(Sat20240608, Tue20240611) == 2 && WorkdaysNeeded(6) == 1
    ensures IntendedEndDate(Some(Sat20240608), 6) == Some(Mon20240610)
  {
    EndDateFromWeekend(Sat20240608, 6);
  }

  // ---- counting lemmas ----

  /** A count splits at any point of its range. */
  lemma {:induction false} CountSplit(lo: Day, mid: Day, hi: Day)
    requires lo - 1 <= mid <= hi
    ensures CountWorkdays(lo, hi) == CountWorkdays(lo, mid) + CountWorkdays(mid + 1, hi)
    decreases hi - mid
  {
    if mid < hi {
      CountSplit(lo, mid, hi - 1);
    }
  }

  /** A run of weekend days closed by a workday holds exactly one workday. */
  lemma {:induction false} CountWeekendRun(a: Day, b: Day)
    requires a <= b && !IsWeekend(b)
    requires forall x :: a <= x < b ==> IsWeekend(x)
    ensures CountWorkdays(a, b) == 1
  {
    CountAllWeekend(a, b - 1);
  }

  lemma {:induction false} CountAllWeekend(a: Day, b: Day)
    requires forall x :: a <= x <= b ==> IsWeekend(x)
    ensures CountWorkdays(a, b) == 0
    decreases b - a
  {
    if a <= b {
      CountAllWeekend(a, b - 1);
    }
  }

  /** Extending the range to the right never lowers the count. */
  lemma CountMonotone(lo: Day, hi: Day, hi': Day)
    requires hi <= hi'
    ensures CountWorkdays(lo, hi) <= CountWorkdays(lo, hi')
  {
    if lo - 1 <= hi {
      CountSplit(lo, hi, hi');
    } else {
      assert CountWorkdays(lo, hi) == 0;
    }
  }

  /** Extending the range to a later workday raises the count. */
  lemma CountStrict(lo: Day, hi: Day, hi': Day)
    requires lo <= hi' && hi < hi' && !IsWeekend(hi')
    ensures CountWorkdays(lo, hi) < CountWorkdays(lo, hi')
  {
    CountMonotone(lo, hi, hi' - 1);
  }

  /** A workday on or after `m` is determined by how many workdays lie in [m, it]. */
  lemma WorkdayDeterminedByCount(m: Day, e1: Day, e2: Day)
    requires m <= e1 && m <= e2 && !IsWeekend(e1) && !IsWeekend(e2)
    requires CountWorkdays(m, e1) == CountWorkdays(m, e2)
    ensures e1 == e2
  {
    if e1 < e2 {
      CountStrict(m, e1, e2);
    } else if e2 < e1 {
      CountStrict(m, e2, e1);
    }
  }
}
