/** The next occurrence of a recurring scheduled message, computed from its own `scheduled_for`
    with JavaScript `Date` arithmetic (pasta_do_git/server/src/services/scheduler.ts, createRecurringMessage). */
module Recurrence {
  import opened Wrappers
  import opened Calendar
  import opened Records

  function Min(a: int, b: int): int {
    if a <= b then a else b
  }

  /** `recurrence_day` is truthy: present and not 0. */
  predicate ClampRequested(day: Option<int>) {
    day.Some? && day.value != 0
  }

  /** The date-time of the next occurrence, or `None` for `once` and for an unrecognised type.
      `monthly` first moves to the same day number of the next month (overflowing when that month
      is shorter) and only then, when `recurrence_day` is truthy, sets the day to
      min(`recurrence_day`, last day of the month it landed in). */
  function NextOccurrence(t: DateTime, kind: RecurrenceType, day: Option<int>): (r: Option<DateTime>)
    ensures r.Some? ==> r.value.time == t.time
    ensures r.None? <==> kind.Once? || kind.Unrecognised?
  {
    match kind
    case Daily => Some(SetDate(t, t.date.day + 1))
    case Weekly => Some(SetDate(t, t.date.day + 7))
    case Monthly =>
      var moved := AddOneMonth(t);
      if ClampRequested(day) then
        Some(SetDate(moved, Min(day.value, DaysInMonth(moved.date.year, moved.date.month))))
      else Some(moved)
    case _ => None
  }

  /** `daily` is the next calendar day at the same time. */
  lemma DailyIsNextCalendarDay(t: DateTime, day: Option<int>)
    ensures NextOccurrence(t, Daily, day) == Some(DateTime(Successor(t.date), t.time))
  {
    NormalizeStep(t.date.year, t.date.month, t.date.day);
  }

  /** `weekly` is seven calendar days later at the same time. */
  lemma WeeklyIsSevenCalendarDays(t: DateTime, day: Option<int>)
    ensures NextOccurrence(t, Weekly, day) == Some(DateTime(SuccessorN(t.date, 7), t.time))
  {
    NormalizeAdd(t.date.year, t.date.month, t.date.day, 7);
  }

  /** Where `setMonth(getMonth() + 1)` lands: the same day of the next month when that day exists
      there, otherwise the overflow into the month after it. */
  lemma {:induction false} AddOneMonthLanding(t: DateTime)
    ensures var n := NextMonth(t.date.year, t.date.month);
            var r := AddOneMonth(t).date;
            if t.date.day <= DaysInMonth(n.0, n.1) then r == Date(n.0, n.1, t.date.day)
            else
              var n2 := NextMonth(n.0, n.1);
              r == Date(n2.0, n2.1, t.date.day - DaysInMonth(n.0, n.1))
  {
    var n := NextMonth(t.date.year, t.date.month);
    if t.date.day > DaysInMonth(n.0, n.1) {
      var n2 := NextMonth(n.0, n.1);
      assert t.date.day - DaysInMonth(n.0, n.1) <= 3;
      assert Normalize(n2.0, n2.1, t.date.day - DaysInMonth(n.0, n.1))
          == Date(n2.0, n2.1, t.date.day - DaysInMonth(n.0, n.1));
    }
  }

  /** With a positive `recurrence_day`, `monthly` stays in the month the move landed in and takes
      the smaller of `recurrence_day` and that month's length as the day. */
  lemma MonthlyClampsInLandedMonth(t: DateTime, d: int)
    requires d >= 1
    ensures var moved := AddOneMonth(t).date;
            NextOccurrence(t, Monthly, Some(d)) ==
              Some(DateTime(Date(moved.year, moved.month, Min(d, DaysInMonth(moved.year, moved.month))), t.time))
  {
  }

  /** With `recurrence_day` null or 0, `monthly` is the bare one-month move. */
  lemma MonthlyWithoutDayIsOneMonthMove(t: DateTime, day: Option<int>)
    requires !ClampRequested(day)
    ensures NextOccurrence(t, Monthly, day) == Some(AddOneMonth(t))
  {
  }

  /** The overflow runs before the clamp: 31 January 2025 with `recurrence_day` 31 lands on
      31 March, not on 28 February; without a `recurrence_day` it lands on 3 March. A day that
      exists in February is clamped as the comment intends. */
  lemma JanuaryThirtyFirstSkipsFebruary()
    ensures NextOccurrence(DateTime(Date(2025, 1, 31), 36000000), Monthly, Some(31))
         == Some(DateTime(Date(2025, 3, 31), 36000000))
    ensures NextOccurrence(DateTime(Date(2025, 1, 31), 36000000), Monthly, None)
         == Some(DateTime(Date(2025, 3, 3), 36000000))
    ensures NextOccurrence(DateTime(Date(2024, 1, 31), 0), Monthly, Some(31))
         == Some(DateTime(Date(2024, 3, 31), 0))
    ensures NextOccurrence(DateTime(Date(2025, 1, 28), 0), Monthly, Some(31))
         == Some(DateTime(Date(2025, 2, 28), 0))
  {
    AddOneMonthLanding(DateTime(Date(2025, 1, 31), 36000000));
    AddOneMonthLanding(DateTime(Date(2024, 1, 31), 0));
    AddOneMonthLanding(DateTime(Date(2025, 1, 28), 0));
  }

  /** The next occurrence is strictly later than the current one for `daily`, `weekly`, and
      `monthly` with a `recurrence_day` that is null, 0 or positive. */
  lemma NextOccurrenceIsLater(t: DateTime, kind: RecurrenceType, day: Option<int>)
    requires kind.Daily? || kind.Weekly? || kind.Monthly?
    requires day.None? || day.value >= 0
    ensures Ordinal(NextOccurrence(t, kind, day).value) > Ordinal(t)
  {
    var r := NextOccurrence(t, kind, day).value;
    match kind {
      case Daily => DailyIsNextCalendarDay(t, day);
      case Weekly => WeeklyIsSevenCalendarDays(t, day);
      case Monthly =>
        AddOneMonthLanding(t);
        var n := NextMonth(t.date.year, t.date.month);
        var n2 := NextMonth(n.0, n.1);
        assert r.date.year * 12 + r.date.month >= t.date.year * 12 + t.date.month + 1;
    }
    LaterDateIsLater(t, r);
  }

  /** A negative `recurrence_day` is truthy and is passed to `setDate` as it is, which counts back
      from the landed month: 15 January 2025 with `recurrence_day` -100 gives 23 October 2024,
      a time before the record it was computed from. */
  lemma NegativeDayGoesBackwards()
    ensures NextOccurrence(DateTime(Date(2025, 1, 15), 0), Monthly, Some(-100))
         == Some(DateTime(Date(2024, 10, 23), 0))
  {
    assert AddOneMonth(DateTime(Date(2025, 1, 15), 0)).date == Date(2025, 2, 15);
    assert Normalize(2024, 10, 23) == Date(2024, 10, 23);
    assert Normalize(2024, 11, -8) == Date(2024, 10, 23);
    assert Normalize(2024, 12, -38) == Date(2024, 10, 23);
    assert Normalize(2025, 1, -69) == Date(2024, 10, 23);
    assert Normalize(2025, 2, -100) == Date(2024, 10, 23);
  }
}
