/** Calendar date-times in one fixed time zone, with JavaScript `Date`'s day overflow.
    `Date.setDate(n)` and `Date.setMonth(m)` never reject an out-of-range day: they count
    past the end (or before the start) of the month into the neighbouring months.
    `Normalize` is that counting, and the recurrence rules are built from it. */
module Calendar {

  /** A (year, month, day) triple; months are numbered 1..12 here (JavaScript counts from 0). */
  datatype Date = Date(year: int, month: int, day: int)

  /** Proleptic Gregorian leap years, as JavaScript's `Date` uses them. */
  predicate IsLeapYear(y: int) {
    (y % 4 == 0 && y % 100 != 0) || y % 400 == 0
  }

  function DaysInMonth(y: int, m: int): (n: int)
    requires 1 <= m <= 12
    ensures 28 <= n <= 31
    ensures m == 2 <==> n < 30
  {
    if m == 2 then (if IsLeapYear(y) then 29 else 28)
    else if m == 4 || m == 6 || m == 9 || m == 11 then 30
    else 31
  }

  predicate IsValidDate(d: Date) {
    1 <= d.month <= 12 && 1 <= d.day <= DaysInMonth(d.year, d.month)
  }

  /** A date that exists on the calendar. */
  type CalendarDate = d: Date | IsValidDate(d) witness Date(1970, 1, 1)

  const MillisPerDay: int := 24 * 60 * 60 * 1000

  type MillisOfDay = n: int | 0 <= n < MillisPerDay

  /** A point in time: a calendar date and the milliseconds elapsed since its midnight. */
  datatype DateTime = DateTime(date: CalendarDate, time: MillisOfDay)

  /** A number that orders dates the way the calendar does (not a day count). */
  function DateKey(d: CalendarDate): int {
    (d.year * 12 + (d.month - 1)) * 31 + (d.day - 1)
  }

  /** A number that orders date-times chronologically; used for every `<=` and `ORDER BY` on a timestamp. */
  function Ordinal(t: DateTime): int {
    DateKey(t.date) * MillisPerDay + t.time
  }

  /** `a <= b` on timestamps. */
  predicate NotAfter(a: DateTime, b: DateTime) {
    Ordinal(a) <= Ordinal(b)
  }

  /** A later date gives a later date-time, whatever the times of day. */
  lemma LaterDateIsLater(a: DateTime, b: DateTime)
    requires DateKey(a.date) < DateKey(b.date)
    ensures Ordinal(a) < Ordinal(b)
  {
  }

  /** The month after (y, m). */
  function NextMonth(y: int, m: int): (r: (int, int))
    requires 1 <= m <= 12
    ensures 1 <= r.1 <= 12
    ensures r.0 * 12 + r.1 == y * 12 + m + 1
  {
    if m == 12 then (y + 1, 1) else (y, m + 1)
  }

  /** The month before (y, m). */
  function PrevMonth(y: int, m: int): (r: (int, int))
    requires 1 <= m <= 12
    ensures 1 <= r.1 <= 12
    ensures r.0 * 12 + r.1 == y * 12 + m - 1
  {
    if m == 1 then (y - 1, 12) else (y, m - 1)
  }

  /** Day `d` of month (y, m), counted on into the following months or back into the previous ones
      when `d` is outside the month (ECMAScript's MakeDay with an out-of-range date). */
  function Normalize(y: int, m: int, d: int): (r: CalendarDate)
    requires 1 <= m <= 12
    ensures 1 <= d <= DaysInMonth(y, m) ==> r == Date(y, m, d)
    decreases (if d < 1 then 1 - d else 0), (if d > 0 then d else 0)
  {
    if d < 1 then
      var p := PrevMonth(y, m);
      Normalize(p.0, p.1, d + DaysInMonth(p.0, p.1))
    else if d > DaysInMonth(y, m) then
      var n := NextMonth(y, m);
      Normalize(n.0, n.1, d - DaysInMonth(y, m))
    else
      Date(y, m, d)
  }

  /** The calendar day after `d`: the reference definition of "one calendar day later". */
  function Successor(d: CalendarDate): (r: CalendarDate)
    ensures DateKey(r) > DateKey(d)
  {
    if d.day < DaysInMonth(d.year, d.month) then Date(d.year, d.month, d.day + 1)
    else
      var n := NextMonth(d.year, d.month);
      Date(n.0, n.1, 1)
  }

  /** `k` calendar days after `d`. */
  function SuccessorN(d: CalendarDate, k: nat): (r: CalendarDate)
    ensures k > 0 ==> DateKey(r) > DateKey(d)
  {
    if k == 0 then d else Successor(SuccessorN(d, k - 1))
  }

  /** Counting one day further from a positive day is taking the calendar successor. */
  lemma {:induction false} NormalizeStep(y: int, m: int, d: int)
    requires 1 <= m <= 12 && d >= 1
    ensures Normalize(y, m, d + 1) == Successor(Normalize(y, m, d))
    decreases d
  {
    if d > DaysInMonth(y, m) {
      var n := NextMonth(y, m);
      NormalizeStep(n.0, n.1, d - DaysInMonth(y, m));
    } else if d == DaysInMonth(y, m) {
      var n := NextMonth(y, m);
      assert Normalize(n.0, n.1, 1) == Date(n.0, n.1, 1);
    }
  }

  /** Counting `k` days further is taking the successor `k` times. */
  lemma {:induction false} NormalizeAdd(y: int, m: int, d: int, k: nat)
    requires 1 <= m <= 12 && d >= 1
    ensures Normalize(y, m, d + k) == SuccessorN(Normalize(y, m, d), k)
  {
    if k > 0 {
      NormalizeAdd(y, m, d, k - 1);
      NormalizeStep(y, m, d + k - 1);
    }
  }

  /** `t.setDate(n)`: day `n` of `t`'s month, overflowing into neighbouring months; time of day kept. */
  function SetDate(t: DateTime, n: int): (r: DateTime)
    ensures r.time == t.time
    ensures 1 <= n <= DaysInMonth(t.date.year, t.date.month) ==>
              r.date == Date(t.date.year, t.date.month, n)
  {
    DateTime(Normalize(t.date.year, t.date.month, n), t.time)
  }

  /** `t.setMonth(t.getMonth() + 1)`: same day number in the next month, overflowing when that
      month is shorter; time of day kept. */
  function AddOneMonth(t: DateTime): (r: DateTime)
    ensures r.time == t.time
  {
    var n := NextMonth(t.date.year, t.date.month);
    DateTime(Normalize(n.0, n.1, t.date.day), t.time)
  }
}
