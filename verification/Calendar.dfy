/** The proleptic Gregorian calendar: days, leap years, and dates in order. */
module Calendar {

  /** Section 5.7 and Appendix C of RFC 3339: every fourth year, but of the centuries only every fourth. */
  predicate IsLeap(year: int) {
    year % 4 == 0 && (year % 100 != 0 || year % 400 == 0)
  }

  function Leap(year: int): (n: int) {
    if IsLeap(year) then 1 else 0
  }

  /** Days from the start of 1970 to the start of a year. */
  function DaysBeforeYear(year: int): int {
    365 * (year - 1970) + (year - 1) / 4 - (year - 1) / 100 + (year - 1) / 400 - 477
  }

  /** What makes the closed form right: it starts at 1970, and each year is as long as it should be. */
  lemma {:induction false} YearStep(year: int)
    ensures DaysBeforeYear(1970) == 0
    ensures DaysBeforeYear(year + 1) == DaysBeforeYear(year) + 365 + Leap(year)
  {
    NextMultiple(year, 4);
    NextMultiple(year, 100);
    NextMultiple(year, 400);
    LeapByMultiples(year);
  }

  /** The rule for leap years as a count of multiples. */
  lemma {:induction false} LeapByMultiples(year: int)
    ensures Leap(year)
            == (if year % 4 == 0 then 1 else 0) - (if year % 100 == 0 then 1 else 0)
               + (if year % 400 == 0 then 1 else 0)
  {
    if year % 400 == 0 {
      MultipleOf(year, 100, 4 * (year / 400));
    }
    if year % 100 == 0 {
      MultipleOf(year, 4, 25 * (year / 100));
    }
  }

  lemma {:induction false} MultipleOf(n: int, k: nat, m: int)
    requires (k == 4 || k == 100) && n == k * m
    ensures n % k == 0
  {
    assert k * (m - n / k) == n % k;
  }

  /** Counting multiples up to `n`. */
  lemma {:induction false} NextMultiple(n: int, k: nat)
    requires k == 4 || k == 100 || k == 400
    ensures n / k == (n - 1) / k + (if n % k == 0 then 1 else 0)
  {
  }

  lemma {:induction false} YearsApart(y: int, z: int)
    requires y < z
    ensures DaysBeforeYear(y) + 365 + Leap(y) <= DaysBeforeYear(z)
    decreases z - y
  {
    YearStep(z - 1);
    YearStep(y);
    if y < z - 1 {
      YearsApart(y, z - 1);
    }
  }

  const MONTH_DAYS: seq<int> := [31, 28, 31, 30, 31, 30, 31, 31, 30, 31, 30, 31]

  const DAYS_BEFORE: seq<int> := [0, 31, 59, 90, 120, 151, 181, 212, 243, 273, 304, 334]

  function DaysInMonth(year: int, month: int): int
    requires 1 <= month <= 12
  {
    MONTH_DAYS[month - 1] + (if month == 2 then Leap(year) else 0)
  }

  function DaysBeforeMonth(year: int, month: int): int
    requires 1 <= month <= 12
  {
    DAYS_BEFORE[month - 1] + (if month > 2 then Leap(year) else 0)
  }

  lemma {:induction false} MonthStep(year: int, month: int)
    requires 1 <= month <= 12
    ensures DaysBeforeMonth(year, 1) == 0
    ensures DaysBeforeMonth(year, month) + DaysInMonth(year, month)
            == if month < 12 then DaysBeforeMonth(year, month + 1) else 365 + Leap(year)
  {
  }

  lemma {:induction false} MonthsApart(year: int, m: int, n: int)
    requires 1 <= m < n <= 12
    ensures DaysBeforeMonth(year, m) + DaysInMonth(year, m) <= DaysBeforeMonth(year, n)
    decreases n - m
  {
    MonthStep(year, m);
    MonthStep(year, n - 1);
    if m < n - 1 {
      MonthsApart(year, m, n - 1);
    }
  }

  /** A date and a time of day in UTC. */
  datatype DateTime = DateTime(year: int, month: int, day: int, hour: int, minute: int, second: int, nanos: int)

  predicate OnCalendar(d: DateTime) {
    && 1 <= d.month <= 12
    && 1 <= d.day <= DaysInMonth(d.year, d.month)
    && 0 <= d.hour < 24 && 0 <= d.minute < 60 && 0 <= d.second < 60
    && 0 <= d.nanos < 1_000_000_000
  }

  function DayNumber(d: DateTime): int
    requires 1 <= d.month <= 12
  {
    DaysBeforeYear(d.year) + DaysBeforeMonth(d.year, d.month) + d.day - 1
  }

  /** Seconds from the start of 1970. */
  function Seconds(d: DateTime): int
    requires 1 <= d.month <= 12
  {
    86400 * DayNumber(d) + 3600 * d.hour + 60 * d.minute + d.second
  }

  /** The lengths of the months without a table: odd ones up to July and even ones after it have 31 days. */
  lemma {:induction false} MonthLengths(year: int, month: int)
    requires 1 <= month <= 12
    ensures DaysInMonth(year, month)
            == if month == 2 then (if IsLeap(year) then 29 else 28)
               else if (month <= 7 && month % 2 == 1) || (month > 7 && month % 2 == 0) then 31 else 30
  {
  }

  /** Midnight of the next day. */
  function NextDay(d: DateTime): DateTime
    requires OnCalendar(d)
  {
    if d.day < DaysInMonth(d.year, d.month) then d.(day := d.day + 1, hour := 0, minute := 0, second := 0)
    else if d.month < 12 then DateTime(d.year, d.month + 1, 1, 0, 0, 0, d.nanos)
    else DateTime(d.year + 1, 1, 1, 0, 0, 0, d.nanos)
  }

  /** One second later, carried over as clocks and calendars do. */
  function Tick(d: DateTime): DateTime
    requires OnCalendar(d)
  {
    if d.second < 59 then d.(second := d.second + 1)
    else if d.minute < 59 then d.(minute := d.minute + 1, second := 0)
    else if d.hour < 23 then d.(hour := d.hour + 1, minute := 0, second := 0)
    else NextDay(d)
  }

  lemma {:induction false} DaysCount(d: DateTime)
    requires OnCalendar(d)
    ensures OnCalendar(NextDay(d)) && DayNumber(NextDay(d)) == DayNumber(d) + 1
  {
    YearStep(d.year);
    MonthStep(d.year, d.month);
    MonthStep(d.year + 1, 1);
    hide DaysBeforeYear;
  }

  /** Seconds count the ticks since the start of 1970. */
  lemma {:induction false} SecondsCountTicks(d: DateTime)
    requires OnCalendar(d)
    ensures Seconds(DateTime(1970, 1, 1, 0, 0, 0, d.nanos)) == 0
    ensures OnCalendar(Tick(d)) && Seconds(Tick(d)) == Seconds(d) + 1
  {
    YearStep(1970);
    hide DaysBeforeYear;
    assert Seconds(DateTime(1970, 1, 1, 0, 0, 0, d.nanos)) == 0;
    hide DayNumber, DaysInMonth;
    DaysCount(d);
  }

  /** The derived order of dates: field by field. */
  predicate Before(a: DateTime, b: DateTime) {
    a.year < b.year || (a.year == b.year &&
    (a.month < b.month || (a.month == b.month &&
    (a.day < b.day || (a.day == b.day &&
    (a.hour < b.hour || (a.hour == b.hour &&
    (a.minute < b.minute || (a.minute == b.minute &&
    (a.second < b.second || (a.second == b.second &&
    a.nanos < b.nanos)))))))))))
  }

  /** The order of instants. */
  predicate Earlier(a: DateTime, b: DateTime)
    requires 1 <= a.month <= 12 && 1 <= b.month <= 12
  {
    Seconds(a) < Seconds(b) || (Seconds(a) == Seconds(b) && a.nanos < b.nanos)
  }

  lemma {:induction false} DaysInOrder(a: DateTime, b: DateTime)
    requires OnCalendar(a) && OnCalendar(b)
    requires a.year < b.year || (a.year == b.year && (a.month < b.month || (a.month == b.month && a.day < b.day)))
    ensures DayNumber(a) < DayNumber(b)
  {
    MonthStep(a.year, a.month);
    MonthStep(b.year, b.month);
    if a.month < 12 { MonthsApart(a.year, a.month, 12); MonthStep(a.year, 12); }
    if b.month > 1 { MonthsApart(b.year, 1, b.month); }
    if a.year < b.year {
      YearsApart(a.year, b.year);
    } else if a.month < b.month {
      MonthsApart(a.year, a.month, b.month);
    }
  }

  lemma {:induction false} EarlierIfBefore(a: DateTime, b: DateTime)
    requires OnCalendar(a) && OnCalendar(b) && Before(a, b)
    ensures Earlier(a, b)
  {
    if (a.year, a.month, a.day) != (b.year, b.month, b.day) {
      DaysInOrder(a, b);
    }
  }

  /** Dates are in order exactly when the instants are. */
  lemma {:induction false} OrderIsTimeOrder(a: DateTime, b: DateTime)
    requires OnCalendar(a) && OnCalendar(b)
    ensures Before(a, b) <==> Earlier(a, b)
    ensures Seconds(a) == Seconds(b) && a.nanos == b.nanos <==> a == b
  {
    if Before(a, b) {
      EarlierIfBefore(a, b);
    } else if Before(b, a) {
      EarlierIfBefore(b, a);
    }
  }

  // ---------- years that start in March ----------

  /** Days from the first of March 2000 to the first of March, `y` years later. */
  function MarchOffset(y: int): int {
    365 * y + y / 4 - y / 100 + y / 400
  }

  lemma {:induction false} MarchStart(y: int)
    ensures DaysBeforeYear(2000 + y) + 59 + Leap(2000 + y) == 11017 + MarchOffset(y)
    ensures DaysBeforeYear(2001 + y) - 306 == 11017 + MarchOffset(y)
  {
    YearStep(2000 + y);
    assert (2000 + y) / 4 == 500 + y / 4;
    assert (2000 + y) / 100 == 20 + y / 100;
    assert (2000 + y) / 400 == 5 + y / 400;
  }
}
