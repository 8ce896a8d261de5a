/** Timestamps to calendar dates and back, in machine arithmetic. */
module DateTimes {
  import opened Base
  import opened Machine
  import opened Calendar
  import opened Normalization

  const EARLIEST := DateTime(-292_277_022_657, 1, 27, 8, 29, 52, 0)
  const LATEST := DateTime(292_277_026_596, 12, 4, 15, 30, 7, 999_999_999)

  // ---------- the start of a year ----------

  /** `year_to_seconds`: a fast path for the years around now, and cycles of 400 years for the others. */
  method YearToSeconds(year: i64) returns (seconds: i128, isLeap: bool)
    requires EARLIEST.year <= year as int <= LATEST.year
    ensures seconds as int == 86400 * DaysBeforeYear(year as int)
    ensures isLeap == IsLeap(year as int)
  {
    var y: i64 := year - 1900;
    if 1 <= y <= 138 {
      var leaps: i64 := (y - 68) / 4;
      if (y - 68) % 4 == 0 {
        leaps := leaps - 1;
        isLeap := true;
      } else {
        isLeap := false;
      }
      FastPath(year as int);
      return (31_536_000 * (y - 70) + 86400 * leaps) as i128, isLeap;
    }
    seconds, isLeap := YearByCycles(year);
  }

  method YearByCycles(year: i64) returns (seconds: i128, isLeap: bool)
    requires EARLIEST.year <= year as int <= LATEST.year
    ensures seconds as int == 86400 * DaysBeforeYear(year as int)
    ensures isLeap == IsLeap(year as int)
  {
    var y: i64 := year - 1900;
    var cycles: i64 := Quot(y as int - 100, 400) as i64;
    var rem: i64 := Rem(y as int - 100, 400) as i64;
    if rem < 0 {
      cycles := cycles - 1;
      rem := rem + 400;
    }
    var centuries: i64, leaps: i64;
    centuries, leaps, isLeap := WithinCycle(rem);
    leaps := leaps + 97 * cycles + 24 * centuries - (if isLeap then 1 else 0);
    GeneralPath(year as int, cycles as int, rem as int, centuries as int);
    seconds := ((y - 100) * 31_536_000) as i128 + (leaps * 86400 + 946_684_800 + 86400) as i128;
  }

  /** Where a year lies in its cycle of 400: its century, and the leap years of that century up to it. */
  method WithinCycle(year: i64) returns (centuries: i64, leaps: i64, isLeap: bool)
    requires 0 <= year < 400
    ensures centuries as int == year as int / 100 && leaps as int == (year as int % 100) / 4
    ensures isLeap == IsLeap(year as int)
  {
    var rem: i64 := year;
    if rem == 0 {
      return 0, 0, true;
    }
    if rem >= 200 {
      if rem >= 300 {
        centuries := 3;
        rem := rem - 300;
      } else {
        centuries := 2;
        rem := rem - 200;
      }
    } else if rem >= 100 {
      centuries := 1;
      rem := rem - 100;
    } else {
      centuries := 0;
    }
    CenturyOf(year as int, centuries as int, rem as int);
    if rem == 0 {
      isLeap := false;
      leaps := 0;
    } else {
      leaps := rem / 4;
      rem := rem % 4;
      isLeap := rem == 0;
    }
  }

  lemma {:induction false} CenturyOf(year: int, century: int, rem: int)
    requires 0 < year < 400 && year == 100 * century + rem && 0 <= rem < 100
    ensures year / 100 == century && year % 100 == rem
    ensures IsLeap(year) <==> rem > 0 && rem % 4 == 0
  {
    assert year % 4 == rem % 4;
  }

  lemma {:induction false} FastPath(year: int)
    requires 1901 <= year <= 2038
    ensures IsLeap(year) <==> (year - 1968) % 4 == 0
    ensures DaysBeforeYear(year) == 365 * (year - 1970) + (year - 1968) / 4 - Leap(year)
  {
    NextMultiple(year, 4);
    assert (year - 1968) / 4 == year / 4 - 492 && (year - 1968) % 4 == year % 4;
    if year <= 2000 {
      assert (year - 1) / 100 == 19 && (year - 1) / 400 == 4;
    } else {
      assert (year - 1) / 100 == 20 && (year - 1) / 400 == 5;
    }
  }

  lemma {:induction false} GeneralPath(year: int, cycles: int, rem: int, centuries: int)
    requires year - 2000 == 400 * cycles + rem && 0 <= rem < 400 && centuries == rem / 100
    ensures IsLeap(year) <==> IsLeap(rem)
    ensures DaysBeforeYear(year)
            == 365 * (year - 2000) + (rem % 100) / 4 + 97 * cycles + 24 * centuries - Leap(year) + 10957 + 1
  {
    MarchStart(year - 2000);
    assert (year - 2000) / 400 == cycles;
    assert (year - 2000) / 100 == 4 * cycles + centuries;
    assert (year - 2000) / 4 == 100 * cycles + rem / 4;
    assert rem / 4 == 25 * centuries + (rem % 100) / 4;
  }

  // ---------- dates to seconds ----------

  /** `days_in_month`. */
  method DaysIn(year: i64, month: int) returns (days: int)
    requires EARLIEST.year <= year as int <= LATEST.year && 1 <= month <= 12
    ensures days == DaysInMonth(year as int, month)
  {
    var _, isLeap := YearToSeconds(year);
    days := MONTH_DAYS[month - 1] + (if isLeap && month == 2 then 1 else 0);
  }

  /** On the calendar, and within what a timestamp can represent. */
  predicate Valid(d: DateTime) {
    OnCalendar(d) && I64_MIN <= Seconds(d) <= I64_MAX
  }

  lemma {:induction false} RangeEnds()
    ensures OnCalendar(EARLIEST) && Seconds(EARLIEST) == I64_MIN
    ensures OnCalendar(LATEST) && Seconds(LATEST) == I64_MAX
  {
  }

  /** Comparing with the first and the last date field by field is checking the range of seconds. */
  lemma {:induction false} RangeByFields(d: DateTime)
    requires OnCalendar(d)
    ensures !Before(d, EARLIEST) && !Before(LATEST, d) <==> I64_MIN <= Seconds(d) <= I64_MAX
  {
    RangeEnds();
    OrderIsTimeOrder(d, EARLIEST);
    OrderIsTimeOrder(LATEST, d);
  }

  method IsValid(d: DateTime) returns (valid: bool)
    ensures valid <==> Valid(d)
  {
    if OnCalendar(d) {
      RangeByFields(d);
    }
    if Before(d, EARLIEST) || Before(LATEST, d) {
      return false;
    }
    if !(1 <= d.month <= 12) {
      return false;
    }
    var days := DaysIn(d.year as i64, d.month);
    return 1 <= d.day <= days && 0 <= d.hour < 24 && 0 <= d.minute < 60 && 0 <= d.second < 60
      && 0 <= d.nanos < 1_000_000_000;
  }

  const SECS_THROUGH_MONTH: seq<uint32> := [
    0, 31 * 86400, 59 * 86400, 90 * 86400, 120 * 86400, 151 * 86400, 181 * 86400, 212 * 86400,
    243 * 86400, 273 * 86400, 304 * 86400, 334 * 86400
  ]

  function MonthToSeconds(month: int, isLeap: bool): (r: uint32)
    requires 1 <= month <= 12
    ensures forall year | IsLeap(year) == isLeap :: r as int == 86400 * DaysBeforeMonth(year, month)
  {
    var t := SECS_THROUGH_MONTH[month - 1];
    if isLeap && month > 2 then t + 86400 else t
  }

  method DateTimeToSeconds(d: DateTime) returns (seconds: i64)
    requires Valid(d)
    ensures seconds as int == Seconds(d)
  {
    RangeByFields(d);
    var startOfYear, isLeap := YearToSeconds(d.year as i64);
    var withinYear := SecondsWithinYear(d, isLeap);
    return (startOfYear + withinYear as i128) as i64;
  }

  method SecondsWithinYear(d: DateTime, isLeap: bool) returns (r: uint32)
    requires OnCalendar(d) && isLeap == IsLeap(d.year)
    ensures r as int == Seconds(d) - 86400 * DaysBeforeYear(d.year)
  {
    var month := MonthToSeconds(d.month, isLeap);
    r := month + 86400 * (d.day - 1) as uint32 + 3600 * d.hour as uint32 + 60 * d.minute as uint32 + d.second as uint32;
  }

  /** `Timestamp::try_from`. */
  method ToTimestamp(d: DateTime) returns (t: Option<Span>)
    ensures t == if Valid(d) then Some(Span(Seconds(d), d.nanos)) else None
  {
    var valid := IsValid(d);
    if !valid {
      return None;
    }
    var seconds := DateTimeToSeconds(d);
    return Some(Span(seconds as int, d.nanos));
  }

  // ---------- seconds to dates ----------

  /** The one date of a canonical timestamp. */
  ghost predicate DateOf(t: Span, d: DateTime) {
    Valid(d) && Seconds(d) == t.seconds && d.nanos == t.nanos
  }

  lemma {:induction false} DateUnique(t: Span, a: DateTime, b: DateTime)
    requires DateOf(t, a) && DateOf(t, b)
    ensures a == b
  {
    OrderIsTimeOrder(a, b);
  }

  const LEAPOCH: i64 := 946_684_800 + 86400 * (31 + 29)
  const DAYS_PER_400Y: i32 := 365 * 400 + 97
  const DAYS_PER_100Y: i32 := 365 * 100 + 24
  const DAYS_PER_4Y: i32 := 365 * 4 + 1

  /** Splits days since the first of March 2000 into whole years since then and days into the last. */
  method SplitYears(days: i64) returns (years: i64, remdays: i32)
    requires -0x8000_0000 * 146_097 < days as int < 0x7FFF_FFFF * 146_097
    ensures days as int == MarchOffset(years as int) + remdays as int
    ensures 0 <= remdays as int < 365 + Leap(2001 + years as int)
    ensures -0x8000_0000 * 400 <= years as int <= 0x8000_0000 * 400
  {
    var qcCycles: i32 := Quot(days as int, DAYS_PER_400Y as int) as i32;
    remdays := Rem(days as int, DAYS_PER_400Y as int) as i32;
    if remdays < 0 {
      remdays := remdays + DAYS_PER_400Y;
      qcCycles := qcCycles - 1;
    }
    var cCycles: i32, qCycles: i32, remyears: i32;
    cCycles, qCycles, remyears, remdays := SplitCycle(remdays);
    years := remyears as i64 + 4 * qCycles as i64 + 100 * cCycles as i64 + 400 * qcCycles as i64;
    CyclesAddUp(qcCycles as int, cCycles as int, qCycles as int, remyears as int);
  }

  /** The centuries, groups of four years, and years in a cycle of 400 years; the last of each is a day longer. */
  method SplitCycle(days: i32) returns (cCycles: i32, qCycles: i32, remyears: i32, remdays: i32)
    requires 0 <= days < DAYS_PER_400Y
    ensures 0 <= cCycles < 4 && 0 <= qCycles < 25 && 0 <= remyears < 4
    ensures days as int == 36524 * cCycles as int + 1461 * qCycles as int + 365 * remyears as int + remdays as int
    ensures 0 <= remdays <= 365 && (remdays == 365 ==> remyears == 3 && (qCycles < 24 || cCycles == 3))
  {
    remdays := days;
    cCycles := remdays / DAYS_PER_100Y;
    if cCycles == 4 {
      cCycles := cCycles - 1;
    }
    remdays := remdays - cCycles * DAYS_PER_100Y;
    qCycles, remyears, remdays := SplitCentury(remdays);
  }

  /** Within a century the quotient stays below 25 by itself, so the correction changes nothing. */
  method SplitCentury(days: i32) returns (qCycles: i32, remyears: i32, remdays: i32)
    requires 0 <= days <= DAYS_PER_100Y + 1
    ensures 0 <= qCycles < 25 && 0 <= remyears < 4
    ensures days <= DAYS_PER_100Y ==> days / DAYS_PER_4Y < 25 && qCycles == days / DAYS_PER_4Y
    ensures days as int == 1461 * qCycles as int + 365 * remyears as int + remdays as int
    ensures 0 <= remdays && (days <= DAYS_PER_100Y ==> remdays <= 365)
    ensures remdays >= 365 ==> remyears == 3 && (qCycles < 24 || days >= DAYS_PER_100Y)
  {
    remdays := days;
    qCycles := remdays / DAYS_PER_4Y;
    if qCycles == 25 {
      qCycles := qCycles - 1;
    }
    remdays := remdays - qCycles * DAYS_PER_4Y;
    remyears := remdays / 365;
    if remyears == 4 {
      remyears := remyears - 1;
    }
    remdays := remdays - remyears * 365;
  }

  lemma {:induction false} CyclesAddUp(qc: int, c: int, q: int, r: int)
    requires 0 <= c < 4 && 0 <= q < 25 && 0 <= r < 4
    ensures var y := r + 4 * q + 100 * c + 400 * qc;
            && MarchOffset(y) == 365 * r + 1461 * q + 36524 * c + 146_097 * qc
            && (IsLeap(2001 + y) <==> r == 3 && (q < 24 || c == 3))
  {
    var y := r + 4 * q + 100 * c + 400 * qc;
    assert y / 4 == q + 25 * c + 100 * qc;
    assert y / 100 == c + 4 * qc;
    assert y / 400 == qc;
    LeapAtEnd(qc, c, q, r);
  }

  /** The last year of a cycle, and of a group of four that is not the last of its century, ends with a leap day. */
  lemma {:induction false} LeapAtEnd(qc: int, c: int, q: int, r: int)
    requires 0 <= c < 4 && 0 <= q < 25 && 0 <= r < 4
    ensures IsLeap(2001 + r + 4 * q + 100 * c + 400 * qc) <==> r == 3 && (q < 24 || c == 3)
  {
    var year := 2001 + r + 4 * q + 100 * c + 400 * qc;
    if r < 3 {
      Remainder(year, 4, 500 + q + 25 * c + 100 * qc, 1 + r);
    } else {
      Remainder(year, 4, 501 + q + 25 * c + 100 * qc, 0);
      if q < 24 {
        Remainder(year, 100, 20 + c + 4 * qc, 4 + 4 * q);
      } else {
        Remainder(year, 100, 21 + c + 4 * qc, 0);
        if c < 3 {
          Remainder(year, 400, 5 + qc, 100 + 100 * c);
        } else {
          Remainder(year, 400, 6 + qc, 0);
        }
      }
    }
  }

  lemma {:induction false} Remainder(n: int, d: int, k: int, m: int)
    requires (d == 4 || d == 100 || d == 400) && 0 <= m < d && n == d * k + m
    ensures n % d == m
  {
  }

  const MARCH_MONTH_DAYS: seq<i32> := [31, 30, 31, 30, 31, 31, 30, 31, 30, 31, 31, 29]

  /** Days from the first of March to the first of the month that comes `m` months later. */
  const MARCH_STARTS: seq<int> := [0, 31, 61, 92, 122, 153, 184, 214, 245, 275, 306, 337, 366]

  /** Months since March, and the day within the last of them. */
  method SplitMonths(days: i32) returns (months: i32, remdays: i32)
    requires 0 <= days <= 365
    ensures 0 <= months < 12 && 0 <= remdays < MARCH_MONTH_DAYS[months as int]
    ensures days as int == MARCH_STARTS[months as int] + remdays as int
  {
    months, remdays := 0, days;
    while MARCH_MONTH_DAYS[months as int] <= remdays
      invariant 0 <= months < 12 && 0 <= remdays
      invariant days as int == MARCH_STARTS[months as int] + remdays as int
      decreases 12 - months
    {
      remdays := remdays - MARCH_MONTH_DAYS[months as int];
      months := months + 1;
    }
  }

  /** A month counted from March is a month of that year, or of the next. */
  lemma {:induction false} MonthFromMarch(year: int, m: nat)
    requires m < 12
    ensures m < 10 ==> DaysBeforeMonth(year, m + 3) == 59 + Leap(year) + MARCH_STARTS[m]
    ensures m >= 10 ==> DaysBeforeMonth(year + 1, m - 9) == MARCH_STARTS[m] - 306
    ensures m < 11 ==>
        MARCH_MONTH_DAYS[m] as int == DaysInMonth(if m < 10 then year else year + 1, if m < 10 then m + 3 else m - 9)
  {
  }

  /** `DateTime::from`, for a timestamp that may still have to be normalized. */
  method FromTimestamp(timestamp: Timestamp) returns (d: DateTime)
    modifies timestamp
    ensures DateOf(TimestampNormal(old(timestamp.Value())), d)
  {
    TimestampNormalForm(timestamp.Value());
    timestamp.Normalize();
    d := FromSeconds(timestamp.seconds, timestamp.nanos);
  }

  method FromSeconds(t: i64, nanos: i32) returns (d: DateTime)
    requires 0 <= nanos < 1_000_000_000
    ensures DateOf(Span(t as int, nanos as int), d)
  {
    var days: i64, remsecs: i32;
    days, remsecs := SplitDays(t);
    d := FromDays(days);
    d := d.(hour := (remsecs / 3600) as int, minute := (remsecs / 60 % 60) as int, second := (remsecs % 60) as int,
            nanos := nanos as int);
    TimeOfDay(remsecs as int);
  }

  lemma {:induction false} TimeOfDay(s: int)
    requires 0 <= s < 86_400
    ensures 3600 * (s / 3600) + 60 * (s / 60 % 60) + s % 60 == s && s / 3600 < 24
  {
  }

  /** Days since the first of March 2000, and seconds within the day. */
  method SplitDays(t: i64) returns (days: i64, remsecs: i32)
    ensures t as int == 86_400 * (days as int + 11_017) + remsecs as int && 0 <= remsecs < 86_400
  {
    days := Quot(t as int, 86_400) as i64 - LEAPOCH / 86_400;
    remsecs := Rem(t as int, 86_400) as i32;
    if remsecs < 0 {
      remsecs := remsecs + 86_400;
      days := days - 1;
    }
  }

  /** The date, at midnight. */
  method FromDays(days: i64) returns (d: DateTime)
    requires -0x8000_0000 * 146_097 < days as int < 0x7FFF_FFFF * 146_097
    ensures 1 <= d.month <= 12 && 1 <= d.day <= DaysInMonth(d.year, d.month)
    ensures DayNumber(d) == 11_017 + days as int
  {
    var years: i64, remdays: i32, months: i32;
    years, remdays := SplitYears(days);
    ghost var dayOfYear := remdays as int;
    months, remdays := SplitMonths(remdays);
    ghost var m, y := months as nat, years as int;
    if months >= 10 {
      months := months - 12;
      years := years + 1;
    }
    d := DateTime(years as int + 2000, months as int + 3, remdays as int + 1, 0, 0, 0, 0);
    DayFromMarch(y, m, dayOfYear, d);
  }

  lemma {:induction false} DayFromMarch(y: int, m: nat, dayOfYear: int, d: DateTime)
    requires m < 12 && 0 <= dayOfYear < 365 + Leap(2001 + y)
    requires 0 <= dayOfYear - MARCH_STARTS[m] < MARCH_MONTH_DAYS[m] as int
    requires d.year == (if m < 10 then 2000 + y else 2001 + y) && d.month == (if m < 10 then m + 3 else m - 9)
    requires d.day == dayOfYear - MARCH_STARTS[m] + 1
    ensures 1 <= d.month <= 12 && 1 <= d.day <= DaysInMonth(d.year, d.month)
    ensures DayNumber(d) == 11017 + MarchOffset(y) + dayOfYear
  {
    MarchStart(y);
    MonthFromMarch(2000 + y, m);
  }

  // ---------- both trips ----------

  /** From a timestamp to its date and back: the timestamp in normal form. */
  method TimestampRoundTrip(timestamp: Timestamp) returns (t: Option<Span>)
    modifies timestamp
    ensures t == Some(TimestampNormal(old(timestamp.Value())))
  {
    var d := FromTimestamp(timestamp);
    t := ToTimestamp(d);
  }

  /** From a valid date to its timestamp and back: the same date. */
  method DateRoundTrip(d: DateTime) returns (e: DateTime)
    requires Valid(d)
    ensures e == d
  {
    var t := ToTimestamp(d);
    var timestamp := new Timestamp(t.value.seconds as i64, t.value.nanos as i32);
    TimestampNormalForm(t.value);
    e := FromTimestamp(timestamp);
    DateUnique(t.value, d, e);
  }
}
