/** RFC 3339 timestamps and durations in seconds, printed and parsed. */
module Text {
  import opened Base
  import opened Machine
  import opened Calendar
  import opened Normalization
  import opened DateTimes

  // ---------- digits ----------

  predicate IsDigit(c: char) {
    '0' <= c <= '9'
  }

  predicate AllDigits(s: string) {
    forall i | 0 <= i < |s| :: IsDigit(s[i])
  }

  predicate Ascii(s: string) {
    forall i | 0 <= i < |s| :: s[i] < 128 as char
  }

  function Digit(n: nat): (c: char)
    requires n < 10
    ensures IsDigit(c)
  {
    ('0' as int + n) as char
  }

  /** `{:0w}`: decimal, padded with zeros to at least `width` digits. */
  function Decimal(n: nat, width: nat): (s: string)
    ensures |s| >= width && AllDigits(s)
    decreases n + width
  {
    if n == 0 && width == 0 then ""
    else Decimal(n / 10, if width == 0 then 0 else width - 1) + [Digit(n % 10)]
  }

  function DigitValue(c: char): nat
    requires IsDigit(c)
  {
    c as int - '0' as int
  }

  /** The number that digits stand for. */
  function Number(s: string): nat
    requires AllDigits(s)
  {
    if s == "" then 0 else 10 * Number(s[..|s| - 1]) + DigitValue(s[|s| - 1])
  }

  function Pow10(k: nat): (n: nat)
    ensures n > 0
  {
    if k == 0 then 1 else 10 * Pow10(k - 1)
  }

  lemma {:induction false} DecimalNumber(n: nat, width: nat)
    ensures Number(Decimal(n, width)) == n
    decreases n + width
  {
    if n > 0 || width > 0 {
      var w := if width == 0 then 0 else width - 1;
      DecimalNumber(n / 10, w);
      assert Decimal(n, width)[..|Decimal(n, width)| - 1] == Decimal(n / 10, w);
    }
  }

  /** More digits than the padding only for numbers that need them. */
  lemma {:induction false} DecimalLength(n: nat, width: nat)
    ensures n < Pow10(width) ==> |Decimal(n, width)| == width
    ensures n >= Pow10(width) ==> |Decimal(n, width)| > width
    decreases n + width
  {
    if width > 0 {
      DecimalLength(n / 10, width - 1);
      assert n < 10 * Pow10(width - 1) <==> n / 10 < Pow10(width - 1);
    }
  }

  // ---------- parsing: the pieces ----------

  function ParseDigits(s: string): (r: (string, string))
    ensures AllDigits(r.0)
  {
    if s == "" || !IsDigit(s[0]) then ("", s)
    else
      var (digits, rest) := ParseDigits(s[1..]);
      ([s[0]] + digits, rest)
  }

  predicate NoDigitFirst(s: string) {
    s == "" || !IsDigit(s[0])
  }

  lemma {:induction false} DigitsParse(digits: string, rest: string)
    requires AllDigits(digits) && NoDigitFirst(rest)
    ensures ParseDigits(digits + rest) == (digits, rest)
    decreases |digits|
  {
    if digits == "" {
      assert digits + rest == rest;
    } else {
      assert (digits + rest)[1..] == digits[1..] + rest;
      DigitsParse(digits[1..], rest);
      assert [digits[0]] + digits[1..] == digits;
    }
  }

  /** `str::parse` for numbers up to `max`. */
  function ParseNumber(digits: string, max: nat): Option<nat>
    requires AllDigits(digits)
  {
    if digits == "" || Number(digits) > max then None else Some(Number(digits))
  }

  function ParseChar(s: string, c: char): Option<string> {
    if s != "" && s[0] == c then Some(s[1..]) else None
  }

  function ParseCharIgnoreCase(s: string, upper: char, lower: char): Option<string> {
    if s != "" && (s[0] == upper || s[0] == lower) then Some(s[1..]) else None
  }

  function ParseTwoDigits(s: string): (r: Option<(nat, string)>)
    ensures r.Some? ==> r.value.0 < 100
  {
    if |s| < 2 || !IsDigit(s[0]) || !IsDigit(s[1]) then None
    else Some((10 * DigitValue(s[0]) + DigitValue(s[1]), s[2..]))
  }

  lemma {:induction false} TwoDigitsParse(n: nat, rest: string)
    requires n < 100
    ensures |Decimal(n, 2)| == 2
    ensures ParseTwoDigits(Decimal(n, 2) + rest) == Some((n, rest))
  {
    assert Decimal(n / 100, 0) == "";
    assert Decimal(n / 10, 1) == [Digit(n / 10)];
    assert Decimal(n, 2) == [Digit(n / 10), Digit(n % 10)];
    assert (Decimal(n, 2) + rest)[2..] == rest;
  }

  // ---------- parsing: timestamps ----------

  /** `+` and five or more digits, `-` and four or more, or just four digits. */
  function ParseYear(s: string): Option<(int, string)>
    requires s != ""
  {
    if s[0] == '+' then
      var (digits, rest) := ParseDigits(s[1..]);
      if |digits| < 5 then None
      else match ParseNumber(digits, I64_MAX) case None => None case Some(n) => Some((n, rest))
    else if s[0] == '-' then
      var (digits, rest) := ParseDigits(s[1..]);
      if |digits| < 4 then None
      else match ParseNumber(digits, I64_MAX) case None => None case Some(n) => Some((Signed(false, n), rest))
    else
      match ParseTwoDigits(s)
      case None => None
      case Some((n1, s1)) =>
        match ParseTwoDigits(s1)
        case None => None
        case Some((n2, s2)) => Some((100 * n1 + n2, s2))
  }

  /** A separator, then two digits. */
  function ParsePart(s: string, separator: char): Option<(nat, string)> {
    match ParseChar(s, separator)
    case None => None
    case Some(rest) => ParseTwoDigits(rest)
  }

  function ParseDate(s: string): Option<(int, nat, nat, string)> {
    if |s| < 10 then None
    else
      match ParseYear(s)
      case None => None
      case Some((year, s1)) =>
        match ParsePart(s1, '-')
        case None => None
        case Some((month, s2)) =>
          match ParsePart(s2, '-')
          case None => None
          case Some((day, s3)) => Some((year, month, day, s3))
  }

  /** The fraction of a second: nine digits count, and further ones are dropped. */
  function ParseNanos(s: string): (r: Option<(nat, string)>) {
    match ParseChar(s, '.')
    case None => Some((0, s))
    case Some(s1) =>
      var (all, rest) := ParseDigits(s1);
      var digits := if |all| > 9 then all[..9] else all;
      if digits == "" then None else Some((Pow10(9 - |digits|) * Number(digits), rest))
  }

  function ParseTime(s: string): Option<(nat, nat, nat, nat, string)> {
    match ParseTwoDigits(s)
    case None => None
    case Some((hour, s1)) =>
      match ParsePart(s1, ':')
      case None => None
      case Some((minute, s2)) =>
        match ParsePart(s2, ':')
        case None => None
        case Some((second, s3)) =>
          match ParseNanos(s3)
          case None => None
          case Some((nanos, s4)) => Some((hour, minute, second, nanos, s4))
  }

  /** The offset's minutes: none, or two digits after an optional colon. */
  function ParseOffsetMinutes(s: string): Option<(nat, string)> {
    if s == "" then Some((0, s))
    else ParseTwoDigits(match ParseChar(s, ':') case None => s case Some(rest) => rest)
  }

  function Signed(positive: bool, n: int): int {
    if positive then n else -n
  }

  /** The offset from UTC in hours and minutes; nothing at all means UTC. */
  function ParseOffset(s: string): Option<(int, int, string)> {
    if s == "" then Some((0, 0, s))
    else
      var s1 := match ParseChar(s, ' ') case None => s case Some(rest) => rest;
      match ParseCharIgnoreCase(s1, 'Z', 'z')
      case Some(rest) => Some((0, 0, rest))
      case None =>
        var plus := ParseChar(s1, '+');
        match (if plus.Some? then plus else ParseChar(s1, '-'))
        case None => None
        case Some(s2) =>
          match ParseTwoDigits(s2)
          case None => None
          case Some((hour, s3)) =>
            match ParseOffsetMinutes(s3)
            case None => None
            case Some((minute, s4)) =>
              if hour >= 24 || minute >= 60 then None
              else Some((Signed(plus.Some?, hour), Signed(plus.Some?, minute), s4))
  }

  /** `Timestamp::try_from`, as `ToTimestamp` computes it. */
  function FromDate(d: DateTime): Option<Span> {
    if Valid(d) then Some(Span(Seconds(d), d.nanos)) else None
  }

  /** The end of `parse_timestamp`: a leap second counts as the one before, and the offset is taken off. */
  function Finish(d: DateTime, offset: Option<(int, int, string)>): Option<Span> {
    match offset
    case None => None
    case Some((hours, minutes, rest)) =>
      if rest != "" then None
      else
        match FromDate(if d.second == 60 then d.(second := 59) else d)
        case None => None
        case Some(t) =>
          var seconds := t.seconds - (3600 * hours + 60 * minutes);
          if I64_MIN <= seconds <= I64_MAX then Some(Span(seconds, t.nanos)) else None
  }

  function ParseDateTime(date: (int, nat, nat, string)): Option<Span> {
    var (year, month, day, s) := date;
    if s == "" then FromDate(DateTime(year, month, day, 0, 0, 0, 0))
    else
      var t := ParseCharIgnoreCase(s, 'T', 't');
      match (if t.Some? then t else ParseChar(s, ' '))
      case None => None
      case Some(s1) =>
        match ParseTime(s1)
        case None => None
        case Some((hour, minute, second, nanos, s2)) =>
          Finish(DateTime(year, month, day, hour, minute, second, nanos), ParseOffset(s2))
  }

  function ParseTimestamp(s: string): Option<Span> {
    if !Ascii(s) then None
    else
      match ParseDate(s)
      case None => None
      case Some(date) => ParseDateTime(date)
  }

  // ---------- printing ----------

  function PrintYear(year: int): (s: string) {
    if year > 9999 then "+" + Decimal(year, 1)
    else if year < 0 then "-" + Decimal(-year, 4)
    else Decimal(year, 4)
  }

  function PrintNanos(nanos: nat): string {
    if nanos == 0 then ""
    else if nanos % 1_000_000 == 0 then "." + Decimal(nanos / 1_000_000, 3)
    else if nanos % 1_000 == 0 then "." + Decimal(nanos / 1_000, 6)
    else "." + Decimal(nanos, 9)
  }

  function Part(separator: char, n: nat): string {
    [separator] + Decimal(n, 2)
  }

  function PrintTime(d: DateTime): string
    requires OnCalendar(d)
  {
    Decimal(d.hour, 2) + (Part(':', d.minute) + (Part(':', d.second) + PrintNanos(d.nanos)))
  }

  /** A date and time without its offset. */
  function PrintLocal(d: DateTime): string
    requires OnCalendar(d)
  {
    PrintYear(d.year) + (Part('-', d.month) + (Part('-', d.day) + ("T" + PrintTime(d))))
  }

  /** `Display`. */
  function Print(d: DateTime): string
    requires OnCalendar(d)
  {
    PrintLocal(d) + "Z"
  }

  // ---------- what is printed parses ----------

  lemma {:induction false} YearParses(year: int, rest: string)
    requires -I64_MAX <= year <= I64_MAX && NoDigitFirst(rest)
    ensures |PrintYear(year)| >= 4
    ensures ParseYear(PrintYear(year) + rest) == Some((year, rest))
  {
    if year > 9999 {
      Powers();
      LongDecimal(year, 1, 4);
      LongYearParses('+', year, 1, rest);
    } else if year < 0 {
      LongYearParses('-', -year, 4, rest);
    } else {
      ShortYearParses(year, rest);
    }
  }

  lemma {:induction false} ShortYearParses(year: nat, rest: string)
    requires year <= 9999
    ensures ParseYear(Decimal(year, 4) + rest) == Some((year, rest))
  {
    FourDigits(year);
    Regroup(Decimal(year / 100, 2), Decimal(year % 100, 2), rest);
    PairParses(year, year / 100, year % 100, rest);
  }

  lemma {:induction false} PairParses(year: int, n1: nat, n2: nat, rest: string)
    requires n1 < 100 && n2 < 100 && year == 100 * n1 + n2
    ensures ParseYear(Decimal(n1, 2) + (Decimal(n2, 2) + rest)) == Some((year, rest))
  {
    TwoDigitsParse(n1, Decimal(n2, 2) + rest);
    TwoDigitsParse(n2, rest);
  }

  lemma {:induction false} LongYearParses(sign: char, n: nat, width: nat, rest: string)
    requires n <= I64_MAX && NoDigitFirst(rest)
    requires (sign == '+' && |Decimal(n, width)| >= 5) || (sign == '-' && |Decimal(n, width)| >= 4)
    ensures ParseYear(([sign] + Decimal(n, width)) + rest) == Some((Signed(sign == '+', n), rest))
  {
    var s := ([sign] + Decimal(n, width)) + rest;
    assert s[0] == sign && s[1..] == Decimal(n, width) + rest;
    DecimalNumber(n, width);
    DigitsParse(Decimal(n, width), rest);
  }

  lemma {:induction false} LongDecimal(n: nat, width: nat, digits: nat)
    requires n >= Pow10(digits)
    ensures |Decimal(n, width)| > digits
    decreases digits
  {
    if digits > 0 {
      LongDecimal(n / 10, if width == 0 then 0 else width - 1, digits - 1);
    }
  }

  lemma {:induction false} FourDigits(year: nat)
    requires year <= 9999
    ensures Decimal(year, 4) == Decimal(year / 100, 2) + Decimal(year % 100, 2)
  {
    assert Decimal(year, 4) == Decimal(year / 10, 3) + [Digit(year % 10)];
    assert Decimal(year / 10, 3) == Decimal(year / 10 / 10, 2) + [Digit(year / 10 % 10)];
    assert year / 10 / 10 == year / 100;
    assert Decimal(year % 100 / 10, 1) == [Digit(year % 100 / 10)];
    assert Decimal(year % 100, 2) == [Digit(year % 100 / 10), Digit(year % 10)];
  }

  lemma {:induction false} PartParses(separator: char, n: nat, rest: string)
    requires n < 100 && !IsDigit(separator)
    ensures ParsePart(Part(separator, n) + rest, separator) == Some((n, rest))
    ensures NoDigitFirst(Part(separator, n) + rest) && |Part(separator, n)| == 3
  {
    TwoDigitsParse(n, rest);
    assert (Part(separator, n) + rest)[1..] == Decimal(n, 2) + rest;
  }

  lemma {:induction false} NanosParse(nanos: nat, rest: string)
    requires nanos < 1_000_000_000 && NoDigitFirst(rest) && (rest == "" || rest[0] != '.')
    ensures ParseNanos(PrintNanos(nanos) + rest) == Some((nanos, rest))
    ensures NoDigitFirst(PrintNanos(nanos) + rest)
  {
    if nanos == 0 {
      assert PrintNanos(nanos) + rest == rest;
    } else if nanos % 1_000_000 == 0 {
      FractionParses(nanos / 1_000_000, 3, rest);
    } else if nanos % 1_000 == 0 {
      FractionParses(nanos / 1_000, 6, rest);
    } else {
      FractionParses(nanos, 9, rest);
    }
  }

  lemma {:induction false} Powers()
    ensures Pow10(0) == 1 && Pow10(4) == 10_000 && Pow10(3) == 1_000 && Pow10(6) == 1_000_000
    ensures Pow10(9) == 1_000_000_000
  {
    assert Pow10(1) == 10 && Pow10(2) == 100 && Pow10(4) == 10_000;
    assert Pow10(5) == 100_000 && Pow10(7) == 10_000_000 && Pow10(8) == 100_000_000;
  }

  lemma {:induction false} FractionParses(n: nat, width: nat, rest: string)
    requires width == 3 || width == 6 || width == 9
    requires (width == 3 ==> n < 1_000) && (width == 6 ==> n < 1_000_000) && (width == 9 ==> n < 1_000_000_000)
    requires NoDigitFirst(rest)
    ensures var scale := if width == 3 then 1_000_000 else if width == 6 then 1_000 else 1;
            ParseNanos(("." + Decimal(n, width)) + rest) == Some((scale * n, rest))
  {
    var s := ("." + Decimal(n, width)) + rest;
    assert s[0] == '.' && s[1..] == Decimal(n, width) + rest;
    Powers();
    DecimalNumber(n, width);
    DecimalLength(n, width);
    DigitsParse(Decimal(n, width), rest);
  }

  // ---------- round trips ----------

  /** What may follow a printed local time: an offset, and so neither a digit nor a fraction. */
  predicate OffsetFirst(s: string) {
    s != "" && !IsDigit(s[0]) && s[0] != '.'
  }

  lemma {:induction false} TimeParses(d: DateTime, rest: string)
    requires OnCalendar(d) && OffsetFirst(rest)
    ensures ParseTime(PrintTime(d) + rest) == Some((d.hour, d.minute, d.second, d.nanos, rest))
  {
    var s3 := PrintNanos(d.nanos) + rest;
    var s2 := Part(':', d.second) + s3;
    var s1 := Part(':', d.minute) + s2;
    assert PrintTime(d) + rest == Decimal(d.hour, 2) + s1;
    TwoDigitsParse(d.hour, s1);
    PartParses(':', d.minute, s2);
    PartParses(':', d.second, s3);
    NanosParse(d.nanos, rest);
  }

  lemma {:induction false} DateParses(d: DateTime, rest: string)
    requires Valid(d)
    ensures ParseDate(PrintYear(d.year) + (Part('-', d.month) + (Part('-', d.day) + rest)))
            == Some((d.year, d.month, d.day, rest))
  {
    YearInRange(d);
    var s2 := Part('-', d.day) + rest;
    var s1 := Part('-', d.month) + s2;
    PartParses('-', d.month, s2);
    PartParses('-', d.day, rest);
    YearParses(d.year, s1);
  }

  lemma {:induction false} YearInRange(d: DateTime)
    requires Valid(d)
    ensures -I64_MAX <= d.year <= I64_MAX
  {
    RangeByFields(d);
  }

  lemma {:induction false} JoinedIsAscii(s: string, t: string)
    requires Ascii(s) && Ascii(t)
    ensures Ascii(s + t)
  {
  }

  lemma {:induction false} DigitsAreAscii(s: string)
    requires AllDigits(s)
    ensures Ascii(s)
  {
  }

  lemma {:induction false} YearIsAscii(year: int)
    ensures Ascii(PrintYear(year))
  {
    hide Decimal;
    DigitsAreAscii(if year > 9999 then Decimal(year, 1) else if year < 0 then Decimal(-year, 4) else Decimal(year, 4));
  }

  lemma {:induction false} PartIsAscii(separator: char, n: nat)
    requires separator < 128 as char
    ensures Ascii(Part(separator, n))
  {
    hide Decimal;
    DigitsAreAscii(Decimal(n, 2));
  }

  lemma {:induction false} NanosAreAscii(nanos: nat)
    ensures Ascii(PrintNanos(nanos))
  {
    hide Decimal;
  }

  lemma {:induction false} TimeIsAscii(d: DateTime)
    requires OnCalendar(d)
    ensures Ascii(PrintTime(d))
  {
    hide Ascii, Decimal, Part, PrintNanos;
    var seconds := Part(':', d.second) + PrintNanos(d.nanos);
    DigitsAreAscii(Decimal(d.hour, 2));
    PartIsAscii(':', d.minute);
    PartIsAscii(':', d.second);
    NanosAreAscii(d.nanos);
    JoinedIsAscii(Part(':', d.second), PrintNanos(d.nanos));
    JoinedIsAscii(Part(':', d.minute), seconds);
    JoinedIsAscii(Decimal(d.hour, 2), Part(':', d.minute) + seconds);
  }

  lemma {:induction false} LocalIsAscii(d: DateTime, rest: string)
    requires OnCalendar(d) && Ascii(rest)
    ensures Ascii(PrintLocal(d) + rest)
  {
    var time := "T" + PrintTime(d);
    assert Ascii("T");
    hide Ascii, Part, PrintYear, PrintTime;
    YearIsAscii(d.year);
    PartIsAscii('-', d.month);
    PartIsAscii('-', d.day);
    TimeIsAscii(d);
    JoinedIsAscii("T", PrintTime(d));
    JoinedIsAscii(Part('-', d.day), time);
    JoinedIsAscii(Part('-', d.month), Part('-', d.day) + time);
    JoinedIsAscii(PrintYear(d.year), Part('-', d.month) + (Part('-', d.day) + time));
    JoinedIsAscii(PrintLocal(d), rest);
  }

  lemma {:induction false} DateTimeParses(d: DateTime, rest: string)
    requires OnCalendar(d) && OffsetFirst(rest)
    ensures ParseDateTime((d.year, d.month, d.day, "T" + (PrintTime(d) + rest))) == Finish(d, ParseOffset(rest))
  {
    var s := "T" + (PrintTime(d) + rest);
    assert ParseCharIgnoreCase(s, 'T', 't') == Some(PrintTime(d) + rest) by {
      assert s[1..] == PrintTime(d) + rest;
    }
    TimeParses(d, rest);
  }

  /** A printed local time, whatever offset follows it, is parsed to just that time and offset. */
  lemma {:induction false} LocalParses(d: DateTime, rest: string)
    requires Valid(d) && OffsetFirst(rest) && Ascii(rest)
    ensures ParseTimestamp(PrintLocal(d) + rest) == Finish(d, ParseOffset(rest))
  {
    LocalIsAscii(d, rest);
    var s := "T" + (PrintTime(d) + rest);
    assert ParseDate(PrintLocal(d) + rest) == Some((d.year, d.month, d.day, s)) by {
      LocalSplits(d, rest);
      DateParses(d, s);
    }
    DateTimeParses(d, rest);
  }

  lemma {:induction false} LocalSplits(d: DateTime, rest: string)
    requires OnCalendar(d)
    ensures PrintLocal(d) + rest
            == PrintYear(d.year) + (Part('-', d.month) + (Part('-', d.day) + ("T" + (PrintTime(d) + rest))))
  {
    Regroup(PrintYear(d.year), Part('-', d.month) + (Part('-', d.day) + ("T" + PrintTime(d))), rest);
    Regroup(Part('-', d.month), Part('-', d.day) + ("T" + PrintTime(d)), rest);
    Regroup(Part('-', d.day), "T" + PrintTime(d), rest);
    Regroup("T", PrintTime(d), rest);
  }

  /** Every valid date, and so every timestamp, is printed so that parsing gives it back. */
  lemma {:induction false} PrintedTimestampParses(d: DateTime)
    requires Valid(d)
    ensures ParseTimestamp(Print(d)) == Some(Span(Seconds(d), d.nanos))
  {
    LocalParses(d, "Z");
    ZuluParses();
    FinishWithOffset(d, true, 0, 0);
  }

  lemma {:induction false} ZuluParses()
    ensures ParseOffset("Z") == Some((0, 0, "")) && OffsetFirst("Z") && Ascii("Z")
  {
    assert "Z"[1..] == "";
  }

  function PrintOffset(positive: bool, hours: nat, minutes: nat): string {
    [if positive then '+' else '-'] + (Decimal(hours, 2) + Part(':', minutes))
  }

  /** A local time with its offset from UTC is the instant that much earlier, unless that is out of range. */
  lemma {:induction false} OffsetTimestampParses(d: DateTime, positive: bool, hours: nat, minutes: nat)
    requires Valid(d) && hours < 24 && minutes < 60
    ensures var seconds := Seconds(d) - Signed(positive, 3600 * hours + 60 * minutes);
            ParseTimestamp(PrintLocal(d) + PrintOffset(positive, hours, minutes))
            == if I64_MIN <= seconds <= I64_MAX then Some(Span(seconds, d.nanos)) else None
  {
    OffsetParses(positive, hours, minutes);
    LocalParses(d, PrintOffset(positive, hours, minutes));
    FinishWithOffset(d, positive, hours, minutes);
  }

  lemma {:induction false} FinishWithOffset(d: DateTime, positive: bool, hours: nat, minutes: nat)
    requires Valid(d)
    ensures var seconds := Seconds(d) - Signed(positive, 3600 * hours + 60 * minutes);
            Finish(d, Some((Signed(positive, hours), Signed(positive, minutes), "")))
            == if I64_MIN <= seconds <= I64_MAX then Some(Span(seconds, d.nanos)) else None
  {
  }

  lemma {:induction false} OffsetParses(positive: bool, hours: nat, minutes: nat)
    requires hours < 24 && minutes < 60
    ensures ParseOffset(PrintOffset(positive, hours, minutes))
            == Some((Signed(positive, hours), Signed(positive, minutes), ""))
    ensures OffsetFirst(PrintOffset(positive, hours, minutes)) && Ascii(PrintOffset(positive, hours, minutes))
  {
    var s := PrintOffset(positive, hours, minutes);
    assert s[1..] == Decimal(hours, 2) + Part(':', minutes);
    TwoDigitsParse(hours, Part(':', minutes));
    OffsetMinutesParse(minutes);
  }

  lemma {:induction false} OffsetMinutesParse(minutes: nat)
    requires minutes < 100
    ensures ParseOffsetMinutes(Part(':', minutes)) == Some((minutes, ""))
  {
    TwoDigitsParse(minutes, "");
    assert Part(':', minutes)[1..] == Decimal(minutes, 2) + "";
  }

  // ---------- durations ----------

  /** An `i64` as it is printed. */
  function PrintInt(n: int): string {
    if n < 0 then "-" + Decimal(-n, 1) else Decimal(n, 1)
  }

  /** `i64::abs`, which wraps around at the least value. */
  function WrappingAbs(n: int): int {
    if n == I64_MIN then n else if n < 0 then -n else n
  }

  function Abs(n: int): nat {
    if n < 0 then -n else n
  }

  function WithSign(negative: bool, s: string): string {
    if negative then "-" + s else s
  }

  function Magnitude(seconds: int, nanos: nat): string {
    PrintInt(seconds) + (PrintNanos(nanos) + "s")
  }

  /** `Display`: the magnitude in normal form, but the sign from before. */
  function PrintDuration(t: Span): string {
    var d := DurationNormal(t);
    WithSign(t.seconds < 0 || t.nanos < 0, Magnitude(WrappingAbs(d.seconds), Abs(d.nanos)))
  }

  function ParseMagnitude(s: string): Option<(nat, nat)> {
    var (digits, rest) := ParseDigits(s);
    match ParseNumber(digits, I64_MAX)
    case None => None
    case Some(seconds) =>
      match ParseNanos(rest)
      case None => None
      case Some((nanos, end)) => if end == "s" && nanos < 1_000_000_000 then Some((seconds, nanos)) else None
  }

  function ParseDuration(s: string): Option<Span> {
    if !Ascii(s) then None
    else
      var minus := ParseChar(s, '-');
      match ParseMagnitude(if minus.Some? then minus.value else s)
      case None => None
      case Some((seconds, nanos)) => Some(Span(Signed(minus.None?, seconds), Signed(minus.None?, nanos)))
  }

  lemma {:induction false} MagnitudeParses(seconds: nat, nanos: nat)
    requires seconds <= I64_MAX && nanos < 1_000_000_000
    ensures ParseMagnitude(Magnitude(seconds, nanos)) == Some((seconds, nanos))
  {
    var digits, rest := Decimal(seconds, 1), PrintNanos(nanos) + "s";
    NanosParse(nanos, "s");
    NumberParses(seconds);
    DigitsParse(digits, rest);
    MagnitudeOf(digits, rest, seconds, nanos);
  }

  lemma {:induction false} NumberParses(n: nat)
    requires n <= I64_MAX
    ensures ParseNumber(Decimal(n, 1), I64_MAX) == Some(n)
  {
    DecimalNumber(n, 1);
  }

  lemma {:induction false} MagnitudeOf(digits: string, rest: string, seconds: nat, nanos: nat)
    requires AllDigits(digits) && ParseDigits(digits + rest) == (digits, rest)
    requires ParseNumber(digits, I64_MAX) == Some(seconds)
    requires ParseNanos(rest) == Some((nanos, "s")) && nanos < 1_000_000_000
    ensures ParseMagnitude(digits + rest) == Some((seconds, nanos))
  {
  }

  lemma {:induction false} MagnitudeIsAscii(seconds: nat, nanos: nat)
    ensures Ascii(Magnitude(seconds, nanos)) && Magnitude(seconds, nanos) != "" && Magnitude(seconds, nanos)[0] != '-'
  {
    assert PrintInt(seconds) == Decimal(seconds, 1) && Ascii(Decimal(seconds, 1)) && IsDigit(Decimal(seconds, 1)[0]);
    NanosAreAscii(nanos);
  }

  /**
   * A printed duration is parsed back to its normal form exactly if that has not the least number of seconds,
   * which prints two signs, and is not positive where a negative part printed a sign.
   */
  lemma {:induction false} PrintedDurationParses(t: Span)
    requires I64_MIN <= t.seconds <= I64_MAX
    ensures var d := DurationNormal(t);
            ParseDuration(PrintDuration(t)) == Some(d)
            <==> d.seconds != I64_MIN && ((t.seconds >= 0 && t.nanos >= 0) || d.Total() <= 0)
  {
    var d := DurationNormal(t);
    DurationNormalForm(t);
    if d.seconds == I64_MIN {
      TwoSigns(t);
    } else {
      OneSign(t);
    }
  }

  /** For canonical durations only the least number of seconds is in the way. */
  lemma {:induction false} PrintedCanonicalDurationParses(d: Span)
    requires DurationCanonical(d) && I64_MIN <= d.seconds <= I64_MAX
    ensures ParseDuration(PrintDuration(d)) == Some(d) <==> d.seconds != I64_MIN
  {
    DurationNormalForm(d);
    PrintedDurationParses(d);
  }

  lemma {:induction false} OneSign(t: Span)
    requires I64_MIN <= t.seconds <= I64_MAX && DurationNormal(t).seconds != I64_MIN
    ensures var d := DurationNormal(t);
            ParseDuration(PrintDuration(t)) == Some(d) <==> (t.seconds >= 0 && t.nanos >= 0) || d.Total() <= 0
  {
    var d := DurationNormal(t);
    DurationNormalForm(t);
    var negative := t.seconds < 0 || t.nanos < 0;
    var seconds, nanos := WrappingAbs(d.seconds), Abs(d.nanos);
    var body := Magnitude(seconds, nanos);
    MagnitudeParses(seconds, nanos);
    MagnitudeIsAscii(seconds, nanos);
    SignParses(negative, body, seconds, nanos);
    assert d == Span(Signed(!negative, seconds), Signed(!negative, nanos)) <==> !negative || d.Total() <= 0;
  }

  lemma {:induction false} SignParses(negative: bool, body: string, seconds: nat, nanos: nat)
    requires Ascii(body) && body != "" && body[0] != '-' && ParseMagnitude(body) == Some((seconds, nanos))
    ensures ParseDuration(WithSign(negative, body)) == Some(Span(Signed(!negative, seconds), Signed(!negative, nanos)))
  {
    assert ("-" + body)[1..] == body;
  }

  lemma {:induction false} TwoSigns(t: Span)
    requires I64_MIN <= t.seconds <= I64_MAX && DurationNormal(t).seconds == I64_MIN
    ensures ParseDuration(PrintDuration(t)).None?
  {
    DurationNormalForm(t);
    var s := PrintDuration(t);
    assert s[0] == '-' && s[1] == '-';
    assert ParseDigits(s[1..]).0 == "";
  }
}
