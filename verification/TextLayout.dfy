/** What timestamps and durations look like, character by character, and exactly which texts are read as one. */
module TextLayout {
  import opened Base
  import opened Machine
  import opened Calendar
  import opened Normalization
  import opened DateTimes
  import opened Text

  // ---------- digits ----------

  /** What a digit is worth in front of `k` others. */
  function Worth(c: char, k: nat): nat
    requires IsDigit(c)
  {
    (c as int - '0' as int) * Pow10(k)
  }

  /** The number that digits stand for, each worth its power of ten. */
  function DecimalValue(s: string): nat
    requires AllDigits(s)
  {
    if s == "" then 0 else Worth(s[0], |s| - 1) + DecimalValue(s[1..])
  }

  lemma {:induction false} OneMoreDigit(s: string, c: char)
    requires AllDigits(s) && IsDigit(c)
    ensures DecimalValue(s + [c]) == 10 * DecimalValue(s) + (c as int - '0' as int)
    decreases |s|
  {
    if s == "" {
      assert [c][1..] == "" && s + [c] == [c];
    } else {
      hide Pow10;
      assert (s + [c])[1..] == s[1..] + [c];
      OneMoreDigit(s[1..], c);
      OnePlaceUp(s[0], |s| - 1);
    }
  }

  lemma {:induction false} OnePlaceUp(c: char, k: nat)
    requires IsDigit(c)
    ensures Worth(c, k + 1) == 10 * Worth(c, k)
  {
    TenTimes(c as int - '0' as int, Pow10(k));
  }

  lemma {:induction false} TenTimes(d: nat, p: nat)
    ensures d * (10 * p) == 10 * (d * p)
  {
  }

  lemma {:induction false} NumberIsDecimal(s: string)
    requires AllDigits(s)
    ensures Number(s) == DecimalValue(s)
    decreases |s|
  {
    if s != "" {
      var init := s[..|s| - 1];
      NumberIsDecimal(init);
      OneMoreDigit(init, s[|s| - 1]);
      assert init + [s[|s| - 1]] == s;
    }
  }

  function Negated(minus: bool, n: int): int {
    if minus then -n else n
  }

  /** Two digits. */
  predicate Two(s: string) {
    |s| == 2 && IsDigit(s[0]) && IsDigit(s[1])
  }

  function TwoValue(s: string): (n: nat)
    requires Two(s)
    ensures n < 100
  {
    10 * (s[0] as int - '0' as int) + (s[1] as int - '0' as int)
  }

  // ---------- what is printed ----------

  /** Two digits at `i` are worth `n`. */
  predicate TwoAt(s: string, i: nat, n: int) {
    && i + 2 <= |s| && IsDigit(s[i]) && IsDigit(s[i + 1])
    && n == 10 * (s[i] as int - '0' as int) + (s[i + 1] as int - '0' as int)
  }

  /** Four digits for the years 0 to 9999; otherwise a sign, at least four digits, and zeros only to make up four. */
  predicate YearLaid(s: string, year: int) {
    if 0 <= year <= 9999 then |s| == 4 && AllDigits(s) && DecimalValue(s) == year
    else
      && |s| >= 5 && s[0] == (if year < 0 then '-' else '+') && AllDigits(s[1..])
      && DecimalValue(s[1..]) == (if year < 0 then -year else year)
      && (|s| == 5 || s[1] != '0')
  }

  /** Nothing, or a point and 3, 6 or 9 digits, as few as will do. */
  predicate FractionLaid(s: string, nanos: int) {
    if nanos == 0 then s == ""
    else
      var n := if nanos % 1_000_000 == 0 then 3 else if nanos % 1_000 == 0 then 6 else 9;
      && |s| == n + 1 && s[0] == '.' && AllDigits(s[1..])
      && DecimalValue(s[1..]) * Pow10(9 - n) == nanos
  }

  /** The layout of RFC 3339, section 5.6, behind a year of `n` characters. */
  predicate Laid(s: string, n: nat, d: DateTime) {
    && n + 16 <= |s| && YearLaid(s[..n], d.year)
    && s[n] == '-' && TwoAt(s, n + 1, d.month) && s[n + 3] == '-' && TwoAt(s, n + 4, d.day)
    && s[n + 6] == 'T' && TwoAt(s, n + 7, d.hour) && s[n + 9] == ':' && TwoAt(s, n + 10, d.minute)
    && s[n + 12] == ':' && TwoAt(s, n + 13, d.second)
    && FractionLaid(s[n + 15..|s| - 1], d.nanos) && s[|s| - 1] == 'Z'
  }

  lemma {:induction false} DecimalLaid(n: nat, width: nat)
    ensures AllDigits(Decimal(n, width)) && DecimalValue(Decimal(n, width)) == n
    ensures |Decimal(n, width)| > width && n > 0 ==> Decimal(n, width)[0] != '0'
    decreases n + width
  {
    DecimalNumber(n, width);
    NumberIsDecimal(Decimal(n, width));
    NoLeadingZero(n, width);
  }

  lemma {:induction false} NoLeadingZero(n: nat, width: nat)
    ensures |Decimal(n, width)| > width && n > 0 ==> Decimal(n, width)[0] != '0'
    decreases n + width
  {
    if n > 0 {
      var w := if width == 0 then 0 else width - 1;
      NoLeadingZero(n / 10, w);
      if n / 10 == 0 {
        DecimalZero(w);
      } else {
        DecimalNonEmpty(n / 10, w);
      }
    }
  }

  lemma {:induction false} DecimalNonEmpty(n: nat, width: nat)
    requires n > 0
    ensures Decimal(n, width) != ""
  {
  }

  lemma {:induction false} DecimalZero(width: nat)
    ensures |Decimal(0, width)| == width
    decreases width
  {
    if width > 0 {
      DecimalZero(width - 1);
    }
  }

  lemma {:induction false} PairLaid(n: nat)
    requires n < 100
    ensures Two(Decimal(n, 2)) && TwoValue(Decimal(n, 2)) == n
  {
    TwoDigitsParse(n, "");
    assert Decimal(n, 2) + "" == Decimal(n, 2);
  }

  lemma {:induction false} YearIsLaid(year: int)
    ensures YearLaid(PrintYear(year), year)
  {
    Powers();
    if year > 9999 {
      LongDecimal(year, 1, 4);
      DecimalLaid(year, 1);
      assert PrintYear(year)[1..] == Decimal(year, 1);
    } else if year < 0 {
      DecimalLaid(-year, 4);
      DecimalLength(-year, 4);
      assert PrintYear(year)[1..] == Decimal(-year, 4);
    } else {
      DecimalLaid(year, 4);
      DecimalLength(year, 4);
    }
  }

  lemma {:induction false} FractionIsLaid(nanos: nat)
    requires nanos < 1_000_000_000
    ensures FractionLaid(PrintNanos(nanos), nanos)
  {
    Powers();
    if nanos == 0 {
    } else if nanos % 1_000_000 == 0 {
      OneFraction(nanos / 1_000_000, 3);
    } else if nanos % 1_000 == 0 {
      OneFraction(nanos / 1_000, 6);
    } else {
      OneFraction(nanos, 9);
    }
  }

  lemma {:induction false} OneFraction(n: nat, width: nat)
    requires n < Pow10(width)
    ensures var s := "." + Decimal(n, width);
            |s| == width + 1 && s[0] == '.' && AllDigits(s[1..]) && DecimalValue(s[1..]) == n
  {
    DecimalLength(n, width);
    DecimalLaid(n, width);
    assert ("." + Decimal(n, width))[1..] == Decimal(n, width);
  }

  /** A date is printed in the layout of RFC 3339; the year takes four characters exactly from 0 to 9999. */
  lemma {:induction false} PrintedLayout(d: DateTime) returns (n: nat)
    requires OnCalendar(d)
    ensures Laid(Print(d), n, d)
    ensures n == 4 <==> 0 <= d.year <= 9999
  {
    n := |PrintYear(d.year)|;
    YearIsLaid(d.year);
    FractionIsLaid(d.nanos);
    PairLaid(d.month);
    PairLaid(d.day);
    PairLaid(d.hour);
    PairLaid(d.minute);
    PairLaid(d.second);
    Joined(d);
    TextLaid(PrintYear(d.year), Decimal(d.month, 2), Decimal(d.day, 2), Decimal(d.hour, 2), Decimal(d.minute, 2),
             Decimal(d.second, 2), PrintNanos(d.nanos), d);
  }

  /**
   * `Display` of a timestamp, which is normalized on a copy: its date in the layout of RFC 3339, which parsing turns
   * into the normal form again.
   */
  method DisplayTimestamp(timestamp: Timestamp) returns (s: string)
    ensures ParseTimestamp(s) == Some(TimestampNormal(timestamp.Value()))
    ensures forall d | DateOf(TimestampNormal(timestamp.Value()), d) :: s == Print(d) && exists n :: Laid(s, n, d)
  {
    var copy := new Timestamp(timestamp.seconds, timestamp.nanos);
    var date := FromTimestamp(copy);
    PrintedTimestampParses(date);
    s := Print(date);
    ghost var n := PrintedLayout(date);
    forall d | DateOf(TimestampNormal(timestamp.Value()), d) ensures s == Print(d) && exists n :: Laid(s, n, d) {
      DateUnique(TimestampNormal(timestamp.Value()), d, date);
      assert Laid(s, n, d);
    }
  }

  /** The pieces of a printed date, one after another. */
  function Pieces(year: string, month: string, day: string, hour: string, minute: string, second: string,
                  fraction: string): string {
    year + "-" + month + "-" + day + "T" + hour + ":" + minute + ":" + second + fraction + "Z"
  }

  lemma {:induction false} Joined(d: DateTime)
    requires OnCalendar(d)
    ensures Print(d) == Pieces(PrintYear(d.year), Decimal(d.month, 2), Decimal(d.day, 2), Decimal(d.hour, 2),
                               Decimal(d.minute, 2), Decimal(d.second, 2), PrintNanos(d.nanos))
  {
    hide PrintYear, PrintNanos, Decimal;
  }

  lemma {:induction false} TextLaid(year: string, month: string, day: string, hour: string, minute: string,
                                    second: string, fraction: string, d: DateTime)
    requires YearLaid(year, d.year) && FractionLaid(fraction, d.nanos)
    requires Two(month) && Two(day) && Two(hour) && Two(minute) && Two(second)
    requires TwoValue(month) == d.month && TwoValue(day) == d.day && TwoValue(hour) == d.hour
    requires TwoValue(minute) == d.minute && TwoValue(second) == d.second
    ensures Laid(Pieces(year, month, day, hour, minute, second, fraction), |year|, d)
  {
    hide YearLaid, FractionLaid;
    var s := Pieces(year, month, day, hour, minute, second, fraction);
    assert s[..|year|] == year;
    assert s[|year| + 15..|s| - 1] == fraction;
  }

  // ---------- texts that are read as timestamps ----------

  /** An offset from UTC: none, the letter, or hours with or without minutes; a space may come first. */
  datatype Offset =
    | Local
    | Zulu(space: bool, letter: char)
    | Shifted(space: bool, minus: bool, hours: string, minutes: Option<Minutes>)

  datatype Minutes = Minutes(colon: bool, digits: string)

  datatype Clock = Clock(separator: char, hour: string, minute: string, second: string, fraction: Option<string>,
                         offset: Offset)

  /** A text in the layout of RFC 3339, in pieces; without a clock it is a date by itself. */
  datatype Stamp = Stamp(sign: string, year: string, month: string, day: string, clock: Option<Clock>)

  function OffsetText(o: Offset): string {
    match o
    case Local => ""
    case Zulu(space, letter) => (if space then " " else "") + [letter]
    case Shifted(space, minus, hours, minutes) =>
      (if space then " " else "") + ([if minus then '-' else '+'] + (hours + MinutesText(minutes)))
  }

  function MinutesText(minutes: Option<Minutes>): string {
    match minutes
    case None => ""
    case Some(m) => (if m.colon then ":" else "") + m.digits
  }

  function FractionText(fraction: Option<string>): string {
    match fraction
    case None => ""
    case Some(digits) => "." + digits
  }

  function ClockText(c: Clock): string {
    var tail := FractionText(c.fraction) + OffsetText(c.offset);
    [c.separator] + (c.hour + (":" + (c.minute + (":" + (c.second + tail)))))
  }

  function StampText(t: Stamp): string {
    (t.sign + t.year) + ("-" + (t.month + ("-" + (t.day + (if t.clock.Some? then ClockText(t.clock.value) else "")))))
  }

  predicate OffsetOk(o: Offset) {
    match o
    case Local => true
    case Zulu(_, letter) => letter == 'Z' || letter == 'z'
    case Shifted(_, _, hours, minutes) =>
      && Two(hours) && TwoValue(hours) < 24
      && (minutes.Some? ==> Two(minutes.value.digits) && TwoValue(minutes.value.digits) < 60)
  }

  predicate ClockOk(c: Clock) {
    && (c.separator == 'T' || c.separator == 't' || c.separator == ' ')
    && Two(c.hour) && Two(c.minute) && Two(c.second) && OffsetOk(c.offset)
    && (c.fraction.Some? ==> c.fraction.value != "" && AllDigits(c.fraction.value))
  }

  /** Four digits of a year, or a sign and at least five, or four if it is negative, as far as 64 bits go. */
  predicate YearOk(sign: string, year: string) {
    && AllDigits(year)
    && ((sign == "" && |year| == 4)
        || (sign == "+" && |year| >= 5 && DecimalValue(year) <= I64_MAX)
        || (sign == "-" && |year| >= 4 && DecimalValue(year) <= I64_MAX))
  }

  predicate StampOk(t: Stamp) {
    YearOk(t.sign, t.year) && Two(t.month) && Two(t.day) && (t.clock.Some? ==> ClockOk(t.clock.value))
  }

  /** Seconds that a local time is ahead of UTC. */
  function OffsetSeconds(o: Offset): int
    requires OffsetOk(o)
  {
    match o
    case Local => 0
    case Zulu(_, _) => 0
    case Shifted(_, minus, hours, minutes) =>
      var n := 3600 * TwoValue(hours) + (if minutes.Some? then 60 * TwoValue(minutes.value.digits) else 0);
      Negated(minus, n)
  }

  /** A fraction of a second in nanoseconds: digits after the ninth do not count. */
  function FractionNanos(fraction: Option<string>): nat
    requires fraction.Some? ==> AllDigits(fraction.value)
  {
    match fraction
    case None => 0
    case Some(digits) =>
      if |digits| <= 9 then Pow10(9 - |digits|) * DecimalValue(digits) else DecimalValue(digits[..9])
  }

  function YearOf(t: Stamp): int
    requires StampOk(t)
  {
    Negated(t.sign == "-", DecimalValue(t.year))
  }

  /** The date that is written: midnight without a clock, and a leap second is taken for the second before. */
  function DateIn(t: Stamp): DateTime
    requires StampOk(t)
  {
    match t.clock
    case None => DateTime(YearOf(t), TwoValue(t.month), TwoValue(t.day), 0, 0, 0, 0)
    case Some(c) =>
      DateTime(YearOf(t), TwoValue(t.month), TwoValue(t.day), TwoValue(c.hour), TwoValue(c.minute),
               if TwoValue(c.second) == 60 then 59 else TwoValue(c.second), FractionNanos(c.fraction))
  }

  /** The instant that is written, if the date exists and the instant can be represented. */
  function Instant(t: Stamp): Option<Span>
    requires StampOk(t)
  {
    InstantOf(DateIn(t), if t.clock.Some? then OffsetSeconds(t.clock.value.offset) else 0)
  }

  /** The instant of a local date that is some seconds ahead of UTC. */
  function InstantOf(d: DateTime, ahead: int): Option<Span> {
    if Valid(d) && I64_MIN <= Seconds(d) - ahead <= I64_MAX then Some(Span(Seconds(d) - ahead, d.nanos)) else None
  }

  // ---------- the pieces are read back ----------

  lemma {:induction false} TwoReads(t: string, rest: string)
    requires Two(t)
    ensures ParseTwoDigits(t + rest) == Some((TwoValue(t), rest))
  {
    assert (t + rest)[2..] == rest;
  }

  lemma {:induction false} TwoRead(s: string)
    requires ParseTwoDigits(s).Some?
    ensures Two(s[..2]) && ParseTwoDigits(s) == Some((TwoValue(s[..2]), s[2..])) && s == s[..2] + s[2..]
  {
  }

  lemma {:induction false} CharReads(c: char, rest: string)
    ensures ParseChar([c] + rest, c) == Some(rest)
  {
    assert ([c] + rest)[1..] == rest;
  }

  lemma {:induction false} PartReads(separator: char, t: string, rest: string)
    requires Two(t)
    ensures ParsePart([separator] + (t + rest), separator) == Some((TwoValue(t), rest))
  {
    CharReads(separator, t + rest);
    TwoReads(t, rest);
  }

  lemma {:induction false} PartRead(s: string, separator: char) returns (t: string)
    requires ParsePart(s, separator).Some?
    ensures Two(t) && ParsePart(s, separator).value.0 == TwoValue(t)
    ensures s == [separator] + (t + ParsePart(s, separator).value.1)
  {
    TwoRead(s[1..]);
    t := s[1..][..2];
    assert s == [s[0]] + s[1..];
  }

  lemma {:induction false} DigitsRead(s: string)
    ensures s == ParseDigits(s).0 + ParseDigits(s).1 && NoDigitFirst(ParseDigits(s).1)
    decreases |s|
  {
    if s != "" && IsDigit(s[0]) {
      DigitsRead(s[1..]);
      OneDigitRead(s);
    } else {
      assert "" + s == s;
    }
  }

  lemma {:induction false} OneDigitRead(s: string)
    requires s != "" && IsDigit(s[0])
    ensures ParseDigits(s).0 == [s[0]] + ParseDigits(s[1..]).0 && ParseDigits(s).1 == ParseDigits(s[1..]).1
    ensures s == [s[0]] + s[1..]
  {
  }

  // ---------- years ----------

  lemma {:induction false} YearReads(sign: string, year: string, rest: string)
    requires YearOk(sign, year) && NoDigitFirst(rest)
    ensures (sign + year) + rest != ""
    ensures ParseYear((sign + year) + rest)
            == Some((Negated(sign == "-", DecimalValue(year)), rest))
  {
    NumberIsDecimal(year);
    if sign == "" {
      var n1, n2 := year[..2], year[2..];
      TwoReads(n1, n2 + rest);
      TwoReads(n2, rest);
      assert (sign + year) + rest == n1 + (n2 + rest);
      FourDigitsWorth(year);
    } else {
      assert ((sign + year) + rest)[1..] == year + rest;
      DigitsParse(year, rest);
    }
  }

  lemma {:induction false} FourDigitsWorth(s: string)
    requires |s| == 4 && AllDigits(s)
    ensures Two(s[..2]) && Two(s[2..]) && DecimalValue(s) == 100 * TwoValue(s[..2]) + TwoValue(s[2..])
  {
    assert Pow10(2) == 100 && Pow10(3) == 1000 by {
      assert Pow10(1) == 10;
    }
    assert DecimalValue(s) == (s[0] as int - '0' as int) * 1000 + DecimalValue(s[1..]);
    assert DecimalValue(s[1..]) == (s[1] as int - '0' as int) * 100 + DecimalValue(s[1..][1..]);
    assert s[1..][1..] == s[2..];
    TwoWorth(s[2..]);
  }

  lemma {:induction false} TwoWorth(s: string)
    requires Two(s)
    ensures DecimalValue(s) == TwoValue(s)
  {
    assert Pow10(1) == 10;
    assert s[1..][1..] == "";
    assert DecimalValue(s[1..]) == s[1] as int - '0' as int;
  }

  lemma {:induction false} YearRead(s: string) returns (sign: string, year: string)
    requires s != "" && ParseYear(s).Some?
    ensures YearOk(sign, year) && s == (sign + year) + ParseYear(s).value.1
    ensures ParseYear(s).value.0 == Negated(sign == "-", DecimalValue(year))
  {
    if s[0] == '+' || s[0] == '-' {
      DigitsRead(s[1..]);
      sign, year := [s[0]], ParseDigits(s[1..]).0;
      NumberIsDecimal(year);
      assert s == [s[0]] + s[1..];
      Regroup(sign, year, ParseDigits(s[1..]).1);
    } else {
      TwoRead(s);
      TwoRead(s[2..]);
      sign, year := "", s[..4];
      assert s[..4] == s[..2] + s[2..][..2] && s[4..] == s[2..][2..];
      FourDigitsWorth(year);
      assert year[..2] == s[..2] && year[2..] == s[2..][..2];
      assert s == (sign + year) + s[4..];
    }
  }

  // ---------- fractions ----------

  lemma {:induction false} FractionReads(fraction: Option<string>, rest: string)
    requires fraction.Some? ==> fraction.value != "" && AllDigits(fraction.value)
    requires NoDigitFirst(rest) && (rest == "" || rest[0] != '.')
    ensures ParseNanos(FractionText(fraction) + rest) == Some((FractionNanos(fraction), rest))
  {
    match fraction {
      case None => assert FractionText(fraction) + rest == rest;
      case Some(digits) => PointReads(digits, rest);
    }
  }

  lemma {:induction false} PointReads(digits: string, rest: string)
    requires digits != "" && AllDigits(digits) && NoDigitFirst(rest)
    ensures ParseNanos(FractionText(Some(digits)) + rest) == Some((FractionNanos(Some(digits)), rest))
  {
    var s := FractionText(Some(digits)) + rest;
    assert s[1..] == digits + rest;
    DigitsParse(digits, rest);
    PointRead(s, digits, rest);
  }

  lemma {:induction false} FractionRead(s: string) returns (fraction: Option<string>)
    requires ParseNanos(s).Some?
    ensures fraction.Some? ==> fraction.value != "" && AllDigits(fraction.value)
    ensures s == FractionText(fraction) + ParseNanos(s).value.1
    ensures ParseNanos(s).value.0 == FractionNanos(fraction)
    ensures fraction.Some? ==> NoDigitFirst(ParseNanos(s).value.1)
  {
    if ParseChar(s, '.').None? {
      fraction := None;
    } else {
      DigitsRead(s[1..]);
      fraction := Some(ParseDigits(s[1..]).0);
      PointRead(s, ParseDigits(s[1..]).0, ParseDigits(s[1..]).1);
    }
  }

  lemma {:induction false} NinePlaces()
    ensures Pow10(0) == 1
  {
  }

  lemma {:induction false} PointRead(s: string, digits: string, rest: string)
    requires s != "" && s[0] == '.' && AllDigits(digits) && ParseDigits(s[1..]) == (digits, rest)
    requires s[1..] == digits + rest
    ensures s == FractionText(Some(digits)) + rest
    ensures ParseNanos(s).Some? <==> digits != ""
    ensures ParseNanos(s).Some? ==> ParseNanos(s).value == (FractionNanos(Some(digits)), rest)
  {
    hide ParseDigits, Number, DecimalValue, Pow10;
    NinePlaces();
    NumberIsDecimal(if |digits| > 9 then digits[..9] else digits);
    assert s == [s[0]] + s[1..];
    assert ("." + digits) + rest == "." + (digits + rest);
  }

  // ---------- offsets ----------

  lemma {:induction false} MinutesRead(s: string) returns (minutes: Option<Minutes>)
    requires ParseOffsetMinutes(s).Some?
    ensures minutes.Some? ==> Two(minutes.value.digits)
    ensures s == MinutesText(minutes) + ParseOffsetMinutes(s).value.1
    ensures ParseOffsetMinutes(s).value.0 == if minutes.Some? then TwoValue(minutes.value.digits) else 0
  {
    if s == "" {
      minutes := None;
    } else {
      var colon := ParseChar(s, ':').Some?;
      var more := if colon then s[1..] else s;
      TwoRead(more);
      minutes := Some(Minutes(colon, more[..2]));
      assert colon ==> s == ":" + s[1..];
      Regroup(if colon then ":" else "", more[..2], more[2..]);
    }
  }

  /** Minutes that nothing follows are read back. */
  lemma {:induction false} MinutesReads(minutes: Option<Minutes>)
    requires minutes.Some? ==> Two(minutes.value.digits)
    ensures ParseOffsetMinutes(MinutesText(minutes))
            == Some((if minutes.Some? then TwoValue(minutes.value.digits) else 0, ""))
  {
    if minutes.Some? {
      var m := minutes.value;
      TwoReads(m.digits, "");
      assert m.digits + "" == m.digits;
      if m.colon {
        CharReads(':', m.digits);
      } else {
        assert "" + m.digits == m.digits;
      }
    }
  }

  /** What an offset is read as, in hours and minutes. */
  function OffsetParts(o: Offset): (int, int)
    requires OffsetOk(o)
  {
    match o
    case Local => (0, 0)
    case Zulu(_, _) => (0, 0)
    case Shifted(_, minus, hours, minutes) =>
      (Signed(!minus, TwoValue(hours)),
       Signed(!minus, if minutes.Some? then TwoValue(minutes.value.digits) else 0))
  }

  lemma {:induction false} OffsetReads(o: Offset)
    requires OffsetOk(o)
    ensures ParseOffset(OffsetText(o)) == Some((OffsetParts(o).0, OffsetParts(o).1, ""))
    ensures NoDigitFirst(OffsetText(o)) && (OffsetText(o) == "" || OffsetText(o)[0] != '.')
    ensures OffsetSeconds(o) == 3600 * OffsetParts(o).0 + 60 * OffsetParts(o).1
  {
    match o {
      case Local =>
      case Zulu(space, letter) => ZuluReads(space, letter);
      case Shifted(space, minus, hours, minutes) => ShiftedReads(space, minus, hours, minutes);
    }
  }

  lemma {:induction false} ZuluReads(space: bool, letter: char)
    requires letter == 'Z' || letter == 'z'
    ensures ParseOffset(OffsetText(Zulu(space, letter))) == Some((0, 0, ""))
  {
    assert [letter][1..] == "" && (" " + [letter])[1..] == [letter] && "" + [letter] == [letter];
  }

  lemma {:induction false} ShiftedReads(space: bool, minus: bool, hours: string, minutes: Option<Minutes>)
    requires OffsetOk(Shifted(space, minus, hours, minutes))
    ensures var o := Shifted(space, minus, hours, minutes);
            ParseOffset(OffsetText(o)) == Some((OffsetParts(o).0, OffsetParts(o).1, ""))
  {
    hide ParseTwoDigits, ParseOffsetMinutes, MinutesText;
    var sign := if minus then '-' else '+';
    var more := hours + MinutesText(minutes);
    TwoReads(hours, MinutesText(minutes));
    MinutesReads(minutes);
    SpaceReads(space, [sign] + more);
    CharReads(sign, more);
  }

  /** A space in front of an offset is dropped. */
  lemma {:induction false} SpaceReads(space: bool, s: string)
    requires s != "" && s[0] != ' '
    ensures var all := (if space then " " else "") + s;
            all != "" && (match ParseChar(all, ' ') case None => all case Some(rest) => rest) == s
  {
    assert (" " + s)[1..] == s && "" + s == s;
  }

  lemma {:induction false} OffsetRead(s: string) returns (o: Offset)
    requires ParseOffset(s).Some? && ParseOffset(s).value.2 == ""
    ensures OffsetOk(o) && s == OffsetText(o)
  {
    if s == "" {
      o := Local;
    } else {
      var space := ParseChar(s, ' ').Some?;
      var s1 := if space then s[1..] else s;
      assert s == (if space then " " else "") + s1;
      assert s1 == [s1[0]] + s1[1..];
      if ParseCharIgnoreCase(s1, 'Z', 'z').Some? {
        o := Zulu(space, s1[0]);
      } else {
        var s2 := s1[1..];
        TwoRead(s2);
        var minutes := MinutesRead(s2[2..]);
        o := Shifted(space, s1[0] == '-', s2[..2], minutes);
        assert s2[2..] == MinutesText(minutes);
      }
    }
  }

  // ---------- clocks ----------

  lemma {:induction false} TimeReads(c: Clock)
    requires ClockOk(c)
    ensures ParseTime(ClockText(c)[1..])
            == Some((TwoValue(c.hour), TwoValue(c.minute), TwoValue(c.second), FractionNanos(c.fraction),
                     OffsetText(c.offset)))
    ensures ClockText(c) == [c.separator] + ClockText(c)[1..]
  {
    var s3 := FractionText(c.fraction) + OffsetText(c.offset);
    var s2 := ":" + (c.second + s3);
    var s1 := ":" + (c.minute + s2);
    assert ClockText(c)[1..] == c.hour + s1;
    OffsetReads(c.offset);
    TwoReads(c.hour, s1);
    PartReads(':', c.minute, s2);
    PartReads(':', c.second, s3);
    FractionReads(c.fraction, OffsetText(c.offset));
  }

  lemma {:induction false} TimeRead(separator: char, s: string) returns (c: Clock)
    requires ParseTime(s).Some? && ParseOffset(ParseTime(s).value.4).Some?
    requires ParseOffset(ParseTime(s).value.4).value.2 == ""
    requires separator == 'T' || separator == 't' || separator == ' '
    ensures ClockOk(c) && ClockText(c) == [separator] + s
  {
    TwoRead(s);
    var s1 := s[2..];
    var minute := PartRead(s1, ':');
    var s2 := ParsePart(s1, ':').value.1;
    var second := PartRead(s2, ':');
    var s3 := ParsePart(s2, ':').value.1;
    var fraction := FractionRead(s3);
    var offset := OffsetRead(ParseNanos(s3).value.1);
    c := Clock(separator, s[..2], minute, second, fraction, offset);
  }

  // ---------- whole texts ----------

  lemma {:induction false} DateReads(t: Stamp, rest: string)
    requires YearOk(t.sign, t.year) && Two(t.month) && Two(t.day)
    ensures ParseDate((t.sign + t.year) + ("-" + (t.month + ("-" + (t.day + rest)))))
            == Some((Negated(t.sign == "-", DecimalValue(t.year)), TwoValue(t.month),
                     TwoValue(t.day), rest))
  {
    var s2 := "-" + (t.day + rest);
    var s1 := "-" + (t.month + s2);
    YearReads(t.sign, t.year, s1);
    PartReads('-', t.month, s2);
    PartReads('-', t.day, rest);
  }

  lemma {:induction false} DateRead(s: string) returns (sign: string, year: string, month: string, day: string)
    requires ParseDate(s).Some?
    ensures YearOk(sign, year) && Two(month) && Two(day)
    ensures s == (sign + year) + ("-" + (month + ("-" + (day + ParseDate(s).value.3))))
  {
    sign, year := YearRead(s);
    var s1 := ParseYear(s).value.1;
    month := PartRead(s1, '-');
    var s2 := ParsePart(s1, '-').value.1;
    day := PartRead(s2, '-');
  }

  lemma {:induction false} StampIsAscii(t: Stamp)
    requires StampOk(t)
    ensures Ascii(StampText(t))
  {
    var rest := if t.clock.Some? then ClockText(t.clock.value) else "";
    assert Ascii("-") && Ascii("") && Ascii(t.sign) && Ascii(t.month) && Ascii(t.day);
    DigitsAreAscii(t.year);
    if t.clock.Some? {
      ClockIsAscii(t.clock.value);
    }
    hide Ascii, ClockText;
    JoinedIsAscii(t.sign, t.year);
    JoinedIsAscii(t.day, rest);
    JoinedIsAscii("-", t.day + rest);
    JoinedIsAscii(t.month, "-" + (t.day + rest));
    JoinedIsAscii("-", t.month + ("-" + (t.day + rest)));
    JoinedIsAscii(t.sign + t.year, "-" + (t.month + ("-" + (t.day + rest))));
  }

  lemma {:induction false} ClockIsAscii(c: Clock)
    requires ClockOk(c)
    ensures Ascii(ClockText(c))
  {
    var s3 := FractionText(c.fraction) + OffsetText(c.offset);
    FractionIsAscii(c.fraction);
    OffsetIsAscii(c.offset);
    assert Ascii(":") && Ascii([c.separator]) && Ascii(c.hour) && Ascii(c.minute) && Ascii(c.second);
    hide Ascii, FractionText, OffsetText;
    JoinedIsAscii(FractionText(c.fraction), OffsetText(c.offset));
    JoinedIsAscii(c.second, s3);
    JoinedIsAscii(":", c.second + s3);
    JoinedIsAscii(c.minute, ":" + (c.second + s3));
    JoinedIsAscii(":", c.minute + (":" + (c.second + s3)));
    JoinedIsAscii(c.hour, ":" + (c.minute + (":" + (c.second + s3))));
    JoinedIsAscii([c.separator], c.hour + (":" + (c.minute + (":" + (c.second + s3)))));
  }

  lemma {:induction false} FractionIsAscii(fraction: Option<string>)
    requires fraction.Some? ==> AllDigits(fraction.value)
    ensures Ascii(FractionText(fraction))
  {
  }

  lemma {:induction false} OffsetIsAscii(o: Offset)
    requires OffsetOk(o)
    ensures Ascii(OffsetText(o))
  {
    match o {
      case Local =>
      case Zulu(_, letter) => assert Ascii([letter]);
      case Shifted(space, minus, hours, minutes) => ShiftedIsAscii(space, minus, hours, minutes);
    }
  }

  lemma {:induction false} ShiftedIsAscii(space: bool, minus: bool, hours: string, minutes: Option<Minutes>)
    requires OffsetOk(Shifted(space, minus, hours, minutes))
    ensures Ascii(OffsetText(Shifted(space, minus, hours, minutes)))
  {
    var sign := [if minus then '-' else '+'];
    assert Ascii(MinutesText(minutes)) && Ascii(hours) && Ascii(sign) && Ascii(if space then " " else "");
    hide Ascii, MinutesText;
    JoinedIsAscii(hours, MinutesText(minutes));
    JoinedIsAscii(sign, hours + MinutesText(minutes));
    JoinedIsAscii(if space then " " else "", sign + (hours + MinutesText(minutes)));
  }

  /** Every text in the layout is read as the instant that it writes, and as none if there is no such instant. */
  lemma {:induction false} StampParses(t: Stamp)
    requires StampOk(t)
    ensures ParseTimestamp(StampText(t)) == Instant(t)
  {
    hide Ascii, Valid, Seconds, ParseDate, ParseTime, ParseOffset;
    StampIsAscii(t);
    var rest := if t.clock.Some? then ClockText(t.clock.value) else "";
    DateReads(t, rest);
    if t.clock.Some? {
      ClockParses(YearOf(t), TwoValue(t.month), TwoValue(t.day), t.clock.value);
    } else {
      MidnightParses(YearOf(t), TwoValue(t.month), TwoValue(t.day));
    }
  }

  lemma {:induction false} ClockParses(year: int, month: nat, day: nat, c: Clock)
    requires ClockOk(c)
    ensures var second := if TwoValue(c.second) == 60 then 59 else TwoValue(c.second);
            var d := DateTime(year, month, day, TwoValue(c.hour), TwoValue(c.minute), second,
                              FractionNanos(c.fraction));
            ParseDateTime((year, month, day, ClockText(c))) == InstantOf(d, OffsetSeconds(c.offset))
  {
    hide Valid, Seconds, ParseTime, ParseOffset, FractionNanos;
    TimeReads(c);
    OffsetReads(c.offset);
  }

  /** A date by itself is midnight in UTC. */
  lemma {:induction false} MidnightParses(year: int, month: nat, day: nat)
    ensures ParseDateTime((year, month, day, "")) == InstantOf(DateTime(year, month, day, 0, 0, 0, 0), 0)
  {
    var d := DateTime(year, month, day, 0, 0, 0, 0);
    if Valid(d) {
      RangeByFields(d);
    }
  }

  /** Whatever is read as a timestamp is in the layout. */
  lemma {:induction false} ParsedIsStamp(s: string) returns (t: Stamp)
    requires ParseTimestamp(s).Some?
    ensures StampOk(t) && s == StampText(t)
  {
    hide Ascii, Valid, Seconds, ParseTime, ParseOffset, ParseYear, ParsePart;
    var sign, year, month, day := DateRead(s);
    var rest := ParseDate(s).value.3;
    if rest == "" {
      t := Stamp(sign, year, month, day, None);
    } else {
      var c := TimeRead(rest[0], rest[1..]);
      assert [rest[0]] + rest[1..] == rest;
      t := Stamp(sign, year, month, day, Some(c));
    }
  }

  /** Exactly these texts are read as a timestamp, and as this one. */
  lemma {:induction false} TimestampsExactly(s: string, span: Span)
    ensures ParseTimestamp(s) == Some(span)
            <==> exists t :: StampOk(t) && s == StampText(t) && Instant(t) == Some(span)
  {
    forall t | StampOk(t) {
      StampParses(t);
    }
    if ParseTimestamp(s).Some? {
      var t := ParsedIsStamp(s);
    }
  }

  // ---------- texts that are read as durations ----------

  /** A sign or none, digits of seconds, a fraction or none, and the unit. */
  function DurationText(minus: bool, seconds: string, fraction: Option<string>): string {
    (if minus then "-" else "") + (seconds + (FractionText(fraction) + "s"))
  }

  predicate DurationOk(seconds: string, fraction: Option<string>) {
    && seconds != "" && AllDigits(seconds) && DecimalValue(seconds) <= I64_MAX
    && (fraction.Some? ==> fraction.value != "" && AllDigits(fraction.value))
  }

  lemma {:induction false} FractionBelowOne(fraction: Option<string>)
    requires fraction.Some? ==> AllDigits(fraction.value)
    ensures FractionNanos(fraction) < 1_000_000_000
  {
    Powers();
    if fraction.Some? {
      var digits := if |fraction.value| > 9 then fraction.value[..9] else fraction.value;
      DecimalBound(digits);
      PowersMultiply(9 - |digits|, |digits|);
      TimesBelow(Pow10(9 - |digits|), DecimalValue(digits), Pow10(|digits|));
    }
  }

  lemma {:induction false} TimesBelow(p: nat, v: nat, bound: nat)
    requires p > 0 && v < bound
    ensures p * v < p * bound
  {
  }

  lemma {:induction false} DecimalBound(s: string)
    requires AllDigits(s)
    ensures DecimalValue(s) < Pow10(|s|)
    decreases |s|
  {
    if s != "" {
      DecimalBound(s[1..]);
      NineTimes(s[0] as int - '0' as int, Pow10(|s| - 1));
    }
  }

  lemma {:induction false} NineTimes(d: nat, p: nat)
    requires d <= 9
    ensures d * p <= 9 * p
  {
  }

  lemma {:induction false} PowersMultiply(a: nat, b: nat)
    ensures Pow10(a) * Pow10(b) == Pow10(a + b)
    decreases a
  {
    if a > 0 {
      PowersMultiply(a - 1, b);
      assert (10 * Pow10(a - 1)) * Pow10(b) == 10 * (Pow10(a - 1) * Pow10(b));
    }
  }

  lemma {:induction false} DurationReads(minus: bool, seconds: string, fraction: Option<string>)
    requires DurationOk(seconds, fraction)
    ensures ParseDuration(DurationText(minus, seconds, fraction))
            == Some(Span(Signed(!minus, DecimalValue(seconds)), Signed(!minus, FractionNanos(fraction))))
  {
    var rest := FractionText(fraction) + "s";
    var body := seconds + rest;
    assert Ascii(body) && body != "" && body[0] != '-';
    FractionReads(fraction, "s");
    FractionBelowOne(fraction);
    DigitsParse(seconds, rest);
    NumberIsDecimal(seconds);
    MagnitudeOf(seconds, rest, DecimalValue(seconds), FractionNanos(fraction));
    assert DurationText(minus, seconds, fraction) == WithSign(minus, body) by {
      assert "" + body == body;
    }
    SignParses(minus, body, DecimalValue(seconds), FractionNanos(fraction));
  }

  lemma {:induction false} DurationRead(s: string) returns (minus: bool, seconds: string, fraction: Option<string>)
    requires ParseDuration(s).Some?
    ensures DurationOk(seconds, fraction) && s == DurationText(minus, seconds, fraction)
  {
    minus := ParseChar(s, '-').Some?;
    var body := if minus then s[1..] else s;
    assert s == (if minus then "-" else "") + body;
    DigitsRead(body);
    seconds := ParseDigits(body).0;
    NumberIsDecimal(seconds);
    fraction := FractionRead(ParseDigits(body).1);
  }

  /** A text that writes this duration. */
  predicate WritesDuration(s: string, span: Span, minus: bool, seconds: string, fraction: Option<string>) {
    && DurationOk(seconds, fraction) && s == DurationText(minus, seconds, fraction)
    && span == Span(Negated(minus, DecimalValue(seconds)), Negated(minus, FractionNanos(fraction)))
  }

  /** Exactly these texts are read as a duration, and as this one. */
  lemma {:induction false} DurationsExactly(s: string, span: Span)
    ensures ParseDuration(s) == Some(span)
            <==> exists minus, seconds, fraction :: WritesDuration(s, span, minus, seconds, fraction)
  {
    forall minus, seconds, fraction | WritesDuration(s, span, minus, seconds, fraction)
      ensures ParseDuration(s) == Some(span) {
      DurationReads(minus, seconds, fraction);
    }
    if ParseDuration(s).Some? {
      var minus, seconds, fraction := DurationRead(s);
      DurationReads(minus, seconds, fraction);
      assert WritesDuration(s, ParseDuration(s).value, minus, seconds, fraction);
    }
  }

  /**
   * A duration is printed as the seconds and the fraction of its normal form, in digits without leading zeros, with
   * a sign in front if a part of the duration was negative; the least number of seconds brings a sign of its own.
   */
  lemma {:induction false} DurationLayout(t: Span) returns (digits: string, fraction: string)
    requires I64_MIN <= t.seconds <= I64_MAX
    ensures var d := DurationNormal(t);
            && PrintDuration(t)
               == (if t.seconds < 0 || t.nanos < 0 then "-" else "") + (if d.seconds == I64_MIN then "-" else "")
                  + digits + fraction + "s"
            && digits != "" && AllDigits(digits) && (|digits| > 1 ==> digits[0] != '0')
            && DecimalValue(digits) == (if d.seconds < 0 then -d.seconds else d.seconds)
            && FractionLaid(fraction, if d.nanos < 0 then -d.nanos else d.nanos)
  {
    var d := DurationNormal(t);
    DurationNormalForm(t);
    digits, fraction := Decimal(Abs(d.seconds), 1), PrintNanos(Abs(d.nanos));
    DecimalLaid(Abs(d.seconds), 1);
    DecimalLength(Abs(d.seconds), 1);
    FractionIsLaid(Abs(d.nanos));
    DurationJoins(t.seconds < 0 || t.nanos < 0, d.seconds == I64_MIN, digits, fraction);
  }

  lemma {:induction false} DurationJoins(minus: bool, least: bool, digits: string, fraction: string)
    ensures WithSign(minus, (if least then "-" + digits else digits) + (fraction + "s"))
            == (if minus then "-" else "") + (if least then "-" else "") + digits + fraction + "s"
  {
  }
}
