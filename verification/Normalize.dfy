/** Normalization of durations and timestamps: the one canonical form of a total, held within range. */
module Normalization {
  import opened Machine

  const NANOS: int := 1_000_000_000

  /** Seconds and nanoseconds, whose total is what counts. */
  datatype Span = Span(seconds: int, nanos: int) {
    function Total(): int {
      NANOS * seconds + nanos
    }
  }

  function Clamp(low: int, total: int, high: int): int {
    if total < low then low else if total > high then high else total
  }

  // ---------- timestamps ----------

  predicate TimestampCanonical(t: Span) {
    0 <= t.nanos < NANOS
  }

  const FIRST := Span(I64_MIN, 0)
  const LAST := Span(I64_MAX, NANOS - 1)

  /** The canonical timestamp of the total, clamped to what can be represented. */
  function TimestampNormal(t: Span): (r: Span) {
    var total := Clamp(FIRST.Total(), t.Total(), LAST.Total());
    Span(total / NANOS, total % NANOS)
  }

  lemma {:induction false} TimestampUnique(a: Span, b: Span)
    requires TimestampCanonical(a) && TimestampCanonical(b) && a.Total() == b.Total()
    ensures a == b
  {
  }

  /** Normal form is canonical, in range, keeps the clamped total, and is what it is on canonical timestamps only. */
  lemma {:induction false} TimestampNormalForm(t: Span)
    requires I64_MIN <= t.seconds <= I64_MAX
    ensures var r := TimestampNormal(t);
            && TimestampCanonical(r) && I64_MIN <= r.seconds <= I64_MAX
            && r.Total() == Clamp(FIRST.Total(), t.Total(), LAST.Total())
            && (r == t <==> TimestampCanonical(t))
            && TimestampNormal(r) == r
  {
    var r := TimestampNormal(t);
    assert r.Total() == Clamp(FIRST.Total(), t.Total(), LAST.Total());
    if TimestampCanonical(t) {
      TimestampUnique(r, t);
    }
    TimestampUnique(TimestampNormal(r), r);
  }

  class Timestamp {
    var seconds: i64
    var nanos: i32

    constructor (seconds: i64, nanos: i32)
      ensures this.seconds == seconds && this.nanos == nanos
    {
      this.seconds, this.nanos := seconds, nanos;
    }

    function Value(): Span
      reads this
    {
      Span(seconds as int, nanos as int)
    }

    predicate IsCanonical()
      reads this
      ensures IsCanonical() <==> TimestampCanonical(Value())
    {
      0 <= nanos < 1_000_000_000
    }

    method Normalize()
      modifies this
      ensures Value() == TimestampNormal(old(Value()))
      ensures IsCanonical() && (Value() == old(Value()) <==> old(IsCanonical()))
    {
      ghost var start := Value();
      TimestampNormalForm(start);
      Reduce();
      if nanos < 0 {
        if seconds as int - 1 >= I64_MIN {
          seconds := seconds - 1;
          nanos := nanos + 1_000_000_000;
        } else {
          nanos := 0;
        }
      }
      TimestampUnique(Value(), TimestampNormal(start));
    }

    /** Brings the nanoseconds within a second of zero, or else the whole to an end of the range. */
    method Reduce()
      modifies this
      ensures -1_000_000_000 < nanos < 1_000_000_000
      ensures Clamp(FIRST.Total(), Value().Total(), LAST.Total())
              == Clamp(FIRST.Total(), old(Value().Total()), LAST.Total())
    {
      if nanos <= -1_000_000_000 || nanos >= 1_000_000_000 {
        var carry := Quot(nanos as int, NANOS);
        if I64_MIN <= seconds as int + carry <= I64_MAX {
          seconds := (seconds as int + carry) as i64;
          nanos := Rem(nanos as int, NANOS) as i32;
        } else if nanos < 0 {
          seconds, nanos := -0x8000_0000_0000_0000, 0;
        } else {
          seconds, nanos := 0x7FFF_FFFF_FFFF_FFFF, 999_999_999;
        }
      }
    }
  }

  // ---------- durations ----------

  predicate DurationCanonical(d: Span) {
    && -NANOS < d.nanos < NANOS
    && (d.seconds < 0 ==> d.nanos <= 0)
    && (d.seconds > 0 ==> d.nanos >= 0)
  }

  const LEAST := Span(I64_MIN, 1 - NANOS)
  const GREATEST := Span(I64_MAX, NANOS - 1)

  /** The canonical duration of the total, clamped to what can be represented. */
  function DurationNormal(d: Span): (r: Span) {
    var total := Clamp(LEAST.Total(), d.Total(), GREATEST.Total());
    Span(Quot(total, NANOS), Rem(total, NANOS))
  }

  lemma {:induction false} DurationUnique(a: Span, b: Span)
    requires DurationCanonical(a) && DurationCanonical(b) && a.Total() == b.Total()
    ensures a == b
  {
  }

  lemma {:induction false} DurationNormalForm(d: Span)
    requires I64_MIN <= d.seconds <= I64_MAX
    ensures var r := DurationNormal(d);
            && DurationCanonical(r) && I64_MIN <= r.seconds <= I64_MAX
            && r.Total() == Clamp(LEAST.Total(), d.Total(), GREATEST.Total())
            && (r == d <==> DurationCanonical(d))
            && DurationNormal(r) == r
  {
    var r := DurationNormal(d);
    assert r.Total() == Clamp(LEAST.Total(), d.Total(), GREATEST.Total());
    assert DurationCanonical(r);
    if DurationCanonical(d) {
      DurationUnique(r, d);
    }
    DurationUnique(DurationNormal(r), r);
  }

  class Duration {
    var seconds: i64
    var nanos: i32

    constructor (seconds: i64, nanos: i32)
      ensures this.seconds == seconds && this.nanos == nanos
    {
      this.seconds, this.nanos := seconds, nanos;
    }

    function Value(): Span
      reads this
    {
      Span(seconds as int, nanos as int)
    }

    predicate IsCanonical()
      reads this
      ensures IsCanonical() <==> DurationCanonical(Value())
    {
      && -999_999_999 <= nanos <= 999_999_999
      && (if seconds < 0 then nanos <= 0 else if seconds > 0 then nanos >= 0 else true)
    }

    method Normalize()
      modifies this
      ensures Value() == DurationNormal(old(Value()))
      ensures IsCanonical() && (Value() == old(Value()) <==> old(IsCanonical()))
    {
      ghost var start := Value();
      DurationNormalForm(start);
      Reduce();
      if seconds < 0 && nanos > 0 {
        seconds := seconds + 1;
        nanos := nanos - 1_000_000_000;
      } else if seconds > 0 && nanos < 0 {
        seconds := seconds - 1;
        nanos := nanos + 1_000_000_000;
      }
      DurationUnique(Value(), DurationNormal(start));
    }

    method Reduce()
      modifies this
      ensures -1_000_000_000 < nanos < 1_000_000_000
      ensures LEAST.Total() <= Value().Total() <= GREATEST.Total()
      ensures Value().Total() == Clamp(LEAST.Total(), old(Value().Total()), GREATEST.Total())
    {
      if nanos <= -1_000_000_000 || nanos >= 1_000_000_000 {
        var carry := Quot(nanos as int, NANOS);
        if I64_MIN <= seconds as int + carry <= I64_MAX {
          seconds := (seconds as int + carry) as i64;
          nanos := Rem(nanos as int, NANOS) as i32;
        } else if nanos < 0 {
          seconds, nanos := -0x8000_0000_0000_0000, -999_999_999;
        } else {
          seconds, nanos := 0x7FFF_FFFF_FFFF_FFFF, 999_999_999;
        }
      }
    }
  }
}
