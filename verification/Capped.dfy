/** Soft-capped views of a shared buffer: reads go past the cap, and only checks of what remains notice. */
module CappedBuffers {
  import opened Base
  import opened Varint
  import opened VarintCodec
  import opened Buffers
  import opened Schemas
  import opened Wire

  /** The bytes before the cap. */
  function Before(bytes: seq<u8>, extra: nat): seq<u8> {
    if extra <= |bytes| then bytes[..|bytes| - extra] else []
  }

  /** The bytes behind the cap. */
  function Beyond(bytes: seq<u8>, extra: nat): seq<u8> {
    if extra <= |bytes| then bytes[|bytes| - extra..] else bytes
  }

  /**
   * A read through a capped view amounts to reading the region before the cap by itself, as `p` does: it
   * gives the same value and leaves the same bytes of the region, then everything behind the cap. Where
   * the region by itself is rejected, the read fails or has gone past the cap. Once past it, it stays there.
   */
  ghost predicate Isolated<T(!new)>(before: seq<u8>, after: seq<u8>, extra: nat, p: Parsed<T>, r: Result<T>) {
    && |after| <= |before|
    && (extra <= |before| ==>
          if p.Parsed? then r == Ok(p.value) && after == p.rest + Beyond(before, extra)
          else r.Err? || |after| < extra)
  }

  lemma {:induction false} Split(bytes: seq<u8>, extra: nat)
    requires extra <= |bytes|
    ensures bytes == Before(bytes, extra) + Beyond(bytes, extra) && |Beyond(bytes, extra)| == extra
  {
  }

  /** What a region leaves and the bytes behind it can be told apart again. */
  lemma {:induction false} Rejoin(rest: seq<u8>, beyond: seq<u8>)
    ensures Before(rest + beyond, |beyond|) == rest && Beyond(rest + beyond, |beyond|) == beyond
  {
  }

  lemma {:induction false} Drained(bytes: seq<u8>, extra: nat)
    requires extra <= |bytes| && Before(bytes, extra) == []
    ensures Beyond(bytes, extra) == bytes
  {
  }

  datatype Capped = Capped(buf: Cursor, extra: nat) {

    method DecodeVarint() returns (r: Result<u64>)
      requires buf.Valid()
      modifies buf
      ensures buf.Valid()
      ensures Isolated(old(buf.Bytes), buf.Bytes, extra, ReadVarint(Before(old(buf.Bytes), extra)), r)
      ensures r.Ok? ==> |buf.Bytes| < |old(buf.Bytes)|
      ensures extra <= |old(buf.Bytes)| && r.Err? ==> r == Outcome(Before(old(buf.Bytes), extra))
    {
      VarintIsolated(buf.Bytes, extra);
      if extra <= |buf.Bytes| {
        ErrorIsolated(buf.Bytes, extra);
      }
      r := VarintCodec.DecodeVarint(buf);
      if r == Err(InvalidVarint) {
        var over := OverCap();
        if over {
          r := Err(Truncated);
        }
      }
    }

    method OverCap() returns (over: bool)
      requires buf.Valid()
      ensures over <==> |buf.Bytes| < extra
    {
      var remaining := buf.Remaining();
      over := remaining < extra;
    }

    method RemainingBeforeCap() returns (n: nat)
      requires buf.Valid()
      ensures n == |Before(buf.Bytes, extra)|
    {
      var remaining := buf.Remaining();
      n := if remaining < extra then 0 else remaining - extra;
    }

    method HasRemaining() returns (r: Result<bool>)
      requires buf.Valid()
      ensures r == if |buf.Bytes| < extra then Err(Truncated) else Ok(Before(buf.Bytes, extra) != [])
    {
      var remaining := buf.Remaining();
      r := if remaining < extra then Err(Truncated) else Ok(remaining > extra);
    }

    /**
     * A capped view of the length-delimited region that comes next. The length is read through no cap, so an
     * invalid varint that runs past the cap is reported as one, and anything else as truncated.
     */
    method TakeLengthDelimited() returns (r: Result<Capped>)
      requires buf.Valid()
      modifies buf
      ensures buf.Valid()
      ensures |buf.Bytes| <= |old(buf.Bytes)| && (r.Ok? ==> |buf.Bytes| < |old(buf.Bytes)|)
      ensures r.Ok? ==> r.value.buf == buf && r.value.extra <= |buf.Bytes|
      ensures extra <= |old(buf.Bytes)| ==>
                var p := ReadRegion(Before(old(buf.Bytes), extra));
                && (r.Ok? <==> p.Parsed?)
                && (r.Ok? ==> TakenFrom(old(buf.Bytes), buf.Bytes, extra, r.value.extra))
      ensures extra > |old(buf.Bytes)| ==> r.Err?
      ensures r.Err? ==> r.error == if Decode(old(buf.Bytes)).Overflow? then InvalidVarint else Truncated
    {
      ghost var b := buf.Bytes;
      if extra <= |b| {
        RegionIsolated(b, extra);
      }
      var len :- VarintCodec.DecodeVarint(buf);
      var remaining := buf.Remaining();
      if len > remaining {
        return Err(Truncated);
      }
      if remaining - len < extra {
        return Err(Truncated);
      }
      return Ok(Capped(buf, remaining - len));
    }

    /** `peek_repeated_field`: takes the key of a field that has the same tag as the one before it. */
    method PeekRepeatedField() returns (r: Option<WireType>)
      requires buf.Valid()
      modifies buf
      ensures buf.Valid()
      ensures r == PeekRepeated(Before(old(buf.Bytes), extra))
      ensures buf.Bytes == if r.Some? then old(buf.Bytes)[1..] else old(buf.Bytes)
    {
      var remaining := RemainingBeforeCap();
      if remaining == 0 {
        return None;
      }
      var key := buf.Chunk()[0];
      if key >= 4 {
        return None;
      }
      buf.Advance(1);
      return Some(WireType.FromCode(key));
    }

    /** Skips one field's value, reading up to the end of the underlying buffer. */
    method SkipOne(w: WireType) returns (r: Result<()>)
      requires buf.Valid()
      modifies buf
      ensures buf.Valid()
      ensures Isolated(old(buf.Bytes), buf.Bytes, extra, SkipValue(w, Before(old(buf.Bytes), extra)), r)
      ensures r.Ok? ==> |buf.Bytes| < |old(buf.Bytes)|
    {
      ghost var b := buf.Bytes;
      var len: nat;
      match w {
        case Varint =>
          var _ :- DecodeVarint();
          return Ok(());
        case ThirtyTwoBit => len := 4;
        case SixtyFourBit => len := 8;
        case LengthDelimited =>
          if extra <= |b| {
            RegionIsolated(b, extra);
          }
          VarintIsolated(b, extra);
          len :- DecodeVarint();
      }
      var remaining := buf.Remaining();
      if len > remaining {
        return Err(Truncated);
      }
      buf.Advance(len);
      return Ok(());
    }

    /** `skip_field`: skips a field and all the fields after it that have the same tag. */
    method SkipField(wireType: WireType) returns (r: Result<()>)
      requires buf.Valid()
      modifies buf
      ensures buf.Valid()
      ensures Isolated(old(buf.Bytes), buf.Bytes, extra, Wire.SkipField(wireType, Before(old(buf.Bytes), extra)), r)
      ensures r.Ok? ==> |buf.Bytes| < |old(buf.Bytes)|
    {
      ghost var start := buf.Bytes;
      var w := wireType;
      while true
        invariant buf.Valid() && |buf.Bytes| <= |start|
        invariant StillSkipping(start, buf.Bytes, extra, wireType, w)
        decreases |buf.Bytes|
      {
        ghost var b := buf.Bytes;
        var _ :- SkipOne(w);
        ghost var skipped := buf.Bytes;
        var next := PeekRepeatedField();
        SkipGoesOn(start, b, skipped, extra, wireType, w);
        if next.None? {
          return Ok(());
        }
        w := next.value;
      }
    }
  }

  /** Skipping from `b` on does what remains of skipping from `start` on, unless the cap has been passed in vain. */
  ghost predicate StillSkipping(start: seq<u8>, b: seq<u8>, extra: nat, w0: WireType, w: WireType) {
    extra <= |start| ==>
      if extra <= |b|
      then Beyond(b, extra) == Beyond(start, extra)
        && Wire.SkipField(w0, Before(start, extra)) == Wire.SkipField(w, Before(b, extra))
      else Wire.SkipField(w0, Before(start, extra)).Rejected?
  }

  /** The region that was read is what lies before the new cap, and the outer region's rest lies behind it. */
  ghost predicate TakenFrom(before: seq<u8>, after: seq<u8>, extra: nat, inner: nat) {
    && extra <= |before| && inner <= |after|
    && var p := ReadRegion(Before(before, extra));
    && p.Parsed?
    && Before(after, inner) == p.value
    && Beyond(after, inner) == p.rest + Beyond(before, extra)
  }

  lemma {:induction false} SkipGoesOn(start: seq<u8>, b: seq<u8>, skipped: seq<u8>, extra: nat, w0: WireType,
                                      w: WireType)
    requires |skipped| <= |b| <= |start| && StillSkipping(start, b, extra, w0, w)
    requires Isolated(b, skipped, extra, SkipValue(w, Before(b, extra)), Ok(()))
    ensures var next := PeekRepeated(Before(skipped, extra));
            if next.Some? then StillSkipping(start, skipped[1..], extra, w0, next.value)
            else Isolated(start, skipped, extra, Wire.SkipField(w0, Before(start, extra)), Ok(()))
  {
    if extra <= |b| {
      SkipRound(b, skipped, extra, w);
    }
  }

  /** One value skipped, in place and in the region by itself. */
  lemma {:induction false} SkipRound(b: seq<u8>, skipped: seq<u8>, extra: nat, w: WireType)
    requires extra <= |b| && |skipped| <= |b| && Isolated(b, skipped, extra, SkipValue(w, Before(b, extra)), Ok(()))
    ensures var next, whole := PeekRepeated(Before(skipped, extra)), Wire.SkipField(w, Before(b, extra));
            if extra > |skipped| then next.None? && whole.Rejected?
            else if next.None? then whole == Parsed((), Before(skipped, extra))
              && skipped == Before(skipped, extra) + Beyond(b, extra)
            else extra <= |skipped[1..]| && whole == Wire.SkipField(next.value, Before(skipped[1..], extra))
                 && Beyond(skipped[1..], extra) == Beyond(b, extra)
  {
    SkipUnfolds(w, Before(b, extra));
    if extra <= |skipped| {
      PeekIsolated(skipped, SkipValue(w, Before(b, extra)).rest, Beyond(b, extra));
    }
  }

  /** One round of `SkipField`. */
  lemma {:induction false} SkipUnfolds(w: WireType, b: seq<u8>)
    ensures var p := SkipValue(w, b);
            Wire.SkipField(w, b) == if p.Rejected? then Rejected
                                    else if PeekRepeated(p.rest).None? then Parsed((), p.rest)
                                    else Wire.SkipField(PeekRepeated(p.rest).value, p.rest[1..])
  {
  }

  lemma {:induction false} PeekIsolated(b: seq<u8>, rest: seq<u8>, beyond: seq<u8>)
    requires b == rest + beyond
    ensures Before(b, |beyond|) == rest && Beyond(b, |beyond|) == beyond
    ensures rest != [] ==> Before(b[1..], |beyond|) == rest[1..] && Beyond(b[1..], |beyond|) == beyond
  {
    Rejoin(rest, beyond);
    if rest != [] {
      assert b[1..] == rest[1..] + beyond;
      Rejoin(rest[1..], beyond);
    }
  }

  lemma {:induction false} VarintIsolated(b: seq<u8>, extra: nat)
    ensures Isolated(b, b[Consumed(b)..], extra, ReadVarint(Before(b, extra)), Outcome(b))
  {
    if extra <= |b| {
      var region, tail := Before(b, extra), Beyond(b, extra);
      Split(b, extra);
      if Decode(region).Got? {
        DecodeLocal(region, tail);
        assert b[Decode(region).len..] == region[Decode(region).len..] + tail;
      } else {
        DecodeExtended(region, tail);
      }
    }
  }

  /** A read that fails, and is said to be truncated if it went past the cap, fails as it would in the region. */
  lemma {:induction false} ErrorIsolated(b: seq<u8>, extra: nat)
    requires extra <= |b|
    ensures Outcome(b).Err? ==>
              Outcome(Before(b, extra)) == if |b| - Consumed(b) < extra then Err(Truncated) else Outcome(b)
  {
    var region, tail := Before(b, extra), Beyond(b, extra);
    Split(b, extra);
    if Decode(region).Got? {
      DecodeLocal(region, tail);
    } else {
      DecodeMeaning(region);
      DecodeMeaning(b);
      if |region| >= 9 {
        FirstChunkDecides(region, tail);
      }
    }
  }

  /** A length and its region, read from the whole buffer and from the part before the cap. */
  lemma {:induction false} RegionIsolated(b: seq<u8>, extra: nat)
    requires extra <= |b|
    ensures var p := ReadRegion(Before(b, extra));
            var more := b[Consumed(b)..];
            if Outcome(b).Ok? && Outcome(b).value <= |more| - extra
            then p.Parsed? && TakenFrom(b, more, extra, |more| - Outcome(b).value)
              && more[Outcome(b).value..] == p.rest + Beyond(b, extra)
            else p.Rejected?
  {
    hide Decode, Consumed, ReadVarint;
    VarintIsolated(b, extra);
    var more := b[Consumed(b)..];
    var p := ReadVarint(Before(b, extra));
    if p.Parsed? {
      Rejoin(p.rest, Beyond(b, extra));
      var n := p.value;
      if n <= |p.rest| {
        assert more[..n] == p.rest[..n];
        assert more[n..] == p.rest[n..] + Beyond(b, extra);
      }
    }
  }
}
