/** The operations on whole messages, and what the library promises of them. */
module Messages {
  import opened Base
  import opened Varint
  import opened VarintCodec
  import opened VarintPrepend
  import opened Buffers
  import opened ReverseBuffers
  import opened Schemas
  import opened Encoding
  import opened Wire
  import opened CappedBuffers
  import Relaxed
  import Restricted
  import RelaxedDecoder
  import opened DistinguishedDecoder
  import Encoder
  import Modes
  import RoundTrip

  const RECURSION_LIMIT: nat := 100

  // ---------- the promises ----------

  /** Relaxed decoding of a buffer that holds one message. */
  function Decoded(sch: Schema, id: nat, b: seq<u8>): Option<seq<Slot>>
    requires id < |sch|
  {
    Relaxed.Merge(sch, id, RECURSION_LIMIT, EmptyRecord(sch, id), None, b)
  }

  /** Decoding that stops at data less canonical than `min`. */
  function DecodedTo(sch: Schema, id: nat, min: Canonicity, b: seq<u8>): Restricted.Whole<seq<Slot>>
    requires id < |sch|
  {
    Restricted.Merge(sch, id, min, RECURSION_LIMIT, EmptyRecord(sch, id), None, Canonical, b)
  }

  /** Values nested within the limit and canonical bytes are in bijection: decoding accepts exactly the encodings. */
  lemma {:induction false} CanonicalBijection(sch: Schema, id: nat, slots: seq<Slot>, b: seq<u8>)
    requires id < |sch| && |b| < U64_END
    ensures DecodedTo(sch, id, Canonical, b) == Restricted.Whole(slots, Canonical)
            <==>
            (&& RecordFits(sch, id, slots) && RecordNestsWithin(sch, id, slots, RECURSION_LIMIT)
             && b == MessageBytes(sch, id, slots))
  {
    EmptyRecordIsEmpty(sch, id);
    if DecodedTo(sch, id, Canonical, b).Whole? {
      RoundTrip.FieldsFaithful(sch, id, RECURSION_LIMIT, EmptyRecord(sch, id), 0, None, b);
    }
    if RecordFits(sch, id, slots) && RecordNestsWithin(sch, id, slots, RECURSION_LIMIT)
       && b == MessageBytes(sch, id, slots) {
      RoundTrip.FieldsDecode(sch, id, slots, EmptyRecord(sch, id), 0, None, Canonical, RECURSION_LIMIT);
    }
  }

  /** Different values have different encodings. */
  lemma {:induction false} EncodingInjective(sch: Schema, id: nat, s: seq<Slot>, t: seq<Slot>)
    requires RecordFits(sch, id, s) && RecordNestsWithin(sch, id, s, RECURSION_LIMIT)
    requires RecordFits(sch, id, t) && RecordNestsWithin(sch, id, t, RECURSION_LIMIT)
    requires MessageBytes(sch, id, s) == MessageBytes(sch, id, t) && |MessageBytes(sch, id, s)| < U64_END
    ensures s == t
  {
    CanonicalBijection(sch, id, s, MessageBytes(sch, id, s));
    CanonicalBijection(sch, id, t, MessageBytes(sch, id, s));
  }

  /** Every decoding mode gives an encoded value back. */
  lemma {:induction false} EncodedDecodes(sch: Schema, id: nat, slots: seq<Slot>, min: Canonicity)
    requires RecordFits(sch, id, slots) && RecordNestsWithin(sch, id, slots, RECURSION_LIMIT)
    requires |MessageBytes(sch, id, slots)| < U64_END
    ensures DecodedTo(sch, id, min, MessageBytes(sch, id, slots)) == Restricted.Whole(slots, Canonical)
  {
    EmptyRecordIsEmpty(sch, id);
    RoundTrip.FieldsDecode(sch, id, slots, EmptyRecord(sch, id), 0, None, min, RECURSION_LIMIT);
  }

  /** Stopping early only filters: it never changes a value, its canonicity or what else is accepted. */
  lemma {:induction false} EarlyExitIsAFilter(sch: Schema, id: nat, min: Canonicity, b: seq<u8>)
    requires id < |sch|
    ensures var all := DecodedTo(sch, id, NotCanonical, b);
            DecodedTo(sch, id, min, b) == if all.Whole? && all.canon.AtLeast(min) then all else Restricted.Bad
  {
    Modes.FieldsFilter(sch, id, min, RECURSION_LIMIT, EmptyRecord(sch, id), None, Canonical, b);
  }

  /**
   * What relaxed decoding accepts, distinguished decoding accepts with the same value; the other way around it
   * does so, too, unless the modes can part over the message.
   */
  lemma {:induction false} RelaxedIsAccepted(sch: Schema, id: nat, b: seq<u8>)
    requires id < |sch|
    ensures var p, r := Decoded(sch, id, b), DecodedTo(sch, id, NotCanonical, b);
            && (p.Some? ==> r.Whole? && r.value == p.value)
            && (!Modes.RecordParts(sch, id, RECURSION_LIMIT) && r.Whole? ==> p.Some?)
  {
    Modes.FieldsMatch(sch, id, RECURSION_LIMIT, EmptyRecord(sch, id), None, Canonical, b);
  }

  // ---------- decoding ----------

  method NewLengthDelimited(buf: Cursor) returns (r: Result<Capped>)
    requires buf.Valid()
    modifies buf
    ensures buf.Valid() && |buf.Bytes| <= |old(buf.Bytes)|
    ensures r.Ok? <==> ReadRegion(old(buf.Bytes)).Parsed?
    ensures r.Ok? ==>
              && r.value.buf == buf && r.value.extra <= |buf.Bytes|
              && var p := ReadRegion(old(buf.Bytes));
                 Before(buf.Bytes, r.value.extra) == p.value && Beyond(buf.Bytes, r.value.extra) == p.rest
  {
    ghost var b := buf.Bytes;
    RegionIsolated(b, 0);
    assert Before(b, 0) == b && Beyond(b, 0) == [];
    var len :- VarintCodec.DecodeVarint(buf);
    var remaining := buf.Remaining();
    if len > remaining {
      return Err(Truncated);
    }
    return Ok(Capped(buf, remaining - len));
  }

  /** The restricted decoding of a message, with the last check of the result's canonicity, which never fails. */
  method DecodeRestrictedCapped(sch: Schema, id: nat, capped: Capped, min: Canonicity)
    returns (r: Result<Judged<seq<Slot>>>)
    requires id < |sch| && capped.buf.Valid() && capped.extra <= |capped.buf.Bytes|
    modifies capped.buf
    ensures capped.buf.Valid() && |capped.buf.Bytes| <= |old(capped.buf.Bytes)|
    ensures var all := DecodedTo(sch, id, NotCanonical, Before(old(capped.buf.Bytes), capped.extra));
            if all.Whole? && all.canon.AtLeast(min)
            then r == Ok(Judged(all.value, all.canon))
              && capped.buf.Bytes == Beyond(old(capped.buf.Bytes), capped.extra)
            else r.Err?
  {
    EarlyExitIsAFilter(sch, id, min, Before(capped.buf.Bytes, capped.extra));
    var message := EmptyRecord(sch, id);
    var merged :- DistinguishedDecoder.Merge(sch, id, min, RECURSION_LIMIT, message, capped);
    var canon := Check(min, merged.canon);
    return Ok(Judged(merged.value, canon.value));
  }

  method DecodeRestricted(sch: Schema, id: nat, buf: Cursor, min: Canonicity) returns (r: Result<Judged<seq<Slot>>>)
    requires id < |sch| && buf.Valid()
    modifies buf
    ensures buf.Valid()
    ensures var all := DecodedTo(sch, id, NotCanonical, old(buf.Bytes));
            if all.Whole? && all.canon.AtLeast(min)
            then r == Ok(Judged(all.value, all.canon)) && buf.Bytes == []
            else r.Err?
  {
    WholeBuffer(buf.Bytes);
    r := DecodeRestrictedCapped(sch, id, Capped(buf, 0), min);
  }

  lemma {:induction false} WholeBuffer(b: seq<u8>)
    ensures Before(b, 0) == b && Beyond(b, 0) == []
  {
  }

  /** Canonical decoding accepts the encodings of the values nested within the limit, and nothing else. */
  method DecodeCanonical(sch: Schema, id: nat, buf: Cursor) returns (r: Result<seq<Slot>>)
    requires id < |sch| && buf.Valid() && |buf.Bytes| < U64_END
    modifies buf
    ensures buf.Valid()
    ensures r.Ok? ==>
              && RecordFits(sch, id, r.value) && RecordNestsWithin(sch, id, r.value, RECURSION_LIMIT)
              && old(buf.Bytes) == MessageBytes(sch, id, r.value)
    ensures r.Err? ==>
              forall slots | RecordFits(sch, id, slots) && RecordNestsWithin(sch, id, slots, RECURSION_LIMIT) ::
                old(buf.Bytes) != MessageBytes(sch, id, slots)
  {
    ghost var b := buf.Bytes;
    EarlyExitIsAFilter(sch, id, Canonical, b);
    forall slots {
      CanonicalBijection(sch, id, slots, b);
    }
    var decoded :- DecodeRestricted(sch, id, buf, Canonical);
    return Ok(decoded.value);
  }

  /** A message that is decoded into. */
  class OwnedMessage {
    const sch: Schema
    const id: nat
    var slots: seq<Slot>

    ghost predicate Valid()
      reads this
    {
      id < |sch| && |slots| == |sch[id].fields|
    }

    constructor (sch: Schema, id: nat)
      requires id < |sch|
      ensures Valid() && this.sch == sch && this.id == id && slots == EmptyRecord(sch, id)
    {
      this.sch, this.id, slots := sch, id, EmptyRecord(sch, id);
    }

    method Clear()
      requires Valid()
      modifies this
      ensures Valid() && slots == EmptyRecord(sch, id)
    {
      slots := EmptyRecord(sch, id);
    }

    method ReplaceFromCapped(capped: Capped) returns (r: Result<()>)
      requires Valid() && capped.buf.Valid() && capped.extra <= |capped.buf.Bytes|
      modifies this, capped.buf
      ensures Valid() && capped.buf.Valid()
      ensures var p := Decoded(sch, id, Before(old(capped.buf.Bytes), capped.extra));
              && (r.Ok? <==> p.Some?)
              && slots == (if p.Some? then p.value else EmptyRecord(sch, id))
              && (r.Ok? ==> capped.buf.Bytes == Beyond(old(capped.buf.Bytes), capped.extra))
    {
      Clear();
      var merged := RelaxedDecoder.Merge(sch, id, RECURSION_LIMIT, slots, capped);
      if merged.Err? {
        Clear();
        return Err(merged.error);
      }
      slots := merged.value;
      return Ok(());
    }

    /** A replacement that fails leaves the message empty, and so does nothing by halves. */
    method ReplaceRestrictedFromCapped(capped: Capped, min: Canonicity) returns (r: Result<Canonicity>)
      requires Valid() && capped.buf.Valid() && capped.extra <= |capped.buf.Bytes|
      modifies this, capped.buf
      ensures Valid() && capped.buf.Valid()
      ensures var all := DecodedTo(sch, id, NotCanonical, Before(old(capped.buf.Bytes), capped.extra));
              if all.Whole? && all.canon.AtLeast(min)
              then r == Ok(all.canon) && slots == all.value
                && capped.buf.Bytes == Beyond(old(capped.buf.Bytes), capped.extra)
              else r.Err? && slots == EmptyRecord(sch, id)
    {
      Clear();
      EarlyExitIsAFilter(sch, id, min, Before(capped.buf.Bytes, capped.extra));
      var merged := DistinguishedDecoder.Merge(sch, id, min, RECURSION_LIMIT, slots, capped);
      if merged.Err? {
        Clear();
        return Err(merged.error);
      }
      slots := merged.value.value;
      r := Check(min, merged.value.canon);
    }

    /**
     * With a length in front: a length that cannot be read leaves the message as it was, and only a
     * failure after that empties it.
     */
    method ReplaceRestrictedFromLengthDelimited(buf: Cursor, min: Canonicity) returns (r: Result<Canonicity>)
      requires Valid() && buf.Valid()
      modifies this, buf
      ensures Valid() && buf.Valid()
      ensures var p := ReadRegion(old(buf.Bytes));
              if p.Rejected? then r.Err? && slots == old(slots)
              else
                var all := DecodedTo(sch, id, NotCanonical, p.value);
                if all.Whole? && all.canon.AtLeast(min)
                then r == Ok(all.canon) && slots == all.value && buf.Bytes == p.rest
                else r.Err? && slots == EmptyRecord(sch, id)
    {
      var capped :- NewLengthDelimited(buf);
      r := ReplaceRestrictedFromCapped(capped, min);
    }
  }

  // ---------- encoding ----------

  method EncodeToVec(sch: Schema, id: nat, slots: seq<Slot>) returns (bytes: seq<u8>)
    requires RecordFits(sch, id, slots) && |MessageBytes(sch, id, slots)| < U64_END
    ensures bytes == MessageBytes(sch, id, slots)
  {
    var buf := new ByteSink();
    Encoder.EncodeFields(sch, id, slots, buf);
    return buf.data;
  }

  method EncodeLengthDelimitedToVec(sch: Schema, id: nat, slots: seq<Slot>) returns (bytes: seq<u8>)
    requires RecordFits(sch, id, slots) && |MessageBytes(sch, id, slots)| < U64_END
    ensures bytes == Delimited(MessageBytes(sch, id, slots))
  {
    var len := Encoder.MeasureFields(sch, id, slots);
    var buf := new ByteSink();
    EncodeVarintUnrolled(len, buf);
    Encoder.EncodeFields(sch, id, slots, buf);
    return buf.data;
  }

  /** One pass, from back to front. */
  method EncodeFast(sch: Schema, id: nat, slots: seq<Slot>) returns (buf: ReverseBuffer)
    requires RecordFits(sch, id, slots) && |MessageBytes(sch, id, slots)| < U64_END
    ensures fresh(buf) && buf.Valid() && buf.Contents == MessageBytes(sch, id, slots)
    ensures buf.CanGrow() && forall i | 0 <= i < |buf.chunks| :: fresh(buf.chunks[i])
  {
    buf := new ReverseBuffer();
    Encoder.PrependFields(sch, id, slots, buf);
    assert MessageBytes(sch, id, slots) + [] == MessageBytes(sch, id, slots);
  }

  method EncodeLengthDelimitedFast(sch: Schema, id: nat, slots: seq<Slot>) returns (buf: ReverseBuffer)
    requires RecordFits(sch, id, slots) && |MessageBytes(sch, id, slots)| < U64_END
    ensures fresh(buf) && buf.Valid() && buf.Contents == Delimited(MessageBytes(sch, id, slots))
  {
    buf := EncodeFast(sch, id, slots);
    PrependVarintUnrolled(buf.Len(), buf);
  }

  /** The measured length is exact: one chunk holds the message and has no byte to spare. */
  method EncodeContiguous(sch: Schema, id: nat, slots: seq<Slot>) returns (buf: ReverseBuffer)
    requires RecordFits(sch, id, slots) && |MessageBytes(sch, id, slots)| < U64_END
    ensures fresh(buf) && buf.Valid() && buf.Contents == MessageBytes(sch, id, slots)
    ensures |buf.chunks| <= 1 && buf.capacity == |buf.Contents| && buf.front == 0
  {
    var len := Encoder.MeasureFields(sch, id, slots);
    buf := new ReverseBuffer.WithCapacity(len);
    Encoder.PrependFields(sch, id, slots, buf);
    assert MessageBytes(sch, id, slots) + [] == MessageBytes(sch, id, slots);
  }

  method EncodeLengthDelimitedContiguous(sch: Schema, id: nat, slots: seq<Slot>) returns (buf: ReverseBuffer)
    requires RecordFits(sch, id, slots) && |MessageBytes(sch, id, slots)| < U64_END
    ensures fresh(buf) && buf.Valid() && buf.Contents == Delimited(MessageBytes(sch, id, slots))
    ensures |buf.chunks| <= 1 && buf.capacity == |buf.Contents| && buf.front == 0
  {
    var len := Encoder.MeasureFields(sch, id, slots);
    EncodedLenIsLength(len);
    buf := new ReverseBuffer.WithCapacity(len + EncodedLen(len));
    Encoder.PrependFields(sch, id, slots, buf);
    assert MessageBytes(sch, id, slots) + [] == MessageBytes(sch, id, slots);
    PrependVarintUnrolled(len, buf);
  }
}
