/** The wire format, byte by byte: keys, lengths and values as varints, and what a field that is left out stands for. */
module Format {
  import opened Base
  import opened Varint
  import opened Schemas
  import opened Ordering
  import opened Encoding
  import opened Restricted
  import opened Increasing
  import Extensions
  import Messages
  import Modes

  /** A key is the varint of four times the distance from the last tag, and two bits for the wire type. */
  lemma {:induction false} KeyOnWire(tag: nat, last: nat, w: WireType)
    requires last <= tag < U32_END
    ensures IsVarint(KeyBytes(tag, last, w))
    ensures Val(KeyBytes(tag, last, w))
            == 4 * (tag - last) + match w { case Varint => 0 case LengthDelimited => 1 case ThirtyTwoBit => 2
                                            case SixtyFourBit => 3 }
  {
    EncodeIsVarint(4 * (tag - last) + w.Code());
  }

  /** A varint of the length, and then that many bytes. */
  ghost predicate DelimitedBy(bytes: seq<u8>, prefix: seq<u8>, region: seq<u8>) {
    bytes == prefix + region && IsVarint(prefix) && Val(prefix) == |region|
  }

  /** What is on the wire for a value, and with what wire type. */
  ghost predicate OnWire(sch: Schema, t: Type, v: Value, bytes: seq<u8>) {
    match (t, v)
    case (Uint(_), Num(n)) => WireTypeOf(t) == WireType.Varint && IsVarint(bytes) && Val(bytes) == n
    case (Fixed(size, _), Blob(bs)) =>
      bytes == bs && WireTypeOf(t) == (if size == 4 then ThirtyTwoBit else SixtyFourBit)
    case (Fixed(size, _), Word(_, bs)) =>
      bytes == bs && WireTypeOf(t) == (if size == 4 then ThirtyTwoBit else SixtyFourBit)
    case (Bytes, Blob(bs)) => WireTypeOf(t) == LengthDelimited && exists p :: DelimitedBy(bytes, p, bs)
    case (Pair(key, val), Entry(k, x)) => bytes == ValueBytes(sch, key, k) + ValueBytes(sch, val, x)
    case (List(_, elem), Items(items)) =>
      WireTypeOf(t) == LengthDelimited && exists p :: DelimitedBy(bytes, p, ItemsBytes(sch, elem, items))
    case (Message(id), Record(slots)) =>
      WireTypeOf(t) == LengthDelimited && exists p :: DelimitedBy(bytes, p, MessageBytes(sch, id, slots))
    case _ => false
  }

  lemma {:induction false} RegionOnWire(region: seq<u8>)
    requires |region| < U64_END
    ensures DelimitedBy(Delimited(region), Encode(|region|), region)
  {
    EncodeIsVarint(|region|);
  }

  lemma {:induction false} ValueOnWire(sch: Schema, t: Type, v: Value)
    requires ItemOk(t, |sch|) && Fits(sch, t, v) && |ValueBytes(sch, t, v)| < U64_END
    ensures OnWire(sch, t, v, ValueBytes(sch, t, v))
  {
    match t {
      case Uint(_) => EncodeIsVarint(v.n);
      case Bytes => RegionOnWire(v.bytes);
      case List(_, elem) => RegionOnWire(ItemsBytes(sch, elem, v.items));
      case Message(id) => RegionOnWire(MessageBytes(sch, id, v.slots));
      case _ =>
    }
  }

  /** What a plain field of this type holds that is left out: zero, no bytes, no items, or nothing but such fields. */
  ghost predicate Nothing(sch: Schema, t: Type, v: Value)
    decreases v
  {
    match t
    case Uint(_) => v == Num(0)
    case Fixed(size, form) => v == FixedOf(form, seq(size, _ => 0))
    case Bytes => v == Blob([])
    case List(Array(size), elem) =>
      v.Items? && |v.items| == size && forall i | 0 <= i < size :: Nothing(sch, elem, v.items[i])
    case List(_, _) => v == Items([])
    case Message(id) => v.Record? && NothingIn(sch, id, v.slots)
    case Pair(_, _) => false
  }

  ghost predicate NothingIn(sch: Schema, id: nat, slots: seq<Slot>)
    decreases slots
  {
    && id < |sch| && |slots| == |sch[id].fields|
    && forall k | 0 <= k < |slots| :: NothingAt(sch, sch[id].fields[k], slots[k])
  }

  ghost predicate NothingAt(sch: Schema, f: Field, s: Slot)
    decreases s
  {
    if f.optional then s.Absent? else s.Holds? && Nothing(sch, f.typ, s.value)
  }

  lemma {:induction false} EmptyIsNothing(sch: Schema, t: Type, v: Value)
    requires TypeOk(t, |sch|) && Fits(sch, t, v)
    ensures IsEmpty(sch, t, v) <==> Nothing(sch, t, v)
    decreases v
  {
    match t {
      case Fixed(size, form) =>
        if IsEmpty(sch, t, v) {
          assert v.bytes == seq(size, _ => 0);
        }
      case List(kind, elem) =>
        if kind.Array? {
          forall i | 0 <= i < |v.items| ensures IsEmpty(sch, elem, v.items[i]) <==> Nothing(sch, elem, v.items[i]) {
            EmptyIsNothing(sch, elem, v.items[i]);
          }
        }
      case Message(id) => RecordIsNothing(sch, id, v.slots);
      case _ =>
    }
  }

  lemma {:induction false} RecordIsNothing(sch: Schema, id: nat, slots: seq<Slot>)
    requires id < |sch| && RecordFits(sch, id, slots)
    ensures RecordEmpty(sch, id, slots) <==> NothingIn(sch, id, slots)
    decreases slots
  {
    forall k | 0 <= k < |slots|
      ensures SlotEmpty(sch, sch[id].fields[k], slots[k]) <==> NothingAt(sch, sch[id].fields[k], slots[k]) {
      assert DefOk(sch[id], id, |sch|);
      assert SlotFits(sch, sch[id].fields[k], slots[k]);
      if !sch[id].fields[k].optional {
        assert slots[k].value < slots[k];
        EmptyIsNothing(sch, sch[id].fields[k].typ, slots[k].value);
      }
    }
  }

  /** No bytes are the message whose fields all hold nothing, in every mode, and canonically so. */
  lemma {:induction false} NoBytesHoldNothing(sch: Schema, id: nat, min: Canonicity)
    requires id < |sch|
    ensures Messages.DecodedTo(sch, id, min, []) == Whole(EmptyRecord(sch, id), Canonical)
    ensures Messages.Decoded(sch, id, []) == Some(EmptyRecord(sch, id))
    ensures NothingIn(sch, id, EmptyRecord(sch, id))
  {
    EmptyRecordIsEmpty(sch, id);
    RecordIsNothing(sch, id, EmptyRecord(sch, id));
    MergeEnds(sch, id, min, Messages.RECURSION_LIMIT, EmptyRecord(sch, id), None, Canonical);
    Modes.NoFields(sch, id, Messages.RECURSION_LIMIT);
  }

  /** Every set and mapping that a message holds in a field is strictly increasing, however it was written. */
  lemma {:induction false} DecodedSetsIncrease(sch: Schema, id: nat, min: Canonicity, b: seq<u8>, k: nat)
    requires id < |sch| && Messages.DecodedTo(sch, id, min, b).Whole? && k < |sch[id].fields|
    requires sch[id].fields[k].typ.List? && (sch[id].fields[k].typ.kind.Set? || sch[id].fields[k].typ.kind.Mapping?)
    ensures var s := Messages.DecodedTo(sch, id, min, b).value[k];
            s.Holds? ==> s.value.Items? && StrictlyIncreasing(sch[id].fields[k].typ.elem, s.value.items)
  {
    Extensions.DecodedFits(sch, id, min, b);
    var s, t := Messages.DecodedTo(sch, id, min, b).value[k], sch[id].fields[k].typ;
    assert DefOk(sch[id], id, |sch|);
    assert SlotFits(sch, sch[id].fields[k], s);
    if s.Holds? {
      assert Fits(sch, t, s.value);
      OrderedMeaning(sch, t.kind, t.elem, s.value.items);
    }
  }
}
