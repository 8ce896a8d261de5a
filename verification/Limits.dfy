/** What the recursion limit does to the agreement of relaxed and distinguished decoding. */
module RecursionLimits {
  import opened Base
  import opened Varint
  import opened Schemas
  import opened Ordering
  import opened Encoding
  import opened Wire
  import opened Restricted
  import opened Modes
  import Relaxed
  import RelaxedDecoder
  import RoundTrip
  import Messages

  function RelaxedWithin(sch: Schema, id: nat, limit: nat, b: seq<u8>): Option<seq<Slot>>
    requires id < |sch|
  {
    Relaxed.Merge(sch, id, limit, EmptyRecord(sch, id), None, b)
  }

  function DistinguishedWithin(sch: Schema, id: nat, limit: nat, b: seq<u8>): Whole<seq<Slot>>
    requires id < |sch|
  {
    Merge(sch, id, NotCanonical, limit, EmptyRecord(sch, id), None, Canonical, b)
  }

  /** Distinguished decoding accepts what relaxed decoding does not; by `Sandwich` there is no other way to part. */
  ghost predicate Parted(sch: Schema, id: nat, limit: nat, b: seq<u8>)
    requires id < |sch|
  {
    DistinguishedWithin(sch, id, limit, b).Whole? && RelaxedWithin(sch, id, limit, b).None?
  }

  /**
   * For every schema, distinguished decoding lies between relaxed decoding with the same limit and with one
   * level more. Where the modes part, that one level is what relaxed decoding lacks.
   */
  lemma {:induction false} Sandwich(sch: Schema, id: nat, limit: nat, b: seq<u8>)
    requires id < |sch|
    ensures var p, r := RelaxedWithin(sch, id, limit, b), DistinguishedWithin(sch, id, limit, b);
            var q := RelaxedWithin(sch, id, limit + 1, b);
            && (p.Some? ==> r.Whole? && r.value == p.value)
            && (r.Whole? ==> q == Some(r.value))
  {
    FieldsMatch(sch, id, limit, EmptyRecord(sch, id), None, Canonical, b);
    FieldsFollow(sch, id, limit, EmptyRecord(sch, id), None, Canonical, b);
  }

  // ---------- from one place where the modes part to the next one around it ----------

  /** The modes part over a value at the front of `b + tail`, and distinguished decoding leaves the tail. */
  ghost predicate ValueParted(sch: Schema, t: Type, allowEmpty: bool, limit: nat, b: seq<u8>, tail: seq<u8>)
    requires ItemOk(t, |sch|)
  {
    && Relaxed.DecodeValue(sch, t, limit, b + tail).Rejected?
    && var r := DecodeValue(sch, t, allowEmpty, NotCanonical, limit, b + tail); r.Out? && r.rest == tail
  }

  /** Right at the limit, a handwritten message that must not be empty and has no bytes. */
  lemma {:induction false} BareMessageParts(sch: Schema, id: nat, tail: seq<u8>)
    requires id < |sch| && sch[id].handwritten
    ensures ValueParted(sch, Message(id), false, 0, [0], tail)
  {
    var b := [0] + tail;
    assert Delimited([]) == [0];
    RoundTrip.ReadDelimited([], tail);
    assert DecodeMessage(sch, id, false, NotCanonical, 0, b).Out?;
    assert Relaxed.DecodeMessage(sch, id, 0, b).Rejected?;
  }

  /** One message further in, one level higher up. */
  lemma {:induction false} MessageParts(sch: Schema, t: Type, allowEmpty: bool, limit: nat, b: seq<u8>, tail: seq<u8>)
    requires t.Message? && TypeOk(t, |sch|) && |b| < U64_END && Parted(sch, t.id, limit, b)
    ensures ValueParted(sch, t, allowEmpty, limit + 1, Delimited(b), tail)
  {
    RoundTrip.ReadDelimited(b, tail);
    assert b != [];
    var whole := Delimited(b) + tail;
    assert DecodeMessage(sch, t.id, allowEmpty, NotCanonical, limit + 1, whole)
      == DecodeBody(sch, t.id, NotCanonical, limit, b, tail);
    assert Relaxed.DecodeMessage(sch, t.id, limit + 1, whole).Rejected?;
  }

  /** The value of an entry, after a key that both modes accept. */
  lemma {:induction false} EntryParts(sch: Schema, t: Type, allowEmpty: bool, limit: nat, b: seq<u8>, tail: seq<u8>)
    requires t.Pair? && ItemOk(t, |sch|) && |EmptyBytes(sch, t.key)| < U64_END
    requires ValueParted(sch, t.val, true, limit, b, tail)
    ensures ValueParted(sch, t, allowEmpty, limit, EmptyBytes(sch, t.key) + b, tail)
  {
    EmptyDecodes(sch, t.key, limit, b + tail);
    Regroup(EmptyBytes(sch, t.key), b, tail);
    ValueMatches(sch, t.key, true, limit, EmptyBytes(sch, t.key) + (b + tail));
    assert DecodePair(sch, t, NotCanonical, limit, EmptyBytes(sch, t.key) + b + tail).Out?;
    assert Relaxed.DecodePair(sch, t, limit, EmptyBytes(sch, t.key) + b + tail).Rejected?;
  }

  /** A collection whose first item parts the modes; an array is filled up with empty items. */
  lemma {:induction false} ItemsPart(sch: Schema, kind: ListKind, elem: Type, limit: nat, b: seq<u8>)
    requires TypeOk(List(kind, elem), |sch|) && kind != Array(0) && (kind.Array? ==> limit > 0)
    requires |b + Padding(sch, kind, elem)| < U64_END
    requires ValueParted(sch, elem, true, limit, b, Padding(sch, kind, elem))
    ensures DecodeItems(sch, kind, elem, NotCanonical, limit, [], Canonical, b + Padding(sch, kind, elem)).Whole?
    ensures Relaxed.DecodeItems(sch, kind, elem, limit, [], b + Padding(sch, kind, elem)).None?
  {
    var region := b + Padding(sch, kind, elem);
    assert region != [];
    ItemsUnfold(sch, kind, elem, NotCanonical, limit, [], Canonical, region);
    var r := DecodeValue(sch, elem, true, NotCanonical, limit, region);
    assert [] + [r.value] == [r.value];
    assert InsertDistinguished(kind, [], r.value) == Some(Inserted([r.value], Canonical));
    var canon := Worse(Worse(Canonical, r.canon), Canonical);
    if kind.Array? {
      PaddingDecodes(sch, kind.size, elem, limit, [r.value], canon, kind.size - 1);
    }
    assert DecodeItems(sch, kind, elem, NotCanonical, limit, [r.value], canon, r.rest).Whole?;
  }

  lemma {:induction false} ListParts(sch: Schema, t: Type, allowEmpty: bool, limit: nat, region: seq<u8>, tail: seq<u8>)
    requires t.List? && ItemOk(t, |sch|) && |region| < U64_END
    requires DecodeItems(sch, t.kind, t.elem, NotCanonical, limit, [], Canonical, region).Whole?
    requires Relaxed.DecodeItems(sch, t.kind, t.elem, limit, [], region).None?
    ensures ValueParted(sch, t, allowEmpty, limit, Delimited(region), tail)
  {
    RoundTrip.ReadDelimited(region, tail);
    assert DecodeList(sch, t, NotCanonical, limit, Delimited(region) + tail).Out?;
    assert Relaxed.DecodeList(sch, t, limit, Delimited(region) + tail).Rejected?;
  }

  /** A message whose only field that is there parts the modes. */
  lemma {:induction false} FieldParts(sch: Schema, id: nat, k: nat, limit: nat, b: seq<u8>)
    requires id < |sch| && k < |sch[id].fields| && TypeOk(sch[id].fields[k].typ, |sch|)
    requires var f := sch[id].fields[k];
             WireTypeOf(f.typ) == LengthDelimited && ValueParted(sch, f.typ, f.optional, limit, b, [])
    ensures Parted(sch, id, limit, KeyBytes(sch[id].fields[k].tag, 0, LengthDelimited) + b)
  {
    var f := sch[id].fields[k];
    var whole := KeyBytes(f.tag, 0, LengthDelimited) + b;
    assert DefOk(sch[id], id, |sch|);
    assert b + [] == b;
    RoundTrip.FieldAt(sch[id].fields, k);
    RoundTrip.ReadKeyBytes(f.tag, 0, LengthDelimited, b);
    MergeKnown(sch, id, NotCanonical, limit, EmptyRecord(sch, id), None, Canonical, whole);
    RelaxedDecoder.MergeTurn(sch, id, limit, EmptyRecord(sch, id), None, whole);
  }

  /** Both steps: where the modes part, they part around the same bytes one level higher up. */
  lemma {:induction false} NestedParts(sch: Schema, id: nat, k: nat, inner: nat, limit: nat, b: seq<u8>)
    requires id < |sch| && k < |sch[id].fields| && sch[id].fields[k].typ == Message(inner)
    requires inner < |sch| && |b| < U64_END && Parted(sch, inner, limit, b)
    ensures Parted(sch, id, limit + 1, KeyBytes(sch[id].fields[k].tag, 0, LengthDelimited) + Delimited(b))
  {
    var f := sch[id].fields[k];
    MessageParts(sch, f.typ, f.optional, limit, b, []);
    FieldParts(sch, id, k, limit + 1, Delimited(b));
  }

  // ---------- the items that fill up an array ----------

  function EmptyBytes(sch: Schema, t: Type): seq<u8>
    requires TypeOk(t, |sch|)
  {
    ValueBytes(sch, t, EmptyValue(sch, t))
  }

  function EmptyItems(sch: Schema, elem: Type, n: nat): seq<u8>
    requires TypeOk(elem, |sch|)
  {
    if n == 0 then [] else EmptyBytes(sch, elem) + EmptyItems(sch, elem, n - 1)
  }

  /** What follows the first item of a collection that is no longer than it must be. */
  function Padding(sch: Schema, kind: ListKind, elem: Type): seq<u8>
    requires kind.Array? ==> TypeOk(elem, |sch|)
  {
    if kind.Array? && kind.size > 0 then EmptyItems(sch, elem, kind.size - 1) else []
  }

  lemma {:induction false} EmptyNests(sch: Schema, t: Type, depth: nat)
    requires TypeOk(t, |sch|) && (depth > 0 || IsKey(t))
    ensures NestsWithin(sch, t, EmptyValue(sch, t), depth)
    decreases t
  {
    if t.List? && t.kind.Array? {
      EmptyNests(sch, t.elem, depth);
    } else if t.Message? {
      EmptyRecordIsEmpty(sch, t.id);
    }
  }

  lemma {:induction false} EmptyDecodes(sch: Schema, t: Type, depth: nat, tail: seq<u8>)
    requires TypeOk(t, |sch|) && (depth > 0 || IsKey(t)) && |EmptyBytes(sch, t)| < U64_END
    ensures DecodeValue(sch, t, true, NotCanonical, depth, EmptyBytes(sch, t) + tail)
            == Out(EmptyValue(sch, t), Canonical, tail)
  {
    EmptyIsEmpty(sch, t);
    EmptyNests(sch, t, depth);
    RoundTrip.ValueDecodes(sch, t, EmptyValue(sch, t), true, NotCanonical, depth, tail);
  }

  lemma {:induction false} PaddingDecodes(sch: Schema, size: nat, elem: Type, depth: nat, items: seq<Value>,
                                          canon: Canonicity, n: nat)
    requires TypeOk(elem, |sch|) && depth > 0 && |items| + n == size
    requires |EmptyItems(sch, elem, n)| < U64_END
    ensures DecodeItems(sch, Array(size), elem, NotCanonical, depth, items, canon, EmptyItems(sch, elem, n)).Whole?
    decreases n
  {
    if n > 0 {
      var rest := EmptyItems(sch, elem, n - 1);
      EmptyDecodes(sch, elem, depth, rest);
      var item := EmptyValue(sch, elem);
      PaddingDecodes(sch, size, elem, depth, items + [item], Worse(Worse(canon, Canonical), Canonical), n - 1);
      assert EmptyItems(sch, elem, n) != [];
      ItemsUnfold(sch, Array(size), elem, NotCanonical, depth, items, canon, EmptyItems(sch, elem, n));
    }
  }

  // ---------- bytes on which the modes part ----------

  /** Bytes of a value on which the modes part: as few items as possible, each of them no longer than it must be. */
  ghost function PartingValue(sch: Schema, t: Type, allowEmpty: bool, depth: nat): seq<u8>
    requires ItemOk(t, |sch|) && ValueParts(sch, t, allowEmpty, depth)
    decreases depth, 0, t
  {
    match t
    case Message(id) => if depth == 0 then [0] else Delimited(PartingRecord(sch, id, depth - 1))
    case List(kind, elem) => Delimited(PartingValue(sch, elem, true, depth) + Padding(sch, kind, elem))
    case Pair(key, val) => EmptyBytes(sch, key) + PartingValue(sch, val, true, depth)
    case _ => []
  }

  ghost function PartingRecord(sch: Schema, id: nat, depth: nat): seq<u8>
    requires id < |sch| && RecordParts(sch, id, depth)
    decreases depth, 1
  {
    assert DefOk(sch[id], id, |sch|);
    var k :| 0 <= k < |sch[id].fields| && ValueParts(sch, sch[id].fields[k].typ, sch[id].fields[k].optional, depth);
    var f := sch[id].fields[k];
    KeyBytes(f.tag, 0, LengthDelimited) + PartingValue(sch, f.typ, f.optional, depth)
  }

  /** The bytes that a value of type `t` takes around the message inside of it on which the modes part. */
  function Around(sch: Schema, t: Type): nat
    requires ItemOk(t, |sch|)
  {
    match t
    case Message(_) => 9
    case List(kind, elem) => 9 + Around(sch, elem) + |Padding(sch, kind, elem)|
    case Pair(key, val) => |EmptyBytes(sch, key)| + Around(sch, val)
    case _ => 0
  }

  /** No field takes more than `room` bytes around the message inside of it. */
  ghost predicate HasRoom(sch: Schema, room: nat) {
    forall i, k | 0 <= i < |sch| && 0 <= k < |sch[i].fields| ::
      TypeOk(sch[i].fields[k].typ, |sch|) && Around(sch, sch[i].fields[k].typ) <= room
  }

  /** A bound on the length of a message that is parted `depth` levels further in. */
  function Bound(room: nat, depth: nat): nat {
    if depth == 0 then 0 else Bound(room, depth - 1) + room + 9
  }

  lemma {:induction false} VarintLength(n: nat)
    requires n < U64_END
    ensures |Encode(n)| <= 9
  {
    EncodeIsVarint(n);
  }

  lemma {:induction false} PartingValueLength(sch: Schema, t: Type, allowEmpty: bool, depth: nat, room: nat)
    requires ItemOk(t, |sch|) && ValueParts(sch, t, allowEmpty, depth) && HasRoom(sch, room)
    requires Around(sch, t) + Bound(room, depth) < U64_END
    ensures |PartingValue(sch, t, allowEmpty, depth)| <= Around(sch, t) + Bound(room, depth)
    decreases depth, 0, t
  {
    match t {
      case Message(id) =>
        if depth > 0 {
          PartingRecordLength(sch, id, depth - 1, room);
          VarintLength(|PartingRecord(sch, id, depth - 1)|);
        }
      case List(kind, elem) =>
        PartingValueLength(sch, elem, true, depth, room);
        VarintLength(|PartingValue(sch, elem, true, depth) + Padding(sch, kind, elem)|);
      case Pair(_, val) =>
        PartingValueLength(sch, val, true, depth, room);
      case _ =>
    }
  }

  /** The field of the message that its bytes hold. */
  lemma {:induction false} PartingField(sch: Schema, id: nat, depth: nat) returns (k: nat)
    requires id < |sch| && RecordParts(sch, id, depth)
    ensures k < |sch[id].fields|
    ensures var f := sch[id].fields[k];
            && TypeOk(f.typ, |sch|) && ValueParts(sch, f.typ, f.optional, depth)
            && PartingRecord(sch, id, depth)
               == KeyBytes(f.tag, 0, LengthDelimited) + PartingValue(sch, f.typ, f.optional, depth)
  {
    assert DefOk(sch[id], id, |sch|);
    k :| 0 <= k < |sch[id].fields| && ValueParts(sch, sch[id].fields[k].typ, sch[id].fields[k].optional, depth)
      && PartingRecord(sch, id, depth) == KeyBytes(sch[id].fields[k].tag, 0, LengthDelimited)
                                          + PartingValue(sch, sch[id].fields[k].typ, sch[id].fields[k].optional, depth);
  }

  lemma {:induction false} PartingRecordLength(sch: Schema, id: nat, depth: nat, room: nat)
    requires id < |sch| && RecordParts(sch, id, depth) && HasRoom(sch, room) && Bound(room, depth + 1) < U64_END
    ensures |PartingRecord(sch, id, depth)| <= Bound(room, depth + 1)
    decreases depth, 1
  {
    assert DefOk(sch[id], id, |sch|);
    var k := PartingField(sch, id, depth);
    var f := sch[id].fields[k];
    PartingValueLength(sch, f.typ, f.optional, depth, room);
    VarintLength(4 * f.tag + 1);
    assert KeyBytes(f.tag, 0, LengthDelimited) == Encode(4 * f.tag + 1);
  }

  lemma {:induction false} PartingValueParts(sch: Schema, t: Type, allowEmpty: bool, depth: nat, room: nat,
                                             tail: seq<u8>)
    requires ItemOk(t, |sch|) && ValueParts(sch, t, allowEmpty, depth) && HasRoom(sch, room)
    requires Around(sch, t) + Bound(room, depth) < U64_END
    ensures ValueParted(sch, t, allowEmpty, depth, PartingValue(sch, t, allowEmpty, depth), tail)
    decreases depth, 0, t
  {
    hide ValueParted, RecordParts, PartingRecord, Parted;
    match t {
      case Message(id) =>
        if depth == 0 {
          BareMessageParts(sch, id, tail);
        } else {
          PartingRecordLength(sch, id, depth - 1, room);
          PartingRecordParts(sch, id, depth - 1, room);
          MessageParts(sch, t, allowEmpty, depth - 1, PartingRecord(sch, id, depth - 1), tail);
        }
      case List(_, _) =>
        PartingListParts(sch, t, allowEmpty, depth, room, tail);
      case Pair(_, val) =>
        PartingValueParts(sch, val, true, depth, room, tail);
        EntryParts(sch, t, allowEmpty, depth, PartingValue(sch, val, true, depth), tail);
      case _ =>
    }
  }

  lemma {:induction false} PartingListParts(sch: Schema, t: Type, allowEmpty: bool, depth: nat, room: nat,
                                            tail: seq<u8>)
    requires t.List? && ItemOk(t, |sch|) && ValueParts(sch, t, allowEmpty, depth) && HasRoom(sch, room)
    requires Around(sch, t) + Bound(room, depth) < U64_END
    ensures ValueParted(sch, t, allowEmpty, depth, PartingValue(sch, t, allowEmpty, depth), tail)
    decreases depth, 0, t, 0
  {
    var b, padding := PartingValue(sch, t.elem, true, depth), Padding(sch, t.kind, t.elem);
    PartingValueLength(sch, t.elem, true, depth, room);
    PartingValueParts(sch, t.elem, true, depth, room, padding);
    NotAtLimit(sch, t.elem, depth);
    ItemsPart(sch, t.kind, t.elem, depth, b);
    ListParts(sch, t, allowEmpty, depth, b + padding, tail);
  }

  /** Items may be empty, so they are not the place right at the limit. */
  lemma {:induction false} NotAtLimit(sch: Schema, t: Type, depth: nat)
    ensures ValueParts(sch, t, true, depth) ==> depth > 0
    decreases t
  {
    match t {
      case List(_, elem) => NotAtLimit(sch, elem, depth);
      case Pair(_, val) => NotAtLimit(sch, val, depth);
      case _ =>
    }
  }

  lemma {:induction false} PartingRecordParts(sch: Schema, id: nat, depth: nat, room: nat)
    requires id < |sch| && RecordParts(sch, id, depth) && HasRoom(sch, room) && Bound(room, depth + 1) < U64_END
    ensures Parted(sch, id, depth, PartingRecord(sch, id, depth))
    decreases depth, 1
  {
    assert DefOk(sch[id], id, |sch|);
    var k := PartingField(sch, id, depth);
    var f := sch[id].fields[k];
    PartingValueParts(sch, f.typ, f.optional, depth, room, []);
    FieldParts(sch, id, k, depth, PartingValue(sch, f.typ, f.optional, depth));
  }

  /** Where `RecordParts` finds no place, the modes agree on all bytes. */
  lemma {:induction false} AgreeUnless(sch: Schema, id: nat, limit: nat, b: seq<u8>)
    requires id < |sch|
    ensures Parted(sch, id, limit, b) ==> RecordParts(sch, id, limit)
  {
    FieldsMatch(sch, id, limit, EmptyRecord(sch, id), None, Canonical, b);
  }

  /** And where it finds one, there are bytes on which they part. */
  lemma {:induction false} AgreeExactly(sch: Schema, id: nat, limit: nat, room: nat)
    requires id < |sch| && HasRoom(sch, room) && Bound(room, limit + 1) < U64_END
    ensures (exists b: seq<u8> | |b| < U64_END :: Parted(sch, id, limit, b)) <==> RecordParts(sch, id, limit)
  {
    if RecordParts(sch, id, limit) {
      PartingRecordLength(sch, id, limit, room);
      PartingRecordParts(sch, id, limit, room);
    } else {
      forall b: seq<u8> | |b| < U64_END ensures !Parted(sch, id, limit, b) {
        AgreeUnless(sch, id, limit, b);
      }
    }
  }

  lemma {:induction false} BoundIs(room: nat, depth: nat)
    ensures Bound(room, depth) == depth * (room + 9)
    decreases depth
  {
    if depth > 0 {
      BoundIs(room, depth - 1);
    }
  }

  /** Whole messages, which are decoded with the library's own limit. */
  lemma {:induction false} WholeMessagesAgree(sch: Schema, id: nat)
    requires id < |sch| && HasRoom(sch, 0x100_0000_0000_0000)
    ensures (exists b: seq<u8> ::
               Messages.DecodedTo(sch, id, NotCanonical, b).Whole? && Messages.Decoded(sch, id, b).None?)
            <==> RecordParts(sch, id, Messages.RECURSION_LIMIT)
  {
    BoundIs(0x100_0000_0000_0000, Messages.RECURSION_LIMIT + 1);
    AgreeExactly(sch, id, Messages.RECURSION_LIMIT, 0x100_0000_0000_0000);
    forall b: seq<u8>
      ensures Parted(sch, id, Messages.RECURSION_LIMIT, b)
              <==> Messages.DecodedTo(sch, id, NotCanonical, b).Whole? && Messages.Decoded(sch, id, b).None?
      ensures Parted(sch, id, Messages.RECURSION_LIMIT, b) ==> RecordParts(sch, id, Messages.RECURSION_LIMIT)
    {
      AgreeUnless(sch, id, Messages.RECURSION_LIMIT, b);
    }
  }

  // ---------- schemas on which the modes agree with every limit ----------

  /** The field does not hold a handwritten message that must not be empty. */
  predicate Derived(sch: Schema, f: Field) {
    !f.optional && f.typ.Message? && f.typ.id < |sch| ==> !sch[f.typ.id].handwritten
  }

  /** Handwritten messages are met in options, collections and mappings only. */
  ghost predicate AllDerived(sch: Schema) {
    forall i, k | 0 <= i < |sch| && 0 <= k < |sch[i].fields| :: Derived(sch, sch[i].fields[k])
  }

  lemma {:induction false} DerivedValueAgrees(sch: Schema, t: Type, allowEmpty: bool, depth: nat)
    requires AllDerived(sch) && (allowEmpty || (t.Message? && t.id < |sch| ==> !sch[t.id].handwritten))
    ensures !ValueParts(sch, t, allowEmpty, depth)
    decreases depth, 0, t
  {
    match t {
      case Message(id) =>
        if depth > 0 && id < |sch| {
          DerivedRecordAgrees(sch, id, depth - 1);
        }
      case List(_, elem) => DerivedValueAgrees(sch, elem, true, depth);
      case Pair(_, val) => DerivedValueAgrees(sch, val, true, depth);
      case _ =>
    }
  }

  lemma {:induction false} DerivedRecordAgrees(sch: Schema, id: nat, depth: nat)
    requires AllDerived(sch) && id < |sch|
    ensures !RecordParts(sch, id, depth)
    decreases depth, 1
  {
    forall k | 0 <= k < |sch[id].fields|
      ensures !ValueParts(sch, sch[id].fields[k].typ, sch[id].fields[k].optional, depth)
    {
      assert Derived(sch, sch[id].fields[k]);
      DerivedValueAgrees(sch, sch[id].fields[k].typ, sch[id].fields[k].optional, depth);
    }
  }

  /** Over all messages and limits the modes agree exactly if no handwritten message is held in place. */
  lemma {:induction false} AgreeWithEveryLimit(sch: Schema)
    ensures (forall id: nat, limit: nat, b: seq<u8> | id < |sch| :: !Parted(sch, id, limit, b)) <==> AllDerived(sch)
  {
    if AllDerived(sch) {
      forall id: nat, limit: nat, b: seq<u8> | id < |sch| ensures !Parted(sch, id, limit, b) {
        DerivedRecordAgrees(sch, id, limit);
        FieldsMatch(sch, id, limit, EmptyRecord(sch, id), None, Canonical, b);
      }
    } else {
      var i: nat, k: nat :| i < |sch| && k < |sch[i].fields| && !Derived(sch, sch[i].fields[k]);
      assert DefOk(sch[i], i, |sch|);
      BareMessageParts(sch, sch[i].fields[k].typ.id, []);
      FieldParts(sch, i, k, 0, [0]);
    }
  }

  // ---------- a message on which they part ----------

  /** Message 0 is handwritten and has no fields; message 1 holds itself as an option, and message 0 in place. */
  const NESTING: seq<MessageDef> := [
    MessageDef([], true),
    MessageDef([Field(1, true, Message(1)), Field(2, false, Message(0))], false)
  ]

  ghost predicate NestsItself(sch: Schema) {
    |sch| == 2 && sch[0].handwritten
    && sch[1].fields == [Field(1, true, Message(1)), Field(2, false, Message(0))]
  }

  lemma {:induction false} NestingIsSchema() returns (sch: Schema)
    ensures NestsItself(sch) && sch[0].fields == []
  {
    assert DefOk(NESTING[0], 0, 2) && DefOk(NESTING[1], 1, 2);
    sch := NESTING;
  }

  lemma {:induction false} NestingHasRoom(sch: Schema)
    requires NestsItself(sch) && sch[0].fields == []
    ensures HasRoom(sch, 9)
  {
  }

  /** Message 1 can be nested up to any limit. */
  lemma {:induction false} NestingParts(sch: Schema, limit: nat)
    requires NestsItself(sch)
    ensures RecordParts(sch, 1, limit)
    decreases limit
  {
    var fields := sch[1].fields;
    if limit == 0 {
      assert ValueParts(sch, fields[1].typ, fields[1].optional, limit);
    } else {
      NestingParts(sch, limit - 1);
      assert ValueParts(sch, fields[0].typ, fields[0].optional, limit);
    }
  }

  /** Whole messages part, at the library's own limit: a hundred messages around an empty handwritten one. */
  lemma {:induction false} MessagesPart() returns (sch: Schema, b: seq<u8>)
    ensures |sch| == 2 && |b| < U64_END
    ensures Messages.DecodedTo(sch, 1, NotCanonical, b).Whole? && Messages.Decoded(sch, 1, b).None?
  {
    sch := NestingIsSchema();
    NestingHasRoom(sch);
    NestingParts(sch, Messages.RECURSION_LIMIT);
    BoundIs(9, Messages.RECURSION_LIMIT + 1);
    AgreeExactly(sch, 1, Messages.RECURSION_LIMIT, 9);
    b :| |b| < U64_END && Parted(sch, 1, Messages.RECURSION_LIMIT, b);
  }

  /** The limit matters: an empty handwritten message that nothing else is nested around is never that far in. */
  lemma {:induction false} OneLevelAgrees() returns (sch: Schema)
    ensures |sch| == 2 && !AllDerived(sch)
    ensures forall b: seq<u8> ::
              Messages.DecodedTo(sch, 1, NotCanonical, b).Whole? <==> Messages.Decoded(sch, 1, b).Some?
  {
    sch := [MessageDef([], true), MessageDef([Field(1, false, Message(0))], false)];
    var fields := sch[1].fields;
    assert !Derived(sch, fields[0]);
    forall k | 0 <= k < |fields| ensures !ValueParts(sch, fields[k].typ, fields[k].optional, Messages.RECURSION_LIMIT) {
      assert !RecordParts(sch, 0, Messages.RECURSION_LIMIT - 1);
    }
    forall b: seq<u8> {
      Messages.RelaxedIsAccepted(sch, 1, b);
    }
  }
}
