/** The bytes that each value is encoded as. */
module Encoding {
  import opened Base
  import opened Schemas
  import opened Varint

  function WireTypeOf(t: Type): WireType {
    match t
    case Uint(_) => WireType.Varint
    case Fixed(size, _) => if size == 4 then ThirtyTwoBit else SixtyFourBit
    case _ => LengthDelimited
  }

  /** A key: the distance from the previous field's tag above two bits of wire type. */
  function KeyBytes(tag: nat, last: nat, w: WireType): seq<u8> {
    Encode(4 * Max(tag - last, 0) + w.Code())
  }

  /** A length-delimited region. */
  function Delimited(region: seq<u8>): seq<u8> {
    Encode(|region|) + region
  }

  function ValueBytes(sch: Schema, t: Type, v: Value): seq<u8>
    decreases v
  {
    match (t, v)
    case (Uint(_), Num(n)) => Encode(n)
    case (Fixed(_, _), Blob(bs)) => bs
    case (Fixed(_, _), Word(_, bs)) => bs
    case (Bytes, Blob(bs)) => Delimited(bs)
    case (Pair(key, val), Entry(k, x)) => ValueBytes(sch, key, k) + ValueBytes(sch, val, x)
    case (List(_, elem), Items(items)) => Delimited(ItemsBytes(sch, elem, items))
    case (Message(id), Record(slots)) => Delimited(FieldsBytes(sch, id, slots, 0, 0))
    case _ => []
  }

  /** The items of a collection, one after another. */
  function ItemsBytes(sch: Schema, elem: Type, items: seq<Value>): seq<u8>
    decreases items
  {
    if items == [] then [] else ValueBytes(sch, elem, items[0]) + ItemsBytes(sch, elem, items[1..])
  }

  /** A message's fields from number `i` on, after a field with tag `last`; empty fields are left out. */
  function FieldsBytes(sch: Schema, id: nat, slots: seq<Slot>, i: nat, last: nat): seq<u8>
    decreases slots, |slots| - i
  {
    if id >= |sch| || i >= |slots| || i >= |sch[id].fields| then []
    else
      var f := sch[id].fields[i];
      if SlotEmpty(sch, f, slots[i]) then FieldsBytes(sch, id, slots, i + 1, last)
      else FieldBytes(sch, f, slots[i], last) + FieldsBytes(sch, id, slots, i + 1, f.tag)
  }

  lemma {:induction false} FieldsUnfold(sch: Schema, id: nat, slots: seq<Slot>, i: nat, last: nat)
    requires id < |sch| && |slots| == |sch[id].fields| && i <= |slots|
    ensures FieldsBytes(sch, id, slots, i, last)
            == if i == |slots| then []
               else
                 var f := sch[id].fields[i];
                 if SlotEmpty(sch, f, slots[i]) then FieldsBytes(sch, id, slots, i + 1, last)
                 else FieldBytes(sch, f, slots[i], last) + FieldsBytes(sch, id, slots, i + 1, f.tag)
  {
  }

  function FieldBytes(sch: Schema, f: Field, s: Slot, last: nat): seq<u8>
    decreases s
  {
    KeyBytes(f.tag, last, WireTypeOf(f.typ)) + (if s.Holds? then ValueBytes(sch, f.typ, s.value) else [])
  }

  /** A whole message. */
  function MessageBytes(sch: Schema, id: nat, slots: seq<Slot>): seq<u8> {
    FieldsBytes(sch, id, slots, 0, 0)
  }

  // ---------- nesting ----------

  /** The encoding nests messages at most `depth` deep. */
  ghost predicate NestsWithin(sch: Schema, t: Type, v: Value, depth: nat)
    decreases v
  {
    match (t, v)
    case (Pair(key, val), Entry(k, x)) => NestsWithin(sch, key, k, depth) && NestsWithin(sch, val, x, depth)
    case (List(_, elem), Items(items)) => forall i | 0 <= i < |items| :: NestsWithin(sch, elem, items[i], depth)
    case (Message(id), Record(slots)) => depth > 0 && RecordNestsWithin(sch, id, slots, depth - 1)
    case _ => true
  }

  ghost predicate RecordNestsWithin(sch: Schema, id: nat, slots: seq<Slot>, depth: nat)
    decreases slots
  {
    id < |sch| && |slots| == |sch[id].fields|
    && forall k | 0 <= k < |slots| :: SlotNestsWithin(sch, sch[id].fields[k], slots[k], depth)
  }

  ghost predicate SlotNestsWithin(sch: Schema, f: Field, s: Slot, depth: nat)
    decreases s
  {
    s.Holds? && !SlotEmpty(sch, f, s) ==> NestsWithin(sch, f.typ, s.value, depth)
  }

  // ---------- sizes ----------

  /** `combined_fixed_size` and `fixed_size`: the length of every value of the type, when it is constant. */
  function FixedSize(t: Type): Option<nat> {
    match t
    case Fixed(size, _) => Some(size)
    case Pair(key, val) =>
      if FixedSize(key).Some? && FixedSize(val).Some? then Some(FixedSize(key).value + FixedSize(val).value) else None
    case _ => None
  }

  lemma {:induction false} FixedSizeIsLength(sch: Schema, t: Type, v: Value)
    requires Fits(sch, t, v) && FixedSize(t).Some?
    ensures |ValueBytes(sch, t, v)| == FixedSize(t).value
    decreases v
  {
    if t.Pair? {
      FixedSizeIsLength(sch, t.key, v.key);
      FixedSizeIsLength(sch, t.val, v.val);
    }
  }

  /** The shortcut of `many_values_encoded_len`. */
  lemma {:induction false} FixedItemsLength(sch: Schema, elem: Type, items: seq<Value>)
    requires FixedSize(elem).Some? && forall i | 0 <= i < |items| :: Fits(sch, elem, items[i])
    ensures |ItemsBytes(sch, elem, items)| == FixedSize(elem).value * |items|
    decreases |items|
  {
    if items != [] {
      FixedSizeIsLength(sch, elem, items[0]);
      FixedItemsLength(sch, elem, items[1..]);
      assert FixedSize(elem).value * |items| == FixedSize(elem).value + FixedSize(elem).value * (|items| - 1);
    }
  }

  /** Every value takes at least one byte. */
  lemma {:induction false} NonEmptyBytes(sch: Schema, t: Type, v: Value)
    requires ItemOk(t, |sch|) && Fits(sch, t, v)
    ensures ValueBytes(sch, t, v) != []
    decreases v
  {
    if t.Pair? {
      NonEmptyBytes(sch, t.key, v.key);
    }
  }

  // ---------- items and fields from either end ----------

  lemma {:induction false} ItemsAppend(sch: Schema, elem: Type, items: seq<Value>, more: seq<Value>)
    ensures ItemsBytes(sch, elem, items + more) == ItemsBytes(sch, elem, items) + ItemsBytes(sch, elem, more)
    decreases |items|
  {
    if items == [] {
      assert items + more == more;
    } else {
      ItemsAppend(sch, elem, items[1..], more);
      assert (items + more)[1..] == items[1..] + more;
      Regroup(ValueBytes(sch, elem, items[0]), ItemsBytes(sch, elem, items[1..]), ItemsBytes(sch, elem, more));
    }
  }

  lemma {:induction false} ItemsSnoc(sch: Schema, elem: Type, items: seq<Value>, item: Value)
    ensures ItemsBytes(sch, elem, items + [item]) == ItemsBytes(sch, elem, items) + ValueBytes(sch, elem, item)
  {
    ItemsAppend(sch, elem, items, [item]);
    assert [item][1..] == [];
  }

  /** A wire type never changes a key's length: every varint limit is a multiple of four. */
  lemma {:induction false} KeyLength(delta: nat, w: WireType)
    requires delta < U32_END
    ensures |Encode(4 * delta + w.Code())| == EncodedLen(4 * delta)
  {
    EncodedLenIsLength(4 * delta + w.Code());
  }

  /** What `RuntimeTagMeasurer` measures in all over a run of tags. */
  function KeysLength(tags: seq<nat>, last: nat): nat {
    if tags == [] then 0 else EncodedLen(4 * Max(tags[0] - last, 0)) + KeysLength(tags[1..], tags[0])
  }

  ghost predicate TagsAscend(tags: seq<nat>, last: nat) {
    tags != [] ==> last <= tags[0] && TagsAscend(tags[1..], tags[0])
  }

  /** Over ascending tags below 32 every key takes the one byte that `TrivialTagMeasurer` assumes. */
  lemma {:induction false} TrivialKeys(tags: seq<nat>, last: nat)
    requires TagsAscend(tags, last) && forall i | 0 <= i < |tags| :: tags[i] < 32
    ensures KeysLength(tags, last) == |tags|
    decreases |tags|
  {
    if tags != [] {
      TrivialKeys(tags[1..], tags[0]);
    }
  }
}
