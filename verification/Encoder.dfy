/**
 * The three passes that must agree with each other: measuring, encoding forward into a sink, and
 * encoding backward into a prepend-only buffer with lengths filled in afterwards.
 */
module Encoder {
  import opened Base
  import opened Varint
  import opened VarintCodec
  import opened VarintPrepend
  import opened Buffers
  import opened ReverseBuffers
  import opened Schemas
  import opened Encoding
  import opened Wire

  // ---------- field keys ----------

  /** Writes keys in ascending order of tags. */
  class TagWriter {
    var lastTag: u32

    constructor ()
      ensures lastTag == 0
    {
      lastTag := 0;
    }

    method EncodeKey(tag: u32, w: WireType, buf: ByteSink)
      requires lastTag <= tag
      modifies this, buf
      ensures lastTag == tag
      ensures buf.data == old(buf.data) + KeyBytes(tag, old(lastTag), w)
    {
      var delta := tag - lastTag;
      lastTag := tag;
      EncodeVarintUnrolled(4 * delta + w.Code(), buf);
    }
  }

  /** Writes keys in descending order of tags; each is written only when the tag before it is known. */
  class TagRevWriter {
    var currentKey: Option<Key>

    constructor ()
      ensures currentKey == None
    {
      currentKey := None;
    }

    method BeginField(tag: u32, w: WireType, buf: ReverseBuffer)
      requires buf.Valid() && buf.CanGrow()
      requires currentKey.Some? ==> tag <= currentKey.value.tag < U32_END
      modifies this, buf, buf.chunks
      ensures currentKey == Some(Key(tag, w))
      ensures buf.Prepended(PendingKey(old(currentKey), tag))
    {
      hide EncodeUpTo, Flat, Total, Doubling;
      if currentKey.Some? {
        var delta := currentKey.value.tag - tag;
        PrependVarintUnrolled(4 * delta + currentKey.value.wireType.Code(), buf);
      }
      currentKey := Some(Key(tag, w));
    }

    method Finalize(buf: ReverseBuffer)
      requires buf.Valid() && buf.CanGrow()
      requires currentKey.Some? ==> currentKey.value.tag < U32_END
      modifies this, buf, buf.chunks
      ensures currentKey == None
      ensures buf.Prepended(PendingKey(old(currentKey), 0))
    {
      hide EncodeUpTo, Flat, Total, Doubling;
      if currentKey.Some? {
        PrependVarintUnrolled(4 * currentKey.value.tag + currentKey.value.wireType.Code(), buf);
        currentKey := None;
      }
    }
  }

  /** The key that is still to be written, once the tag before it is known. */
  function PendingKey(key: Option<Key>, before: nat): seq<u8> {
    if key.None? then [] else KeyBytes(key.value.tag, before, key.value.wireType)
  }

  /** Measures keys in ascending order of tags. */
  class RuntimeTagMeasurer {
    var lastTag: u32

    constructor ()
      ensures lastTag == 0
    {
      lastTag := 0;
    }

    method KeyLen(tag: u32) returns (n: nat)
      requires lastTag <= tag
      modifies this
      ensures lastTag == tag
      ensures forall w: WireType :: |KeyBytes(tag, old(lastTag), w)| == n
    {
      var delta: u32 := tag - lastTag;
      forall w: WireType {
        KeyLength(delta, w);
      }
      lastTag := tag;
      n := EncodedLen(4 * delta);
    }
  }

  // ---------- measuring ----------

  method MeasureValue(sch: Schema, t: Type, v: Value) returns (n: nat)
    requires ItemOk(t, |sch|) && Fits(sch, t, v)
    ensures n == |ValueBytes(sch, t, v)|
    decreases v, 1
  {
    match t {
      case Uint(_) =>
        n := EncodedLen(v.n);
        EncodedLenIsLength(v.n);
      case Fixed(size, _) =>
        n := size;
      case Bytes =>
        n := EncodedLen(|v.bytes|) + |v.bytes|;
        EncodedLenIsLength(|v.bytes|);
      case Pair(key, val) =>
        var k := MeasureValue(sch, key, v.key);
        var x := MeasureValue(sch, val, v.val);
        n := k + x;
      case List(_, elem) =>
        var inner := MeasureItems(sch, elem, v.items);
        n := EncodedLen(inner) + inner;
        EncodedLenIsLength(inner);
      case Message(id) =>
        var inner := MeasureFields(sch, id, v.slots);
        n := EncodedLen(inner) + inner;
        EncodedLenIsLength(inner);
    }
  }

  /** `many_values_encoded_len` and `map_encoded_length`: one multiplication when the size is fixed. */
  method MeasureItems(sch: Schema, elem: Type, items: seq<Value>) returns (n: nat)
    requires ItemOk(elem, |sch|) && forall i | 0 <= i < |items| :: Fits(sch, elem, items[i])
    ensures n == |ItemsBytes(sch, elem, items)|
    decreases items, 0
  {
    if FixedSize(elem).Some? {
      FixedItemsLength(sch, elem, items);
      return FixedSize(elem).value * |items|;
    }
    n := 0;
    for i := 0 to |items|
      invariant n == |ItemsBytes(sch, elem, items[..i])|
    {
      var one := MeasureValue(sch, elem, items[i]);
      n := n + one;
      assert items[..i + 1] == items[..i] + [items[i]];
      ItemsSnoc(sch, elem, items[..i], items[i]);
    }
    assert items[..|items|] == items;
  }

  method MeasureFields(sch: Schema, id: nat, slots: seq<Slot>) returns (n: nat)
    requires RecordFits(sch, id, slots)
    ensures n == |MessageBytes(sch, id, slots)|
    decreases slots, 0
  {
    var tm := new RuntimeTagMeasurer();
    n := 0;
    for i := 0 to |slots|
      invariant i == 0 || tm.lastTag <= sch[id].fields[i - 1].tag
      invariant i == 0 ==> tm.lastTag == 0
      invariant |MessageBytes(sch, id, slots)| == n + |FieldsBytes(sch, id, slots, i, tm.lastTag)|
    {
      var f := sch[id].fields[i];
      assert DefOk(sch[id], id, |sch|);
      if !SlotEmpty(sch, f, slots[i]) {
        var key := tm.KeyLen(f.tag);
        assert slots[i].value < slots[i];
        var one := MeasureValue(sch, f.typ, slots[i].value);
        n := n + key + one;
      }
    }
  }

  // ---------- forward ----------

  /** `encode_value`: lengths are measured before they are written. */
  method EncodeValue(sch: Schema, t: Type, v: Value, buf: ByteSink)
    requires ItemOk(t, |sch|) && Fits(sch, t, v) && |ValueBytes(sch, t, v)| < U64_END
    modifies buf
    ensures buf.data == old(buf.data) + ValueBytes(sch, t, v)
    decreases v, 1
  {
    match t {
      case Uint(_) =>
        EncodeVarintUnrolled(v.n, buf);
      case Fixed(_, _) =>
        buf.PutSlice(v.bytes);
      case Bytes =>
        EncodeVarintUnrolled(|v.bytes|, buf);
        buf.PutSlice(v.bytes);
      case Pair(key, val) =>
        EncodeValue(sch, key, v.key, buf);
        EncodeValue(sch, val, v.val, buf);
      case List(_, elem) =>
        var inner := MeasureItems(sch, elem, v.items);
        EncodeVarintUnrolled(inner, buf);
        EncodeItems(sch, elem, v.items, buf);
      case Message(id) =>
        var inner := MeasureFields(sch, id, v.slots);
        EncodeVarintUnrolled(inner, buf);
        EncodeFields(sch, id, v.slots, buf);
    }
  }

  method EncodeItems(sch: Schema, elem: Type, items: seq<Value>, buf: ByteSink)
    requires ItemOk(elem, |sch|) && forall i | 0 <= i < |items| :: Fits(sch, elem, items[i])
    requires |ItemsBytes(sch, elem, items)| < U64_END
    modifies buf
    ensures buf.data == old(buf.data) + ItemsBytes(sch, elem, items)
    decreases items, 0
  {
    for i := 0 to |items|
      invariant |ItemsBytes(sch, elem, items[i..])| < U64_END
      invariant old(buf.data) + ItemsBytes(sch, elem, items) == buf.data + ItemsBytes(sch, elem, items[i..])
    {
      assert items[i..][1..] == items[i + 1..];
      Regroup(buf.data, ValueBytes(sch, elem, items[i]), ItemsBytes(sch, elem, items[i + 1..]));
      EncodeValue(sch, elem, items[i], buf);
    }
  }

  /** `raw_encode`: the fields in order of tags, each left out if it is empty. */
  method EncodeFields(sch: Schema, id: nat, slots: seq<Slot>, buf: ByteSink)
    requires RecordFits(sch, id, slots) && |MessageBytes(sch, id, slots)| < U64_END
    modifies buf
    ensures buf.data == old(buf.data) + MessageBytes(sch, id, slots)
    decreases slots, 0
  {
    var tw := new TagWriter();
    for i := 0 to |slots|
      invariant i == 0 || tw.lastTag <= sch[id].fields[i - 1].tag
      invariant i == 0 ==> tw.lastTag == 0
      invariant |FieldsBytes(sch, id, slots, i, tw.lastTag)| < U64_END
      invariant old(buf.data) + MessageBytes(sch, id, slots) == buf.data + FieldsBytes(sch, id, slots, i, tw.lastTag)
    {
      var f := sch[id].fields[i];
      assert DefOk(sch[id], id, |sch|);
      if !SlotEmpty(sch, f, slots[i]) {
        ghost var key, value := KeyBytes(f.tag, tw.lastTag, WireTypeOf(f.typ)), ValueBytes(sch, f.typ, slots[i].value);
        ghost var rest := FieldsBytes(sch, id, slots, i + 1, f.tag);
        Regroup(buf.data, key + value, rest);
        Regroup(buf.data, key, value);
        assert slots[i].value < slots[i];
        tw.EncodeKey(f.tag, WireTypeOf(f.typ), buf);
        EncodeValue(sch, f.typ, slots[i].value, buf);
      }
    }
  }

  // ---------- backward ----------

  /** `prepend_value`: the length of a region is written when the region already is. */
  method PrependValue(sch: Schema, t: Type, v: Value, buf: ReverseBuffer)
    requires ItemOk(t, |sch|) && Fits(sch, t, v) && |ValueBytes(sch, t, v)| < U64_END
    requires buf.Valid() && buf.CanGrow()
    modifies buf, buf.chunks
    ensures buf.Prepended(ValueBytes(sch, t, v))
    decreases v, 2
  {
    match t {
      case Uint(_) =>
        PrependVarintUnrolled(v.n, buf);
      case Fixed(_, _) =>
        buf.PrependSlice(v.bytes);
      case Bytes =>
        PrependBlob(v.bytes, buf);
      case Pair(_, _) =>
        PrependPair(sch, t, v, buf);
      case List(_, elem) =>
        PrependList(sch, elem, v.items, buf);
      case Message(id) =>
        PrependMessage(sch, id, v.slots, buf);
    }
  }

  method PrependBlob(bytes: seq<u8>, buf: ReverseBuffer)
    requires |bytes| < U64_END
    requires buf.Valid() && buf.CanGrow()
    modifies buf, buf.chunks
    ensures buf.Prepended(Delimited(bytes))
  {
    buf.PrependSlice(bytes);
    PrependVarintUnrolled(|bytes|, buf);
    Regroup(Encode(|bytes|), bytes, old(buf.Contents));
  }

  method PrependPair(sch: Schema, t: Type, v: Value, buf: ReverseBuffer)
    requires t.Pair? && ItemOk(t, |sch|) && Fits(sch, t, v) && |ValueBytes(sch, t, v)| < U64_END
    requires buf.Valid() && buf.CanGrow()
    modifies buf, buf.chunks
    ensures buf.Prepended(ValueBytes(sch, t.key, v.key) + ValueBytes(sch, t.val, v.val))
    decreases v, 1
  {
    PrependValue(sch, t.val, v.val, buf);
    PrependValue(sch, t.key, v.key, buf);
    Regroup(ValueBytes(sch, t.key, v.key), ValueBytes(sch, t.val, v.val), old(buf.Contents));
  }

  method PrependList(sch: Schema, elem: Type, items: seq<Value>, buf: ReverseBuffer)
    requires ItemOk(elem, |sch|) && forall i | 0 <= i < |items| :: Fits(sch, elem, items[i])
    requires |ItemsBytes(sch, elem, items)| < U64_END
    requires buf.Valid() && buf.CanGrow()
    modifies buf, buf.chunks
    ensures buf.Prepended(Delimited(ItemsBytes(sch, elem, items)))
    decreases items, 1
  {
    var end := buf.Len();
    PrependItems(sch, elem, items, buf);
    var len := buf.Len() - end;
    PrependVarintUnrolled(len, buf);
    Regroup(Encode(len), ItemsBytes(sch, elem, items), old(buf.Contents));
  }

  method PrependItems(sch: Schema, elem: Type, items: seq<Value>, buf: ReverseBuffer)
    requires ItemOk(elem, |sch|) && forall i | 0 <= i < |items| :: Fits(sch, elem, items[i])
    requires |ItemsBytes(sch, elem, items)| < U64_END
    requires buf.Valid() && buf.CanGrow()
    modifies buf, buf.chunks
    ensures buf.Prepended(ItemsBytes(sch, elem, items))
    decreases items, 0
  {
    hide Flat, Total, Doubling, ValueBytes;
    var i := |items|;
    while i > 0
      invariant 0 <= i <= |items|
      invariant buf.Prepended(ItemsBytes(sch, elem, items[i..]))
    {
      i := i - 1;
      ItemsFrom(sch, elem, items, i);
      PrependValue(sch, elem, items[i], buf);
      Regroup(ValueBytes(sch, elem, items[i]), ItemsBytes(sch, elem, items[i + 1..]), old(buf.Contents));
    }
    assert items[0..] == items;
  }

  lemma {:induction false} ItemsFrom(sch: Schema, elem: Type, items: seq<Value>, i: nat)
    requires i < |items|
    ensures ItemsBytes(sch, elem, items[i..]) == ValueBytes(sch, elem, items[i]) + ItemsBytes(sch, elem, items[i + 1..])
    ensures |ValueBytes(sch, elem, items[i])| <= |ItemsBytes(sch, elem, items)|
  {
    assert items[i..][1..] == items[i + 1..];
    assert items[..i] + items[i..] == items;
    ItemsAppend(sch, elem, items[..i], items[i..]);
  }

  method PrependMessage(sch: Schema, id: nat, slots: seq<Slot>, buf: ReverseBuffer)
    requires RecordFits(sch, id, slots) && |MessageBytes(sch, id, slots)| < U64_END
    requires buf.Valid() && buf.CanGrow()
    modifies buf, buf.chunks
    ensures buf.Prepended(Delimited(MessageBytes(sch, id, slots)))
    decreases slots, 1
  {
    var end := buf.Len();
    PrependFields(sch, id, slots, buf);
    var len := buf.Len() - end;
    PrependVarintUnrolled(len, buf);
    Regroup(Encode(len), MessageBytes(sch, id, slots), old(buf.Contents));
  }

  /** `prepend_field`: the key of the field behind this one can be written now; this field's own key waits. */
  method PrependField(sch: Schema, f: Field, v: Value, buf: ReverseBuffer, tw: TagRevWriter)
    requires f.tag < U32_END && TypeOk(f.typ, |sch|) && Fits(sch, f.typ, v) && |ValueBytes(sch, f.typ, v)| < U64_END
    requires tw.currentKey.Some? ==> f.tag <= tw.currentKey.value.tag < U32_END
    requires buf.Valid() && buf.CanGrow()
    modifies tw, buf, buf.chunks
    ensures tw.currentKey == Some(Key(f.tag, WireTypeOf(f.typ)))
    ensures buf.Prepended(ValueBytes(sch, f.typ, v) + PendingKey(old(tw.currentKey), f.tag))
    decreases v, 3
  {
    ghost var key := PendingKey(tw.currentKey, f.tag);
    tw.BeginField(f.tag, WireTypeOf(f.typ), buf);
    PrependValue(sch, f.typ, v, buf);
    Regroup(ValueBytes(sch, f.typ, v), key, old(buf.Contents));
  }

  /** `raw_prepend`: the fields from last to first, each left out if it is empty. */
  method PrependFields(sch: Schema, id: nat, slots: seq<Slot>, buf: ReverseBuffer)
    requires RecordFits(sch, id, slots) && |MessageBytes(sch, id, slots)| < U64_END
    requires buf.Valid() && buf.CanGrow()
    modifies buf, buf.chunks
    ensures buf.Prepended(MessageBytes(sch, id, slots))
    decreases slots, 0
  {
    hide Flat, Total, Doubling;
    var tw := new TagRevWriter();
    ghost var written := PrependRun(sch, id, slots, buf, tw);
    PendingAll(sch, id, slots, 0, tw.currentKey, written, 0);
    ghost var key := PendingKey(tw.currentKey, 0);
    tw.Finalize(buf);
    Regroup(key, written, old(buf.Contents));
  }

  method PrependRun(sch: Schema, id: nat, slots: seq<Slot>, buf: ReverseBuffer, tw: TagRevWriter)
    returns (ghost written: seq<u8>)
    requires RecordFits(sch, id, slots) && |MessageBytes(sch, id, slots)| < U64_END
    requires buf.Valid() && buf.CanGrow() && tw.currentKey == None
    modifies buf, buf.chunks, tw
    ensures Pending(sch, id, slots, 0, tw.currentKey, written)
    ensures buf.Prepended(written)
    decreases slots, 0, 0
  {
    hide Flat, Total, Doubling, FieldsBytes, ValueBytes, KeyBytes;
    written := [];
    var i := |slots|;
    while i > 0
      invariant 0 <= i <= |slots|
      invariant Pending(sch, id, slots, i, tw.currentKey, written)
      invariant buf.Prepended(written)
    {
      i := i - 1;
      var f := sch[id].fields[i];
      if !SlotEmpty(sch, f, slots[i]) {
        PendingStep(sch, id, slots, i, tw.currentKey, written);
        ghost var value, key := ValueBytes(sch, f.typ, slots[i].value), PendingKey(tw.currentKey, f.tag);
        PrependField(sch, f, slots[i].value, buf, tw);
        Regroup(value + key, written, old(buf.Contents));
        written := (value + key) + written;
      }
    }
  }

  /** What is written of the fields from number `i` on: everything but the key of the first that is not left out. */
  ghost predicate Pending(sch: Schema, id: nat, slots: seq<Slot>, i: nat, key: Option<Key>, written: seq<u8>)
    requires RecordFits(sch, id, slots) && i <= |slots|
    decreases |slots| - i
  {
    if i == |slots| then key == None && written == []
    else
      var f := sch[id].fields[i];
      if SlotEmpty(sch, f, slots[i]) then Pending(sch, id, slots, i + 1, key, written)
      else
        && slots[i].Holds?
        && key == Some(Key(f.tag, WireTypeOf(f.typ)))
        && written == ValueBytes(sch, f.typ, slots[i].value) + FieldsBytes(sch, id, slots, i + 1, f.tag)
  }

  lemma {:induction false} PendingAll(sch: Schema, id: nat, slots: seq<Slot>, i: nat, key: Option<Key>,
                                      written: seq<u8>, last: nat)
    requires RecordFits(sch, id, slots) && i <= |slots| && Pending(sch, id, slots, i, key, written)
    ensures PendingKey(key, last) + written == FieldsBytes(sch, id, slots, i, last)
    ensures key.Some? ==> key.value.tag < U32_END && (i > 0 ==> sch[id].fields[i - 1].tag < key.value.tag)
    decreases |slots| - i
  {
    assert DefOk(sch[id], id, |sch|);
    if i < |slots| {
      var f := sch[id].fields[i];
      if SlotEmpty(sch, f, slots[i]) {
        PendingAll(sch, id, slots, i + 1, key, written, last);
      } else {
        Regroup(KeyBytes(f.tag, last, WireTypeOf(f.typ)), ValueBytes(sch, f.typ, slots[i].value),
                FieldsBytes(sch, id, slots, i + 1, f.tag));
      }
    }
  }

  lemma {:induction false} PendingStep(sch: Schema, id: nat, slots: seq<Slot>, i: nat, key: Option<Key>,
                                       written: seq<u8>)
    requires RecordFits(sch, id, slots) && i < |slots| && Pending(sch, id, slots, i + 1, key, written)
    requires !SlotEmpty(sch, sch[id].fields[i], slots[i]) && |MessageBytes(sch, id, slots)| < U64_END
    ensures var f := sch[id].fields[i];
            && f.tag < U32_END && TypeOk(f.typ, |sch|)
            && slots[i].Holds? && slots[i].value < slots[i] && Fits(sch, f.typ, slots[i].value)
            && |ValueBytes(sch, f.typ, slots[i].value)| < U64_END
            && (key.Some? ==> f.tag <= key.value.tag < U32_END)
            && Pending(sch, id, slots, i, Some(Key(f.tag, WireTypeOf(f.typ))),
                       (ValueBytes(sch, f.typ, slots[i].value) + PendingKey(key, f.tag)) + written)
  {
    var f := sch[id].fields[i];
    assert DefOk(sch[id], id, |sch|);
    assert SlotFits(sch, f, slots[i]);
    SlotWithin(sch, id, slots, 0, 0, i);
    PendingAll(sch, id, slots, i + 1, key, written, f.tag);
    Regroup(ValueBytes(sch, f.typ, slots[i].value), PendingKey(key, f.tag), written);
  }

  lemma {:induction false} SlotWithin(sch: Schema, id: nat, slots: seq<Slot>, i: nat, last: nat, k: nat)
    requires id < |sch| && |slots| == |sch[id].fields| && i <= k < |slots|
    requires slots[k].Holds? && !SlotEmpty(sch, sch[id].fields[k], slots[k])
    ensures |ValueBytes(sch, sch[id].fields[k].typ, slots[k].value)| <= |FieldsBytes(sch, id, slots, i, last)|
    decreases k - i
  {
    if i < k {
      var f := sch[id].fields[i];
      SlotWithin(sch, id, slots, i + 1, if SlotEmpty(sch, f, slots[i]) then last else f.tag, k);
    }
  }
}
