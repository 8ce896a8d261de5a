/** Canonical decoding and encoding are exact inverses of each other. */
module RoundTrip {
  import opened Base
  import opened Varint
  import opened Schemas
  import opened Ordering
  import opened Encoding
  import opened Wire
  import opened Restricted

  // ---------- every encoded value decodes to itself ----------

  lemma {:induction false} ReadEncoded(n: nat, tail: seq<u8>)
    requires n < U64_END
    ensures ReadVarint(Encode(n) + tail) == Parsed(n, tail)
  {
    DecodeEncoded(n, tail);
  }

  lemma {:induction false} ReadDelimited(region: seq<u8>, tail: seq<u8>)
    requires |region| < U64_END
    ensures ReadRegion(Delimited(region) + tail) == Parsed(region, tail)
  {
    ReadEncoded(|region|, region + tail);
    assert Delimited(region) + tail == Encode(|region|) + (region + tail);
  }

  lemma {:induction false} ReadKeyBytes(tag: nat, last: nat, w: WireType, tail: seq<u8>)
    requires last <= tag < U32_END
    ensures ReadKey(last, KeyBytes(tag, last, w) + tail) == Parsed(Key(tag, w), tail)
  {
    ReadEncoded(4 * (tag - last) + w.Code(), tail);
  }

  lemma {:induction false} ValueDecodes(sch: Schema, t: Type, v: Value, allowEmpty: bool, min: Canonicity, depth: nat,
                                        tail: seq<u8>)
    requires ItemOk(t, |sch|) && Fits(sch, t, v) && NestsWithin(sch, t, v, depth)
    requires |ValueBytes(sch, t, v)| < U64_END
    requires t.Message? && !allowEmpty ==> !IsEmpty(sch, t, v)
    ensures DecodeValue(sch, t, allowEmpty, min, depth, ValueBytes(sch, t, v) + tail) == Out(v, Canonical, tail)
    decreases v
  {
    hide DecodeItems, DecodeBody, ReadRegion, ReadVarint;
    match t {
      case Uint(_) =>
        ReadEncoded(v.n, tail);
      case Fixed(_, _) =>
      case Bytes =>
        ReadDelimited(v.bytes, tail);
      case Pair(key, val) =>
        var rest := ValueBytes(sch, val, v.val) + tail;
        Regroup(ValueBytes(sch, key, v.key), ValueBytes(sch, val, v.val), tail);
        ValueDecodes(sch, key, v.key, true, min, depth, rest);
        ValueDecodes(sch, val, v.val, true, min, depth, tail);
      case List(kind, elem) =>
        assert DecodeList(sch, t, min, depth, ValueBytes(sch, t, v) + tail) == Out(v, Canonical, tail) by {
          ListDecodes(sch, kind, elem, v.items, min, depth);
          ReadDelimited(ItemsBytes(sch, elem, v.items), tail);
        }
      case Message(id) =>
        assert DecodeMessage(sch, id, allowEmpty, min, depth, ValueBytes(sch, t, v) + tail)
          == Out(v, Canonical, tail) by {
          BodyDecodes(sch, id, v.slots, min, depth - 1, tail);
          ReadDelimited(MessageBytes(sch, id, v.slots), tail);
          if MessageBytes(sch, id, v.slots) == [] {
            NoBytesMeansEmpty(sch, id, v.slots, 0, 0);
          }
        }
    }
  }

  lemma {:induction false} ListDecodes(sch: Schema, kind: ListKind, elem: Type, items: seq<Value>, min: Canonicity,
                                       depth: nat)
    requires ItemOk(elem, |sch|)
    requires forall i | 0 <= i < |items| :: Fits(sch, elem, items[i]) && NestsWithin(sch, elem, items[i], depth)
    requires kind.Array? ==> |items| == kind.size
    requires kind.Set? || kind.Mapping? ==> Ascending(items)
    requires |ItemsBytes(sch, elem, items)| < U64_END
    ensures DecodeItems(sch, kind, elem, min, depth, [], Canonical, ItemsBytes(sch, elem, items))
            == Whole(items, Canonical)
    decreases items, |items| + 1
  {
    assert items[..0] == [] && items[0..] == items;
    ItemsDecode(sch, kind, elem, items, 0, min, depth);
  }

  lemma {:induction false} BodyDecodes(sch: Schema, id: nat, slots: seq<Slot>, min: Canonicity, depth: nat,
                                       rest: seq<u8>)
    requires id < |sch| && RecordFits(sch, id, slots) && RecordNestsWithin(sch, id, slots, depth)
    requires |MessageBytes(sch, id, slots)| < U64_END
    ensures DecodeBody(sch, id, min, depth, MessageBytes(sch, id, slots), rest) == Out(Record(slots), Canonical, rest)
    decreases slots, |slots| + 1
  {
    FieldsDecode(sch, id, slots, EmptyRecord(sch, id), 0, None, min, depth);
  }

  lemma {:induction false} ItemsDecode(sch: Schema, kind: ListKind, elem: Type, items: seq<Value>, n: nat,
                                       min: Canonicity, depth: nat)
    requires n <= |items| && ItemOk(elem, |sch|)
    requires forall i | 0 <= i < |items| :: Fits(sch, elem, items[i]) && NestsWithin(sch, elem, items[i], depth)
    requires kind.Array? ==> |items| == kind.size
    requires kind.Set? || kind.Mapping? ==> Ascending(items)
    requires |ItemsBytes(sch, elem, items[n..])| < U64_END
    ensures DecodeItems(sch, kind, elem, min, depth, items[..n], Canonical, ItemsBytes(sch, elem, items[n..]))
            == Whole(items, Canonical)
    decreases items, |items| - n
  {
    if n == |items| {
      assert items[..n] == items;
    } else {
      var rest := ItemsBytes(sch, elem, items[n + 1..]);
      assert items[n..][1..] == items[n + 1..];
      ValueDecodes(sch, elem, items[n], true, min, depth, rest);
      ItemDecodes(sch, kind, elem, items, n, min, depth, rest);
      ItemsDecode(sch, kind, elem, items, n + 1, min, depth);
    }
  }

  /** The loop decodes item `n`, appends it and goes on behind it. */
  lemma {:induction false} ItemDecodes(sch: Schema, kind: ListKind, elem: Type, items: seq<Value>, n: nat,
                                       min: Canonicity, depth: nat, rest: seq<u8>)
    requires n < |items| && ItemOk(elem, |sch|) && Fits(sch, elem, items[n])
    requires kind.Array? ==> |items| == kind.size
    requires kind.Set? || kind.Mapping? ==> Ascending(items)
    requires DecodeValue(sch, elem, true, min, depth, ValueBytes(sch, elem, items[n]) + rest)
             == Out(items[n], Canonical, rest)
    ensures DecodeItems(sch, kind, elem, min, depth, items[..n], Canonical, ValueBytes(sch, elem, items[n]) + rest)
            == DecodeItems(sch, kind, elem, min, depth, items[..n + 1], Canonical, rest)
  {
    hide DecodeValue, ValueBytes;
    NonEmptyBytes(sch, elem, items[n]);
    assert items[..n] + [items[n]] == items[..n + 1];
    ItemsUnfold(sch, kind, elem, min, depth, items[..n], Canonical, ValueBytes(sch, elem, items[n]) + rest);
  }

  /** The fields before number `i` are decoded, the others still empty. */
  ghost predicate Halfway(sch: Schema, id: nat, slots: seq<Slot>, now: seq<Slot>, i: nat) {
    && id < |sch| && |slots| == |now| == |sch[id].fields| && i <= |slots|
    && (forall k | 0 <= k < i :: now[k] == slots[k])
    && (forall k | i <= k < |slots| :: now[k] == EmptySlot(sch, id, k))
  }

  /** Every field from number `i` on comes after the one with tag `last`. */
  ghost predicate After(fields: seq<Field>, last: Option<nat>, i: nat) {
    last.Some? ==> forall k | i <= k < |fields| :: last.value < fields[k].tag
  }

  function LastTag(last: Option<nat>): nat {
    if last.Some? then last.value else 0
  }

  lemma {:induction false} FieldsDecode(sch: Schema, id: nat, slots: seq<Slot>, now: seq<Slot>, i: nat,
                                        last: Option<nat>, min: Canonicity, depth: nat)
    requires Halfway(sch, id, slots, now, i) && After(sch[id].fields, last, i)
    requires RecordFits(sch, id, slots) && RecordNestsWithin(sch, id, slots, depth)
    requires |FieldsBytes(sch, id, slots, i, LastTag(last))| < U64_END
    ensures Merge(sch, id, min, depth, now, last, Canonical, FieldsBytes(sch, id, slots, i, LastTag(last)))
            == Whole(slots, Canonical)
    decreases slots, |slots| - i
  {
    hide Merge, FieldsBytes;
    FieldsUnfold(sch, id, slots, i, LastTag(last));
    if i == |slots| {
      assert now == slots;
      MergeEnds(sch, id, min, depth, now, last, Canonical);
    } else {
      var f := sch[id].fields[i];
      assert DefOk(sch[id], id, |sch|);
      if SlotEmpty(sch, f, slots[i]) {
        EmptySlotUnique(sch, id, i, slots[i]);
        FieldsDecode(sch, id, slots, now, i + 1, last, min, depth);
      } else {
        var rest := FieldsBytes(sch, id, slots, i + 1, f.tag);
        FieldLength(sch, f, slots[i], LastTag(last), rest);
        FieldDecodes(sch, f, slots[i], min, depth, rest);
        MergeField(sch, id, min, depth, now, i, last, slots[i], rest);
        FieldsDecode(sch, id, slots, now[i := slots[i]], i + 1, Some(f.tag), min, depth);
      }
    }
  }

  lemma {:induction false} FieldLength(sch: Schema, f: Field, s: Slot, last: nat, rest: seq<u8>)
    requires s.Holds?
    ensures |ValueBytes(sch, f.typ, s.value)| <= |FieldBytes(sch, f, s, last) + rest|
    ensures |rest| <= |FieldBytes(sch, f, s, last) + rest|
  {
  }

  lemma {:induction false} FieldDecodes(sch: Schema, f: Field, s: Slot, min: Canonicity, depth: nat, rest: seq<u8>)
    requires TypeOk(f.typ, |sch|) && SlotFits(sch, f, s) && !SlotEmpty(sch, f, s)
    requires SlotNestsWithin(sch, f, s, depth) && |ValueBytes(sch, f.typ, s.value)| < U64_END
    ensures DecodeField(sch, f, min, depth, WireTypeOf(f.typ), ValueBytes(sch, f.typ, s.value) + rest)
            == Out(s, Canonical, rest)
    decreases s
  {
    ValueDecodes(sch, f.typ, s.value, f.optional, min, depth, rest);
  }

  /** The loop reads the key of field `i`, decodes it and goes on behind it. */
  lemma {:induction false} MergeField(sch: Schema, id: nat, min: Canonicity, depth: nat, now: seq<Slot>, i: nat,
                                      last: Option<nat>, s: Slot, rest: seq<u8>)
    requires id < |sch| && |now| == |sch[id].fields| && i < |now| && After(sch[id].fields, last, i) && s.Holds?
    requires var f := sch[id].fields[i];
             DecodeField(sch, f, min, depth, WireTypeOf(f.typ), ValueBytes(sch, f.typ, s.value) + rest)
               == Out(s, Canonical, rest)
    ensures var f := sch[id].fields[i];
            Merge(sch, id, min, depth, now, last, Canonical, FieldBytes(sch, f, s, LastTag(last)) + rest)
            == Merge(sch, id, min, depth, now[i := s], Some(f.tag), Canonical, rest)
  {
    hide DecodeField, ValueBytes, ReadKey;
    var f := sch[id].fields[i];
    assert DefOk(sch[id], id, |sch|);
    var body := ValueBytes(sch, f.typ, s.value) + rest;
    var key := KeyBytes(f.tag, LastTag(last), WireTypeOf(f.typ));
    assert FieldBytes(sch, f, s, LastTag(last)) + rest == key + body;
    ReadKeyBytes(f.tag, LastTag(last), WireTypeOf(f.typ), body);
    FieldAt(sch[id].fields, i);
  }

  lemma {:induction false} EmptySlotUnique(sch: Schema, id: nat, k: nat, slot: Slot)
    requires id < |sch| && k < |sch[id].fields|
    requires SlotFits(sch, sch[id].fields[k], slot) && SlotEmpty(sch, sch[id].fields[k], slot)
    ensures slot == EmptySlot(sch, id, k)
  {
    assert DefOk(sch[id], id, |sch|);
    if !sch[id].fields[k].optional {
      EmptyUnique(sch, sch[id].fields[k].typ, slot.value);
    }
  }

  lemma {:induction false} FieldAt(fields: seq<Field>, i: nat)
    requires i < |fields| && forall j, k | 0 <= j < k < |fields| :: fields[j].tag < fields[k].tag
    ensures FindField(fields, fields[i].tag) == i
  {
  }

  lemma {:induction false} NoBytesMeansEmpty(sch: Schema, id: nat, slots: seq<Slot>, i: nat, last: nat)
    requires id < |sch| && |slots| == |sch[id].fields| && i <= |slots|
    requires FieldsBytes(sch, id, slots, i, last) == []
    ensures forall k | i <= k < |slots| :: SlotEmpty(sch, sch[id].fields[k], slots[k])
    decreases |slots| - i
  {
    if i < |slots| {
      NoBytesMeansEmpty(sch, id, slots, i + 1, last);
    }
  }

  // ---------- whatever decodes canonically is the encoding of its value ----------

  lemma {:induction false} ReadIsEncoding(b: seq<u8>)
    requires ReadVarint(b).Parsed?
    ensures b == Encode(ReadVarint(b).value) + ReadVarint(b).rest
  {
    DecodedIsEncoding(b);
  }

  lemma {:induction false} RegionIsDelimited(b: seq<u8>)
    requires ReadRegion(b).Parsed?
    ensures b == Delimited(ReadRegion(b).value) + ReadRegion(b).rest
  {
    hide ReadVarint, Encode;
    ReadIsEncoding(b);
    var more := ReadVarint(b).rest;
    var region, rest := ReadRegion(b).value, ReadRegion(b).rest;
    assert more == region + rest;
    assert Encode(|region|) + (region + rest) == Delimited(region) + rest;
  }

  lemma {:induction false} KeyIsKeyBytes(last: nat, b: seq<u8>)
    requires ReadKey(last, b).Parsed?
    ensures var r := ReadKey(last, b); b == KeyBytes(r.value.tag, last, r.value.wireType) + r.rest
  {
    ReadIsEncoding(b);
    var key := ReadVarint(b).value;
    assert key == 4 * (key / 4) + key % 4;
  }

  /** What holds of a value that was decoded canonically from the front of `b`. */
  ghost predicate Faithful(sch: Schema, t: Type, allowEmpty: bool, depth: nat, b: seq<u8>, r: Out<Value>) {
    r.Out? ==>
      && r.canon == Canonical
      && Fits(sch, t, r.value) && NestsWithin(sch, t, r.value, depth)
      && b == ValueBytes(sch, t, r.value) + r.rest
      && (t.Message? && !allowEmpty ==> !IsEmpty(sch, t, r.value))
  }

  lemma {:induction false} ValueFaithful(sch: Schema, t: Type, allowEmpty: bool, depth: nat, b: seq<u8>)
    requires ItemOk(t, |sch|)
    ensures Faithful(sch, t, allowEmpty, depth, b, DecodeValue(sch, t, allowEmpty, Canonical, depth, b))
    decreases depth, 0, t, 1, 0
  {
    match t {
      case Pair(_, _) => PairFaithful(sch, t, allowEmpty, depth, b);
      case List(_, _) => ListFaithful(sch, t, allowEmpty, depth, b);
      case Message(id) => MessageFaithful(sch, id, allowEmpty, depth, b);
      case _ => LeafFaithful(sch, t, allowEmpty, depth, b);
    }
  }

  lemma {:induction false} LeafFaithful(sch: Schema, t: Type, allowEmpty: bool, depth: nat, b: seq<u8>)
    requires ItemOk(t, |sch|) && (t.Uint? || t.Fixed? || t.Bytes?)
    ensures Faithful(sch, t, allowEmpty, depth, b, DecodeValue(sch, t, allowEmpty, Canonical, depth, b))
  {
    match t {
      case Uint(_) => if ReadVarint(b).Parsed? { ReadIsEncoding(b); }
      case Fixed(size, _) => if |b| >= size { assert b == b[..size] + b[size..]; }
      case Bytes => if ReadRegion(b).Parsed? { RegionIsDelimited(b); }
    }
  }

  lemma {:induction false} PairFaithful(sch: Schema, t: Type, allowEmpty: bool, depth: nat, b: seq<u8>)
    requires t.Pair? && ItemOk(t, |sch|)
    ensures Faithful(sch, t, allowEmpty, depth, b, DecodePair(sch, t, Canonical, depth, b))
    decreases depth, 0, t, 0, 0
  {
    if DecodePair(sch, t, Canonical, depth, b).Out? {
      ValueFaithful(sch, t.key, true, depth, b);
      var r := DecodeValue(sch, t.key, true, Canonical, depth, b);
      ValueFaithful(sch, t.val, true, depth, r.rest);
      var s := DecodeValue(sch, t.val, true, Canonical, depth, r.rest);
      Regroup(ValueBytes(sch, t.key, r.value), ValueBytes(sch, t.val, s.value), s.rest);
    }
  }

  lemma {:induction false} ListFaithful(sch: Schema, t: Type, allowEmpty: bool, depth: nat, b: seq<u8>)
    requires t.List? && ItemOk(t, |sch|)
    ensures Faithful(sch, t, allowEmpty, depth, b, DecodeList(sch, t, Canonical, depth, b))
    decreases depth, 0, t, 0, 0
  {
    if DecodeList(sch, t, Canonical, depth, b).Out? {
      RegionIsDelimited(b);
      var items := DecodeItems(sch, t.kind, t.elem, Canonical, depth, [], Canonical, ReadRegion(b).value);
      assert DecodeList(sch, t, Canonical, depth, b) == Out(Items(items.value), items.canon, ReadRegion(b).rest);
      ItemsFaithful(sch, t.kind, t.elem, depth, [], ReadRegion(b).value);
      assert ItemsBytes(sch, t.elem, items.value) == ReadRegion(b).value;
    }
  }

  lemma {:induction false} MessageFaithful(sch: Schema, id: nat, allowEmpty: bool, depth: nat, b: seq<u8>)
    requires id < |sch|
    ensures Faithful(sch, Message(id), allowEmpty, depth, b, DecodeMessage(sch, id, allowEmpty, Canonical, depth, b))
    decreases depth, 0, Message(id), 0, 0
  {
    if DecodeMessage(sch, id, allowEmpty, Canonical, depth, b).Out? {
      RegionIsDelimited(b);
      var region, rest := ReadRegion(b).value, ReadRegion(b).rest;
      BodyFaithful(sch, id, depth - 1, region, rest);
    }
  }

  lemma {:induction false} BodyFaithful(sch: Schema, id: nat, depth: nat, region: seq<u8>, rest: seq<u8>)
    requires id < |sch| && DecodeBody(sch, id, Canonical, depth, region, rest).Out?
    ensures var r := DecodeBody(sch, id, Canonical, depth, region, rest);
            && r.canon == Canonical && r.value.Record?
            && RecordFits(sch, id, r.value.slots) && RecordNestsWithin(sch, id, r.value.slots, depth)
            && region == MessageBytes(sch, id, r.value.slots)
            && (RecordEmpty(sch, id, r.value.slots) ==> region == [])
    decreases depth, 2, 0
  {
    EmptyRecordIsEmpty(sch, id);
    FieldsFaithful(sch, id, depth, EmptyRecord(sch, id), 0, None, region);
    var slots := DecodeBody(sch, id, Canonical, depth, region, rest).value.slots;
    if RecordEmpty(sch, id, slots) {
      EmptiesSkipped(sch, id, slots, 0, |slots|, 0);
    }
  }

  lemma {:induction false} ItemsFaithful(sch: Schema, kind: ListKind, elem: Type, depth: nat, items: seq<Value>,
                                         b: seq<u8>)
    requires ItemOk(elem, |sch|) && DecodeItems(sch, kind, elem, Canonical, depth, items, Canonical, b).Whole?
    requires forall i | 0 <= i < |items| :: Fits(sch, elem, items[i]) && NestsWithin(sch, elem, items[i], depth)
    requires kind.Set? || kind.Mapping? ==> Ascending(items)
    ensures var r := DecodeItems(sch, kind, elem, Canonical, depth, items, Canonical, b);
            && r.canon == Canonical
            && ItemsBytes(sch, elem, r.value) == ItemsBytes(sch, elem, items) + b
            && (forall i | 0 <= i < |r.value| ::
                  Fits(sch, elem, r.value[i]) && NestsWithin(sch, elem, r.value[i], depth))
            && (kind.Array? ==> |r.value| == kind.size)
            && (kind.Set? || kind.Mapping? ==> Ascending(r.value))
    decreases depth, 0, elem, 2, |b|
  {
    if b != [] {
      ValueFaithful(sch, elem, true, depth, b);
      var r := DecodeValue(sch, elem, true, Canonical, depth, b);
      AppendedInOrder(kind, items, r.value);
      ItemsFaithful(sch, kind, elem, depth, items + [r.value], r.rest);
      ItemsSnoc(sch, elem, items, r.value);
      Regroup(ItemsBytes(sch, elem, items), ValueBytes(sch, elem, r.value), r.rest);
    }
  }

  /** A canonical insertion appends, and keeps an ordered collection in order. */
  lemma {:induction false} AppendedInOrder(kind: ListKind, items: seq<Value>, item: Value)
    requires InsertDistinguished(kind, items, item).Some?
    requires InsertDistinguished(kind, items, item).value.canon == Canonical
    ensures InsertDistinguished(kind, items, item).value.items == items + [item]
    ensures (kind.Set? || kind.Mapping?) && Ascending(items) ==> Ascending(items + [item])
  {
  }

  /** The fields before number `i` are settled, and the others still empty. */
  ghost predicate Settled(sch: Schema, id: nat, slots: seq<Slot>, i: nat, last: Option<nat>, depth: nat) {
    && id < |sch| && |slots| == |sch[id].fields| && i <= |slots|
    && (forall k | 0 <= k < |slots| ::
          SlotFits(sch, sch[id].fields[k], slots[k]) && SlotNestsWithin(sch, sch[id].fields[k], slots[k], depth))
    && (forall k | i <= k < |slots| :: SlotEmpty(sch, sch[id].fields[k], slots[k]))
    && After(sch[id].fields, last, i)
    && (forall k | 0 <= k < i :: last.Some? && sch[id].fields[k].tag <= last.value)
  }

  lemma {:induction false} FieldsFaithful(sch: Schema, id: nat, depth: nat, slots: seq<Slot>, i: nat, last: Option<nat>,
                                          b: seq<u8>)
    requires Settled(sch, id, slots, i, last, depth)
    requires Merge(sch, id, Canonical, depth, slots, last, Canonical, b).Whole?
    ensures var r := Merge(sch, id, Canonical, depth, slots, last, Canonical, b);
            && r.canon == Canonical && RecordFits(sch, id, r.value) && RecordNestsWithin(sch, id, r.value, depth)
            && r.value[..i] == slots[..i]
            && b == FieldsBytes(sch, id, r.value, i, LastTag(last))
    decreases depth, 1, |b|
  {
    if b == [] {
      EmptiesSkipped(sch, id, slots, i, |slots|, LastTag(last));
    } else {
      MergeUnfolds(sch, id, depth, slots, last, b);
      var key := ReadKey(LastTag(last), b);
      var k := FindField(sch[id].fields, key.value.tag);
      FieldFaithful(sch, sch[id].fields[k], depth, key.value.wireType, key.rest);
      var r := DecodeField(sch, sch[id].fields[k], Canonical, depth, key.value.wireType, key.rest);
      StaysSettled(sch, id, depth, slots, i, last, key.value.tag, r.value);
      FieldsFaithful(sch, id, depth, slots[k := r.value], k + 1, Some(key.value.tag), r.rest);
      var done := Merge(sch, id, Canonical, depth, slots, last, Canonical, b).value;
      FieldsJoin(sch, id, slots, done, i, k, r.value, LastTag(last));
      FieldIsFieldBytes(sch, sch[id].fields[k], LastTag(last), b, r.value, r.rest);
    }
  }

  lemma {:induction false} FieldIsFieldBytes(sch: Schema, f: Field, last: nat, b: seq<u8>, s: Slot, rest: seq<u8>)
    requires ReadKey(last, b).Parsed? && ReadKey(last, b).value == Key(f.tag, WireTypeOf(f.typ)) && s.Holds?
    requires ReadKey(last, b).rest == ValueBytes(sch, f.typ, s.value) + rest
    ensures b == FieldBytes(sch, f, s, last) + rest
  {
    KeyIsKeyBytes(last, b);
    Regroup(KeyBytes(f.tag, last, WireTypeOf(f.typ)), ValueBytes(sch, f.typ, s.value), rest);
  }

  /** A canonical run that has bytes left reads the key of a known field that is new, and decodes it. */
  lemma {:induction false} MergeUnfolds(sch: Schema, id: nat, depth: nat, slots: seq<Slot>, last: Option<nat>,
                                        b: seq<u8>)
    requires id < |sch| && |slots| == |sch[id].fields| && b != []
    requires Merge(sch, id, Canonical, depth, slots, last, Canonical, b).Whole?
    ensures ReadKey(LastTag(last), b).Parsed?
    ensures var key := ReadKey(LastTag(last), b);
            var k := FindField(sch[id].fields, key.value.tag);
            && k < |slots| && last != Some(key.value.tag) && TypeOk(sch[id].fields[k].typ, |sch|)
            && var r := DecodeField(sch, sch[id].fields[k], Canonical, depth, key.value.wireType, key.rest);
            && r.Out?
            && Merge(sch, id, Canonical, depth, slots, last, Canonical, b)
               == Merge(sch, id, Canonical, depth, slots[k := r.value], Some(key.value.tag), Worse(Canonical, r.canon),
                        r.rest)
  {
    assert DefOk(sch[id], id, |sch|);
  }

  /** Setting the field with the next tag leaves everything up to it settled. */
  lemma {:induction false} StaysSettled(sch: Schema, id: nat, depth: nat, slots: seq<Slot>, i: nat, last: Option<nat>,
                                        tag: nat, s: Slot)
    requires Settled(sch, id, slots, i, last, depth) && LastTag(last) <= tag && last != Some(tag)
    requires FindField(sch[id].fields, tag) < |slots|
    requires var f := sch[id].fields[FindField(sch[id].fields, tag)];
             SlotFits(sch, f, s) && SlotNestsWithin(sch, f, s, depth)
    ensures var k := FindField(sch[id].fields, tag);
            k >= i && Settled(sch, id, slots[k := s], k + 1, Some(tag), depth)
  {
    assert DefOk(sch[id], id, |sch|);
  }

  lemma {:induction false} FieldsJoin(sch: Schema, id: nat, slots: seq<Slot>, done: seq<Slot>, i: nat, k: nat, s: Slot,
                                      last: nat)
    requires id < |sch| && |slots| == |done| == |sch[id].fields| && i <= k < |slots|
    requires forall j | i <= j < |slots| :: SlotEmpty(sch, sch[id].fields[j], slots[j])
    requires done[..k + 1] == slots[k := s][..k + 1] && !SlotEmpty(sch, sch[id].fields[k], s)
    ensures done[..i] == slots[..i]
    ensures FieldsBytes(sch, id, done, i, last)
            == FieldBytes(sch, sch[id].fields[k], s, last) + FieldsBytes(sch, id, done, k + 1, sch[id].fields[k].tag)
  {
    assert forall j | 0 <= j <= k :: done[j] == done[..k + 1][j] == slots[k := s][..k + 1][j] == slots[k := s][j];
    EmptiesSkipped(sch, id, done, i, k, last);
  }

  lemma {:induction false} FieldFaithful(sch: Schema, f: Field, depth: nat, w: WireType, b: seq<u8>)
    requires TypeOk(f.typ, |sch|) && DecodeField(sch, f, Canonical, depth, w, b).Out?
    ensures var r := DecodeField(sch, f, Canonical, depth, w, b);
            && r.canon == Canonical && w == WireTypeOf(f.typ) && r.value.Holds?
            && Faithful(sch, f.typ, f.optional, depth, b, Out(r.value.value, Canonical, r.rest))
               && !SlotEmpty(sch, f, r.value)
    decreases depth, 0, f.typ, 4, 0
  {
    ValueFaithful(sch, f.typ, f.optional, depth, b);
  }

  lemma {:induction false} EmptiesSkipped(sch: Schema, id: nat, slots: seq<Slot>, i: nat, k: nat, last: nat)
    requires id < |sch| && |slots| == |sch[id].fields| && i <= k <= |slots|
    requires forall j | i <= j < k :: SlotEmpty(sch, sch[id].fields[j], slots[j])
    ensures FieldsBytes(sch, id, slots, i, last) == FieldsBytes(sch, id, slots, k, last)
    decreases k - i
  {
    if i < k {
      EmptiesSkipped(sch, id, slots, i + 1, k, last);
    }
  }
}
