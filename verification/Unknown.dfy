/** Fields that a schema does not know are transparent: they can be deleted without changing what is decoded. */
module UnknownFields {
  import opened Base
  import opened Varint
  import opened Schemas
  import opened Ordering
  import opened Encoding
  import opened Wire
  import opened Opaque
  import opened Restricted
  import CappedBuffers
  import Relaxed
  import RelaxedDecoder
  import RoundTrip
  import Messages

  /** The fields with tags that the message has. */
  function Known(fields: seq<Field>, list: seq<OpaqueField>): seq<OpaqueField> {
    if list == [] then []
    else (if FindField(fields, list[0].tag) < |fields| then [list[0]] else []) + Known(fields, list[1..])
  }

  predicate AnyUnknown(fields: seq<Field>, list: seq<OpaqueField>) {
    exists i | 0 <= i < |list| :: FindField(fields, list[i].tag) == |fields|
  }

  /** The fields behind the run with this tag. */
  function AfterRun(list: seq<OpaqueField>, tag: nat): (rest: seq<OpaqueField>)
    ensures |rest| <= |list|
  {
    if list != [] && list[0].tag == tag then AfterRun(list[1..], tag) else list
  }

  // ---------- the wire, field by field ----------

  /** What a region looks like from its first field's value on. */
  function FromValue(list: seq<OpaqueField>): seq<u8>
    requires list != []
  {
    list[0].value.Bytes() + ListBytes(list[1..], list[0].tag)
  }

  lemma {:induction false} KeyReads(list: seq<OpaqueField>, last: nat)
    requires list != [] && last <= list[0].tag
    ensures ListBytes(list, last) != []
    ensures ReadKey(last, ListBytes(list, last)) == Parsed(Key(list[0].tag, list[0].value.OnWire()), FromValue(list))
  {
    RoundTrip.ReadKeyBytes(list[0].tag, last, list[0].value.OnWire(), FromValue(list));
  }

  /** The next key is a repeated one exactly when the next field has the same tag. */
  lemma {:induction false} PeekReads(list: seq<OpaqueField>, tag: nat)
    requires InOrder(list, tag)
    ensures var b := ListBytes(list, tag);
            if list != [] && list[0].tag == tag
            then PeekRepeated(b) == Some(list[0].value.OnWire()) && b[1..] == FromValue(list)
            else PeekRepeated(b) == None
  {
    if list != [] {
      var delta, w := list[0].tag - tag, list[0].value.OnWire();
      var key := Encode(4 * delta + w.Code());
      assert ListBytes(list, tag) == key + FromValue(list);
      if delta == 0 {
        assert key == [w.Code()];
      } else {
        assert key[0] >= 4;
      }
    }
  }

  lemma {:induction false} SkipReads(v: OpaqueValue, tail: seq<u8>)
    requires |v.Bytes()| < U64_END
    ensures SkipValue(v.OnWire(), v.Bytes() + tail) == Parsed((), tail)
  {
    match v {
      case VarintValue(n) => RoundTrip.ReadEncoded(n, tail);
      case LengthDelimitedValue(bytes) => RoundTrip.ReadDelimited(bytes, tail);
      case _ =>
    }
  }

  /** Every value of the list can be read. */
  ghost predicate Readable(list: seq<OpaqueField>) {
    forall i | 0 <= i < |list| :: |list[i].value.Bytes()| < U64_END
  }

  /** Skipping a field skips the whole run. */
  lemma {:induction false} SkipRun(list: seq<OpaqueField>)
    requires list != [] && InOrder(list, list[0].tag) && Readable(list)
    ensures SkipField(list[0].value.OnWire(), FromValue(list))
            == Parsed((), ListBytes(AfterRun(list[1..], list[0].tag), list[0].tag))
    decreases |list|
  {
    var tag, rest := list[0].tag, list[1..];
    SkipReads(list[0].value, ListBytes(rest, tag));
    PeekReads(rest, tag);
    if rest != [] && rest[0].tag == tag {
      SkipRun(rest);
    }
  }

  /**
   * `b` starts with these fields' values and keys, from the first value on; all have one tag, which no key
   * behind them repeats.
   */
  ghost predicate StartsWithRun(tag: nat, w: WireType, b: seq<u8>, list: seq<OpaqueField>, rest: seq<u8>) {
    && list != [] && list[0].value.OnWire() == w
    && (forall i | 0 <= i < |list| :: list[i].tag == tag)
    && b == FromValue(list) + rest && PeekRepeated(rest).None?
  }

  /** Whatever is skipped is such a run. */
  lemma {:induction false} SkippedIsRun(tag: u32, w: WireType, b: seq<u8>) returns (list: seq<OpaqueField>)
    requires SkipField(w, b).Parsed?
    ensures StartsWithRun(tag, w, b, list, SkipField(w, b).rest)
    decreases |b|
  {
    CappedBuffers.SkipUnfolds(w, b);
    SkipsOpaque(w, b);
    var p := ReadOpaque(w, b);
    if PeekRepeated(p.rest).None? {
      list := [OpaqueField(tag, p.value)];
      RunEnds(tag, w, b);
    } else {
      var next := PeekRepeated(p.rest).value;
      var more := SkippedIsRun(tag, next, p.rest[1..]);
      list := [OpaqueField(tag, p.value)] + more;
      RunGoesOn(tag, w, b, more, SkipField(next, p.rest[1..]).rest);
    }
  }

  lemma {:induction false} RunEnds(tag: u32, w: WireType, b: seq<u8>)
    requires ReadOpaque(w, b).Parsed? && PeekRepeated(ReadOpaque(w, b).rest).None?
    ensures StartsWithRun(tag, w, b, [OpaqueField(tag, ReadOpaque(w, b).value)], ReadOpaque(w, b).rest)
  {
    BytesRead(w, b);
    var p := ReadOpaque(w, b);
    assert [OpaqueField(tag, p.value)][1..] == [];
    assert p.value.Bytes() + [] == p.value.Bytes();
  }

  lemma {:induction false} RunGoesOn(tag: u32, w: WireType, b: seq<u8>, more: seq<OpaqueField>, rest: seq<u8>)
    requires ReadOpaque(w, b).Parsed? && PeekRepeated(ReadOpaque(w, b).rest).Some?
    requires var p := ReadOpaque(w, b); StartsWithRun(tag, PeekRepeated(p.rest).value, p.rest[1..], more, rest)
    ensures StartsWithRun(tag, w, b, [OpaqueField(tag, ReadOpaque(w, b).value)] + more, rest)
  {
    BytesRead(w, b);
    RepeatedKey(tag, ReadOpaque(w, b).rest);
    RunJoins(OpaqueField(tag, ReadOpaque(w, b).value), more, rest);
  }

  lemma {:induction false} RunJoins(f: OpaqueField, more: seq<OpaqueField>, rest: seq<u8>)
    requires more != [] && more[0].tag == f.tag
    ensures FromValue([f] + more) + rest
            == f.value.Bytes() + (KeyBytes(f.tag, f.tag, more[0].value.OnWire()) + (FromValue(more) + rest))
  {
    var key := KeyBytes(f.tag, f.tag, more[0].value.OnWire());
    assert ([f] + more)[1..] == more;
    assert ListBytes(more, f.tag) == key + FromValue(more);
    Regroup(key, FromValue(more), rest);
    Regroup(f.value.Bytes(), ListBytes(more, f.tag), rest);
  }

  lemma {:induction false} SkipsOpaque(w: WireType, b: seq<u8>)
    ensures SkipValue(w, b).Parsed? <==> ReadOpaque(w, b).Parsed?
    ensures SkipValue(w, b).Parsed? ==> SkipValue(w, b).rest == ReadOpaque(w, b).rest
  {
  }

  lemma {:induction false} RepeatedKey(tag: nat, b: seq<u8>)
    requires PeekRepeated(b).Some?
    ensures b == KeyBytes(tag, tag, PeekRepeated(b).value) + b[1..]
  {
    var w := PeekRepeated(b).value;
    assert w.Code() == b[0];
    assert Encode(w.Code()) == [b[0]];
  }

  lemma {:induction false} RunInOrder(list: seq<OpaqueField>, tag: nat)
    requires InOrder(list, tag) && Readable(list)
    ensures InOrder(AfterRun(list, tag), tag) && Readable(AfterRun(list, tag))
    ensures AfterRun(list, tag) != [] ==> tag < AfterRun(list, tag)[0].tag
    decreases |list|
  {
    if list != [] && list[0].tag == tag {
      RunInOrder(list[1..], tag);
    }
  }

  // ---------- deleting unknown fields ----------

  lemma {:induction false} KnownInOrder(fields: seq<Field>, list: seq<OpaqueField>, last: nat, lower: nat)
    requires InOrder(list, last) && Readable(list) && lower <= last
    ensures InOrder(Known(fields, list), lower) && Readable(Known(fields, list))
    decreases |list|
  {
    if list != [] {
      if FindField(fields, list[0].tag) < |fields| {
        KnownInOrder(fields, list[1..], list[0].tag, list[0].tag);
        assert Known(fields, list)[1..] == Known(fields, list[1..]);
      } else {
        KnownInOrder(fields, list[1..], list[0].tag, lower);
        assert Known(fields, list) == Known(fields, list[1..]);
      }
    }
  }

  /** A run with an unknown tag disappears. */
  lemma {:induction false} UnknownRun(fields: seq<Field>, list: seq<OpaqueField>, tag: nat)
    requires FindField(fields, tag) == |fields|
    ensures Known(fields, AfterRun(list, tag)) == Known(fields, list)
    decreases |list|
  {
    if list != [] && list[0].tag == tag {
      UnknownRun(fields, list[1..], tag);
    }
  }

  lemma {:induction false} KnownFirst(fields: seq<Field>, list: seq<OpaqueField>)
    requires list != [] && FindField(fields, list[0].tag) < |fields|
    ensures Known(fields, list) != [] && Known(fields, list)[0] == list[0]
    ensures Known(fields, list)[1..] == Known(fields, list[1..])
  {
  }

  // ---------- values do not see what follows them ----------

  lemma {:induction false} ValueLocal(sch: Schema, t: Type, depth: nat, v: OpaqueValue, s: seq<u8>, u: seq<u8>)
    requires TypeOk(t, |sch|) && v.OnWire() == WireTypeOf(t) && |v.Bytes()| < U64_END
    ensures var p := Relaxed.DecodeValue(sch, t, depth, v.Bytes() + s);
            var q := Relaxed.DecodeValue(sch, t, depth, v.Bytes() + u);
            && (p.Parsed? <==> q.Parsed?)
            && (p.Parsed? ==> p.value == q.value && p.rest == s && q.rest == u)
  {
    hide Relaxed.Merge, Relaxed.DecodeItems, EncodeUpTo, Decode;
    match v {
      case VarintValue(n) =>
        RoundTrip.ReadEncoded(n, s);
        RoundTrip.ReadEncoded(n, u);
      case LengthDelimitedValue(bytes) =>
        RoundTrip.ReadDelimited(bytes, s);
        RoundTrip.ReadDelimited(bytes, u);
      case _ =>
    }
  }

  lemma {:induction false} BodyLocal(sch: Schema, id: nat, depth: nat, region: seq<u8>, s: seq<u8>, u: seq<u8>)
    requires id < |sch|
    ensures var p := DecodeBody(sch, id, NotCanonical, depth, region, s);
            var q := DecodeBody(sch, id, NotCanonical, depth, region, u);
            && (p.Out? <==> q.Out?)
            && (p.Out? ==> p.value == q.value && p.canon == q.canon)
  {
  }

  /** Two reads that differ only in what follows the value. */
  ghost predicate Alike<T>(p: Out<T>, q: Out<T>, s: seq<u8>, u: seq<u8>) {
    && (p.Out? <==> q.Out?)
    && (p.Out? ==> p.value == q.value && p.canon == q.canon && p.rest == s && q.rest == u)
  }

  lemma {:induction false} ListLocal(sch: Schema, t: Type, depth: nat, bytes: seq<u8>, s: seq<u8>, u: seq<u8>)
    requires t.List? && TypeOk(t, |sch|) && |bytes| < U64_END
    ensures Alike(DecodeList(sch, t, NotCanonical, depth, Delimited(bytes) + s),
                  DecodeList(sch, t, NotCanonical, depth, Delimited(bytes) + u), s, u)
  {
    RoundTrip.ReadDelimited(bytes, s);
    RoundTrip.ReadDelimited(bytes, u);
  }

  lemma {:induction false} MessageLocal(sch: Schema, id: nat, allowEmpty: bool, depth: nat, bytes: seq<u8>, s: seq<u8>,
                                        u: seq<u8>)
    requires id < |sch| && |bytes| < U64_END
    ensures Alike(DecodeMessage(sch, id, allowEmpty, NotCanonical, depth, Delimited(bytes) + s),
                  DecodeMessage(sch, id, allowEmpty, NotCanonical, depth, Delimited(bytes) + u), s, u)
  {
    MessageRead(sch, id, allowEmpty, depth, bytes, s);
    MessageRead(sch, id, allowEmpty, depth, bytes, u);
    if depth > 0 {
      BodyLocal(sch, id, depth - 1, bytes, s, u);
    }
  }

  lemma {:induction false} MessageRead(sch: Schema, id: nat, allowEmpty: bool, depth: nat, bytes: seq<u8>,
                                       rest: seq<u8>)
    requires id < |sch| && |bytes| < U64_END
    ensures DecodeMessage(sch, id, allowEmpty, NotCanonical, depth, Delimited(bytes) + rest)
            == if !allowEmpty && bytes == [] && (depth > 0
                || sch[id].handwritten) then Out(Record(EmptyRecord(sch, id)), NotCanonical, rest)
               else if depth == 0 then Failed
               else DecodeBody(sch, id, NotCanonical, depth - 1, bytes, rest)
  {
    RoundTrip.ReadDelimited(bytes, rest);
  }

  lemma {:induction false} LeafLocal(t: Type, v: OpaqueValue, s: seq<u8>, u: seq<u8>)
    requires t.Uint? || (t.Fixed? && (t.size == 4 || t.size == 8)) || t.Bytes?
    requires v.OnWire() == WireTypeOf(t) && |v.Bytes()| < U64_END
    ensures var p, q := Relaxed.DecodeLeaf(t, v.Bytes() + s), Relaxed.DecodeLeaf(t, v.Bytes() + u);
            && (p.Parsed? <==> q.Parsed?)
            && (p.Parsed? ==> p.value == q.value && p.rest == s && q.rest == u)
  {
    match v {
      case VarintValue(n) =>
        RoundTrip.ReadEncoded(n, s);
        RoundTrip.ReadEncoded(n, u);
      case LengthDelimitedValue(bytes) =>
        RoundTrip.ReadDelimited(bytes, s);
        RoundTrip.ReadDelimited(bytes, u);
      case _ =>
    }
  }

  lemma {:induction false} ValueLocalRestricted(sch: Schema, t: Type, allowEmpty: bool, depth: nat, v: OpaqueValue,
                                                s: seq<u8>, u: seq<u8>)
    requires TypeOk(t, |sch|) && v.OnWire() == WireTypeOf(t) && |v.Bytes()| < U64_END
    ensures Alike(Restricted.DecodeValue(sch, t, allowEmpty, NotCanonical, depth, v.Bytes() + s),
                  Restricted.DecodeValue(sch, t, allowEmpty, NotCanonical, depth, v.Bytes() + u), s, u)
  {
    match t {
      case List(_, _) => ListLocal(sch, t, depth, v.bytes, s, u);
      case Message(id) => MessageLocal(sch, id, allowEmpty, depth, v.bytes, s, u);
      case _ => LeafLocal(t, v, s, u);
    }
  }

  // ---------- runs of unpacked items do not either ----------

  /** The two regions that are compared: all fields, and those that are known. */
  ghost predicate Paired(fields: seq<Field>, list: seq<OpaqueField>, tag: nat) {
    InOrder(list, tag) && Readable(list) && FindField(fields, tag) < |fields|
  }

  /** Where a repeated field goes on in one region, it goes on in the other. */
  lemma {:induction false} PeekBoth(fields: seq<Field>, list: seq<OpaqueField>, tag: nat)
    requires Paired(fields, list, tag)
    ensures InOrder(Known(fields, list), tag)
    ensures var b, k := ListBytes(list, tag), ListBytes(Known(fields, list), tag);
            if list != [] && list[0].tag == tag
            then PeekRepeated(b) == PeekRepeated(k) == Some(list[0].value.OnWire())
                 && b[1..] == FromValue(list)
                 && k[1..] == list[0].value.Bytes() + ListBytes(Known(fields, list[1..]), tag)
            else PeekRepeated(b) == PeekRepeated(k) == None
  {
    KnownInOrder(fields, list, tag, tag);
    PeekReads(list, tag);
    PeekReads(Known(fields, list), tag);
    if list != [] {
      if list[0].tag == tag {
        KnownFirst(fields, list);
      } else {
        KnownInOrder(fields, list, list[0].tag, list[0].tag);
      }
    }
  }

  /** What an unpacked read leaves: both regions from the same field on. */
  ghost predicate Left(fields: seq<Field>, list: seq<OpaqueField>, tag: nat, p: Parsed<seq<Value>>,
                       q: Parsed<seq<Value>>) {
    && (p.Parsed? <==> q.Parsed?)
    && (p.Parsed? ==>
          && p.value == q.value
          && p.rest == ListBytes(AfterRun(list, tag), tag)
          && q.rest == ListBytes(Known(fields, AfterRun(list, tag)), tag))
  }

  lemma {:induction false} ItemsLocal(sch: Schema, fields: seq<Field>, kind: ListKind, elem: Type, depth: nat,
                                      items: seq<Value>,
                                      v: OpaqueValue, list: seq<OpaqueField>, tag: nat)
    requires TypeOk(elem, |sch|) && v.OnWire() == WireTypeOf(elem) && |v.Bytes()| < U64_END && Paired(fields, list, tag)
    ensures Left(fields, list, tag,
                 Relaxed.UnpackedItems(sch, kind, elem, depth, items, v.Bytes() + ListBytes(list, tag)),
                 Relaxed.UnpackedItems(sch, kind, elem, depth, items, v.Bytes() + ListBytes(Known(fields, list), tag)))
    decreases |list|, 1
  {
    var s, u := ListBytes(list, tag), ListBytes(Known(fields, list), tag);
    ValueLocal(sch, elem, depth, v, s, u);
    ItemTurn(sch, kind, elem, depth, items, v.Bytes() + s);
    ItemTurn(sch, kind, elem, depth, items, v.Bytes() + u);
    var p := Relaxed.DecodeValue(sch, elem, depth, v.Bytes() + s);
    if p.Parsed? && Insert(kind, items, p.value).Some? {
      ItemsOnLocal(sch, fields, kind, elem, depth, Insert(kind, items, p.value).value, list, tag);
    }
  }

  lemma {:induction false} ItemTurn(sch: Schema, kind: ListKind, elem: Type, depth: nat, items: seq<Value>, b: seq<u8>)
    requires TypeOk(elem, |sch|)
    ensures var p := Relaxed.DecodeValue(sch, elem, depth, b);
            Relaxed.UnpackedItems(sch, kind, elem, depth, items, b)
            == if p.Rejected? || Insert(kind, items, p.value).None? then Rejected
               else Relaxed.UnpackedOn(sch, kind, elem, depth, Insert(kind, items, p.value).value, p.rest)
  {
  }

  lemma {:induction false} ItemsOnLocal(sch: Schema, fields: seq<Field>, kind: ListKind, elem: Type, depth: nat,
                                        items: seq<Value>,
                                        list: seq<OpaqueField>, tag: nat)
    requires TypeOk(elem, |sch|) && Paired(fields, list, tag)
    ensures Left(fields, list, tag,
                 Relaxed.UnpackedOn(sch, kind, elem, depth, items, ListBytes(list, tag)),
                 Relaxed.UnpackedOn(sch, kind, elem, depth, items, ListBytes(Known(fields, list), tag)))
    decreases |list|, 0
  {
    PeekBoth(fields, list, tag);
    OnTurn(sch, kind, elem, depth, items, ListBytes(list, tag));
    OnTurn(sch, kind, elem, depth, items, ListBytes(Known(fields, list), tag));
    if list != [] && list[0].tag == tag && list[0].value.OnWire() == WireTypeOf(elem) {
      ItemsLocal(sch, fields, kind, elem, depth, items, list[0].value, list[1..], tag);
    }
  }

  lemma {:induction false} OnTurn(sch: Schema, kind: ListKind, elem: Type, depth: nat, items: seq<Value>, b: seq<u8>)
    requires TypeOk(elem, |sch|)
    ensures var next := PeekRepeated(b);
            Relaxed.UnpackedOn(sch, kind, elem, depth, items, b)
            == if next.None? then (if kind.Array? && |items| < kind.size then Rejected else Parsed(items, b))
               else if (kind.Array? && |items| >= kind.size) || next.value != WireTypeOf(elem) then Rejected
               else Relaxed.UnpackedItems(sch, kind, elem, depth, items, b[1..])
  {
  }

  // ---------- nor do fields ----------

  /**
   * A field that the schema has as an array of no elements, but that is on the wire unpacked. Its value is
   * not read but taken for the next key, so that what follows decides what is decoded.
   */
  predicate Unread(fields: seq<Field>, f: OpaqueField) {
    var k := FindField(fields, f.tag);
    && k < |fields|
    && !fields[k].optional && fields[k].typ.List? && fields[k].typ.kind == Array(0)
    && f.value.OnWire() != LengthDelimited && f.value.OnWire() == WireTypeOf(fields[k].typ.elem)
  }

  /** No unknown field comes after an unread one. */
  predicate UnknownsFirst(fields: seq<Field>, list: seq<OpaqueField>) {
    list != [] ==> (Unread(fields, list[0]) ==> !AnyUnknown(fields, list[1..])) && UnknownsFirst(fields, list[1..])
  }

  /** Two reads of a field that leave both regions from the same field on. */
  ghost predicate LeftAlike<T>(fields: seq<Field>, list: seq<OpaqueField>, tag: nat, p: Out<T>, q: Out<T>) {
    && (p.Out? <==> q.Out?)
    && (p.Out? ==>
          && p.value == q.value && p.canon == q.canon
          && ((p.rest == ListBytes(list, tag) && q.rest == ListBytes(Known(fields, list), tag))
              || (p.rest == ListBytes(AfterRun(list, tag), tag)
                  && q.rest == ListBytes(Known(fields, AfterRun(list, tag)), tag))))
  }

  lemma {:induction false} FieldLocal(sch: Schema, fields: seq<Field>, f: Field, depth: nat, list: seq<OpaqueField>)
    requires list != [] && FindField(fields, list[0].tag) < |fields| && fields[FindField(fields, list[0].tag)] == f
    requires TypeOk(f.typ, |sch|) && InOrder(list, list[0].tag) && Readable(list) && !Unread(fields, list[0])
    ensures var w, b := list[0].value.OnWire(), list[0].value.Bytes();
            var tail := ListBytes(Known(fields, list[1..]), list[0].tag);
            LeftAlike(fields, list[1..], list[0].tag,
                      Restricted.DecodeField(sch, f, NotCanonical, depth, w, FromValue(list)),
                      Restricted.DecodeField(sch, f, NotCanonical, depth, w, b + tail))
  {
    var v, rest, tag := list[0].value, list[1..], list[0].tag;
    if !f.optional && f.typ.List? && !f.typ.kind.Mapping? && v.OnWire() != LengthDelimited {
      UnpackedFieldLocal(sch, fields, f, depth, v, rest, tag);
    } else {
      PlainFieldLocal(sch, f, depth, v, ListBytes(rest, tag), ListBytes(Known(fields, rest), tag));
    }
  }

  lemma {:induction false} UnpackedFieldLocal(sch: Schema, fields: seq<Field>, f: Field, depth: nat, v: OpaqueValue,
                                              rest: seq<OpaqueField>, tag: nat)
    requires TypeOk(f.typ, |sch|) && !f.optional && f.typ.List? && !f.typ.kind.Mapping? && v.OnWire() != LengthDelimited
    requires Paired(fields, rest, tag) && |v.Bytes()| < U64_END
    requires f.typ.kind == Array(0) ==> v.OnWire() != WireTypeOf(f.typ.elem)
    ensures LeftAlike(fields, rest, tag,
                      Restricted.DecodeField(sch, f, NotCanonical, depth, v.OnWire(), v.Bytes() + ListBytes(rest, tag)),
                      Restricted.DecodeField(sch, f, NotCanonical, depth, v.OnWire(),
                                             v.Bytes() + ListBytes(Known(fields, rest), tag)))
  {
    if v.OnWire() == WireTypeOf(f.typ.elem) {
      ItemsLocal(sch, fields, f.typ.kind, f.typ.elem, depth, [], v, rest, tag);
    }
  }

  lemma {:induction false} PlainFieldLocal(sch: Schema, f: Field, depth: nat, v: OpaqueValue, s: seq<u8>, u: seq<u8>)
    requires TypeOk(f.typ, |sch|)
    requires !(!f.optional && f.typ.List? && !f.typ.kind.Mapping? && v.OnWire() != LengthDelimited)
    requires |v.Bytes()| < U64_END
    ensures Alike(Restricted.DecodeField(sch, f, NotCanonical, depth, v.OnWire(), v.Bytes() + s),
                  Restricted.DecodeField(sch, f, NotCanonical, depth, v.OnWire(), v.Bytes() + u), s, u)
  {
    if v.OnWire() == WireTypeOf(f.typ) {
      ValueLocalRestricted(sch, f.typ, f.optional, depth, v, s, u);
    }
  }

  // ---------- nor do messages ----------

  /** The last tags of both loops: the same, unless an unknown field has come since. */
  ghost predicate Tracks(fields: seq<Field>, last: Option<nat>, known: Option<nat>) {
    last == known
    || (last.Some? && FindField(fields, last.value) == |fields| && (known.Some? ==> known.value < last.value))
  }

  /** An unknown field makes the data extended, at best. */
  function Judge(met: bool, canon: Canonicity): Canonicity {
    if met then Worse(canon, HasExtensions) else canon
  }

  ghost predicate Transparent(met: bool, p: Whole<seq<Slot>>, q: Whole<seq<Slot>>) {
    && (p.Whole? <==> q.Whole?)
    && (p.Whole? ==> p.value == q.value && p.canon == Judge(met, q.canon))
  }

  lemma {:induction false} MergeTransparent(sch: Schema, id: nat, depth: nat, slots: seq<Slot>, last: Option<nat>,
                                            known: Option<nat>,
                                            met: bool, canon: Canonicity, list: seq<OpaqueField>)
    requires id < |sch| && |slots| == |sch[id].fields|
    requires InOrder(list, RoundTrip.LastTag(last)) && Readable(list) && UnknownsFirst(sch[id].fields, list)
    requires Tracks(sch[id].fields, last, known)
    ensures var fields := sch[id].fields;
            Transparent(met || AnyUnknown(fields, list),
                        Merge(sch, id, NotCanonical, depth, slots, last, Judge(met, canon),
                              ListBytes(list, RoundTrip.LastTag(last))),
                        Merge(sch, id, NotCanonical, depth, slots, known, canon,
                              ListBytes(Known(fields, list), RoundTrip.LastTag(known))))
    decreases |list|, 1
  {
    if list != [] {
      if FindField(sch[id].fields, list[0].tag) == |slots| {
        UnknownTransparent(sch, id, depth, slots, last, known, met, canon, list);
      } else {
        KnownTransparent(sch, id, depth, slots, last, known, met, canon, list);
      }
    }
  }

  lemma {:induction false} UnknownTransparent(sch: Schema, id: nat, depth: nat, slots: seq<Slot>, last: Option<nat>,
                                              known: Option<nat>,
                                              met: bool, canon: Canonicity, list: seq<OpaqueField>)
    requires id < |sch| && |slots| == |sch[id].fields| && list != []
    requires FindField(sch[id].fields, list[0].tag) == |slots|
    requires InOrder(list, RoundTrip.LastTag(last)) && Readable(list) && UnknownsFirst(sch[id].fields, list)
    requires Tracks(sch[id].fields, last, known)
    ensures var fields := sch[id].fields;
            Transparent(met || AnyUnknown(fields, list),
                        Merge(sch, id, NotCanonical, depth, slots, last, Judge(met, canon),
                              ListBytes(list, RoundTrip.LastTag(last))),
                        Merge(sch, id, NotCanonical, depth, slots, known, canon,
                              ListBytes(Known(fields, list), RoundTrip.LastTag(known))))
    decreases |list|, 0
  {
    hide Merge, SkipField, ReadKey;
    var fields, tag := sch[id].fields, list[0].tag;
    var b, rest := ListBytes(list, RoundTrip.LastTag(last)), AfterRun(list[1..], tag);
    KeyReads(list, RoundTrip.LastTag(last));
    SkippedRun(fields, list);
    assert Merge(sch, id, NotCanonical, depth, slots, last, Judge(met, canon), b)
        == Merge(sch, id, NotCanonical, depth, slots, Some(tag), Judge(true, canon), ListBytes(rest, tag)) by {
      MergeUnknown(sch, id, NotCanonical, depth, slots, last, Judge(met, canon), b);
      SkipRun(list);
      assert Worse(Judge(met, canon), HasExtensions) == Judge(true, canon);
    }
    StillTracks(fields, last, known, tag);
    MergeTransparent(sch, id, depth, slots, Some(tag), known, true, canon, rest);
  }

  lemma {:induction false} StillTracks(fields: seq<Field>, last: Option<nat>, known: Option<nat>, tag: nat)
    requires Tracks(fields, last, known) && RoundTrip.LastTag(last) <= tag && FindField(fields, tag) == |fields|
    ensures Tracks(fields, Some(tag), known)
  {
  }

  lemma {:induction false} SkippedRun(fields: seq<Field>, list: seq<OpaqueField>)
    requires list != [] && InOrder(list, list[0].tag) && Readable(list) && UnknownsFirst(fields, list)
    requires FindField(fields, list[0].tag) == |fields|
    ensures var rest := AfterRun(list[1..], list[0].tag);
            && InOrder(rest, list[0].tag) && Readable(rest) && UnknownsFirst(fields, rest)
            && Known(fields, rest) == Known(fields, list) && AnyUnknown(fields, list)
  {
    RunInOrder(list[1..], list[0].tag);
    RunUnknownsFirst(fields, list[1..], list[0].tag);
    UnknownRun(fields, list[1..], list[0].tag);
    assert Known(fields, list) == Known(fields, list[1..]);
  }

  lemma {:induction false} RunUnknownsFirst(fields: seq<Field>, list: seq<OpaqueField>, tag: nat)
    requires UnknownsFirst(fields, list)
    ensures UnknownsFirst(fields, AfterRun(list, tag))
    decreases |list|
  {
    if list != [] && list[0].tag == tag {
      RunUnknownsFirst(fields, list[1..], tag);
    }
  }

  lemma {:induction false} RunIsKnown(fields: seq<Field>, list: seq<OpaqueField>, tag: nat)
    requires FindField(fields, tag) < |fields|
    ensures AnyUnknown(fields, AfterRun(list, tag)) <==> AnyUnknown(fields, list)
    ensures UnknownsFirst(fields, list) ==> UnknownsFirst(fields, AfterRun(list, tag))
    decreases |list|
  {
    if list != [] && list[0].tag == tag {
      RunIsKnown(fields, list[1..], tag);
      OneLess(fields, list);
    }
  }

  lemma {:induction false} OneLess(fields: seq<Field>, list: seq<OpaqueField>)
    requires list != [] && FindField(fields, list[0].tag) < |fields|
    ensures AnyUnknown(fields, list[1..]) <==> AnyUnknown(fields, list)
  {
    if AnyUnknown(fields, list) {
      var i :| 0 <= i < |list| && FindField(fields, list[i].tag) == |fields|;
      assert list[1..][i - 1] == list[i];
    }
    if AnyUnknown(fields, list[1..]) {
      var i :| 0 <= i < |list| - 1 && FindField(fields, list[1..][i].tag) == |fields|;
      assert list[i + 1] == list[1..][i];
    }
  }

  lemma {:induction false} KnownTransparent(sch: Schema, id: nat, depth: nat, slots: seq<Slot>, last: Option<nat>,
                                            known: Option<nat>,
                                            met: bool, canon: Canonicity, list: seq<OpaqueField>)
    requires id < |sch| && |slots| == |sch[id].fields| && list != [] && FindField(sch[id].fields, list[0].tag) < |slots|
    requires InOrder(list, RoundTrip.LastTag(last)) && Readable(list) && UnknownsFirst(sch[id].fields, list)
    requires Tracks(sch[id].fields, last, known)
    ensures var fields := sch[id].fields;
            Transparent(met || AnyUnknown(fields, list),
                        Merge(sch, id, NotCanonical, depth, slots, last, Judge(met, canon),
                              ListBytes(list, RoundTrip.LastTag(last))),
                        Merge(sch, id, NotCanonical, depth, slots, known, canon,
                              ListBytes(Known(fields, list), RoundTrip.LastTag(known))))
    decreases |list|, 0
  {
    var fields, tag := sch[id].fields, list[0].tag;
    KnownFirst(fields, list);
    KeyReads(list, RoundTrip.LastTag(last));
    KeyReads(Known(fields, list), RoundTrip.LastTag(known));
    if last != Some(tag) {
      var k := FindField(fields, tag);
      MergeKnown(sch, id, NotCanonical, depth, slots, last, Judge(met, canon),
                 ListBytes(list, RoundTrip.LastTag(last)));
      MergeKnown(sch, id, NotCanonical, depth, slots, known, canon,
                 ListBytes(Known(fields, list), RoundTrip.LastTag(known)));
      var w := list[0].value.OnWire();
      if Unread(fields, list[0]) {
        OneLess(fields, list);
        NoneUnknown(fields, list);
        var p := DecodeField(sch, fields[k], NotCanonical, depth, w, FromValue(list));
        AfterJudged(sch, id, depth, slots, k, tag, met, canon, p);
        return;
      }
      FieldLocal(sch, fields, fields[k], depth, list);
      AfterTransparent(sch, id, depth, slots, k, met, canon, list,
                       DecodeField(sch, fields[k], NotCanonical, depth, w, FromValue(list)),
                       DecodeField(sch, fields[k], NotCanonical, depth, w, FromValue(Known(fields, list))));
    }
  }

  lemma {:induction false} AfterTransparent(sch: Schema, id: nat, depth: nat, slots: seq<Slot>, k: nat, met: bool,
                                            canon: Canonicity,
                                            list: seq<OpaqueField>, p: Out<Slot>, q: Out<Slot>)
    requires id < |sch| && |slots| == |sch[id].fields| && list != [] && k < |slots|
    requires FindField(sch[id].fields, list[0].tag) < |slots|
    requires InOrder(list, list[0].tag) && Readable(list) && UnknownsFirst(sch[id].fields, list)
    requires LeftAlike(sch[id].fields, list[1..], list[0].tag, p, q)
    ensures Transparent(met || AnyUnknown(sch[id].fields, list),
                        AfterKnown(sch, id, NotCanonical, depth, slots, k, list[0].tag, Judge(met, canon), p),
                        AfterKnown(sch, id, NotCanonical, depth, slots, k, list[0].tag, canon, q))
    decreases |list|, -1
  {
    var fields, tag := sch[id].fields, list[0].tag;
    OneLess(fields, list);
    RunIsKnown(fields, list[1..], tag);
    RunInOrder(list[1..], tag);
    if p.Out? {
      var after, next := slots[k := p.value], Worse(canon, p.canon);
      assert Worse(Judge(met, canon), p.canon) == Judge(met, next);
      if p.rest == ListBytes(list[1..], tag) && q.rest == ListBytes(Known(fields, list[1..]), tag) {
        MergeTransparent(sch, id, depth, after, Some(tag), Some(tag), met, next, list[1..]);
      } else {
        MergeTransparent(sch, id, depth, after, Some(tag), Some(tag), met, next, AfterRun(list[1..], tag));
      }
    }
  }

  lemma {:induction false} NoneUnknown(fields: seq<Field>, list: seq<OpaqueField>)
    requires !AnyUnknown(fields, list)
    ensures Known(fields, list) == list
    decreases |list|
  {
    if list != [] {
      assert FindField(fields, list[0].tag) < |fields|;
      OneLess(fields, list);
      NoneUnknown(fields, list[1..]);
      assert [list[0]] + list[1..] == list;
    }
  }

  /** On the same bytes, having met an unknown field earlier only shows in the canonicity. */
  lemma {:induction false} MergeJudged(sch: Schema, id: nat, depth: nat, slots: seq<Slot>, last: Option<nat>, met: bool,
                                       canon: Canonicity, b: seq<u8>)
    requires id < |sch| && |slots| == |sch[id].fields|
    ensures Transparent(met, Merge(sch, id, NotCanonical, depth, slots, last, Judge(met, canon), b),
                        Merge(sch, id, NotCanonical, depth, slots, last, canon, b))
    decreases |b|, 1
  {
    var key := ReadKey(RoundTrip.LastTag(last), b);
    if b != [] && key.Parsed? {
      var tag, w, k := key.value.tag, key.value.wireType, FindField(sch[id].fields, key.value.tag);
      if k == |slots| {
        MergeUnknown(sch, id, NotCanonical, depth, slots, last, Judge(met, canon), b);
        MergeUnknown(sch, id, NotCanonical, depth, slots, last, canon, b);
        assert Worse(Judge(met, canon), HasExtensions) == Judge(met, Worse(canon, HasExtensions));
        if SkipField(w, key.rest).Parsed? {
          MergeJudged(sch, id, depth, slots, Some(tag), met, Worse(canon, HasExtensions), SkipField(w, key.rest).rest);
        }
      } else if last != Some(tag) {
        MergeKnown(sch, id, NotCanonical, depth, slots, last, Judge(met, canon), b);
        MergeKnown(sch, id, NotCanonical, depth, slots, last, canon, b);
        AfterJudged(sch, id, depth, slots, k, tag, met, canon,
                    DecodeField(sch, sch[id].fields[k], NotCanonical, depth, w, key.rest));
      }
    }
  }

  lemma {:induction false} AfterJudged(sch: Schema, id: nat, depth: nat, slots: seq<Slot>, k: nat, tag: nat, met: bool,
                                       canon: Canonicity, p: Out<Slot>)
    requires id < |sch| && |slots| == |sch[id].fields| && k < |slots|
    ensures Transparent(met, AfterKnown(sch, id, NotCanonical, depth, slots, k, tag, Judge(met, canon), p),
                        AfterKnown(sch, id, NotCanonical, depth, slots, k, tag, canon, p))
    decreases if p.Out? then |p.rest| else 0, 2
  {
    if p.Out? {
      assert Worse(Judge(met, canon), p.canon) == Judge(met, Worse(canon, p.canon));
      MergeJudged(sch, id, depth, slots[k := p.value], Some(tag), met, Worse(canon, p.canon), p.rest);
    }
  }

  // ---------- relaxed decoding ----------

  /** Two relaxed reads of a field that leave both regions from the same field on. */
  ghost predicate LeftAlikeRelaxed<T>(fields: seq<Field>, list: seq<OpaqueField>, tag: nat, p: Parsed<T>,
                                      q: Parsed<T>) {
    && (p.Parsed? <==> q.Parsed?)
    && (p.Parsed? ==>
          && p.value == q.value
          && ((p.rest == ListBytes(list, tag) && q.rest == ListBytes(Known(fields, list), tag))
              || (p.rest == ListBytes(AfterRun(list, tag), tag)
                  && q.rest == ListBytes(Known(fields, AfterRun(list, tag)), tag))))
  }

  lemma {:induction false} FieldLocalRelaxed(sch: Schema, fields: seq<Field>, f: Field, depth: nat,
                                             list: seq<OpaqueField>)
    requires list != [] && FindField(fields, list[0].tag) < |fields| && fields[FindField(fields, list[0].tag)] == f
    requires TypeOk(f.typ, |sch|) && InOrder(list, list[0].tag) && Readable(list) && !Unread(fields, list[0])
    ensures var w, b := list[0].value.OnWire(), list[0].value.Bytes();
            var tail := ListBytes(Known(fields, list[1..]), list[0].tag);
            LeftAlikeRelaxed(fields, list[1..], list[0].tag,
                             Relaxed.DecodeField(sch, f, depth, w, FromValue(list)), Relaxed.DecodeField(sch, f, depth,
                                   w, b + tail))
  {
    var v, rest, tag := list[0].value, list[1..], list[0].tag;
    if !f.optional && f.typ.List? && !f.typ.kind.Mapping? && v.OnWire() != LengthDelimited {
      if v.OnWire() == WireTypeOf(f.typ.elem) {
        ItemsLocal(sch, fields, f.typ.kind, f.typ.elem, depth, [], v, rest, tag);
      }
    } else if v.OnWire() == WireTypeOf(f.typ) {
      ValueLocal(sch, f.typ, depth, v, ListBytes(rest, tag), ListBytes(Known(fields, rest), tag));
    }
  }

  lemma {:induction false} MergeTransparentRelaxed(sch: Schema, id: nat, depth: nat, slots: seq<Slot>,
                                                   last: Option<nat>, known: Option<nat>,
                                                   list: seq<OpaqueField>)
    requires id < |sch| && |slots| == |sch[id].fields|
    requires InOrder(list, RoundTrip.LastTag(last)) && Readable(list) && UnknownsFirst(sch[id].fields, list)
    requires Tracks(sch[id].fields, last, known)
    ensures Relaxed.Merge(sch, id, depth, slots, last, ListBytes(list, RoundTrip.LastTag(last)))
         == Relaxed.Merge(sch, id, depth, slots, known,
                          ListBytes(Known(sch[id].fields, list), RoundTrip.LastTag(known)))
    decreases |list|, 1
  {
    if list != [] {
      var fields, tag := sch[id].fields, list[0].tag;
      var b := ListBytes(list, RoundTrip.LastTag(last));
      KeyReads(list, RoundTrip.LastTag(last));
      RelaxedDecoder.MergeTurn(sch, id, depth, slots, last, b);
      if FindField(fields, tag) == |fields| {
        SkippedRun(fields, list);
        SkipRun(list);
        StillTracks(fields, last, known, tag);
        MergeTransparentRelaxed(sch, id, depth, slots, Some(tag), known, AfterRun(list[1..], tag));
      } else {
        KnownTransparentRelaxed(sch, id, depth, slots, last, known, list);
      }
    }
  }

  lemma {:induction false} KnownTransparentRelaxed(sch: Schema, id: nat, depth: nat, slots: seq<Slot>,
                                                   last: Option<nat>, known: Option<nat>,
                                                   list: seq<OpaqueField>)
    requires id < |sch| && |slots| == |sch[id].fields| && list != [] && FindField(sch[id].fields, list[0].tag) < |slots|
    requires InOrder(list, RoundTrip.LastTag(last)) && Readable(list) && UnknownsFirst(sch[id].fields, list)
    requires Tracks(sch[id].fields, last, known)
    ensures Relaxed.Merge(sch, id, depth, slots, last, ListBytes(list, RoundTrip.LastTag(last)))
         == Relaxed.Merge(sch, id, depth, slots, known,
                          ListBytes(Known(sch[id].fields, list), RoundTrip.LastTag(known)))
    decreases |list|, 0
  {
    var fields, tag := sch[id].fields, list[0].tag;
    KnownFirst(fields, list);
    KeyReads(list, RoundTrip.LastTag(last));
    KeyReads(Known(fields, list), RoundTrip.LastTag(known));
    RelaxedDecoder.MergeTurn(sch, id, depth, slots, last, ListBytes(list, RoundTrip.LastTag(last)));
    RelaxedDecoder.MergeTurn(sch, id, depth, slots, known, ListBytes(Known(fields, list), RoundTrip.LastTag(known)));
    if last != Some(tag) {
      if Unread(fields, list[0]) {
        OneLess(fields, list);
        NoneUnknown(fields, list);
      } else {
        assert DefOk(sch[id], id, |sch|);
        var f, w := fields[FindField(fields, tag)], list[0].value.OnWire();
        FieldLocalRelaxed(sch, fields, f, depth, list);
        AfterTransparentRelaxed(sch, id, depth, slots, list, Relaxed.DecodeField(sch, f, depth, w, FromValue(list)),
                                Relaxed.DecodeField(sch, f, depth, w, FromValue(Known(fields, list))));
      }
    }
  }

  /** The loop after a field has been decoded. */
  function AfterRelaxed(sch: Schema, id: nat, depth: nat, slots: seq<Slot>, k: nat, tag: nat,
                        p: Parsed<Slot>): Option<seq<Slot>>
    requires id < |sch| && |slots| == |sch[id].fields| && k < |slots|
  {
    if p.Rejected? then None else Relaxed.Merge(sch, id, depth, slots[k := p.value], Some(tag), p.rest)
  }

  lemma {:induction false} AfterTransparentRelaxed(sch: Schema, id: nat, depth: nat, slots: seq<Slot>,
                                                   list: seq<OpaqueField>, p: Parsed<Slot>, q: Parsed<Slot>)
    requires id < |sch| && |slots| == |sch[id].fields| && list != [] && FindField(sch[id].fields, list[0].tag) < |slots|
    requires InOrder(list, list[0].tag) && Readable(list) && UnknownsFirst(sch[id].fields, list)
    requires LeftAlikeRelaxed(sch[id].fields, list[1..], list[0].tag, p, q)
    ensures var k := FindField(sch[id].fields, list[0].tag);
            AfterRelaxed(sch, id, depth, slots, k, list[0].tag, p)
              == AfterRelaxed(sch, id, depth, slots, k, list[0].tag, q)
    decreases |list|, -1
  {
    var fields, tag := sch[id].fields, list[0].tag;
    RunIsKnown(fields, list[1..], tag);
    RunInOrder(list[1..], tag);
    if p.Parsed? {
      var after := slots[FindField(fields, tag) := p.value];
      if p.rest == ListBytes(list[1..], tag) && q.rest == ListBytes(Known(fields, list[1..]), tag) {
        MergeTransparentRelaxed(sch, id, depth, after, Some(tag), Some(tag), list[1..]);
      } else {
        MergeTransparentRelaxed(sch, id, depth, after, Some(tag), Some(tag), AfterRun(list[1..], tag));
      }
    }
  }

  // ---------- the promise ----------

  lemma {:induction false} ListReadable(list: seq<OpaqueField>, last: nat)
    requires InOrder(list, last) && |ListBytes(list, last)| < U64_END
    ensures Readable(list)
  {
    forall i | 0 <= i < |list| ensures |list[i].value.Bytes()| < U64_END {
      InOrderAt(list, last, i);
    }
  }

  /**
   * Deleting the unknown fields of a message, and summing up the distances between tags again, changes
   * neither whether it is decoded nor the value. They only make it extended instead of canonical.
   */
  lemma {:induction false} UnknownFieldsAreTransparent(sch: Schema, id: nat, b: seq<u8>)
    requires id < |sch| && |b| < U64_END && ReadList(0, b).Some? && UnknownsFirst(sch[id].fields, ReadList(0, b).value)
    ensures var list := ReadList(0, b).value;
            Transparent(AnyUnknown(sch[id].fields, list), Messages.DecodedTo(sch, id, NotCanonical, b),
                        Messages.DecodedTo(sch, id, NotCanonical, ListBytes(Known(sch[id].fields, list), 0)))
  {
    ReadsList(0, b);
    var list := ReadList(0, b).value;
    ListReadable(list, 0);
    MergeTransparent(sch, id, Messages.RECURSION_LIMIT, EmptyRecord(sch, id), None, None, false, Canonical, list);
  }

  /** Unknown fields are transparent to relaxed decoding too. */
  lemma {:induction false} UnknownFieldsAreTransparentToRelaxed(sch: Schema, id: nat, b: seq<u8>)
    requires id < |sch| && |b| < U64_END && ReadList(0, b).Some? && UnknownsFirst(sch[id].fields, ReadList(0, b).value)
    ensures Messages.Decoded(sch, id, b)
            == Messages.Decoded(sch, id, ListBytes(Known(sch[id].fields, ReadList(0, b).value), 0))
  {
    ReadsList(0, b);
    var list := ReadList(0, b).value;
    ListReadable(list, 0);
    MergeTransparentRelaxed(sch, id, Messages.RECURSION_LIMIT, EmptyRecord(sch, id), None, None, list);
  }
}
