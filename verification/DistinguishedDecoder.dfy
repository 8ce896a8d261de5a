/**
 * Distinguished decoding as the library runs it, over soft-capped views of one shared buffer: each method
 * decodes exactly what `Restricted` accepts of the region before the cap, with the same canonicity.
 */
module DistinguishedDecoder {
  import opened Base
  import opened Buffers
  import opened Schemas
  import opened Ordering
  import opened Encoding
  import opened Wire
  import opened CappedBuffers
  import opened Restricted
  import opened RelaxedDecoder

  datatype Judged<+T> = Judged(value: T, canon: Canonicity)

  function AsParsed<T>(r: Out<T>): Parsed<Judged<T>> {
    if r.Failed? then Rejected else Parsed(Judged(r.value, r.canon), r.rest)
  }

  function AsOption<T>(r: Whole<T>): Option<Judged<T>> {
    if r.Bad? then None else Some(Judged(r.value, r.canon))
  }

  /** `RestrictedDecodeContext::check`. */
  function Check(min: Canonicity, canon: Canonicity): (r: Result<Canonicity>)
    ensures r == Ok(canon) || r == Err(if canon.HasExtensions? then UnknownField else NotCanonicalError)
    ensures r.Ok? <==> canon.AtLeast(min)
  {
    if canon.AtLeast(min) then Ok(canon)
    else if canon.HasExtensions? then Err(UnknownField) else Err(NotCanonicalError)
  }

  /** `decode_value_distinguished`. */
  method DecodeValue(sch: Schema, t: Type, allowEmpty: bool, min: Canonicity, depth: nat, capped: Capped)
    returns (r: Result<Judged<Value>>)
    requires ItemOk(t, |sch|) && capped.buf.Valid()
    modifies capped.buf
    ensures capped.buf.Valid()
    ensures Isolated(old(capped.buf.Bytes), capped.buf.Bytes, capped.extra,
                     AsParsed(Restricted.DecodeValue(sch, t, allowEmpty, min, depth,
                                                     Before(old(capped.buf.Bytes), capped.extra))), r)
    ensures r.Ok? ==> |capped.buf.Bytes| < |old(capped.buf.Bytes)|
    decreases depth, 0, t, 2
  {
    hide Restricted.DecodePair, Restricted.DecodeList, Restricted.DecodeMessage, Relaxed.DecodeLeaf;
    match t {
      case Pair(_, _) => r := DecodePair(sch, t, min, depth, capped);
      case List(_, _) => r := DecodeList(sch, t, min, depth, capped);
      case Message(id) => r := DecodeMessage(sch, id, allowEmpty, min, depth, capped);
      case _ =>
        var v :- RelaxedDecoder.DecodeLeaf(t, capped);
        return Ok(Judged(v, Canonical));
    }
  }

  method DecodePair(sch: Schema, t: Type, min: Canonicity, depth: nat, capped: Capped)
    returns (r: Result<Judged<Value>>)
    requires t.Pair? && ItemOk(t, |sch|) && capped.buf.Valid()
    modifies capped.buf
    ensures capped.buf.Valid()
    ensures Isolated(old(capped.buf.Bytes), capped.buf.Bytes, capped.extra,
                     AsParsed(Restricted.DecodePair(sch, t, min, depth,
                                                    Before(old(capped.buf.Bytes), capped.extra))), r)
    ensures r.Ok? ==> |capped.buf.Bytes| < |old(capped.buf.Bytes)|
    decreases depth, 0, t, 0
  {
    var k :- DecodeValue(sch, t.key, true, min, depth, capped);
    var x :- DecodeValue(sch, t.val, true, min, depth, capped);
    return Ok(Judged(Entry(k.value, x.value), Worse(k.canon, x.canon)));
  }

  method DecodeList(sch: Schema, t: Type, min: Canonicity, depth: nat, capped: Capped)
    returns (r: Result<Judged<Value>>)
    requires t.List? && ItemOk(t, |sch|) && capped.buf.Valid()
    modifies capped.buf
    ensures capped.buf.Valid()
    ensures Isolated(old(capped.buf.Bytes), capped.buf.Bytes, capped.extra,
                     AsParsed(Restricted.DecodeList(sch, t, min, depth,
                                                    Before(old(capped.buf.Bytes), capped.extra))), r)
    ensures r.Ok? ==> |capped.buf.Bytes| < |old(capped.buf.Bytes)|
    decreases depth, 0, t, 0
  {
    hide Restricted.DecodeItems, ReadVarint;
    var inner :- capped.TakeLengthDelimited();
    var items;
    if t.kind.Array? {
      items :- DecodeArray(sch, t.kind, t.elem, min, depth, inner);
    } else {
      items :- DecodeItems(sch, t.kind, t.elem, min, depth, inner);
    }
    return Ok(Judged(Items(items.value), items.canon));
  }

  method DecodeItems(sch: Schema, kind: ListKind, elem: Type, min: Canonicity, depth: nat, capped: Capped)
    returns (r: Result<Judged<seq<Value>>>)
    requires ItemOk(elem, |sch|) && !kind.Array? && capped.buf.Valid() && capped.extra <= |capped.buf.Bytes|
    modifies capped.buf
    ensures capped.buf.Valid()
    ensures Finished(old(capped.buf.Bytes), capped.buf.Bytes, capped.extra,
                     AsOption(Restricted.DecodeItems(sch, kind, elem, min, depth, [], Canonical,
                                                     Before(old(capped.buf.Bytes), capped.extra))), r)
    decreases depth, 0, elem, 3
  {
    hide NeverFills, Restricted.DecodeItems, Before, Beyond;
    ghost var start := capped.buf.Bytes;
    ghost var whole := Restricted.DecodeItems(sch, kind, elem, min, depth, [], Canonical, Before(start, capped.extra));
    var size := CheckMultiple(sch, elem, capped);
    if size.Err? {
      NeverFilled(sch, kind, elem, min, depth, Before(start, capped.extra));
      return Err(size.error);
    }
    var items: seq<Value> := [];
    var canon := Canonical;
    while true
      invariant capped.buf.Valid()
      invariant Going(start, capped.buf.Bytes, capped.extra, whole,
                      Restricted.DecodeItems(sch, kind, elem, min, depth, items, canon,
                                             Before(capped.buf.Bytes, capped.extra)), Bad)
      decreases |capped.buf.Bytes|
    {
      var more :- capped.HasRemaining();
      if !more {
        Drained(capped.buf.Bytes, capped.extra);
        ItemsEnd(sch, kind, elem, min, depth, items, canon);
        return Ok(Judged(items, canon));
      }
      var next :- ItemOne(sch, kind, elem, min, depth, items, canon, capped);
      items, canon := next.value, next.canon;
    }
  }

  lemma {:induction false} NeverFilled(sch: Schema, kind: ListKind, elem: Type, min: Canonicity, depth: nat, b: seq<u8>)
    requires ItemOk(elem, |sch|) && FixedSize(elem).Some? && NeverFills(|b|, FixedSize(elem).value)
    ensures Restricted.DecodeItems(sch, kind, elem, min, depth, [], Canonical, b) == Bad
  {
    FixedItems(sch, kind, elem, min, depth, [], Canonical, b);
  }

  lemma {:induction false} ItemsEnd(sch: Schema, kind: ListKind, elem: Type, min: Canonicity, depth: nat,
                                    items: seq<Value>, canon: Canonicity)
    requires ItemOk(elem, |sch|) && !kind.Array?
    ensures Restricted.DecodeItems(sch, kind, elem, min, depth, items, canon, []) == Whole(items, canon)
  {
  }

  /** The body of the loop: an item, inserted. */
  method ItemOne(sch: Schema, kind: ListKind, elem: Type, min: Canonicity, depth: nat, items: seq<Value>,
                 canon: Canonicity, capped: Capped)
    returns (r: Result<Judged<seq<Value>>>)
    requires ItemOk(elem, |sch|) && !kind.Array? && capped.buf.Valid()
    requires capped.extra <= |capped.buf.Bytes| && Before(capped.buf.Bytes, capped.extra) != []
    modifies capped.buf
    ensures capped.buf.Valid() && |capped.buf.Bytes| <= |old(capped.buf.Bytes)|
    ensures r.Ok? ==> |capped.buf.Bytes| < |old(capped.buf.Bytes)|
    ensures var whole := Restricted.DecodeItems(sch, kind, elem, min, depth, items, canon,
                                                Before(old(capped.buf.Bytes), capped.extra));
            if r.Err? then whole == Bad
            else Going(old(capped.buf.Bytes), capped.buf.Bytes, capped.extra, whole,
                       Restricted.DecodeItems(sch, kind, elem, min, depth, r.value.value, r.value.canon,
                                              Before(capped.buf.Bytes, capped.extra)), Bad)
    decreases depth, 0, elem, 3, 0
  {
    ghost var b := capped.buf.Bytes;
    var item := DecodeValue(sch, elem, true, min, depth, capped);
    if item.Ok? {
      r := InsertChecked(kind, min, items, canon, item.value);
    } else {
      r := Err(item.error);
    }
    ItemEnds(sch, kind, elem, min, depth, items, canon, b, capped.buf.Bytes, capped.extra, item);
  }

  /** Inserts an item, and checks how canonical that leaves the collection. */
  function InsertChecked(kind: ListKind, min: Canonicity, items: seq<Value>, canon: Canonicity,
                         item: Judged<Value>): Result<Judged<seq<Value>>> {
    var inserted := InsertDistinguished(kind, items, item.value);
    if inserted.None? then Err(UnexpectedlyRepeated)
    else
      var checked :- Check(min, inserted.value.canon);
      Ok(Judged(inserted.value.items, Worse(Worse(canon, item.canon), checked)))
  }

  lemma {:induction false} ItemEnds(sch: Schema, kind: ListKind, elem: Type, min: Canonicity, depth: nat,
                                    items: seq<Value>, canon: Canonicity,
                                    b: seq<u8>, after: seq<u8>, extra: nat, item: Result<Judged<Value>>)
    requires ItemOk(elem, |sch|) && !kind.Array? && extra <= |b| && Before(b, extra) != []
    requires Isolated(b, after, extra, AsParsed(Restricted.DecodeValue(sch, elem, true, min, depth, Before(b, extra))),
                      item)
    ensures var whole := Restricted.DecodeItems(sch, kind, elem, min, depth, items, canon, Before(b, extra));
            var r := if item.Ok? then InsertChecked(kind, min, items, canon, item.value) else Err(item.error);
            if r.Err? then whole == Bad
            else Going(b, after, extra, whole,
                       Restricted.DecodeItems(sch, kind, elem, min, depth, r.value.value, r.value.canon,
                                              Before(after, extra)), Bad)
  {
    if item.Ok? {
      ItemDecoded(sch, kind, elem, min, depth, items, canon, b, after, extra, item.value);
    } else {
      ItemsUnfold(sch, kind, elem, min, depth, items, canon, Before(b, extra));
    }
  }

  lemma {:induction false} ItemDecoded(sch: Schema, kind: ListKind, elem: Type, min: Canonicity, depth: nat,
                                       items: seq<Value>, canon: Canonicity,
                    b: seq<u8>, after: seq<u8>, extra: nat, item: Judged<Value>)
    requires ItemOk(elem, |sch|) && extra <= |b| && Before(b, extra) != [] && !(kind.Array? && |items| >= kind.size)
    requires Isolated(b, after, extra, AsParsed(Restricted.DecodeValue(sch, elem, true, min, depth, Before(b, extra))),
                      Ok(item))
    ensures var whole := Restricted.DecodeItems(sch, kind, elem, min, depth, items, canon, Before(b, extra));
            if extra <= |after| then
              && Beyond(after, extra) == Beyond(b, extra)
              && whole
                 == ItemsGoOn(sch, kind, elem, min, depth, canon, InsertDistinguished(kind, items, item.value),
                              item.canon, Before(after, extra))
            else whole == Bad
  {
    ItemsUnfold(sch, kind, elem, min, depth, items, canon, Before(b, extra));
    var p := Restricted.DecodeValue(sch, elem, true, min, depth, Before(b, extra));
    if p.Out? {
      Rejoin(p.rest, Beyond(b, extra));
    }
  }

  lemma {:induction false} FixedItems(sch: Schema, kind: ListKind, elem: Type, min: Canonicity, depth: nat,
                                      items: seq<Value>, canon: Canonicity, b: seq<u8>)
    requires ItemOk(elem, |sch|) && FixedSize(elem).Some?
    ensures var r := Restricted.DecodeItems(sch, kind, elem, min, depth, items, canon, b);
            r.Whole? ==> |r.value| >= |items| && Fills(|b|, FixedSize(elem).value, |r.value| - |items|)
    decreases |b|
  {
    hide InsertDistinguished, Restricted.DecodeValue;
    var r := Restricted.DecodeItems(sch, kind, elem, min, depth, items, canon, b);
    if b != [] && r.Whole? {
      FixedValue(sch, elem, min, depth, b);
      ItemsUnfold(sch, kind, elem, min, depth, items, canon, b);
      var p := Restricted.DecodeValue(sch, elem, true, min, depth, b);
      var more := InsertDistinguished(kind, items, p.value).value;
      FixedItems(sch, kind, elem, min, depth, more.items, Worse(Worse(canon, p.canon), more.canon), p.rest);
    }
  }

  lemma {:induction false} FixedValue(sch: Schema, t: Type, min: Canonicity, depth: nat, b: seq<u8>)
    requires ItemOk(t, |sch|) && FixedSize(t).Some?
    ensures FixedSize(t).value > 0
    ensures var p := Restricted.DecodeValue(sch, t, true, min, depth, b);
            if FixedSize(t).value <= |b| then p.Out? && |p.rest| == |b| - FixedSize(t).value else p.Failed?
    decreases t
  {
    if t.Pair? {
      FixedValue(sch, t.key, min, depth, b);
      var p := Restricted.DecodeValue(sch, t.key, true, min, depth, b);
      assert Restricted.DecodeValue(sch, t, true, min, depth, b) == Restricted.DecodePair(sch, t, min, depth, b);
      FixedValue(sch, t.val, min, depth, if p.Out? then p.rest else []);
    }
  }

  method DecodeArray(sch: Schema, kind: ListKind, elem: Type, min: Canonicity, depth: nat, capped: Capped)
    returns (r: Result<Judged<seq<Value>>>)
    requires TypeOk(elem, |sch|) && kind.Array? && capped.buf.Valid() && capped.extra <= |capped.buf.Bytes|
    modifies capped.buf
    ensures capped.buf.Valid()
    ensures Finished(old(capped.buf.Bytes), capped.buf.Bytes, capped.extra,
                     AsOption(Restricted.DecodeItems(sch, kind, elem, min, depth, [], Canonical,
                                                     Before(old(capped.buf.Bytes), capped.extra))), r)
    decreases depth, 0, elem, 3
  {
    hide Fills, FixedSize, Restricted.DecodeItems, Before, Beyond;
    var size := CheckSize(elem, kind.size, capped);
    if size.Err? {
      FixedArray(sch, kind, elem, min, depth, Before(capped.buf.Bytes, capped.extra));
      return Err(size.error);
    }
    var filled :- FillArray(sch, kind, elem, min, depth, capped);
    ArrayFull(sch, kind, elem, min, depth, filled.value, filled.canon, Before(capped.buf.Bytes, capped.extra));
    var _ :- CheckMore(sch, elem, false, capped, 0);
    Drained(capped.buf.Bytes, capped.extra);
    return Ok(filled);
  }

  /** Reads one element for each place of the array. */
  method FillArray(sch: Schema, kind: ListKind, elem: Type, min: Canonicity, depth: nat, capped: Capped)
    returns (r: Result<Judged<seq<Value>>>)
    requires TypeOk(elem, |sch|) && kind.Array? && capped.buf.Valid() && capped.extra <= |capped.buf.Bytes|
    requires FixedSize(elem).Some? ==> Sized(capped.buf.Bytes, capped.extra, FixedSize(elem).value, kind.size)
    modifies capped.buf
    ensures capped.buf.Valid() && |capped.buf.Bytes| <= |old(capped.buf.Bytes)|
    ensures r.Ok? && FixedSize(elem).Some? ==> Sized(capped.buf.Bytes, capped.extra, FixedSize(elem).value, 0)
    ensures var whole := Restricted.DecodeItems(sch, kind, elem, min, depth, [], Canonical,
                                                Before(old(capped.buf.Bytes), capped.extra));
            if r.Err? then whole == Bad
            else |r.value.value| == kind.size
                 && Going(old(capped.buf.Bytes), capped.buf.Bytes, capped.extra, whole,
                          Restricted.DecodeItems(sch, kind, elem, min, depth, r.value.value, r.value.canon,
                                                 Before(capped.buf.Bytes, capped.extra)), Bad)
    decreases depth, 0, elem, 3, 1
  {
    hide Restricted.DecodeItems, Fills, Before, Beyond;
    ghost var start := capped.buf.Bytes;
    ghost var whole := Restricted.DecodeItems(sch, kind, elem, min, depth, [], Canonical, Before(start, capped.extra));
    var items: seq<Value> := [];
    var canon := Canonical;
    while |items| < kind.size
      invariant capped.buf.Valid() && |items| <= kind.size
      invariant Going(start, capped.buf.Bytes, capped.extra, whole,
                      Restricted.DecodeItems(sch, kind, elem, min, depth, items, canon,
                                             Before(capped.buf.Bytes, capped.extra)), Bad)
      invariant FixedSize(elem).Some? ==>
                  Sized(capped.buf.Bytes, capped.extra, FixedSize(elem).value, kind.size - |items|)
    {
      ArrayShort(sch, kind, elem, min, depth, items, canon);
      var _ :- CheckMore(sch, elem, true, capped, kind.size - |items|);
      var item :- ElementOne(sch, kind, elem, min, depth, items, canon, capped);
      items, canon := items + [item.value], Worse(canon, item.canon);
    }
    return Ok(Judged(items, canon));
  }

  lemma {:induction false} ArrayFull(sch: Schema, kind: ListKind, elem: Type, min: Canonicity, depth: nat,
                                     items: seq<Value>, canon: Canonicity, b: seq<u8>)
    requires ItemOk(elem, |sch|) && kind.Array? && |items| == kind.size
    ensures Restricted.DecodeItems(sch, kind, elem, min, depth, items, canon, b)
            == if b == [] then Whole(items, canon) else Bad
  {
  }

  lemma {:induction false} ArrayShort(sch: Schema, kind: ListKind, elem: Type, min: Canonicity, depth: nat,
                                      items: seq<Value>, canon: Canonicity)
    requires ItemOk(elem, |sch|) && kind.Array? && |items| < kind.size
    ensures Restricted.DecodeItems(sch, kind, elem, min, depth, items, canon, []) == Bad
  {
  }

  /** The body of the loop over an array: the next element. */
  method ElementOne(sch: Schema, kind: ListKind, elem: Type, min: Canonicity, depth: nat, ghost items: seq<Value>,
                    ghost canon: Canonicity, capped: Capped)
    returns (r: Result<Judged<Value>>)
    requires ItemOk(elem, |sch|) && kind.Array? && |items| < kind.size && capped.buf.Valid()
    requires capped.extra <= |capped.buf.Bytes| && Before(capped.buf.Bytes, capped.extra) != []
    modifies capped.buf
    ensures capped.buf.Valid() && |capped.buf.Bytes| <= |old(capped.buf.Bytes)|
    ensures ElementSized(elem, kind.size - |items|, old(capped.buf.Bytes), capped.buf.Bytes, capped.extra, r)
    ensures ElementDone(sch, kind, elem, min, depth, items, canon, old(capped.buf.Bytes), capped.buf.Bytes,
                        capped.extra, r)
    decreases depth, 0, elem, 3, 0
  {
    hide Restricted.DecodeItems, Restricted.DecodeValue, Fills, Before, Beyond;
    ghost var b := capped.buf.Bytes;
    r := DecodeValue(sch, elem, true, min, depth, capped);
    ElementEnds(sch, kind, elem, min, depth, items, canon, b, capped.buf.Bytes, capped.extra, r);
    if r.Ok? && FixedSize(elem).Some? && Sized(b, capped.extra, FixedSize(elem).value, kind.size - |items|) {
      FixedNext(sch, elem, min, depth, b, capped.buf.Bytes, capped.extra, kind.size - |items|, r.value);
    }
  }

  ghost predicate ElementDone(sch: Schema, kind: ListKind, elem: Type, min: Canonicity, depth: nat, items: seq<Value>,
                              canon: Canonicity,
                              b: seq<u8>, after: seq<u8>, extra: nat, r: Result<Judged<Value>>)
    requires ItemOk(elem, |sch|)
  {
    var whole := Restricted.DecodeItems(sch, kind, elem, min, depth, items, canon, Before(b, extra));
    if r.Err? then whole == Bad
    else Going(b, after, extra, whole,
               Restricted.DecodeItems(sch, kind, elem, min, depth, items + [r.value.value], Worse(canon, r.value.canon),
                                      Before(after, extra)), Bad)
  }

  lemma {:induction false} ElementEnds(sch: Schema, kind: ListKind, elem: Type, min: Canonicity, depth: nat,
                                       items: seq<Value>, canon: Canonicity,
                                       b: seq<u8>, after: seq<u8>, extra: nat, r: Result<Judged<Value>>)
    requires ItemOk(elem, |sch|) && kind.Array? && |items| < kind.size && extra <= |b| && Before(b, extra) != []
    requires Isolated(b, after, extra, AsParsed(Restricted.DecodeValue(sch, elem, true, min, depth, Before(b, extra))),
                      r)
    ensures ElementDone(sch, kind, elem, min, depth, items, canon, b, after, extra, r)
  {
    hide Restricted.DecodeItems, Restricted.DecodeValue;
    if r.Ok? {
      ItemDecoded(sch, kind, elem, min, depth, items, canon, b, after, extra, r.value);
      assert Worse(Worse(canon, r.value.canon), Canonical) == Worse(canon, r.value.canon);
    } else {
      ItemsUnfold(sch, kind, elem, min, depth, items, canon, Before(b, extra));
    }
  }

  lemma {:induction false} FixedNext(sch: Schema, elem: Type, min: Canonicity, depth: nat, b: seq<u8>, after: seq<u8>,
                                     extra: nat, n: nat, item: Judged<Value>)
    requires ItemOk(elem, |sch|) && FixedSize(elem).Some? && n > 0 && Sized(b, extra, FixedSize(elem).value, n)
    requires Isolated(b, after, extra, AsParsed(Restricted.DecodeValue(sch, elem, true, min, depth, Before(b, extra))),
                      Ok(item))
    ensures Sized(after, extra, FixedSize(elem).value, n - 1)
  {
    FixedValue(sch, elem, min, depth, Before(b, extra));
    Rejoin(Restricted.DecodeValue(sch, elem, true, min, depth, Before(b, extra)).rest, Beyond(b, extra));
  }

  lemma {:induction false} FixedArray(sch: Schema, kind: ListKind, elem: Type, min: Canonicity, depth: nat, b: seq<u8>)
    requires ItemOk(elem, |sch|) && kind.Array? && FixedSize(elem).Some?
    requires !Fills(|b|, FixedSize(elem).value, kind.size)
    ensures Restricted.DecodeItems(sch, kind, elem, min, depth, [], Canonical, b).Bad?
  {
    FixedItems(sch, kind, elem, min, depth, [], Canonical, b);
    ArrayCount(sch, kind, elem, min, depth, [], Canonical, b);
  }

  lemma {:induction false} ArrayCount(sch: Schema, kind: ListKind, elem: Type, min: Canonicity, depth: nat,
                                      items: seq<Value>, canon: Canonicity, b: seq<u8>)
    requires ItemOk(elem, |sch|) && kind.Array?
    ensures var r := Restricted.DecodeItems(sch, kind, elem, min, depth, items, canon, b);
            r.Whole? ==> |r.value| == kind.size
    decreases |b|
  {
    var p := Restricted.DecodeValue(sch, elem, true, min, depth, b);
    if b != [] && p.Out? && |items| < kind.size {
      ItemsUnfold(sch, kind, elem, min, depth, items, canon, b);
      ArrayCount(sch, kind, elem, min, depth, items + [p.value], Worse(Worse(canon, p.canon), Canonical), p.rest);
    }
  }

  method DecodeMessage(sch: Schema, id: nat, allowEmpty: bool, min: Canonicity, depth: nat, capped: Capped)
    returns (r: Result<Judged<Value>>)
    requires id < |sch| && capped.buf.Valid()
    modifies capped.buf
    ensures capped.buf.Valid()
    ensures Isolated(old(capped.buf.Bytes), capped.buf.Bytes, capped.extra,
                     AsParsed(Restricted.DecodeMessage(sch, id, allowEmpty, min, depth,
                                                       Before(old(capped.buf.Bytes), capped.extra))), r)
    ensures r.Ok? ==> |capped.buf.Bytes| < |old(capped.buf.Bytes)|
    decreases depth, 0, Message(id), 1
  {
    ghost var start := capped.buf.Bytes;
    if !sch[id].handwritten && depth == 0 {
      return Err(RecursionLimitReached);
    }
    var inner :- capped.TakeLengthDelimited();
    MessageUnfold(sch, id, allowEmpty, min, depth, Before(start, capped.extra));
    r := DecodeTaken(sch, id, allowEmpty, min, depth, inner, ReadRegion(Before(start, capped.extra)));
  }

  /** The message in a region that has been read. */
  method DecodeTaken(sch: Schema, id: nat, allowEmpty: bool, min: Canonicity, depth: nat, inner: Capped,
                     ghost region: Parsed<seq<u8>>)
    returns (r: Result<Judged<Value>>)
    requires id < |sch| && (depth > 0 || sch[id].handwritten) && inner.buf.Valid() && inner.extra <= |inner.buf.Bytes|
    requires region.Parsed? ==> region.value == Before(inner.buf.Bytes, inner.extra)
    modifies inner.buf
    ensures inner.buf.Valid() && |inner.buf.Bytes| <= |old(inner.buf.Bytes)|
    ensures region.Parsed? ==>
              var out := InRegion(sch, id, allowEmpty, min, depth, region.value, region.rest);
              && (r.Ok? <==> out.Out?)
              && (r.Ok? ==> r.value == Judged(out.value, out.canon) && out.rest == region.rest
                            && inner.buf.Bytes == Beyond(old(inner.buf.Bytes), inner.extra))
    decreases depth, 0, Message(id), 0
  {
    var remaining := inner.RemainingBeforeCap();
    if !allowEmpty && remaining == 0 {
      var canon :- Check(min, NotCanonical);
      return Ok(Judged(Record(EmptyRecord(sch, id)), canon));
    }
    if depth == 0 {
      return Err(RecursionLimitReached);
    }
    r := DecodeBody(sch, id, min, depth - 1, inner, region);
  }

  /** The message in a region that `region` says was read, with what was left then. */
  method DecodeBody(sch: Schema, id: nat, min: Canonicity, depth: nat, inner: Capped, ghost region: Parsed<seq<u8>>)
    returns (r: Result<Judged<Value>>)
    requires id < |sch| && inner.buf.Valid() && inner.extra <= |inner.buf.Bytes|
    requires region.Parsed? ==> region.value == Before(inner.buf.Bytes, inner.extra)
    modifies inner.buf
    ensures inner.buf.Valid() && |inner.buf.Bytes| <= |old(inner.buf.Bytes)|
    ensures region.Parsed? ==>
              var out := Restricted.DecodeBody(sch, id, min, depth, region.value, region.rest);
              && (r.Ok? <==> out.Out?)
              && (r.Ok? ==>
                  r.value == Judged(out.value, out.canon)
                    && inner.buf.Bytes == Beyond(old(inner.buf.Bytes), inner.extra))
    decreases depth, 2
  {
    var slots :- Merge(sch, id, min, depth, EmptyRecord(sch, id), inner);
    return Ok(Judged(Record(slots.value), slots.canon));
  }

  /** `merge_distinguished`. */
  method Merge(sch: Schema, id: nat, min: Canonicity, depth: nat, value: seq<Slot>, capped: Capped)
    returns (r: Result<Judged<seq<Slot>>>)
    requires id < |sch| && |value| == |sch[id].fields| && capped.buf.Valid() && capped.extra <= |capped.buf.Bytes|
    modifies capped.buf
    ensures capped.buf.Valid()
    ensures Finished(old(capped.buf.Bytes), capped.buf.Bytes, capped.extra,
                     AsOption(Restricted.Merge(sch, id, min, depth, value, None, Canonical,
                                               Before(old(capped.buf.Bytes), capped.extra))), r)
    decreases depth, 1, 1
  {
    hide Restricted.Merge, Before, Beyond;
    ghost var start := capped.buf.Bytes;
    ghost var whole := Restricted.Merge(sch, id, min, depth, value, None, Canonical, Before(start, capped.extra));
    var slots := value;
    var tr := new TagReader();
    var lastTag: Option<nat> := None;
    var canon := Canonical;
    while true
      invariant capped.buf.Valid() && |slots| == |value|
      invariant tr.lastTag == if lastTag.Some? then lastTag.value else 0
      invariant Going(start, capped.buf.Bytes, capped.extra, whole,
                      Restricted.Merge(sch, id, min, depth, slots, lastTag, canon,
                                       Before(capped.buf.Bytes, capped.extra)), Bad)
      decreases |capped.buf.Bytes|
    {
      var more :- capped.HasRemaining();
      if !more {
        Drained(capped.buf.Bytes, capped.extra);
        MergeEnds(sch, id, min, depth, slots, lastTag, canon);
        return Ok(Judged(slots, canon));
      }
      var field :- MergeOne(sch, id, min, depth, slots, lastTag, canon, tr, capped);
      slots, lastTag, canon := field.value, Latest(tr.lastTag), Worse(canon, field.canon);
    }
  }

  function Latest(tag: nat): Option<nat> {
    Some(tag)
  }

  /** The body of the loop: a key and its field. */
  method MergeOne(sch: Schema, id: nat, min: Canonicity, depth: nat, slots: seq<Slot>, lastTag: Option<nat>,
                  ghost canon: Canonicity,
                  tr: TagReader, capped: Capped)
    returns (r: Result<Judged<seq<Slot>>>)
    requires id < |sch| && |slots| == |sch[id].fields| && tr.lastTag == (if lastTag.Some? then lastTag.value else 0)
    requires capped.buf.Valid() && capped.extra <= |capped.buf.Bytes| && Before(capped.buf.Bytes, capped.extra) != []
    modifies tr, capped.buf
    ensures capped.buf.Valid() && |capped.buf.Bytes| <= |old(capped.buf.Bytes)|
    ensures r.Ok? ==> |r.value.value| == |slots| && |capped.buf.Bytes| < |old(capped.buf.Bytes)|
    ensures var whole := Restricted.Merge(sch, id, min, depth, slots, lastTag, canon,
                                          Before(old(capped.buf.Bytes), capped.extra));
            if r.Err? then whole == Bad
            else Going(old(capped.buf.Bytes), capped.buf.Bytes, capped.extra, whole,
                       Restricted.Merge(sch, id, min, depth, r.value.value, Latest(tr.lastTag),
                                        Worse(canon, r.value.canon),
                                        Before(capped.buf.Bytes, capped.extra)), Bad)
    decreases depth, 1, 0
  {
    ghost var b := capped.buf.Bytes;
    var key :- tr.DecodeKey(capped);
    KeyDecoded(sch, id, min, depth, slots, lastTag, canon, b, capped.buf.Bytes, capped.extra, key);
    var duplicated := lastTag == Some(key.tag);
    ghost var keyed := capped.buf.Bytes;
    r := RawDecodeField(sch, id, min, depth, slots, key, duplicated, capped);
    if r.Ok? && capped.extra <= |keyed| {
      Arrived(keyed, capped.buf.Bytes, capped.extra,
              AsParsed(OneField(sch, id, min, depth, slots, key, duplicated, Before(keyed, capped.extra))), r.value);
    }
  }

  /** One turn of the loop over fields, on a region by itself. */
  function OneField(sch: Schema, id: nat, min: Canonicity, depth: nat, slots: seq<Slot>, key: Key, duplicated: bool,
                    b: seq<u8>): (r: Out<seq<Slot>>)
    requires id < |sch| && |slots| == |sch[id].fields|
    ensures r.Out? ==> |r.value| == |slots|
  {
    var k := FindField(sch[id].fields, key.tag);
    if k == |sch[id].fields| then
      if !HasExtensions.AtLeast(min) then Failed
      else
        match Wire.SkipField(key.wireType, b)
        case Rejected => Failed
        case Parsed(_, rest) => Out(slots, HasExtensions, rest)
    else if duplicated then Failed
    else
      assert DefOk(sch[id], id, |sch|);
      match Restricted.DecodeField(sch, sch[id].fields[k], min, depth, key.wireType, b)
      case Failed => Failed
      case Out(slot, c, rest) => Out(slots[k := slot], c, rest)
  }

  lemma {:induction false} MergeTurn(sch: Schema, id: nat, min: Canonicity, depth: nat, slots: seq<Slot>,
                                     last: Option<nat>, canon: Canonicity, b: seq<u8>)
    requires id < |sch| && |slots| == |sch[id].fields| && b != []
    ensures var key := ReadKey(if last.Some? then last.value else 0, b);
            Restricted.Merge(sch, id, min, depth, slots, last, canon, b)
            == if key.Rejected? then Bad
               else MergeOn(sch, id, min, depth, key.value.tag, canon,
                            OneField(sch, id, min, depth, slots, key.value, last == Some(key.value.tag), key.rest))
  {
    hide Restricted.DecodeField, ReadKey, SkipField;
    var key := ReadKey(if last.Some? then last.value else 0, b);
    if key.Parsed? {
      if FindField(sch[id].fields, key.value.tag) == |sch[id].fields| {
        MergeUnknown(sch, id, min, depth, slots, last, canon, b);
      } else if last != Some(key.value.tag) {
        MergeKnown(sch, id, min, depth, slots, last, canon, b);
      }
    }
  }

  function MergeOn(sch: Schema, id: nat, min: Canonicity, depth: nat, tag: nat, canon: Canonicity,
                   p: Out<seq<Slot>>): Whole<seq<Slot>>
    requires id < |sch| && (p.Out? ==> |p.value| == |sch[id].fields|)
  {
    if p.Failed? then Bad else Restricted.Merge(sch, id, min, depth, p.value, Some(tag), Worse(canon, p.canon), p.rest)
  }

  lemma {:induction false} KeyDecoded(sch: Schema, id: nat, min: Canonicity, depth: nat, slots: seq<Slot>,
                                      last: Option<nat>, canon: Canonicity,
                   b: seq<u8>, after: seq<u8>, extra: nat, key: Key)
    requires id < |sch| && |slots| == |sch[id].fields| && extra <= |b| && Before(b, extra) != []
    requires Isolated(b, after, extra, ReadKey(if last.Some? then last.value else 0, Before(b, extra)), Ok(key))
    ensures var whole := Restricted.Merge(sch, id, min, depth, slots, last, canon, Before(b, extra));
            if extra <= |after| then
              Beyond(after, extra) == Beyond(b, extra)
              && whole == MergeOn(sch, id, min, depth, key.tag, canon,
                                  OneField(sch, id, min, depth, slots, key, last == Some(key.tag),
                                           Before(after, extra)))
            else whole == Bad
  {
    MergeTurn(sch, id, min, depth, slots, last, canon, Before(b, extra));
    var p := ReadKey(if last.Some? then last.value else 0, Before(b, extra));
    if p.Parsed? {
      Rejoin(p.rest, Beyond(b, extra));
    }
  }

  /** `raw_decode_field_distinguished`. */
  method RawDecodeField(sch: Schema, id: nat, min: Canonicity, depth: nat, slots: seq<Slot>, key: Key, duplicated: bool,
                        capped: Capped)
    returns (r: Result<Judged<seq<Slot>>>)
    requires id < |sch| && |slots| == |sch[id].fields| && capped.buf.Valid()
    modifies capped.buf
    ensures capped.buf.Valid()
    ensures Isolated(old(capped.buf.Bytes), capped.buf.Bytes, capped.extra,
                     AsParsed(OneField(sch, id, min, depth, slots, key, duplicated,
                                       Before(old(capped.buf.Bytes), capped.extra))), r)
    ensures r.Ok? ==> |r.value.value| == |slots|
    decreases depth, 0
  {
    var k := FindField(sch[id].fields, key.tag);
    if k == |slots| {
      var canon :- Check(min, HasExtensions);
      var _ :- capped.SkipField(key.wireType);
      return Ok(Judged(slots, canon));
    }
    if duplicated {
      return Err(UnexpectedlyRepeated);
    }
    assert DefOk(sch[id], id, |sch|);
    var field :- DecodeField(sch, sch[id].fields[k], min, depth, key.wireType, capped);
    return Ok(Judged(slots[k := field.value], field.canon));
  }

  /** `DistinguishedDecoder::decode_distinguished`. */
  method DecodeField(sch: Schema, f: Field, min: Canonicity, depth: nat, w: WireType, capped: Capped)
    returns (r: Result<Judged<Slot>>)
    requires TypeOk(f.typ, |sch|) && capped.buf.Valid()
    modifies capped.buf
    ensures capped.buf.Valid()
    ensures Isolated(old(capped.buf.Bytes), capped.buf.Bytes, capped.extra,
                     AsParsed(Restricted.DecodeField(sch, f, min, depth, w,
                                                     Before(old(capped.buf.Bytes), capped.extra))), r)
    decreases depth, 0, f.typ, 5
  {
    hide Restricted.DecodeValue, Relaxed.DecodeUnpacked, IsEmpty, Before, Beyond;
    if !f.optional && f.typ.List? && !f.typ.kind.Mapping? && w != LengthDelimited {
      r := DecodeUnpackedField(sch, f, min, depth, w, capped);
      return;
    }
    var _ :- CheckWireType(WireTypeOf(f.typ), w);
    var v :- DecodeValue(sch, f.typ, f.optional, min, depth, capped);
    if !f.optional && !f.typ.Message? && IsEmpty(sch, f.typ, v.value) {
      var canon :- Check(min, NotCanonical);
      return Ok(Judged(Holds(v.value), canon));
    }
    return Ok(Judged(Holds(v.value), v.canon));
  }

  method DecodeUnpackedField(sch: Schema, f: Field, min: Canonicity, depth: nat, w: WireType, capped: Capped)
    returns (r: Result<Judged<Slot>>)
    requires TypeOk(f.typ, |sch|) && capped.buf.Valid()
    requires !f.optional && f.typ.List? && !f.typ.kind.Mapping? && w != LengthDelimited
    modifies capped.buf
    ensures capped.buf.Valid()
    ensures Isolated(old(capped.buf.Bytes), capped.buf.Bytes, capped.extra,
                     AsParsed(Restricted.DecodeField(sch, f, min, depth, w,
                                                     Before(old(capped.buf.Bytes), capped.extra))), r)
    decreases depth, 0, f.typ, 4
  {
    var canon :- Check(min, NotCanonical);
    var items :- RelaxedDecoder.DecodeUnpacked(sch, f.typ.kind, f.typ.elem, depth, w, capped);
    return Ok(Judged(Holds(Items(items)), canon));
  }
}
