/**
 * Relaxed decoding as the library runs it: in place, over soft-capped views of one shared buffer. Each
 * method decodes exactly what `Relaxed` accepts of the region before the cap, taken by itself.
 */
module RelaxedDecoder {
  import opened Base
  import opened Buffers
  import opened Schemas
  import opened Ordering
  import opened Encoding
  import opened Wire
  import opened CappedBuffers
  import Relaxed

  /** A loop that started on `start` is halfway through its region, unless it has gone past the cap in vain. */
  ghost predicate Going<R(!new)>(start: seq<u8>, now: seq<u8>, extra: nat, whole: R, rest: R, failed: R) {
    && |now| <= |start|
    && if extra <= |now| then Beyond(now, extra) == Beyond(start, extra) && whole == rest else whole == failed
  }

  /** A loop that runs to the end of a region: it succeeds exactly when the region by itself does. */
  ghost predicate Finished<R(!new)>(before: seq<u8>, after: seq<u8>, extra: nat, p: Option<R>, r: Result<R>) {
    && |after| <= |before|
    && (r.Ok? <==> p.Some?)
    && (r.Ok? ==> r.value == p.value && after == Beyond(before, extra))
  }

  /** Reads the keys of fields; tags are relative to the one before. */
  class TagReader {
    var lastTag: u32

    constructor ()
      ensures lastTag == 0
    {
      lastTag := 0;
    }

    method DecodeKey(capped: Capped) returns (r: Result<Key>)
      requires capped.buf.Valid()
      modifies this, capped.buf
      ensures capped.buf.Valid()
      ensures Isolated(old(capped.buf.Bytes), capped.buf.Bytes, capped.extra,
                       ReadKey(old(lastTag), Before(old(capped.buf.Bytes), capped.extra)), r)
      ensures r.Ok? ==> |capped.buf.Bytes| < |old(capped.buf.Bytes)| && lastTag == r.value.tag
    {
      var key :- capped.DecodeVarint();
      var delta := key / 4;
      if delta >= U32_END {
        return Err(TagOverflowed);
      }
      if lastTag + delta >= U32_END {
        return Err(TagOverflowed);
      }
      lastTag := lastTag + delta;
      return Ok(Key(lastTag, WireType.FromCode(key)));
    }
  }

  function CheckWireType(expected: WireType, actual: WireType): (r: Result<()>)
    ensures r.Ok? <==> expected == actual
  {
    if expected != actual then Err(WrongWireType) else Ok(())
  }

  /** Numbers, fixed-size values and byte strings. */
  method DecodeLeaf(t: Type, capped: Capped) returns (r: Result<Value>)
    requires t.Uint? || (t.Fixed? && t.size > 0) || t.Bytes?
    requires capped.buf.Valid()
    modifies capped.buf
    ensures capped.buf.Valid()
    ensures Isolated(old(capped.buf.Bytes), capped.buf.Bytes, capped.extra,
                     Relaxed.DecodeLeaf(t, Before(old(capped.buf.Bytes), capped.extra)), r)
    ensures r.Ok? ==> |capped.buf.Bytes| < |old(capped.buf.Bytes)|
  {
    match t {
      case Uint(limit) =>
        var n :- capped.DecodeVarint();
        return if n < limit then Ok(Num(n)) else Err(OutOfDomainValue);
      case Fixed(size, form) =>
        var remaining := capped.RemainingBeforeCap();
        if remaining < size {
          return Err(Truncated);
        }
        ghost var b := capped.buf.Bytes;
        var taken := capped.buf.Take(size);
        FixedIsolated(b, taken, capped.buf.Bytes, capped.extra);
        return Ok(FixedOf(form, taken));
      case Bytes =>
        var inner :- capped.TakeLengthDelimited();
        var len := inner.RemainingBeforeCap();
        var taken := inner.buf.Take(len);
        return Ok(Blob(taken));
    }
  }

  lemma {:induction false} FixedIsolated(b: seq<u8>, taken: seq<u8>, after: seq<u8>, extra: nat)
    requires b == taken + after && extra <= |b| && |taken| <= |b| - extra
    ensures ReadFixed(|taken|, Before(b, extra)).Parsed?
    ensures var p := ReadFixed(|taken|, Before(b, extra)); p.value == taken && after == p.rest + Beyond(b, extra)
  {
    Split(b, extra);
  }

  /** `decode_value`. */
  method DecodeValue(sch: Schema, t: Type, depth: nat, capped: Capped) returns (r: Result<Value>)
    requires ItemOk(t, |sch|) && capped.buf.Valid()
    modifies capped.buf
    ensures capped.buf.Valid()
    ensures Isolated(old(capped.buf.Bytes), capped.buf.Bytes, capped.extra,
                     Relaxed.DecodeValue(sch, t, depth, Before(old(capped.buf.Bytes), capped.extra)), r)
    ensures r.Ok? ==> |capped.buf.Bytes| < |old(capped.buf.Bytes)|
    decreases depth, 0, t, 1
  {
    match t {
      case Pair(_, _) => r := DecodePair(sch, t, depth, capped);
      case List(_, _) => r := DecodeList(sch, t, depth, capped);
      case Message(id) => r := DecodeMessage(sch, id, depth, capped);
      case _ => r := DecodeLeaf(t, capped);
    }
  }

  method DecodePair(sch: Schema, t: Type, depth: nat, capped: Capped) returns (r: Result<Value>)
    requires t.Pair? && ItemOk(t, |sch|) && capped.buf.Valid()
    modifies capped.buf
    ensures capped.buf.Valid()
    ensures Isolated(old(capped.buf.Bytes), capped.buf.Bytes, capped.extra,
                     Relaxed.DecodePair(sch, t, depth, Before(old(capped.buf.Bytes), capped.extra)), r)
    ensures r.Ok? ==> |capped.buf.Bytes| < |old(capped.buf.Bytes)|
    decreases depth, 0, t, 0
  {
    var k :- DecodeValue(sch, t.key, depth, capped);
    var x :- DecodeValue(sch, t.val, depth, capped);
    return Ok(Entry(k, x));
  }

  method DecodeList(sch: Schema, t: Type, depth: nat, capped: Capped) returns (r: Result<Value>)
    requires t.List? && ItemOk(t, |sch|) && capped.buf.Valid()
    modifies capped.buf
    ensures capped.buf.Valid()
    ensures Isolated(old(capped.buf.Bytes), capped.buf.Bytes, capped.extra,
                     Relaxed.DecodeList(sch, t, depth, Before(old(capped.buf.Bytes), capped.extra)), r)
    ensures r.Ok? ==> |capped.buf.Bytes| < |old(capped.buf.Bytes)|
    decreases depth, 0, t, 0
  {
    var inner :- capped.TakeLengthDelimited();
    var items;
    if t.kind.Array? {
      items :- DecodeArray(sch, t.kind, t.elem, depth, inner);
    } else {
      items :- DecodeItems(sch, t.kind, t.elem, depth, inner);
    }
    return Ok(Items(items));
  }

  /** The items of a packed collection. */
  method DecodeItems(sch: Schema, kind: ListKind, elem: Type, depth: nat, capped: Capped)
    returns (r: Result<seq<Value>>)
    requires ItemOk(elem, |sch|) && !kind.Array? && capped.buf.Valid() && capped.extra <= |capped.buf.Bytes|
    modifies capped.buf
    ensures capped.buf.Valid()
    ensures Finished(old(capped.buf.Bytes), capped.buf.Bytes, capped.extra,
                     Relaxed.DecodeItems(sch, kind, elem, depth, [], Before(old(capped.buf.Bytes), capped.extra)), r)
    decreases depth, 0, elem, 2
  {
    hide NeverFills, Insert, Relaxed.DecodeValue;
    ghost var start := capped.buf.Bytes;
    ghost var whole := Relaxed.DecodeItems(sch, kind, elem, depth, [], Before(start, capped.extra));
    var size := CheckMultiple(sch, elem, capped);
    if size.Err? {
      NeverFilled(sch, kind, elem, depth, Before(start, capped.extra));
      return Err(size.error);
    }
    var items: seq<Value> := [];
    while true
      invariant capped.buf.Valid()
      invariant Going(start, capped.buf.Bytes, capped.extra, whole,
                      Relaxed.DecodeItems(sch, kind, elem, depth, items, Before(capped.buf.Bytes, capped.extra)), None)
      decreases |capped.buf.Bytes|
    {
      var more :- capped.HasRemaining();
      if !more {
        return Ok(items);
      }
      ghost var b := capped.buf.Bytes;
      var item :- DecodeValue(sch, elem, depth, capped);
      ItemDecoded(sch, kind, elem, depth, items, b, capped.buf.Bytes, capped.extra, item);
      var inserted := Insert(kind, items, item);
      if inserted.None? {
        return Err(UnexpectedlyRepeated);
      }
      items := inserted.value;
    }
  }

  lemma {:induction false} NeverFilled(sch: Schema, kind: ListKind, elem: Type, depth: nat, b: seq<u8>)
    requires ItemOk(elem, |sch|) && FixedSize(elem).Some? && NeverFills(|b|, FixedSize(elem).value)
    ensures Relaxed.DecodeItems(sch, kind, elem, depth, [], b) == None
  {
    FixedItems(sch, kind, elem, depth, [], b);
  }

  /** Whether some number of values can fill a region, if their size is fixed. */
  method CheckMultiple(sch: Schema, elem: Type, capped: Capped) returns (r: Result<()>)
    requires ItemOk(elem, |sch|) && capped.buf.Valid()
    ensures r.Err? ==>
              && FixedSize(elem).Some?
              && NeverFills(|Before(capped.buf.Bytes, capped.extra)|, FixedSize(elem).value)
  {
    var size := capped.RemainingBeforeCap();
    if FixedSize(elem).None? {
      return Ok(());
    }
    FixedPositive(elem, |sch|);
    if size % FixedSize(elem).value == 0 {
      return Ok(());
    }
    forall n: nat ensures !Fills(size, FixedSize(elem).value, n) {
      if Fills(size, FixedSize(elem).value, n) {
        WholeMultiple(size, FixedSize(elem).value, n);
      }
    }
    return Err(Truncated);
  }

  lemma {:induction false} ItemDecoded(sch: Schema, kind: ListKind, elem: Type, depth: nat, items: seq<Value>,
                                       b: seq<u8>, after: seq<u8>, extra: nat, item: Value)
    requires ItemOk(elem, |sch|) && extra <= |b| && Before(b, extra) != [] && !(kind.Array? && |items| >= kind.size)
    requires Isolated(b, after, extra, Relaxed.DecodeValue(sch, elem, depth, Before(b, extra)), Ok(item))
    ensures var whole := Relaxed.DecodeItems(sch, kind, elem, depth, items, Before(b, extra));
            && (extra > |after| ==> whole == None)
            && (extra <= |after| ==>
                  && Beyond(after, extra) == Beyond(b, extra)
                  && whole == match Insert(kind, items, item)
                              case None => None
                              case Some(all) => Relaxed.DecodeItems(sch, kind, elem, depth, all, Before(after, extra)))
  {
    var p := Relaxed.DecodeValue(sch, elem, depth, Before(b, extra));
    if p.Parsed? {
      Rejoin(p.rest, Beyond(b, extra));
    }
  }

  /** `len` bytes are exactly `n` items of `size` bytes each. */
  ghost predicate Fills(len: nat, size: nat, n: nat) {
    if n == 0 then len == 0 else len >= size && Fills(len - size, size, n - 1)
  }

  ghost predicate NeverFills(len: nat, size: nat) {
    forall n: nat :: !Fills(len, size, n)
  }

  lemma {:induction false} FillsExactly(len: nat, size: nat, n: nat)
    ensures Fills(len, size, n) <==> len == size * n
    decreases n
  {
    if n > 0 {
      assert size * n == size + size * (n - 1);
      if len >= size {
        FillsExactly(len - size, size, n - 1);
      } else {
        AtLeastOnce(size, n);
      }
    }
  }

  lemma {:induction false} AtLeastOnce(size: nat, n: nat)
    requires n >= 1
    ensures size * n >= size && size * (0 - n) <= 0 - size
  {
  }

  lemma {:induction false} WholeMultiple(total: nat, size: nat, n: nat)
    requires size > 0 && Fills(total, size, n)
    ensures total % size == 0
  {
    FillsExactly(total, size, n);
    var q := total / size;
    assert size * (n - q) == total % size;
    if n - q >= 1 {
      AtLeastOnce(size, n - q);
    } else if n - q <= -1 {
      AtLeastOnce(size, q - n);
    }
  }

  /** Items of a fixed size fill a multiple of that size. */
  lemma {:induction false} FixedItems(sch: Schema, kind: ListKind, elem: Type, depth: nat, items: seq<Value>,
                                      b: seq<u8>)
    requires ItemOk(elem, |sch|) && FixedSize(elem).Some?
    ensures var r := Relaxed.DecodeItems(sch, kind, elem, depth, items, b);
            r.Some? ==> |r.value| >= |items| && Fills(|b|, FixedSize(elem).value, |r.value| - |items|)
    decreases |b|
  {
    var r := Relaxed.DecodeItems(sch, kind, elem, depth, items, b);
    var p := Relaxed.DecodeValue(sch, elem, depth, b);
    if b != [] && r.Some? {
      FixedValue(sch, elem, depth, b);
      FixedItems(sch, kind, elem, depth, Insert(kind, items, p.value).value, p.rest);
    }
  }

  lemma {:induction false} FixedPositive(t: Type, messages: nat)
    requires ItemOk(t, messages) && FixedSize(t).Some?
    ensures FixedSize(t).value > 0
  {
  }

  lemma {:induction false} FixedValue(sch: Schema, t: Type, depth: nat, b: seq<u8>)
    requires ItemOk(t, |sch|) && FixedSize(t).Some?
    ensures FixedSize(t).value > 0
    ensures var p := Relaxed.DecodeValue(sch, t, depth, b);
            if FixedSize(t).value <= |b| then p.Parsed? && |p.rest| == |b| - FixedSize(t).value else p.Rejected?
    decreases t
  {
    if t.Pair? {
      FixedValue(sch, t.key, depth, b);
      var p := Relaxed.DecodeValue(sch, t.key, depth, b);
      assert Relaxed.DecodeValue(sch, t, depth, b) == Relaxed.DecodePair(sch, t, depth, b);
      FixedValue(sch, t.val, depth, if p.Parsed? then p.rest else []);
    }
  }

  /** The items of a fixed-size array, whose size is checked only once if that is enough. */
  method DecodeArray(sch: Schema, kind: ListKind, elem: Type, depth: nat, capped: Capped)
    returns (r: Result<seq<Value>>)
    requires TypeOk(elem, |sch|) && kind.Array? && capped.buf.Valid() && capped.extra <= |capped.buf.Bytes|
    modifies capped.buf
    ensures capped.buf.Valid()
    ensures Finished(old(capped.buf.Bytes), capped.buf.Bytes, capped.extra,
                     Relaxed.DecodeItems(sch, kind, elem, depth, [], Before(old(capped.buf.Bytes), capped.extra)), r)
    decreases depth, 0, elem, 2
  {
    hide Fills, FixedSize, Relaxed.DecodeItems, Before, Beyond;
    var size := CheckSize(elem, kind.size, capped);
    if size.Err? {
      FixedArray(sch, kind, elem, depth, Before(capped.buf.Bytes, capped.extra));
      return Err(size.error);
    }
    var filled :- FillArray(sch, kind, elem, depth, capped);
    ArrayFull(sch, kind, elem, depth, filled, Before(capped.buf.Bytes, capped.extra));
    var _ :- CheckMore(sch, elem, false, capped, 0);
    Drained(capped.buf.Bytes, capped.extra);
    return Ok(filled);
  }

  /** Reads one element for each place of the array. */
  method FillArray(sch: Schema, kind: ListKind, elem: Type, depth: nat, capped: Capped) returns (r: Result<seq<Value>>)
    requires TypeOk(elem, |sch|) && kind.Array? && capped.buf.Valid() && capped.extra <= |capped.buf.Bytes|
    requires FixedSize(elem).Some? ==> Sized(capped.buf.Bytes, capped.extra, FixedSize(elem).value, kind.size)
    modifies capped.buf
    ensures capped.buf.Valid() && |capped.buf.Bytes| <= |old(capped.buf.Bytes)|
    ensures r.Ok? && FixedSize(elem).Some? ==> Sized(capped.buf.Bytes, capped.extra, FixedSize(elem).value, 0)
    ensures var whole := Relaxed.DecodeItems(sch, kind, elem, depth, [], Before(old(capped.buf.Bytes), capped.extra));
            if r.Err? then whole == None
            else |r.value| == kind.size
                 && Going(old(capped.buf.Bytes), capped.buf.Bytes, capped.extra, whole,
                          Relaxed.DecodeItems(sch, kind, elem, depth, r.value,
                                              Before(capped.buf.Bytes, capped.extra)), None)
    decreases depth, 0, elem, 2, 1
  {
    hide Relaxed.DecodeItems, Fills, Before, Beyond;
    ghost var start := capped.buf.Bytes;
    ghost var whole := Relaxed.DecodeItems(sch, kind, elem, depth, [], Before(start, capped.extra));
    var items: seq<Value> := [];
    while |items| < kind.size
      invariant capped.buf.Valid() && |items| <= kind.size
      invariant Going(start, capped.buf.Bytes, capped.extra, whole,
                      Relaxed.DecodeItems(sch, kind, elem, depth, items, Before(capped.buf.Bytes, capped.extra)), None)
      invariant FixedSize(elem).Some? ==>
                  Sized(capped.buf.Bytes, capped.extra, FixedSize(elem).value, kind.size - |items|)
    {
      ArrayShort(sch, kind, elem, depth, items);
      var _ :- CheckMore(sch, elem, true, capped, kind.size - |items|);
      var item :- ElementOne(sch, kind, elem, depth, items, capped);
      items := items + [item];
    }
    return Ok(items);
  }

  lemma {:induction false} ArrayFull(sch: Schema, kind: ListKind, elem: Type, depth: nat, items: seq<Value>, b: seq<u8>)
    requires ItemOk(elem, |sch|) && kind.Array? && |items| == kind.size
    ensures Relaxed.DecodeItems(sch, kind, elem, depth, items, b) == if b == [] then Some(items) else None
  {
  }

  lemma {:induction false} ArrayShort(sch: Schema, kind: ListKind, elem: Type, depth: nat, items: seq<Value>)
    requires ItemOk(elem, |sch|) && kind.Array? && |items| < kind.size
    ensures Relaxed.DecodeItems(sch, kind, elem, depth, items, []) == None
  {
  }

  /** The body of the loop over an array: the next element. */
  method ElementOne(sch: Schema, kind: ListKind, elem: Type, depth: nat, ghost items: seq<Value>, capped: Capped)
    returns (r: Result<Value>)
    requires ItemOk(elem, |sch|) && kind.Array? && |items| < kind.size && capped.buf.Valid()
    requires capped.extra <= |capped.buf.Bytes| && Before(capped.buf.Bytes, capped.extra) != []
    modifies capped.buf
    ensures capped.buf.Valid() && |capped.buf.Bytes| <= |old(capped.buf.Bytes)|
    ensures ElementSized(elem, kind.size - |items|, old(capped.buf.Bytes), capped.buf.Bytes, capped.extra, r)
    ensures ElementDone(sch, kind, elem, depth, items, old(capped.buf.Bytes), capped.buf.Bytes, capped.extra, r)
    decreases depth, 0, elem, 2, 0
  {
    hide Relaxed.DecodeItems, Relaxed.DecodeValue, Fills, Before, Beyond;
    ghost var b := capped.buf.Bytes;
    r := DecodeValue(sch, elem, depth, capped);
    ElementEnds(sch, kind, elem, depth, items, b, capped.buf.Bytes, capped.extra, r);
    if r.Ok? && FixedSize(elem).Some? && Sized(b, capped.extra, FixedSize(elem).value, kind.size - |items|) {
      FixedNext(sch, elem, depth, b, capped.buf.Bytes, capped.extra, kind.size - |items|, r.value);
    }
  }

  ghost predicate ElementSized<T>(elem: Type, n: nat, b: seq<u8>, after: seq<u8>, extra: nat, r: Result<T>)
    requires n > 0
  {
    r.Ok? && FixedSize(elem).Some? && Sized(b, extra, FixedSize(elem).value, n) ==>
        Sized(after, extra, FixedSize(elem).value, n - 1)
  }

  ghost predicate ElementDone(sch: Schema, kind: ListKind, elem: Type, depth: nat, items: seq<Value>,
                              b: seq<u8>, after: seq<u8>, extra: nat, r: Result<Value>)
    requires ItemOk(elem, |sch|)
  {
    var whole := Relaxed.DecodeItems(sch, kind, elem, depth, items, Before(b, extra));
    if r.Err? then whole == None
    else Going(b, after, extra, whole,
               Relaxed.DecodeItems(sch, kind, elem, depth, items + [r.value], Before(after, extra)), None)
  }

  lemma {:induction false} ElementEnds(sch: Schema, kind: ListKind, elem: Type, depth: nat, items: seq<Value>,
                                       b: seq<u8>, after: seq<u8>, extra: nat, r: Result<Value>)
    requires ItemOk(elem, |sch|) && kind.Array? && |items| < kind.size && extra <= |b| && Before(b, extra) != []
    requires Isolated(b, after, extra, Relaxed.DecodeValue(sch, elem, depth, Before(b, extra)), r)
    ensures ElementDone(sch, kind, elem, depth, items, b, after, extra, r)
  {
    hide Relaxed.DecodeValue;
    if r.Ok? {
      ItemDecoded(sch, kind, elem, depth, items, b, after, extra, r.value);
    }
  }

  /** Whether a region has the one size that an array's values can have, if their size is fixed. */
  method CheckSize(elem: Type, count: nat, capped: Capped) returns (r: Result<()>)
    requires capped.buf.Valid()
    ensures r.Ok?
            <==> FixedSize(elem).Some? ==> Fills(|Before(capped.buf.Bytes, capped.extra)|, FixedSize(elem).value, count)
  {
    var size := capped.RemainingBeforeCap();
    if FixedSize(elem).None? {
      return Ok(());
    }
    FillsExactly(size, FixedSize(elem).value, count);
    return if size == FixedSize(elem).value * count then Ok(()) else Err(InvalidValue);
  }

  /** Whether more elements, or no more, are left as they should be; known already if their size is fixed. */
  method CheckMore(sch: Schema, elem: Type, wanted: bool, capped: Capped, ghost n: nat) returns (r: Result<()>)
    requires ItemOk(elem, |sch|) && capped.buf.Valid()
    requires FixedSize(elem).Some? ==>
               Sized(capped.buf.Bytes, capped.extra, FixedSize(elem).value, n) && (wanted <==> n > 0)
    ensures r.Ok? <==> capped.extra <= |capped.buf.Bytes| && (Before(capped.buf.Bytes, capped.extra) != [] <==> wanted)
  {
    if FixedSize(elem).None? {
      var more :- capped.HasRemaining();
      return if more == wanted then Ok(()) else Err(InvalidValue);
    }
    FixedPositive(elem, |sch|);
    return Ok(());
  }

  /** What is left of a region holds exactly `n` items of a fixed size. */
  ghost predicate Sized(b: seq<u8>, extra: nat, size: nat, n: nat) {
    extra <= |b| && Fills(|Before(b, extra)|, size, n)
  }

  lemma {:induction false} FixedNext(sch: Schema, elem: Type, depth: nat, b: seq<u8>, after: seq<u8>, extra: nat,
                                     n: nat, item: Value)
    requires ItemOk(elem, |sch|) && FixedSize(elem).Some? && n > 0 && Sized(b, extra, FixedSize(elem).value, n)
    requires Isolated(b, after, extra, Relaxed.DecodeValue(sch, elem, depth, Before(b, extra)), Ok(item))
    ensures Sized(after, extra, FixedSize(elem).value, n - 1)
  {
    FixedValue(sch, elem, depth, Before(b, extra));
    Rejoin(Relaxed.DecodeValue(sch, elem, depth, Before(b, extra)).rest, Beyond(b, extra));
  }

  lemma {:induction false} FixedArray(sch: Schema, kind: ListKind, elem: Type, depth: nat, b: seq<u8>)
    requires ItemOk(elem, |sch|) && kind.Array? && FixedSize(elem).Some?
    requires !Fills(|b|, FixedSize(elem).value, kind.size)
    ensures Relaxed.DecodeItems(sch, kind, elem, depth, [], b).None?
  {
    FixedItems(sch, kind, elem, depth, [], b);
    ArrayCount(sch, kind, elem, depth, [], b);
  }

  lemma {:induction false} ArrayCount(sch: Schema, kind: ListKind, elem: Type, depth: nat, items: seq<Value>,
                                      b: seq<u8>)
    requires ItemOk(elem, |sch|) && kind.Array?
    ensures var r := Relaxed.DecodeItems(sch, kind, elem, depth, items, b); r.Some? ==> |r.value| == kind.size
    decreases |b|
  {
    var p := Relaxed.DecodeValue(sch, elem, depth, b);
    if b != [] && p.Parsed? && |items| < kind.size {
      ArrayCount(sch, kind, elem, depth, items + [p.value], p.rest);
    }
  }

  method DecodeMessage(sch: Schema, id: nat, depth: nat, capped: Capped) returns (r: Result<Value>)
    requires id < |sch| && capped.buf.Valid()
    modifies capped.buf
    ensures capped.buf.Valid()
    ensures Isolated(old(capped.buf.Bytes), capped.buf.Bytes, capped.extra,
                     Relaxed.DecodeMessage(sch, id, depth, Before(old(capped.buf.Bytes), capped.extra)), r)
    ensures r.Ok? ==> |capped.buf.Bytes| < |old(capped.buf.Bytes)|
    decreases depth, 0, Message(id), 0
  {
    hide Relaxed.Merge, ReadVarint;
    if !sch[id].handwritten && depth == 0 {
      return Err(RecursionLimitReached);
    }
    var inner :- capped.TakeLengthDelimited();
    if depth == 0 {
      return Err(RecursionLimitReached);
    }
    var slots :- Merge(sch, id, depth - 1, EmptyRecord(sch, id), inner);
    return Ok(Record(slots));
  }

  /** `merge`. */
  method Merge(sch: Schema, id: nat, depth: nat, value: seq<Slot>, capped: Capped) returns (r: Result<seq<Slot>>)
    requires id < |sch| && |value| == |sch[id].fields| && capped.buf.Valid() && capped.extra <= |capped.buf.Bytes|
    modifies capped.buf
    ensures capped.buf.Valid()
    ensures Finished(old(capped.buf.Bytes), capped.buf.Bytes, capped.extra,
                     Relaxed.Merge(sch, id, depth, value, None, Before(old(capped.buf.Bytes), capped.extra)), r)
    decreases depth, 1
  {
    ghost var start := capped.buf.Bytes;
    ghost var whole := Relaxed.Merge(sch, id, depth, value, None, Before(start, capped.extra));
    var slots := value;
    var tr := new TagReader();
    var lastTag: Option<u32> := None;
    while true
      invariant capped.buf.Valid() && |slots| == |value|
      invariant tr.lastTag == if lastTag.Some? then lastTag.value else 0
      invariant Going(start, capped.buf.Bytes, capped.extra, whole,
                      Relaxed.Merge(sch, id, depth, slots, lastTag, Before(capped.buf.Bytes, capped.extra)), None)
      decreases |capped.buf.Bytes|
    {
      var more :- capped.HasRemaining();
      if !more {
        return Ok(slots);
      }
      ghost var b, before := capped.buf.Bytes, slots;
      var key :- tr.DecodeKey(capped);
      KeyDecoded(sch, id, depth, slots, lastTag, b, capped.buf.Bytes, capped.extra, key);
      var duplicated := lastTag == Some(key.tag);
      lastTag := Some(key.tag);
      ghost var keyed := capped.buf.Bytes;
      slots :- RawDecodeField(sch, id, depth, slots, key, duplicated, capped);
      if capped.extra <= |keyed| {
        Arrived(keyed, capped.buf.Bytes, capped.extra, OneField(sch, id, depth, before, key, duplicated,
                                                                Before(keyed, capped.extra)), slots);
      }
    }
  }

  /** One turn of the loop over fields, on a region by itself: `raw_decode_field`. */
  function OneField(sch: Schema, id: nat, depth: nat, slots: seq<Slot>, key: Key, duplicated: bool,
                    b: seq<u8>): (r: Parsed<seq<Slot>>)
    requires id < |sch| && |slots| == |sch[id].fields|
    ensures r.Parsed? ==> |r.value| == |slots|
  {
    var k := FindField(sch[id].fields, key.tag);
    if k == |slots| then
      match Wire.SkipField(key.wireType, b)
      case Rejected => Rejected
      case Parsed(_, rest) => Parsed(slots, rest)
    else if duplicated then Rejected
    else
      assert DefOk(sch[id], id, |sch|);
      match Relaxed.DecodeField(sch, sch[id].fields[k], depth, key.wireType, b)
      case Rejected => Rejected
      case Parsed(slot, rest) => Parsed(slots[k := slot], rest)
  }

  lemma {:induction false} MergeTurn(sch: Schema, id: nat, depth: nat, slots: seq<Slot>, last: Option<nat>, b: seq<u8>)
    requires id < |sch| && |slots| == |sch[id].fields| && b != []
    ensures var key := ReadKey(if last.Some? then last.value else 0, b);
            Relaxed.Merge(sch, id, depth, slots, last, b)
            == if key.Rejected? then None
               else MergeOn(sch, id, depth, key.value.tag,
                            OneField(sch, id, depth, slots, key.value, last == Some(key.value.tag), key.rest))
  {
  }

  function MergeOn(sch: Schema, id: nat, depth: nat, tag: nat, p: Parsed<seq<Slot>>): Option<seq<Slot>>
    requires id < |sch| && (p.Parsed? ==> |p.value| == |sch[id].fields|)
  {
    if p.Rejected? then None else Relaxed.Merge(sch, id, depth, p.value, Some(tag), p.rest)
  }

  lemma {:induction false} KeyDecoded(sch: Schema, id: nat, depth: nat, slots: seq<Slot>, last: Option<nat>, b: seq<u8>,
                                      after: seq<u8>, extra: nat, key: Key)
    requires id < |sch| && |slots| == |sch[id].fields| && extra <= |b| && Before(b, extra) != []
    requires Isolated(b, after, extra, ReadKey(if last.Some? then last.value else 0, Before(b, extra)), Ok(key))
    ensures var whole := Relaxed.Merge(sch, id, depth, slots, last, Before(b, extra));
            if extra <= |after| then
              Beyond(after, extra) == Beyond(b, extra)
              && whole
                 == MergeOn(sch, id, depth, key.tag, OneField(sch, id, depth, slots, key, last == Some(key.tag),
                                                              Before(after, extra)))
            else whole == None
  {
    MergeTurn(sch, id, depth, slots, last, Before(b, extra));
    var p := ReadKey(if last.Some? then last.value else 0, Before(b, extra));
    if p.Parsed? {
      Rejoin(p.rest, Beyond(b, extra));
    }
  }

  lemma {:induction false} Arrived<T(!new)>(b: seq<u8>, after: seq<u8>, extra: nat, p: Parsed<T>, value: T)
    requires extra <= |b| && Isolated(b, after, extra, p, Ok(value))
    ensures if extra <= |after|
            then p == Parsed(value, Before(after, extra)) && Beyond(after, extra) == Beyond(b, extra)
            else p.Rejected?
  {
    if p.Parsed? {
      Rejoin(p.rest, Beyond(b, extra));
    }
  }

  /** `raw_decode_field`: the field with the key's tag if there is one, or else skips it. */
  method RawDecodeField(sch: Schema, id: nat, depth: nat, slots: seq<Slot>, key: Key, duplicated: bool, capped: Capped)
    returns (r: Result<seq<Slot>>)
    requires id < |sch| && |slots| == |sch[id].fields| && capped.buf.Valid()
    modifies capped.buf
    ensures capped.buf.Valid()
    ensures Isolated(old(capped.buf.Bytes), capped.buf.Bytes, capped.extra,
                     OneField(sch, id, depth, slots, key, duplicated, Before(old(capped.buf.Bytes), capped.extra)), r)
    ensures r.Ok? ==> |r.value| == |slots|
    decreases depth, 0
  {
    var k := FindField(sch[id].fields, key.tag);
    if k == |slots| {
      var _ :- capped.SkipField(key.wireType);
      return Ok(slots);
    }
    if duplicated {
      return Err(UnexpectedlyRepeated);
    }
    assert DefOk(sch[id], id, |sch|);
    var slot :- DecodeField(sch, sch[id].fields[k], depth, key.wireType, capped);
    return Ok(slots[k := slot]);
  }

  /** `Decoder::decode`. */
  method DecodeField(sch: Schema, f: Field, depth: nat, w: WireType, capped: Capped) returns (r: Result<Slot>)
    requires TypeOk(f.typ, |sch|) && capped.buf.Valid()
    modifies capped.buf
    ensures capped.buf.Valid()
    ensures Isolated(old(capped.buf.Bytes), capped.buf.Bytes, capped.extra,
                     Relaxed.DecodeField(sch, f, depth, w, Before(old(capped.buf.Bytes), capped.extra)), r)
    decreases depth, 0, f.typ, 4
  {
    if !f.optional && f.typ.List? && !f.typ.kind.Mapping? && w != LengthDelimited {
      var items :- DecodeUnpacked(sch, f.typ.kind, f.typ.elem, depth, w, capped);
      return Ok(Holds(Items(items)));
    }
    var _ :- CheckWireType(WireTypeOf(f.typ), w);
    var v :- DecodeValue(sch, f.typ, depth, capped);
    return Ok(Holds(v));
  }

  method DecodeUnpacked(sch: Schema, kind: ListKind, elem: Type, depth: nat, w: WireType, capped: Capped)
    returns (r: Result<seq<Value>>)
    requires ItemOk(elem, |sch|) && capped.buf.Valid()
    modifies capped.buf
    ensures capped.buf.Valid()
    ensures Isolated(old(capped.buf.Bytes), capped.buf.Bytes, capped.extra,
                     Relaxed.DecodeUnpacked(sch, kind, elem, depth, w, Before(old(capped.buf.Bytes), capped.extra)), r)
    decreases depth, 0, elem, 3
  {
    var _ :- CheckWireType(WireTypeOf(elem), w);
    if kind.Array? {
      r := UnpackedArray(sch, kind, elem, depth, capped);
    } else {
      r := UnpackedItems(sch, kind, elem, depth, capped);
    }
  }

  lemma {:induction false} UnpackedDecoded(sch: Schema, kind: ListKind, elem: Type, depth: nat, items: seq<Value>,
                                           b: seq<u8>, after: seq<u8>, extra: nat, item: Value)
    requires ItemOk(elem, |sch|) && extra <= |b|
    requires Isolated(b, after, extra, Relaxed.DecodeValue(sch, elem, depth, Before(b, extra)), Ok(item))
    ensures var whole := Relaxed.UnpackedItems(sch, kind, elem, depth, items, Before(b, extra));
            if extra <= |after| then
              && Beyond(after, extra) == Beyond(b, extra)
              && whole == if Insert(kind, items, item).None? then Rejected
                          else Relaxed.UnpackedOn(sch, kind, elem, depth, Insert(kind, items, item).value,
                                                  Before(after, extra))
            else whole == Rejected
  {
    var p := Relaxed.DecodeValue(sch, elem, depth, Before(b, extra));
    if p.Parsed? {
      Rejoin(p.rest, Beyond(b, extra));
    }
  }

  lemma {:induction false} PeekedNext(b: seq<u8>, extra: nat)
    requires extra <= |b| && PeekRepeated(Before(b, extra)).Some?
    ensures extra <= |b[1..]| && Before(b[1..], extra) == Before(b, extra)[1..]
    ensures Beyond(b[1..], extra) == Beyond(b, extra)
  {
    Split(b, extra);
    PeekIsolated(b, Before(b, extra), Beyond(b, extra));
  }

  /** One unpacked item, and its insertion. */
  method UnpackedOne(sch: Schema, kind: ListKind, elem: Type, depth: nat, items: seq<Value>, capped: Capped)
    returns (r: Result<seq<Value>>)
    requires ItemOk(elem, |sch|) && capped.buf.Valid()
    modifies capped.buf
    ensures capped.buf.Valid() && |capped.buf.Bytes| <= |old(capped.buf.Bytes)|
    ensures r.Ok? ==> |capped.buf.Bytes| < |old(capped.buf.Bytes)| && |r.value| == |items| + 1
    ensures capped.extra <= |old(capped.buf.Bytes)| ==>
              UnpackedStep(sch, kind, elem, depth, items, old(capped.buf.Bytes), capped.buf.Bytes, capped.extra, r)
    decreases depth, 0, elem, 2, 0
  {
    ghost var b := capped.buf.Bytes;
    var item :- DecodeValue(sch, elem, depth, capped);
    if capped.extra <= |b| {
      UnpackedDecoded(sch, kind, elem, depth, items, b, capped.buf.Bytes, capped.extra, item);
    }
    var inserted := Insert(kind, items, item);
    return if inserted.None? then Err(UnexpectedlyRepeated) else Ok(inserted.value);
  }

  ghost predicate UnpackedStep(sch: Schema, kind: ListKind, elem: Type, depth: nat, items: seq<Value>,
                               b: seq<u8>, after: seq<u8>, extra: nat, r: Result<seq<Value>>)
    requires ItemOk(elem, |sch|)
  {
    var whole := Relaxed.UnpackedItems(sch, kind, elem, depth, items, Before(b, extra));
    if r.Err? then whole == Rejected
    else Going(b, after, extra, whole, Relaxed.UnpackedOn(sch, kind, elem, depth, r.value, Before(after, extra)),
               Rejected)
  }

  /** Takes the key of the next item if there is one, and checks its wire type. */
  method NextUnpacked(expected: WireType, capped: Capped) returns (r: Result<bool>)
    requires capped.buf.Valid()
    modifies capped.buf
    ensures capped.buf.Valid() && |capped.buf.Bytes| <= |old(capped.buf.Bytes)|
    ensures NextFound(expected, old(capped.buf.Bytes), capped.buf.Bytes, capped.extra, r)
  {
    ghost var b := capped.buf.Bytes;
    var next := capped.PeekRepeatedField();
    if next.None? {
      return Ok(false);
    }
    PeekedNext(b, capped.extra);
    var _ :- CheckWireType(expected, next.value);
    return Ok(true);
  }

  /** One round of the loop: an item, and the key of the next one if there is one. */
  method UnpackedRound(sch: Schema, kind: ListKind, elem: Type, depth: nat, items: seq<Value>, capped: Capped)
    returns (r: Result<seq<Value>>, more: bool)
    requires ItemOk(elem, |sch|) && !kind.Array? && capped.buf.Valid()
    modifies capped.buf
    ensures capped.buf.Valid() && |capped.buf.Bytes| <= |old(capped.buf.Bytes)|
    ensures r.Ok? ==> |capped.buf.Bytes| < |old(capped.buf.Bytes)|
    ensures capped.extra <= |old(capped.buf.Bytes)| ==>
              RoundDone(sch, kind, elem, depth, items, old(capped.buf.Bytes), capped.buf.Bytes, capped.extra, r, more)
    decreases depth, 0, elem, 2, 1
  {
    more := false;
    ghost var b := capped.buf.Bytes;
    r := UnpackedOne(sch, kind, elem, depth, items, capped);
    if r.Ok? {
      ghost var mid := capped.buf.Bytes;
      var next := NextUnpacked(WireTypeOf(elem), capped);
      if capped.extra <= |b| {
        RoundEnds(sch, kind, elem, depth, items, b, mid, capped.buf.Bytes, capped.extra, r.value, next);
      }
      if next.Ok? {
        more := next.value;
      } else {
        r := Err(next.error);
      }
    }
  }

  /** What `NextUnpacked` finds. */
  ghost predicate NextFound(expected: WireType, b: seq<u8>, after: seq<u8>, extra: nat, r: Result<bool>) {
    var next := PeekRepeated(Before(b, extra));
    if next.None? then r == Ok(false) && after == b
    else if next.value == expected then
      r == Ok(true) && extra <= |after| && Before(after, extra) == Before(b, extra)[1..]
        && Beyond(after, extra) == Beyond(b, extra)
    else r == Err(WrongWireType)
  }

  lemma {:induction false} RoundEnds(sch: Schema, kind: ListKind, elem: Type, depth: nat, items: seq<Value>,
                                     b: seq<u8>, mid: seq<u8>, after: seq<u8>, extra: nat, all: seq<Value>,
                                     next: Result<bool>)
    requires ItemOk(elem, |sch|) && !kind.Array? && extra <= |b| && |after| <= |mid| <= |b|
    requires UnpackedStep(sch, kind, elem, depth, items, b, mid, extra, Ok(all))
    requires NextFound(WireTypeOf(elem), mid, after, extra, next)
    ensures RoundDone(sch, kind, elem, depth, items, b, after, extra,
                      if next.Ok? then Ok(all) else Err(next.error), next == Ok(true))
  {
    if extra <= |mid| {
      Split(mid, extra);
    }
  }

  ghost predicate RoundDone(sch: Schema, kind: ListKind, elem: Type, depth: nat, items: seq<Value>,
                            b: seq<u8>, after: seq<u8>, extra: nat, r: Result<seq<Value>>, more: bool)
    requires ItemOk(elem, |sch|)
  {
    var whole := Relaxed.UnpackedItems(sch, kind, elem, depth, items, Before(b, extra));
    if r.Ok? && more
    then Going(b, after, extra, whole, Relaxed.UnpackedItems(sch, kind, elem, depth, r.value, Before(after, extra)),
               Rejected)
    else Isolated(b, after, extra, whole, r)
  }

  method UnpackedItems(sch: Schema, kind: ListKind, elem: Type, depth: nat, capped: Capped)
    returns (r: Result<seq<Value>>)
    requires ItemOk(elem, |sch|) && !kind.Array? && capped.buf.Valid()
    modifies capped.buf
    ensures capped.buf.Valid()
    ensures Isolated(old(capped.buf.Bytes), capped.buf.Bytes, capped.extra,
                     Relaxed.UnpackedItems(sch, kind, elem, depth, [], Before(old(capped.buf.Bytes), capped.extra)), r)
    decreases depth, 0, elem, 2
  {
    ghost var start, extra := capped.buf.Bytes, capped.extra;
    ghost var whole := Relaxed.UnpackedItems(sch, kind, elem, depth, [], Before(start, extra));
    var items: seq<Value> := [];
    var more := true;
    while more
      invariant capped.buf.Valid() && |capped.buf.Bytes| <= |start|
      invariant extra <= |start| ==>
                  if more
                  then Going(start, capped.buf.Bytes, extra, whole,
                             Relaxed.UnpackedItems(sch, kind, elem, depth, items,
                                                   Before(capped.buf.Bytes, extra)), Rejected)
                  else Isolated(start, capped.buf.Bytes, extra, whole, Ok(items))
      decreases more, |capped.buf.Bytes|
    {
      items, more :- UnpackedRound(sch, kind, elem, depth, items, capped);
    }
    return Ok(items);
  }

  /** `decode_array_unpacked_only`. */
  method UnpackedArray(sch: Schema, kind: ListKind, elem: Type, depth: nat, capped: Capped)
    returns (r: Result<seq<Value>>)
    requires ItemOk(elem, |sch|) && kind.Array? && capped.buf.Valid()
    modifies capped.buf
    ensures capped.buf.Valid()
    ensures Isolated(old(capped.buf.Bytes), capped.buf.Bytes, capped.extra,
                     Relaxed.DecodeUnpacked(sch, kind, elem, depth, WireTypeOf(elem),
                                            Before(old(capped.buf.Bytes), capped.extra)), r)
    decreases depth, 0, elem, 2
  {
    hide Relaxed.UnpackedItems, Relaxed.UnpackedOn;
    ghost var start := capped.buf.Bytes;
    var items: seq<Value> := [];
    while |items| < kind.size
      invariant capped.buf.Valid() && |items| <= kind.size && |capped.buf.Bytes| <= |start|
      invariant ArrayGoing(sch, kind, elem, depth, start, capped.buf.Bytes, capped.extra, items)
    {
      items :- UnpackedElement(sch, kind, elem, depth, start, items, capped);
    }
    ghost var after := capped.buf.Bytes;
    var next := capped.PeekRepeatedField();
    if capped.extra <= |start| {
      ArrayEnds(sch, kind, elem, depth, start, after, capped.extra, items);
    }
    return if next.Some? then Err(InvalidValue) else Ok(items);
  }

  /** Halfway through an unpacked array: nothing has been read yet, or items have. */
  ghost predicate ArrayGoing(sch: Schema, kind: ListKind, elem: Type, depth: nat, start: seq<u8>, now: seq<u8>,
                             extra: nat, items: seq<Value>)
    requires ItemOk(elem, |sch|)
  {
    if items == [] then now == start
    else extra <= |start| ==>
           Going(start, now, extra, Relaxed.UnpackedItems(sch, kind, elem, depth, [], Before(start, extra)),
                 Relaxed.UnpackedOn(sch, kind, elem, depth, items, Before(now, extra)), Rejected)
  }

  /** The body of the loop: the key of every item but the first, and the item. */
  method UnpackedElement(sch: Schema, kind: ListKind, elem: Type, depth: nat, ghost start: seq<u8>, items: seq<Value>,
                         capped: Capped)
    returns (r: Result<seq<Value>>)
    requires ItemOk(elem, |sch|) && kind.Array? && |items| < kind.size && capped.buf.Valid()
    requires |capped.buf.Bytes| <= |start|
    requires ArrayGoing(sch, kind, elem, depth, start, capped.buf.Bytes, capped.extra, items)
    modifies capped.buf
    ensures capped.buf.Valid() && |capped.buf.Bytes| <= |old(capped.buf.Bytes)|
    ensures r.Ok? ==> |r.value| == |items| + 1
                      && ArrayGoing(sch, kind, elem, depth, start, capped.buf.Bytes, capped.extra, r.value)
    ensures r.Err? && capped.extra <= |start| ==>
              Relaxed.UnpackedItems(sch, kind, elem, depth, [], Before(start, capped.extra)).Rejected?
    decreases depth, 0, elem, 2, 1
  {
    hide Relaxed.UnpackedItems;
    if |items| > 0 {
      var more :- NextUnpacked(WireTypeOf(elem), capped);
      if !more {
        return Err(InvalidValue);
      }
    }
    r := UnpackedOne(sch, kind, elem, depth, items, capped);
  }

  /** A full array must not be followed by one more of its keys. */
  lemma {:induction false} ArrayEnds(sch: Schema, kind: ListKind, elem: Type, depth: nat, start: seq<u8>,
                                     after: seq<u8>, extra: nat, items: seq<Value>)
    requires ItemOk(elem, |sch|) && kind.Array? && |items| == kind.size && extra <= |start|
    requires ArrayGoing(sch, kind, elem, depth, start, after, extra, items)
    ensures var p := Relaxed.DecodeUnpacked(sch, kind, elem, depth, WireTypeOf(elem), Before(start, extra));
            if extra > |after| || PeekRepeated(Before(after, extra)).Some? then p == Rejected
            else p == Parsed(items, Before(after, extra)) && after == Before(after, extra) + Beyond(start, extra)
  {
    hide Relaxed.UnpackedItems;
    if extra <= |after| {
      Split(after, extra);
    }
  }
}
