/**
 * What relaxed decoding accepts, stated on a region of bytes that stands by itself. The library
 * decodes in place, over soft-capped views of one shared buffer; `RelaxedDecoder` shows that it decodes this.
 */
module Relaxed {
  import opened Base
  import opened Schemas
  import opened Ordering
  import opened Encoding
  import opened Wire

  /** Numbers, fixed-size values and byte strings. */
  function DecodeLeaf(t: Type, b: seq<u8>): (r: Parsed<Value>)
    requires t.Uint? || (t.Fixed? && t.size > 0) || t.Bytes?
    ensures r.Parsed? ==> |r.rest| < |b|
  {
    match t
    case Uint(limit) =>
      (match ReadVarint(b)
       case Rejected => Rejected
       case Parsed(n, rest) => if n < limit then Parsed(Num(n), rest) else Rejected)
    case Fixed(size, form) =>
      (match ReadFixed(size, b)
       case Rejected => Rejected
       case Parsed(bs, rest) => Parsed(FixedOf(form, bs), rest))
    case Bytes =>
      (match ReadRegion(b)
       case Rejected => Rejected
       case Parsed(bs, rest) => Parsed(Blob(bs), rest))
  }

  /** `decode_value`. */
  function DecodeValue(sch: Schema, t: Type, depth: nat, b: seq<u8>): (r: Parsed<Value>)
    requires ItemOk(t, |sch|)
    ensures r.Parsed? ==> |r.rest| < |b|
    decreases depth, 0, t, 1, 0
  {
    match t
    case Pair(_, _) => DecodePair(sch, t, depth, b)
    case List(_, _) => DecodeList(sch, t, depth, b)
    case Message(id) => DecodeMessage(sch, id, depth, b)
    case _ => DecodeLeaf(t, b)
  }

  /** An entry of a mapping: a key, then a value. */
  function DecodePair(sch: Schema, t: Type, depth: nat, b: seq<u8>): (r: Parsed<Value>)
    requires t.Pair? && ItemOk(t, |sch|)
    ensures r.Parsed? ==> |r.rest| < |b|
    decreases depth, 0, t, 0, 0
  {
    match DecodeValue(sch, t.key, depth, b)
    case Rejected => Rejected
    case Parsed(k, more) =>
      match DecodeValue(sch, t.val, depth, more)
      case Rejected => Rejected
      case Parsed(x, rest) => Parsed(Entry(k, x), rest)
  }

  /** A packed collection. */
  function DecodeList(sch: Schema, t: Type, depth: nat, b: seq<u8>): (r: Parsed<Value>)
    requires t.List? && ItemOk(t, |sch|)
    ensures r.Parsed? ==> |r.rest| < |b|
    decreases depth, 0, t, 0, 0
  {
    match ReadRegion(b)
    case Rejected => Rejected
    case Parsed(region, rest) =>
      match DecodeItems(sch, t.kind, t.elem, depth, [], region)
      case None => Rejected
      case Some(items) => Parsed(Items(items), rest)
  }

  /** A nested message. */
  function DecodeMessage(sch: Schema, id: nat, depth: nat, b: seq<u8>): (r: Parsed<Value>)
    requires id < |sch|
    ensures r.Parsed? ==> |r.rest| < |b|
    decreases depth, 0, Message(id), 0, 0
  {
    match ReadRegion(b)
    case Rejected => Rejected
    case Parsed(region, rest) =>
      if depth == 0 then Rejected
      else
        match Merge(sch, id, depth - 1, EmptyRecord(sch, id), None, region)
        case None => Rejected
        case Some(slots) => Parsed(Record(slots), rest)
  }

  /** The loop over the items of a packed collection, until its region is used up. */
  function DecodeItems(sch: Schema, kind: ListKind, elem: Type, depth: nat, items: seq<Value>,
                       b: seq<u8>): (r: Option<seq<Value>>)
    requires ItemOk(elem, |sch|)
    decreases depth, 0, elem, 2, |b|
  {
    if b == [] then
      if kind.Array? && |items| != kind.size then None else Some(items)
    else if kind.Array? && |items| >= kind.size then None
    else
      match DecodeValue(sch, elem, depth, b)
      case Rejected => None
      case Parsed(item, rest) =>
        match Insert(kind, items, item)
        case None => None
        case Some(more) => DecodeItems(sch, kind, elem, depth, more, rest)
  }

  /** The unpacked representation: one field for each item, all with the same tag. */
  function DecodeUnpacked(sch: Schema, kind: ListKind, elem: Type, depth: nat, w: WireType,
                          b: seq<u8>): (r: Parsed<seq<Value>>)
    requires ItemOk(elem, |sch|)
    ensures r.Parsed? ==> |r.rest| <= |b|
    decreases depth, 0, elem, 3, |b|
  {
    if w != WireTypeOf(elem) then Rejected
    else if kind == Array(0) then
      if PeekRepeated(b).Some? then Rejected else Parsed([], b)
    else UnpackedItems(sch, kind, elem, depth, [], b)
  }

  function UnpackedItems(sch: Schema, kind: ListKind, elem: Type, depth: nat, items: seq<Value>,
                         b: seq<u8>): (r: Parsed<seq<Value>>)
    requires ItemOk(elem, |sch|)
    ensures r.Parsed? ==> |r.rest| < |b|
    decreases depth, 0, elem, 2, |b|, 0
  {
    match DecodeValue(sch, elem, depth, b)
    case Rejected => Rejected
    case Parsed(item, rest) =>
      match Insert(kind, items, item)
      case None => Rejected
      case Some(more) =>
        UnpackedOn(sch, kind, elem, depth, more, rest)
  }

  /** After an unpacked item, the next one follows if its key does. */
  function UnpackedOn(sch: Schema, kind: ListKind, elem: Type, depth: nat, items: seq<Value>,
                      b: seq<u8>): (r: Parsed<seq<Value>>)
    requires ItemOk(elem, |sch|)
    ensures r.Parsed? ==> |r.rest| <= |b|
    decreases depth, 0, elem, 2, |b|, 1
  {
    match PeekRepeated(b)
    case None => if kind.Array? && |items| < kind.size then Rejected else Parsed(items, b)
    case Some(next) =>
      if (kind.Array? && |items| >= kind.size) || next != WireTypeOf(elem) then Rejected
      else UnpackedItems(sch, kind, elem, depth, items, b[1..])
  }

  /** `Decoder::decode`: the value of a field that was empty until now. */
  function DecodeField(sch: Schema, f: Field, depth: nat, w: WireType, b: seq<u8>): (r: Parsed<Slot>)
    requires TypeOk(f.typ, |sch|)
    ensures r.Parsed? ==> |r.rest| <= |b|
    decreases depth, 0, f.typ, 4, 0
  {
    if !f.optional && f.typ.List? && !f.typ.kind.Mapping? && w != LengthDelimited then
      match DecodeUnpacked(sch, f.typ.kind, f.typ.elem, depth, w, b)
      case Rejected => Rejected
      case Parsed(items, rest) => Parsed(Holds(Items(items)), rest)
    else if w != WireTypeOf(f.typ) then Rejected
    else
      match DecodeValue(sch, f.typ, depth, b)
      case Rejected => Rejected
      case Parsed(v, rest) => Parsed(Holds(v), rest)
  }

  /** `merge`: the loop over the fields of a message, after one with tag `last` if there was one. */
  function Merge(sch: Schema, id: nat, depth: nat, slots: seq<Slot>, last: Option<nat>,
                 b: seq<u8>): (r: Option<seq<Slot>>)
    requires id < |sch| && |slots| == |sch[id].fields|
    ensures r.Some? ==> |r.value| == |slots|
    decreases depth, 1, |b|
  {
    if b == [] then Some(slots)
    else
      match ReadKey(if last.Some? then last.value else 0, b)
      case Rejected => None
      case Parsed(Key(tag, w), more) =>
        var k := FindField(sch[id].fields, tag);
        if k == |sch[id].fields| then
          match SkipField(w, more)
          case Rejected => None
          case Parsed(_, rest) => Merge(sch, id, depth, slots, Some(tag), rest)
        else if last == Some(tag) then None
        else
          assert DefOk(sch[id], id, |sch|);
          match DecodeField(sch, sch[id].fields[k], depth, w, more)
          case Rejected => None
          case Parsed(slot, rest) => Merge(sch, id, depth, slots[k := slot], Some(tag), rest)
  }
}
