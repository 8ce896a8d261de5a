/**
 * What distinguished decoding accepts, and how canonical it finds it, when it may stop as soon as the
 * data is less canonical than `min`. Stated, like `Relaxed`, on a region that stands by itself.
 */
module Restricted {
  import opened Base
  import opened Schemas
  import opened Ordering
  import opened Encoding
  import opened Wire
  import Relaxed

  datatype Out<+T> = Out(value: T, canon: Canonicity, rest: seq<u8>) | Failed

  datatype Whole<+T> = Whole(value: T, canon: Canonicity) | Bad

  /** `decode_value_distinguished`; `allowEmpty` only matters to messages. */
  function DecodeValue(sch: Schema, t: Type, allowEmpty: bool, min: Canonicity, depth: nat, b: seq<u8>): (r: Out<Value>)
    requires ItemOk(t, |sch|)
    ensures r.Out? ==> |r.rest| < |b|
    decreases depth, 0, t, 1, 0
  {
    match t
    case Pair(_, _) => DecodePair(sch, t, min, depth, b)
    case List(_, _) => DecodeList(sch, t, min, depth, b)
    case Message(id) => DecodeMessage(sch, id, allowEmpty, min, depth, b)
    case _ =>
      match Relaxed.DecodeLeaf(t, b)
      case Rejected => Failed
      case Parsed(v, rest) => Out(v, Canonical, rest)
  }

  /** An entry of a mapping: a key, then a value. */
  function DecodePair(sch: Schema, t: Type, min: Canonicity, depth: nat, b: seq<u8>): (r: Out<Value>)
    requires t.Pair? && ItemOk(t, |sch|)
    ensures r.Out? ==> |r.rest| < |b|
    decreases depth, 0, t, 0, 0
  {
    match DecodeValue(sch, t.key, true, min, depth, b)
    case Failed => Failed
    case Out(k, c, more) =>
      match DecodeValue(sch, t.val, true, min, depth, more)
      case Failed => Failed
      case Out(x, d, rest) => Out(Entry(k, x), Worse(c, d), rest)
  }

  /** A packed collection. */
  function DecodeList(sch: Schema, t: Type, min: Canonicity, depth: nat, b: seq<u8>): (r: Out<Value>)
    requires t.List? && ItemOk(t, |sch|)
    ensures r.Out? ==> |r.rest| < |b|
    decreases depth, 0, t, 0, 0
  {
    match ReadRegion(b)
    case Rejected => Failed
    case Parsed(region, rest) =>
      match DecodeItems(sch, t.kind, t.elem, min, depth, [], Canonical, region)
      case Bad => Failed
      case Whole(items, c) => Out(Items(items), c, rest)
  }

  /** A nested message; a zero-length region stands for an empty one. */
  function DecodeMessage(sch: Schema, id: nat, allowEmpty: bool, min: Canonicity, depth: nat,
                         b: seq<u8>): (r: Out<Value>)
    requires id < |sch|
    ensures r.Out? ==> |r.rest| < |b|
    decreases depth, 0, Message(id), 0, 0
  {
    match ReadRegion(b)
    case Rejected => Failed
    case Parsed(region, rest) =>
      if !allowEmpty && region == [] && (depth > 0 || sch[id].handwritten) then
        if NotCanonical.AtLeast(min) then Out(Record(EmptyRecord(sch, id)), NotCanonical, rest) else Failed
      else if depth == 0 then Failed
      else DecodeBody(sch, id, min, depth - 1, region, rest)
  }

  function DecodeBody(sch: Schema, id: nat, min: Canonicity, depth: nat, region: seq<u8>,
                      rest: seq<u8>): (r: Out<Value>)
    requires id < |sch|
    ensures r.Out? ==> r.rest == rest
    decreases depth, 2, 0
  {
    match Merge(sch, id, min, depth, EmptyRecord(sch, id), None, Canonical, region)
    case Bad => Failed
    case Whole(slots, c) => Out(Record(slots), c, rest)
  }

  function DecodeItems(sch: Schema, kind: ListKind, elem: Type, min: Canonicity, depth: nat,
                       items: seq<Value>, canon: Canonicity, b: seq<u8>): (r: Whole<seq<Value>>)
    requires ItemOk(elem, |sch|)
    decreases depth, 0, elem, 2, |b|
  {
    if b == [] then
      if kind.Array? && |items| != kind.size then Bad else Whole(items, canon)
    else if kind.Array? && |items| >= kind.size then Bad
    else
      match DecodeValue(sch, elem, true, min, depth, b)
      case Failed => Bad
      case Out(item, c, rest) =>
        match InsertDistinguished(kind, items, item)
        case None => Bad
        case Some(more) =>
          if more.canon.AtLeast(min)
          then DecodeItems(sch, kind, elem, min, depth, more.items, Worse(Worse(canon, c), more.canon), rest)
          else Bad
  }

  /** `DistinguishedDecoder::decode_distinguished`: fields that are there but empty are not canonical. */
  function DecodeField(sch: Schema, f: Field, min: Canonicity, depth: nat, w: WireType, b: seq<u8>): (r: Out<Slot>)
    requires TypeOk(f.typ, |sch|)
    ensures r.Out? ==> |r.rest| <= |b|
    decreases depth, 0, f.typ, 4, 0
  {
    if !f.optional && f.typ.List? && !f.typ.kind.Mapping? && w != LengthDelimited then
      if !NotCanonical.AtLeast(min) then Failed
      else
        match Relaxed.DecodeUnpacked(sch, f.typ.kind, f.typ.elem, depth, w, b)
        case Rejected => Failed
        case Parsed(items, rest) => Out(Holds(Items(items)), NotCanonical, rest)
    else if w != WireTypeOf(f.typ) then Failed
    else
      match DecodeValue(sch, f.typ, f.optional, min, depth, b)
      case Failed => Failed
      case Out(v, c, rest) =>
        if !f.optional && !f.typ.Message? && IsEmpty(sch, f.typ, v) then
          if NotCanonical.AtLeast(min) then Out(Holds(v), NotCanonical, rest) else Failed
        else Out(Holds(v), c, rest)
  }

  /** `merge_distinguished`. */
  function Merge(sch: Schema, id: nat, min: Canonicity, depth: nat,
                 slots: seq<Slot>, last: Option<nat>, canon: Canonicity, b: seq<u8>): (r: Whole<seq<Slot>>)
    requires id < |sch| && |slots| == |sch[id].fields|
    ensures r.Whole? ==> |r.value| == |slots|
    decreases depth, 1, |b|
  {
    if b == [] then Whole(slots, canon)
    else
      match ReadKey(if last.Some? then last.value else 0, b)
      case Rejected => Bad
      case Parsed(Key(tag, w), more) =>
        var k := FindField(sch[id].fields, tag);
        if k == |sch[id].fields| then
          if !HasExtensions.AtLeast(min) then Bad
          else
            match SkipField(w, more)
            case Rejected => Bad
            case Parsed(_, rest) => Merge(sch, id, min, depth, slots, Some(tag), Worse(canon, HasExtensions), rest)
        else if last == Some(tag) then Bad
        else
          assert DefOk(sch[id], id, |sch|);
          match DecodeField(sch, sch[id].fields[k], min, depth, w, more)
          case Failed => Bad
          case Out(slot, c, rest) => Merge(sch, id, min, depth, slots[k := slot], Some(tag), Worse(canon, c), rest)
  }

  // ---------- one step of each loop ----------

  lemma {:induction false} MessageUnfold(sch: Schema, id: nat, allowEmpty: bool, min: Canonicity, depth: nat,
                                         b: seq<u8>)
    requires id < |sch|
    ensures DecodeMessage(sch, id, allowEmpty, min, depth, b)
            == match ReadRegion(b)
               case Rejected => Failed
               case Parsed(region, rest) => InRegion(sch, id, allowEmpty, min, depth, region, rest)
  {
  }

  /** A nested message whose region has been read. */
  function InRegion(sch: Schema, id: nat, allowEmpty: bool, min: Canonicity, depth: nat, region: seq<u8>,
                    rest: seq<u8>): Out<Value>
    requires id < |sch|
  {
    if !allowEmpty && region == [] && (depth > 0 || sch[id].handwritten) then
      if NotCanonical.AtLeast(min) then Out(Record(EmptyRecord(sch, id)), NotCanonical, rest) else Failed
    else if depth == 0 then Failed
    else DecodeBody(sch, id, min, depth - 1, region, rest)
  }

  lemma {:induction false} ItemsUnfold(sch: Schema, kind: ListKind, elem: Type, min: Canonicity, depth: nat,
                                       items: seq<Value>, canon: Canonicity, b: seq<u8>)
    requires ItemOk(elem, |sch|) && b != [] && !(kind.Array? && |items| >= kind.size)
    ensures var r := DecodeValue(sch, elem, true, min, depth, b);
            DecodeItems(sch, kind, elem, min, depth, items, canon, b)
            == if r.Failed? then Bad
               else ItemsGoOn(sch, kind, elem, min, depth, canon, InsertDistinguished(kind, items, r.value), r.canon,
                              r.rest)
  {
  }

  function ItemsGoOn(sch: Schema, kind: ListKind, elem: Type, min: Canonicity, depth: nat, canon: Canonicity,
                     more: Option<Inserted>, c: Canonicity, rest: seq<u8>): Whole<seq<Value>>
    requires ItemOk(elem, |sch|)
  {
    if more.None? || !more.value.canon.AtLeast(min) then Bad
    else DecodeItems(sch, kind, elem, min, depth, more.value.items, Worse(Worse(canon, c), more.value.canon), rest)
  }

  lemma {:induction false} MergeEnds(sch: Schema, id: nat, min: Canonicity, depth: nat, slots: seq<Slot>,
                                     last: Option<nat>, canon: Canonicity)
    requires id < |sch| && |slots| == |sch[id].fields|
    ensures Merge(sch, id, min, depth, slots, last, canon, []) == Whole(slots, canon)
  {
  }

  lemma {:induction false} MergeUnknown(sch: Schema, id: nat, min: Canonicity, depth: nat, slots: seq<Slot>,
                                        last: Option<nat>, canon: Canonicity, b: seq<u8>)
    requires id < |sch| && |slots| == |sch[id].fields| && b != []
    requires ReadKey(if last.Some? then last.value else 0, b).Parsed?
    requires FindField(sch[id].fields, ReadKey(if last.Some? then last.value else 0, b).value.tag) == |sch[id].fields|
    ensures var key := ReadKey(if last.Some? then last.value else 0, b);
            Merge(sch, id, min, depth, slots, last, canon, b)
            == AfterUnknown(sch, id, min, depth, slots, key.value.tag, canon, SkipField(key.value.wireType, key.rest))
  {
  }

  function AfterUnknown(sch: Schema, id: nat, min: Canonicity, depth: nat, slots: seq<Slot>, tag: nat,
                        canon: Canonicity,
                        skipped: Parsed<()>): Whole<seq<Slot>>
    requires id < |sch| && |slots| == |sch[id].fields|
  {
    if skipped.Rejected? || !HasExtensions.AtLeast(min) then Bad
    else Merge(sch, id, min, depth, slots, Some(tag), Worse(canon, HasExtensions), skipped.rest)
  }

  lemma {:induction false} MergeKnown(sch: Schema, id: nat, min: Canonicity, depth: nat, slots: seq<Slot>,
                                      last: Option<nat>, canon: Canonicity, b: seq<u8>)
    requires id < |sch| && |slots| == |sch[id].fields| && b != []
    requires ReadKey(if last.Some? then last.value else 0, b).Parsed?
    requires FindField(sch[id].fields, ReadKey(if last.Some? then last.value else 0, b).value.tag) < |sch[id].fields|
    requires last != Some(ReadKey(if last.Some? then last.value else 0, b).value.tag)
    ensures var key := ReadKey(if last.Some? then last.value else 0, b);
            var k := FindField(sch[id].fields, key.value.tag);
            && TypeOk(sch[id].fields[k].typ, |sch|)
            && Merge(sch, id, min, depth, slots, last, canon, b)
               == AfterKnown(sch, id, min, depth, slots, k, key.value.tag, canon,
                             DecodeField(sch, sch[id].fields[k], min, depth, key.value.wireType, key.rest))
  {
    assert DefOk(sch[id], id, |sch|);
  }

  function AfterKnown(sch: Schema, id: nat, min: Canonicity, depth: nat, slots: seq<Slot>, k: nat, tag: nat,
                      canon: Canonicity,
                      r: Out<Slot>): Whole<seq<Slot>>
    requires id < |sch| && |slots| == |sch[id].fields| && k < |slots|
  {
    if r.Failed? then Bad
    else Merge(sch, id, min, depth, slots[k := r.value], Some(tag), Worse(canon, r.canon), r.rest)
  }
}
