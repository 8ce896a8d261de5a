/** Opaque messages: any message that could be valid, kept field by field and encoded to the very same bytes. */
module Opaque {
  import opened Base
  import opened Varint
  import opened VarintCodec
  import opened VarintPrepend
  import opened Buffers
  import opened ReverseBuffers
  import opened Schemas
  import opened Encoding
  import opened Wire
  import opened CappedBuffers
  import opened Encoder
  import opened RelaxedDecoder
  import RoundTrip

  type Bytes4 = s: seq<u8> | |s| == 4 witness [0, 0, 0, 0]
  type Bytes8 = s: seq<u8> | |s| == 8 witness [0, 0, 0, 0, 0, 0, 0, 0]

  datatype OpaqueValue =
    | VarintValue(value: u64)
    | LengthDelimitedValue(bytes: seq<u8>)
    | ThirtyTwoBitValue(four: Bytes4)
    | SixtyFourBitValue(eight: Bytes8)
  {
    function OnWire(): WireType {
      match this
      case VarintValue(_) => WireType.Varint
      case LengthDelimitedValue(_) => LengthDelimited
      case ThirtyTwoBitValue(_) => ThirtyTwoBit
      case SixtyFourBitValue(_) => SixtyFourBit
    }

    /** The bytes that stand for this value. */
    function Bytes(): seq<u8> {
      match this
      case VarintValue(v) => Encode(v)
      case LengthDelimitedValue(bytes) => Delimited(bytes)
      case ThirtyTwoBitValue(four) => four
      case SixtyFourBitValue(eight) => eight
    }

    method EncodeValue(buf: ByteSink)
      requires |Bytes()| < U64_END
      modifies buf
      ensures buf.data == old(buf.data) + Bytes()
    {
      match this {
        case VarintValue(v) => EncodeVarintUnrolled(v, buf);
        case LengthDelimitedValue(bytes) =>
          EncodeVarintUnrolled(|bytes|, buf);
          buf.PutSlice(bytes);
        case ThirtyTwoBitValue(four) => buf.PutSlice(four);
        case SixtyFourBitValue(eight) => buf.PutSlice(eight);
      }
    }

    method PrependValue(buf: ReverseBuffer)
      requires |Bytes()| < U64_END
      requires buf.Valid() && buf.CanGrow()
      modifies buf, buf.chunks
      ensures buf.Prepended(Bytes())
    {
      match this {
        case VarintValue(v) => PrependVarintUnrolled(v, buf);
        case LengthDelimitedValue(bytes) => PrependBlob(bytes, buf);
        case ThirtyTwoBitValue(four) => buf.PrependSlice(four);
        case SixtyFourBitValue(eight) => buf.PrependSlice(eight);
      }
    }

    method ValueEncodedLen() returns (n: nat)
      ensures n == |Bytes()|
    {
      match this {
        case VarintValue(v) =>
          EncodedLenIsLength(v);
          n := EncodedLen(v);
        case LengthDelimitedValue(bytes) =>
          EncodedLenIsLength(|bytes|);
          n := EncodedLen(|bytes|) + |bytes|;
        case ThirtyTwoBitValue(_) => n := 4;
        case SixtyFourBitValue(_) => n := 8;
      }
    }
  }

  /** A field as it is met on the wire: what iteration over a message yields. */
  datatype OpaqueField = OpaqueField(tag: u32, value: OpaqueValue)

  // ---------- reading a value ----------

  function ReadOpaque(w: WireType, b: seq<u8>): (r: Parsed<OpaqueValue>)
    ensures r.Parsed? ==> |r.rest| < |b|
  {
    match w
    case Varint => (match ReadVarint(b) case Rejected => Rejected case Parsed(v, rest) => Parsed(VarintValue(v), rest))
    case LengthDelimited =>
      (match ReadRegion(b) case Rejected => Rejected case Parsed(bs, rest) => Parsed(LengthDelimitedValue(bs), rest))
    case ThirtyTwoBit => if |b| < 4 then Rejected else Parsed(ThirtyTwoBitValue(b[..4]), b[4..])
    case SixtyFourBit => if |b| < 8 then Rejected else Parsed(SixtyFourBitValue(b[..8]), b[8..])
  }

  /** A value's bytes read back as the value, and whatever is read is the bytes of its value. */
  lemma {:induction false} ReadBytes(v: OpaqueValue, tail: seq<u8>)
    requires |v.Bytes()| < U64_END
    ensures ReadOpaque(v.OnWire(), v.Bytes() + tail) == Parsed(v, tail)
  {
    match v {
      case VarintValue(n) => RoundTrip.ReadEncoded(n, tail);
      case LengthDelimitedValue(bytes) => RoundTrip.ReadDelimited(bytes, tail);
      case _ =>
    }
  }

  lemma {:induction false} BytesRead(w: WireType, b: seq<u8>)
    requires ReadOpaque(w, b).Parsed?
    ensures var p := ReadOpaque(w, b); p.value.OnWire() == w && b == p.value.Bytes() + p.rest
  {
    match w {
      case Varint => RoundTrip.ReadIsEncoding(b);
      case LengthDelimited => RoundTrip.RegionIsDelimited(b);
      case ThirtyTwoBit => assert b == b[..4] + b[4..];
      case SixtyFourBit => assert b == b[..8] + b[8..];
    }
  }

  method DecodeOpaque(w: WireType, capped: Capped) returns (r: Result<OpaqueValue>)
    requires capped.buf.Valid()
    modifies capped.buf
    ensures capped.buf.Valid()
    ensures Isolated(old(capped.buf.Bytes), capped.buf.Bytes, capped.extra,
                     ReadOpaque(w, Before(old(capped.buf.Bytes), capped.extra)), r)
  {
    match w {
      case Varint =>
        var v :- capped.DecodeVarint();
        return Ok(VarintValue(v));
      case LengthDelimited =>
        var inner :- capped.TakeLengthDelimited();
        var len := inner.RemainingBeforeCap();
        var bytes := inner.buf.Take(len);
        return Ok(LengthDelimitedValue(bytes));
      case ThirtyTwoBit =>
        var four :- TakeFixed(4, capped);
        return Ok(ThirtyTwoBitValue(four));
      case SixtyFourBit =>
        var eight :- TakeFixed(8, capped);
        return Ok(SixtyFourBitValue(eight));
    }
  }

  method TakeFixed(size: nat, capped: Capped) returns (r: Result<seq<u8>>)
    requires size > 0 && capped.buf.Valid()
    modifies capped.buf
    ensures capped.buf.Valid() && (r.Ok? ==> |r.value| == size)
    ensures Isolated(old(capped.buf.Bytes), capped.buf.Bytes, capped.extra,
                     ReadFixed(size, Before(old(capped.buf.Bytes), capped.extra)), r)
  {
    var remaining := capped.RemainingBeforeCap();
    if remaining < size {
      return Err(Truncated);
    }
    ghost var b := capped.buf.Bytes;
    var taken := capped.buf.Take(size);
    FixedIsolated(b, taken, capped.buf.Bytes, capped.extra);
    return Ok(taken);
  }

  // ---------- messages as lists of fields ----------

  /** Tags never go down, and start at `last` or above. */
  ghost predicate InOrder(list: seq<OpaqueField>, last: nat) {
    list != [] ==> last <= list[0].tag && InOrder(list[1..], list[0].tag)
  }

  function ListBytes(list: seq<OpaqueField>, last: nat): seq<u8> {
    if list == [] then []
    else
      KeyBytes(list[0].tag, last, list[0].value.OnWire())
      + (list[0].value.Bytes() + ListBytes(list[1..], list[0].tag))
  }

  function ReadList(last: nat, b: seq<u8>): Option<seq<OpaqueField>>
    decreases |b|
  {
    if b == [] then Some([])
    else
      match ReadKey(last, b)
      case Rejected => None
      case Parsed(key, more) =>
        match ReadOpaque(key.wireType, more)
        case Rejected => None
        case Parsed(v, rest) =>
          match ReadList(key.tag, rest)
          case None => None
          case Some(list) => Some([OpaqueField(key.tag, v)] + list)
  }

  lemma {:induction false} ListReads(list: seq<OpaqueField>, last: nat)
    requires InOrder(list, last) && |ListBytes(list, last)| < U64_END
    ensures ReadList(last, ListBytes(list, last)) == Some(list)
    decreases |list|
  {
    if list != [] {
      var f, rest := list[0], ListBytes(list[1..], list[0].tag);
      RoundTrip.ReadKeyBytes(f.tag, last, f.value.OnWire(), f.value.Bytes() + rest);
      ReadBytes(f.value, rest);
      ListReads(list[1..], f.tag);
      assert [f] + list[1..] == list;
    }
  }

  lemma {:induction false} ReadsList(last: nat, b: seq<u8>)
    requires ReadList(last, b).Some?
    ensures var list := ReadList(last, b).value; InOrder(list, last) && ListBytes(list, last) == b
    decreases |b|
  {
    if b != [] {
      var key := ReadKey(last, b);
      var p := ReadOpaque(key.value.wireType, key.rest);
      RoundTrip.KeyIsKeyBytes(last, b);
      BytesRead(key.value.wireType, key.rest);
      ReadsList(key.value.tag, p.rest);
      var list := ReadList(last, b).value;
      assert list[1..] == ReadList(key.value.tag, p.rest).value;
    }
  }

  // ---------- messages as maps from tags to values ----------

  type Fields = map<u32, seq<OpaqueValue>>

  /** No tag without values: `insert` is the only way to add any. */
  ghost predicate Kept(m: Fields) {
    forall tag | tag in m :: m[tag] != []
  }

  /** `insert`: the value goes behind the others with the same tag. */
  function Put(m: Fields, f: OpaqueField): (r: Fields)
    ensures Kept(m) ==> Kept(r)
  {
    m[f.tag := (if f.tag in m then m[f.tag] else []) + [f.value]]
  }

  function Collect(m: Fields, list: seq<OpaqueField>): Fields
    decreases |list|
  {
    if list == [] then m else Collect(Put(m, list[0]), list[1..])
  }

  predicate IsLeast(keys: set<u32>, tag: u32) {
    tag in keys && forall other | other in keys :: tag <= other
  }

  lemma {:induction false} LeastExists(keys: set<u32>)
    requires keys != {}
    ensures exists tag :: IsLeast(keys, tag)
    decreases keys
  {
    var some :| some in keys;
    var rest := keys - {some};
    assert keys == rest + {some};
    if rest == {} {
      assert IsLeast(keys, some);
    } else {
      LeastExists(rest);
      var tag :| IsLeast(rest, tag);
      assert IsLeast(keys, if some <= tag then some else tag);
    }
  }

  function Least(keys: set<u32>): (tag: u32)
    requires keys != {}
    ensures IsLeast(keys, tag)
  {
    LeastExists(keys);
    var tag :| tag in keys && IsLeast(keys, tag);
    tag
  }

  /** One tag's fields. */
  function Each(tag: u32, values: seq<OpaqueValue>): seq<OpaqueField> {
    seq(|values|, i requires 0 <= i < |values| => OpaqueField(tag, values[i]))
  }

  /** What iteration yields: the tags in ascending order, the values of each in the order they were put in. */
  function Iterate(m: Fields): (list: seq<OpaqueField>)
    decreases |m.Keys|
  {
    if m == map[] then []
    else
      var tag := Least(m.Keys);
      assert |(m - {tag}).Keys| < |m.Keys| by {
        assert (m - {tag}).Keys == m.Keys - {tag};
      }
      Each(tag, m[tag]) + Iterate(m - {tag})
  }

  /** The values with one tag, in order. */
  function Of(list: seq<OpaqueField>, tag: u32): seq<OpaqueValue> {
    if list == [] then []
    else (if list[0].tag == tag then [list[0].value] else []) + Of(list[1..], tag)
  }

  lemma {:induction false} OfAppend(a: seq<OpaqueField>, b: seq<OpaqueField>, tag: u32)
    ensures Of(a + b, tag) == Of(a, tag) + Of(b, tag)
    decreases |a|
  {
    if a == [] {
      assert a + b == b;
    } else {
      assert (a + b)[1..] == a[1..] + b;
      OfAppend(a[1..], b, tag);
      Regroup(if a[0].tag == tag then [a[0].value] else [], Of(a[1..], tag), Of(b, tag));
    }
  }

  lemma {:induction false} OfEach(tag: u32, values: seq<OpaqueValue>, other: u32)
    ensures Of(Each(tag, values), other) == if other == tag then values else []
    decreases |values|
  {
    if values != [] {
      assert Each(tag, values)[1..] == Each(tag, values[1..]);
      OfEach(tag, values[1..], other);
      assert [values[0]] + values[1..] == values;
    }
  }

  /** Looks a tag up; what is not there has no values. */
  function Values(m: Fields, tag: u32): seq<OpaqueValue> {
    if tag in m then m[tag] else []
  }

  lemma {:induction false} IterateOf(m: Fields, tag: u32)
    ensures Of(Iterate(m), tag) == Values(m, tag)
    decreases |m.Keys|
  {
    if m != map[] {
      var least := Least(m.Keys);
      assert (m - {least}).Keys == m.Keys - {least};
      OfAppend(Each(least, m[least]), Iterate(m - {least}), tag);
      OfEach(least, m[least], tag);
      IterateOf(m - {least}, tag);
    }
  }

  lemma {:induction false} CollectOf(m: Fields, list: seq<OpaqueField>, tag: u32)
    requires Kept(m)
    ensures Kept(Collect(m, list)) && Values(Collect(m, list), tag) == Values(m, tag) + Of(list, tag)
    decreases |list|
  {
    if list != [] {
      CollectOf(Put(m, list[0]), list[1..], tag);
    }
  }

  /** Two maps without empty entries are equal if they hold the same values under every tag. */
  lemma {:induction false} SameFields(m: Fields, n: Fields)
    requires Kept(m) && Kept(n) && forall tag: u32 :: Values(m, tag) == Values(n, tag)
    ensures m == n
  {
    assert forall tag :: tag in m <==> tag in n by {
      forall tag ensures tag in m <==> tag in n {
        if tag in m { assert Values(n, tag) == m[tag]; }
        if tag in n { assert Values(m, tag) == n[tag]; }
      }
    }
    forall tag | tag in m ensures m[tag] == n[tag] {
      assert Values(m, tag) == Values(n, tag);
    }
  }

  /** Putting in all that iteration yields makes the same message again. */
  lemma {:induction false} CollectIterate(m: Fields)
    requires Kept(m)
    ensures Collect(map[], Iterate(m)) == m
  {
    CollectOf(map[], Iterate(m), 0);
    forall tag: u32 ensures Values(Collect(map[], Iterate(m)), tag) == Values(m, tag) {
      CollectOf(map[], Iterate(m), tag);
      IterateOf(m, tag);
    }
    SameFields(Collect(map[], Iterate(m)), m);
  }

  // ---------- order ----------

  lemma {:induction false} EachInOrder(tag: u32, values: seq<OpaqueValue>, rest: seq<OpaqueField>, last: nat)
    requires InOrder(rest, tag) && last <= tag && (values == [] ==> InOrder(rest, last))
    ensures InOrder(Each(tag, values) + rest, last)
    decreases |values|
  {
    if values == [] {
      assert Each(tag, values) + rest == rest;
    } else {
      assert (Each(tag, values) + rest)[1..] == Each(tag, values[1..]) + rest;
      EachInOrder(tag, values[1..], rest, tag);
    }
  }

  lemma {:induction false} IterateInOrder(m: Fields, last: nat)
    requires Kept(m) && forall tag | tag in m :: last <= tag
    ensures InOrder(Iterate(m), last)
    decreases |m.Keys|
  {
    if m != map[] {
      var least := Least(m.Keys);
      assert (m - {least}).Keys == m.Keys - {least};
      IterateInOrder(m - {least}, least);
      EachInOrder(least, m[least], Iterate(m - {least}), last);
    }
  }

  /** In a list in order nothing has a tag below the first. */
  lemma {:induction false} NoneBelow(list: seq<OpaqueField>, last: nat, tag: u32)
    requires InOrder(list, last) && tag < last
    ensures Of(list, tag) == []
    decreases |list|
  {
    if list != [] {
      NoneBelow(list[1..], list[0].tag, tag);
    }
  }

  lemma {:induction false} HeadOf(list: seq<OpaqueField>)
    requires list != []
    ensures Of(list, list[0].tag) != [] && Of(list, list[0].tag)[0] == list[0].value
  {
  }

  /** Lists in order are determined by the values under each tag. */
  lemma {:induction false} SameList(a: seq<OpaqueField>, b: seq<OpaqueField>, last: nat)
    requires InOrder(a, last) && InOrder(b, last) && forall tag: u32 :: Of(a, tag) == Of(b, tag)
    ensures a == b
    decreases |a|
  {
    if a == [] {
      if b != [] {
        HeadOf(b);
      }
    } else {
      HeadOf(a);
      assert b != [];
      HeadOf(b);
      if a[0].tag < b[0].tag {
        NoneBelow(b, b[0].tag, a[0].tag);
      } else if b[0].tag < a[0].tag {
        NoneBelow(a, a[0].tag, b[0].tag);
      }
      var t := a[0].tag;
      assert a[0].value == Of(a, t)[0] == Of(b, t)[0] == b[0].value;
      forall tag: u32 ensures Of(a[1..], tag) == Of(b[1..], tag) {
        assert Of(a, tag) == Of(b, tag);
        if tag == t {
          assert Of(a[1..], tag) == Of(a, tag)[1..] && Of(b[1..], tag) == Of(b, tag)[1..];
        } else {
          assert Of(a, tag) == Of(a[1..], tag) && Of(b, tag) == Of(b[1..], tag);
        }
      }
      SameList(a[1..], b[1..], t);
      assert a == [a[0]] + a[1..] && b == [b[0]] + b[1..];
    }
  }

  /** Iteration over what a list in order was put into yields the list again. */
  lemma {:induction false} IterateCollect(list: seq<OpaqueField>)
    requires InOrder(list, 0)
    ensures Kept(Collect(map[], list)) && Iterate(Collect(map[], list)) == list
  {
    var m := Collect(map[], list);
    CollectOf(map[], list, 0);
    IterateInOrder(m, 0);
    forall tag: u32 ensures Of(Iterate(m), tag) == Of(list, tag) {
      CollectOf(map[], list, tag);
      IterateOf(m, tag);
    }
    SameList(Iterate(m), list, 0);
  }

  // ---------- the bijection ----------

  function OpaqueBytes(m: Fields): seq<u8> {
    ListBytes(Iterate(m), 0)
  }

  function Decoded(b: seq<u8>): Option<Fields> {
    match ReadList(0, b)
    case None => None
    case Some(list) => Some(Collect(map[], list))
  }

  /** Decoding accepts exactly the encodings of messages: each gives its message, and encodes back to the same bytes. */
  lemma {:induction false} OpaqueBijection(m: Fields, b: seq<u8>)
    requires |b| < U64_END
    ensures Decoded(b) == Some(m) <==> Kept(m) && b == OpaqueBytes(m)
  {
    if Decoded(b) == Some(m) {
      ReadsList(0, b);
      IterateCollect(ReadList(0, b).value);
    }
    if Kept(m) && b == OpaqueBytes(m) {
      IterateInOrder(m, 0);
      ListReads(Iterate(m), 0);
      CollectIterate(m);
    }
  }

  // ---------- the message ----------

  class OpaqueMessage {
    var fields: Fields

    ghost predicate Valid()
      reads this
    {
      Kept(fields)
    }

    constructor ()
      ensures Valid() && fields == map[]
    {
      fields := map[];
    }

    method Clear()
      modifies this
      ensures Valid() && fields == map[]
    {
      fields := map[];
    }

    method Insert(tag: u32, value: OpaqueValue)
      requires Valid()
      modifies this
      ensures Valid() && fields == Put(old(fields), OpaqueField(tag, value))
    {
      fields := fields[tag := (if tag in fields then fields[tag] else []) + [value]];
    }

    method RawEncode(buf: ByteSink)
      requires Valid() && |OpaqueBytes(fields)| < U64_END
      modifies buf
      ensures buf.data == old(buf.data) + OpaqueBytes(fields)
    {
      var list := Iterate(fields);
      IterateInOrder(fields, 0);
      EncodeOpaqueFields(list, buf);
    }

    method RawPrepend(buf: ReverseBuffer)
      requires Valid() && |OpaqueBytes(fields)| < U64_END
      requires buf.Valid() && buf.CanGrow()
      modifies buf, buf.chunks
      ensures buf.Prepended(OpaqueBytes(fields))
    {
      var list := Iterate(fields);
      IterateInOrder(fields, 0);
      PrependOpaqueFields(list, buf);
    }

    method RawEncodedLen() returns (n: nat)
      requires Valid()
      ensures n == |OpaqueBytes(fields)|
    {
      var list := Iterate(fields);
      IterateInOrder(fields, 0);
      n := MeasureOpaqueFields(list);
    }

    /** `merge`: reads every field up to the cap. */
    method Merge(capped: Capped) returns (r: Result<()>)
      requires Valid() && capped.buf.Valid() && capped.extra <= |capped.buf.Bytes|
      modifies this, capped.buf
      ensures Valid() && capped.buf.Valid()
      ensures var list := ReadList(0, Before(old(capped.buf.Bytes), capped.extra));
              && (r.Ok? <==> list.Some?)
              && (r.Ok? ==>
                  fields == Collect(old(fields), list.value)
                    && capped.buf.Bytes == Beyond(old(capped.buf.Bytes), capped.extra))
    {
      ghost var start, extra := capped.buf.Bytes, capped.extra;
      ghost var whole := CollectAll(fields, ReadList(0, Before(start, extra)));
      var tr := new TagReader();
      while true
        invariant Valid() && capped.buf.Valid()
        invariant Going(start, capped.buf.Bytes, extra, whole,
                        CollectAll(fields, ReadList(tr.lastTag, Before(capped.buf.Bytes, extra))), None)
        decreases |capped.buf.Bytes|
      {
        var more :- capped.HasRemaining();
        if !more {
          return Ok(());
        }
        ghost var b, before := capped.buf.Bytes, fields;
        ghost var last := tr.lastTag;
        var key :- tr.DecodeKey(capped);
        ghost var keyed := capped.buf.Bytes;
        var decoded := DecodeOpaque(key.wireType, capped);
        FieldRead(before, last, b, keyed, capped.buf.Bytes, extra, key, decoded);
        var value :- decoded;
        Insert(key.tag, value);
      }
    }
  }

  function CollectAll(m: Fields, list: Option<seq<OpaqueField>>): Option<Fields> {
    if list.None? then None else Some(Collect(m, list.value))
  }

  lemma {:induction false} FieldRead(m: Fields, last: nat, b: seq<u8>, keyed: seq<u8>, after: seq<u8>, extra: nat,
                                     key: Key, r: Result<OpaqueValue>)
    requires extra <= |b| && Before(b, extra) != [] && key.tag < U32_END
    requires Isolated(b, keyed, extra, ReadKey(last, Before(b, extra)), Ok(key))
    requires Isolated(keyed, after, extra, ReadOpaque(key.wireType, Before(keyed, extra)), r)
    ensures var whole := CollectAll(m, ReadList(last, Before(b, extra)));
            if r.Ok? && extra <= |after| then
              && Beyond(after, extra) == Beyond(b, extra)
              && whole == CollectAll(Put(m, OpaqueField(key.tag, r.value)), ReadList(key.tag, Before(after, extra)))
            else whole == None
  {
    var k := ReadKey(last, Before(b, extra));
    if k.Parsed? {
      Rejoin(k.rest, Beyond(b, extra));
      var p := ReadOpaque(key.wireType, k.rest);
      if p.Parsed? {
        Rejoin(p.rest, Beyond(b, extra));
        var list := ReadList(key.tag, p.rest);
        if list.Some? {
          assert ([OpaqueField(key.tag, p.value)] + list.value)[1..] == list.value;
        }
      }
    }
  }

  /** `decode`: reads a whole buffer into an empty message. */
  method DecodeOpaqueMessage(buf: Cursor) returns (r: Result<OpaqueMessage>)
    requires buf.Valid()
    modifies buf
    ensures buf.Valid()
    ensures r.Ok? <==> Decoded(old(buf.Bytes)).Some?
    ensures r.Ok? ==>
              fresh(r.value) && r.value.Valid() && Some(r.value.fields) == Decoded(old(buf.Bytes)) && buf.Bytes == []
  {
    assert Before(buf.Bytes, 0) == buf.Bytes && Beyond(buf.Bytes, 0) == [];
    var message := new OpaqueMessage();
    var _ :- message.Merge(Capped(buf, 0));
    return Ok(message);
  }

  method EncodeOpaqueFields(list: seq<OpaqueField>, buf: ByteSink)
    requires InOrder(list, 0) && |ListBytes(list, 0)| < U64_END
    modifies buf
    ensures buf.data == old(buf.data) + ListBytes(list, 0)
  {
    var tw := new TagWriter();
    for i := 0 to |list|
      invariant InOrder(list[i..], tw.lastTag) && |ListBytes(list[i..], tw.lastTag)| < U64_END
      invariant old(buf.data) + ListBytes(list, 0) == buf.data + ListBytes(list[i..], tw.lastTag)
    {
      ghost var f, rest := list[i], ListBytes(list[i + 1..], list[i].tag);
      ghost var key := KeyBytes(f.tag, tw.lastTag, f.value.OnWire());
      assert list[i..][1..] == list[i + 1..];
      Regroup(buf.data, key, f.value.Bytes() + rest);
      Regroup(buf.data + key, f.value.Bytes(), rest);
      tw.EncodeKey(list[i].tag, list[i].value.OnWire(), buf);
      list[i].value.EncodeValue(buf);
    }
  }

  method MeasureOpaqueFields(list: seq<OpaqueField>) returns (n: nat)
    requires InOrder(list, 0)
    ensures n == |ListBytes(list, 0)|
  {
    var tm := new RuntimeTagMeasurer();
    n := 0;
    for i := 0 to |list|
      invariant InOrder(list[i..], tm.lastTag)
      invariant |ListBytes(list, 0)| == n + |ListBytes(list[i..], tm.lastTag)|
    {
      assert list[i..][1..] == list[i + 1..];
      var key := tm.KeyLen(list[i].tag);
      var value := list[i].value.ValueEncodedLen();
      n := n + key + value;
    }
  }

  /** What is written of the fields from number `i` on: everything but the first one's key. */
  ghost predicate PendingFields(list: seq<OpaqueField>, i: nat, key: Option<Key>, written: seq<u8>)
    requires i <= |list|
  {
    if i == |list| then key == None && written == []
    else
      && key == Some(Key(list[i].tag, list[i].value.OnWire()))
      && written == list[i].value.Bytes() + ListBytes(list[i + 1..], list[i].tag)
  }

  lemma {:induction false} PendingFieldsAll(list: seq<OpaqueField>, i: nat, key: Option<Key>, written: seq<u8>,
                                            last: nat)
    requires i <= |list| && PendingFields(list, i, key, written)
    ensures PendingKey(key, last) + written == ListBytes(list[i..], last)
  {
    if i < |list| {
      assert list[i..][1..] == list[i + 1..];
    }
  }

  lemma {:induction false} InOrderAt(list: seq<OpaqueField>, last: nat, i: nat)
    requires InOrder(list, last) && i < |list|
    ensures last <= list[i].tag && (i + 1 < |list| ==> list[i].tag <= list[i + 1].tag)
    ensures |list[i].value.Bytes()| <= |ListBytes(list, last)|
    decreases i
  {
    if i > 0 {
      InOrderAt(list[1..], list[0].tag, i - 1);
    }
  }

  method PrependOpaqueFields(list: seq<OpaqueField>, buf: ReverseBuffer)
    requires InOrder(list, 0) && |ListBytes(list, 0)| < U64_END
    requires buf.Valid() && buf.CanGrow()
    modifies buf, buf.chunks
    ensures buf.Prepended(ListBytes(list, 0))
  {
    var tw := new TagRevWriter();
    ghost var written := PrependOpaqueRun(list, buf, tw);
    PendingFieldsAll(list, 0, tw.currentKey, written, 0);
    assert list[0..] == list;
    ghost var key := PendingKey(tw.currentKey, 0);
    tw.Finalize(buf);
    Regroup(key, written, old(buf.Contents));
  }

  method PrependOpaqueRun(list: seq<OpaqueField>, buf: ReverseBuffer, tw: TagRevWriter) returns (ghost written: seq<u8>)
    requires InOrder(list, 0) && |ListBytes(list, 0)| < U64_END
    requires buf.Valid() && buf.CanGrow() && tw.currentKey == None
    modifies buf, buf.chunks, tw
    ensures PendingFields(list, 0, tw.currentKey, written)
    ensures buf.Prepended(written)
  {
    hide Flat, Total, Doubling, KeyBytes;
    written := [];
    var i := |list|;
    while i > 0
      invariant 0 <= i <= |list|
      invariant PendingFields(list, i, tw.currentKey, written)
      invariant buf.Prepended(written)
    {
      i := i - 1;
      ghost var value, key := list[i].value.Bytes(), PendingKey(tw.currentKey, list[i].tag);
      PendingFieldsStep(list, i, tw.currentKey, written);
      PrependOpaqueField(list[i], buf, tw);
      Regroup(value + key, written, old(buf.Contents));
      written := (value + key) + written;
    }
  }

  lemma {:induction false} PendingFieldsStep(list: seq<OpaqueField>, i: nat, key: Option<Key>, written: seq<u8>)
    requires InOrder(list, 0) && |ListBytes(list, 0)| < U64_END
    requires i < |list| && PendingFields(list, i + 1, key, written)
    ensures |list[i].value.Bytes()| < U64_END && (key.Some? ==> list[i].tag <= key.value.tag < U32_END)
    ensures PendingFields(list, i, Some(Key(list[i].tag, list[i].value.OnWire())),
                          (list[i].value.Bytes() + PendingKey(key, list[i].tag)) + written)
  {
    InOrderAt(list, 0, i);
    PendingFieldsAll(list, i + 1, key, written, list[i].tag);
    Regroup(list[i].value.Bytes(), PendingKey(key, list[i].tag), written);
  }

  method PrependOpaqueField(f: OpaqueField, buf: ReverseBuffer, tw: TagRevWriter)
    requires |f.value.Bytes()| < U64_END
    requires tw.currentKey.Some? ==> f.tag <= tw.currentKey.value.tag < U32_END
    requires buf.Valid() && buf.CanGrow()
    modifies tw, buf, buf.chunks
    ensures tw.currentKey == Some(Key(f.tag, f.value.OnWire()))
    ensures buf.Prepended(f.value.Bytes() + PendingKey(old(tw.currentKey), f.tag))
  {
    ghost var key := PendingKey(tw.currentKey, f.tag);
    tw.BeginField(f.tag, f.value.OnWire(), buf);
    f.value.PrependValue(buf);
    Regroup(f.value.Bytes(), key, old(buf.Contents));
  }
}
