/** Reading the wire's own structure from a region of bytes: varints, keys, regions, skipped fields. */
module Wire {
  import opened Base
  import opened Schemas
  import opened Varint

  /** A value read from the front of a region, and what is left of the region. */
  datatype Parsed<+T> = Parsed(value: T, rest: seq<u8>) | Rejected

  function ReadVarint(b: seq<u8>): (r: Parsed<nat>)
    ensures r.Parsed? ==> |r.rest| < |b| && r.value < U64_END && r.rest == b[|b| - |r.rest|..]
  {
    match Decode(b)
    case Got(v, n) => Parsed(v, b[n..])
    case _ => Rejected
  }

  /** A length and the region that it delimits. */
  function ReadRegion(b: seq<u8>): (r: Parsed<seq<u8>>)
    ensures r.Parsed? ==> |r.rest| < |b| && |r.value| + |r.rest| < |b| && r.rest == b[|b| - |r.rest|..]
  {
    match ReadVarint(b)
    case Parsed(n, rest) => if n <= |rest| then Parsed(rest[..n], rest[n..]) else Rejected
    case Rejected => Rejected
  }

  /** A fixed number of bytes. */
  function ReadFixed(n: nat, b: seq<u8>): (r: Parsed<seq<u8>>)
    ensures r.Parsed? ==> |r.rest| == |b| - n && r.rest == b[|b| - |r.rest|..]
  {
    if n <= |b| then Parsed(b[..n], b[n..]) else Rejected
  }

  datatype Key = Key(tag: nat, wireType: WireType)

  /** `TagReader::decode_key`, after a field with tag `last`. */
  function ReadKey(last: nat, b: seq<u8>): (r: Parsed<Key>)
    ensures r.Parsed? ==> |r.rest| < |b| && last <= r.value.tag < U32_END && r.rest == b[|b| - |r.rest|..]
  {
    match ReadVarint(b)
    case Rejected => Rejected
    case Parsed(key, rest) =>
      if key / 4 < U32_END && last + key / 4 < U32_END
      then Parsed(Key(last + key / 4, WireType.FromCode(key)), rest)
      else Rejected
  }

  /** `peek_repeated_field`: whether the next field has the same tag, and with what wire type. */
  function PeekRepeated(b: seq<u8>): Option<WireType> {
    if b == [] || b[0] >= 4 then None else Some(WireType.FromCode(b[0]))
  }

  /** Skips the value of one field. */
  function SkipValue(w: WireType, b: seq<u8>): (r: Parsed<()>)
    ensures r.Parsed? ==> |r.rest| < |b| && r.rest == b[|b| - |r.rest|..]
  {
    match w
    case Varint => (match ReadVarint(b) case Parsed(_, rest) => Parsed((), rest) case Rejected => Rejected)
    case LengthDelimited => (match ReadRegion(b) case Parsed(_, rest) => Parsed((), rest) case Rejected => Rejected)
    case ThirtyTwoBit => if 4 <= |b| then Parsed((), b[4..]) else Rejected
    case SixtyFourBit => if 8 <= |b| then Parsed((), b[8..]) else Rejected
  }

  /** `skip_field`: skips a value and every field after it that has the same tag. */
  function SkipField(w: WireType, b: seq<u8>): (r: Parsed<()>)
    ensures r.Parsed? ==> |r.rest| < |b| && r.rest == b[|b| - |r.rest|..]
    decreases |b|
  {
    match SkipValue(w, b)
    case Rejected => Rejected
    case Parsed(_, rest) =>
      match PeekRepeated(rest)
      case None => Parsed((), rest)
      case Some(next) => SkipField(next, rest[1..])
  }

  /** The position of the field with this tag. */
  function FindField(fields: seq<Field>, tag: nat): (k: nat)
    ensures k <= |fields| && (k < |fields| ==> fields[k].tag == tag)
    ensures forall j | 0 <= j < k :: fields[j].tag != tag
    decreases |fields|
  {
    if fields == [] || fields[0].tag == tag then 0 else FindField(fields[1..], tag) + 1
  }
}
