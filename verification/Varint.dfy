/** LEB128-bijective varints: what they mean, and that encoding is a bijection onto them. */
module Varint {
  import opened Base

  /** The number that a string of varint bytes stands for: base 128, and the high bit is never removed. */
  function Val(bs: seq<u8>): nat {
    if bs == [] then 0 else bs[0] + 128 * Val(bs[1..])
  }

  /** The valid varints: a byte below 0x80 ends one, the ninth byte always does, and the value fits 64 bits. */
  ghost predicate IsVarint(bs: seq<u8>) {
    && 1 <= |bs| <= 9
    && (forall i | 0 <= i < |bs| - 1 :: bs[i] >= 0x80)
    && (|bs| < 9 ==> bs[|bs| - 1] < 0x80)
    && Val(bs) < U64_END
  }

  /** Encodes with at most `k` bytes left to write; the last of them holds eight bits. */
  function EncodeUpTo(v: nat, k: nat): (bs: seq<u8>)
    requires k >= 1
    decreases v
  {
    if v < 0x80 then [v]
    else if k == 1 then [Min(v, 0xFF)]
    else [v % 128 + 128] + EncodeUpTo(v / 128 - 1, k - 1)
  }

  /** The varint of `v`, which is meaningful for 64-bit values. */
  function Encode(v: nat): (bs: seq<u8>) {
    EncodeUpTo(v, 9)
  }

  /** The smallest values whose varint takes index + 1 bytes. */
  const LIMIT: seq<u64> := [
    0, 0x80, 0x4080, 0x20_4080, 0x1020_4080, 0x8_1020_4080, 0x408_1020_4080,
    0x2_0408_1020_4080, 0x102_0408_1020_4080
  ]

  /** `encoded_len_varint`: the branch tree over the limits. */
  function EncodedLen(v: nat): (n: nat) {
    if v < LIMIT[1] then 1
    else if v < LIMIT[5] then
      if v < LIMIT[3] then
        if v < LIMIT[2] then 2 else 3
      else if v < LIMIT[4] then 4 else 5
    else if v < LIMIT[7] then
      if v < LIMIT[6] then 6 else 7
    else if v < LIMIT[8] then 8 else 9
  }

  datatype Prefix = Prefix(value: nat, len: nat)

  /** Reads at most `k` bytes: the number and its length, unless the bytes end first. */
  function DecodeUpTo(b: seq<u8>, k: nat): (r: Option<Prefix>)
    requires k >= 1
    ensures r.Some? ==> 1 <= r.value.len <= |b| && r.value.len <= k
    decreases |b|
  {
    if b == [] then None
    else if b[0] < 0x80 || k == 1 then Some(Prefix(b[0], 1))
    else
      match DecodeUpTo(b[1..], k - 1)
      case Some(p) => Some(Prefix(b[0] + 128 * p.value, p.len + 1))
      case None => None
  }

  datatype Read = Got(value: nat, len: nat) | Short | Overflow

  /** Reads one varint from the start of `b`. */
  function Decode(b: seq<u8>): (r: Read)
    ensures r.Got? ==> 1 <= r.len <= |b| && r.len <= 9 && r.value < U64_END
  {
    match DecodeUpTo(b, 9)
    case Some(p) => if p.value < U64_END then Got(p.value, p.len) else Overflow
    case None => Short
  }

  /** How many bytes a read takes from the buffer, failed reads included. */
  function Consumed(b: seq<u8>): (n: nat)
    ensures n <= |b|
  {
    match Decode(b)
    case Got(_, n) => n
    case Short => |b|
    case Overflow => DecodeUpTo(b, 9).value.len
  }

  // ---------- the bijection ----------

  /** Values that fit in at most `k` bytes. */
  function Capacity(k: nat): nat {
    if k <= 1 then 0x100 else 128 * Capacity(k - 1) + 128
  }

  ghost predicate IsVarintUpTo(bs: seq<u8>, k: nat) {
    && 1 <= |bs| <= k
    && (forall i | 0 <= i < |bs| - 1 :: bs[i] >= 0x80)
    && (|bs| < k ==> bs[|bs| - 1] < 0x80)
  }

  lemma {:induction false} EncodeUpToIsVarint(v: nat, k: nat)
    requires 1 <= k && v < Capacity(k)
    ensures IsVarintUpTo(EncodeUpTo(v, k), k) && Val(EncodeUpTo(v, k)) == v
    decreases k
  {
    var bs := EncodeUpTo(v, k);
    if v >= 0x80 && k > 1 {
      EncodeUpToIsVarint(v / 128 - 1, k - 1);
      assert bs[1..] == EncodeUpTo(v / 128 - 1, k - 1);
    } else {
      assert bs[1..] == [];
    }
  }

  lemma {:induction false} EncodeUpToUnique(bs: seq<u8>, k: nat)
    requires IsVarintUpTo(bs, k)
    ensures EncodeUpTo(Val(bs), k) == bs
    decreases k
  {
    if |bs| == 1 {
      assert bs[1..] == [];
      assert bs == [bs[0]];
    } else {
      hide EncodeUpTo;
      EncodeUpToUnique(bs[1..], k - 1);
      EncodeStep(bs[0], Val(bs[1..]), k);
    }
  }

  lemma {:induction false} EncodeStep(byte: u8, rest: nat, k: nat)
    requires byte >= 0x80 && k > 1
    ensures EncodeUpTo(byte + 128 * rest, k) == [byte] + EncodeUpTo(rest, k - 1)
  {
    var v := byte + 128 * rest;
    assert v / 128 - 1 == rest && v % 128 + 128 == byte;
  }

  /** Every 64-bit value encodes to a valid varint that stands for it. */
  lemma {:induction false} EncodeIsVarint(v: nat)
    requires v < U64_END
    ensures IsVarint(Encode(v)) && Val(Encode(v)) == v
  {
    CapacityOf9();
    EncodeUpToIsVarint(v, 9);
  }

  lemma {:induction false} CapacityOf9()
    ensures Capacity(9) >= U64_END
  {
    assert Capacity(3) == 128 * (128 * 0x100 + 128) + 128;
    assert Capacity(5) == 128 * (128 * Capacity(3) + 128) + 128;
    assert Capacity(7) == 128 * (128 * Capacity(5) + 128) + 128;
    assert Capacity(9) == 128 * (128 * Capacity(7) + 128) + 128;
  }

  /** Every valid varint is the encoding of the value that it stands for. */
  lemma {:induction false} EncodeUnique(bs: seq<u8>)
    requires IsVarint(bs)
    ensures Encode(Val(bs)) == bs
  {
    EncodeUpToUnique(bs, 9);
  }

  lemma {:induction false} DecodeUpToMeaning(b: seq<u8>, k: nat)
    requires k >= 1
    ensures match DecodeUpTo(b, k)
            case Some(p) => IsVarintUpTo(b[..p.len], k) && Val(b[..p.len]) == p.value
            case None => |b| < k && forall i | 0 <= i < |b| :: b[i] >= 0x80
    decreases k
  {
    if b != [] && b[0] >= 0x80 && k > 1 {
      DecodeUpToMeaning(b[1..], k - 1);
      match DecodeUpTo(b[1..], k - 1) {
        case Some(p) =>
          assert b[..p.len + 1][1..] == b[1..][..p.len];
        case None =>
          assert forall i | 1 <= i < |b| :: b[i] == b[1..][i - 1];
      }
    } else if b != [] {
      assert b[..1][1..] == [];
    }
  }

  /** Reading succeeds exactly on the valid varints, and says what else can be there. */
  lemma {:induction false} DecodeMeaning(b: seq<u8>)
    ensures match Decode(b)
            case Got(v, n) => IsVarint(b[..n]) && Val(b[..n]) == v
            case Short => |b| < 9 && forall i | 0 <= i < |b| :: b[i] >= 0x80
            case Overflow =>
              |b| >= 9 && (forall i | 0 <= i < 8 :: b[i] >= 0x80) && Val(b[..9]) >= U64_END && Consumed(b) == 9
  {
    DecodeUpToMeaning(b, 9);
    match DecodeUpTo(b, 9) {
      case Some(p) =>
        if p.len < 9 {
          SmallValue(b[..p.len]);
        }
      case None =>
    }
  }

  lemma {:induction false} ValBound(bs: seq<u8>, k: nat)
    requires IsVarintUpTo(bs, k)
    ensures Val(bs) < Capacity(k)
    decreases k
  {
    if |bs| > 1 {
      ValBound(bs[1..], k - 1);
    } else {
      assert bs[1..] == [];
      CapacityPositive(k);
    }
  }

  lemma {:induction false} CapacityPositive(k: nat)
    ensures Capacity(k) >= 0x100
  {
  }

  /** Only nine bytes can overflow. */
  lemma {:induction false} SmallValue(bs: seq<u8>)
    requires 1 <= |bs| <= 8 && IsVarintUpTo(bs, 9)
    ensures Val(bs) < U64_END
  {
    assert IsVarintUpTo(bs, 8);
    ValBound(bs, 8);
    assert Capacity(2) == 128 * 0x100 + 128;
    assert Capacity(4) == 128 * (128 * Capacity(2) + 128) + 128;
    assert Capacity(6) == 128 * (128 * Capacity(4) + 128) + 128;
    assert Capacity(8) == 128 * (128 * Capacity(6) + 128) + 128;
  }

  lemma {:induction false} DecodeUpToEncoded(bs: seq<u8>, k: nat, tail: seq<u8>)
    requires IsVarintUpTo(bs, k)
    ensures DecodeUpTo(bs + tail, k) == Some(Prefix(Val(bs), |bs|))
    decreases k
  {
    if |bs| > 1 {
      DecodeUpToEncoded(bs[1..], k - 1, tail);
      assert (bs + tail)[1..] == bs[1..] + tail;
    } else {
      assert bs[1..] == [];
    }
  }

  /** Varints delimit themselves: whatever follows, reading gives back the value and its length. */
  lemma {:induction false} DecodeEncoded(v: nat, tail: seq<u8>)
    requires v < U64_END
    ensures Decode(Encode(v) + tail) == Got(v, |Encode(v)|)
    ensures (Encode(v) + tail)[|Encode(v)|..] == tail
  {
    EncodeIsVarint(v);
    DecodeUpToEncoded(Encode(v), 9, tail);
  }

  /** Whenever a read succeeds, the bytes it took are exactly the encoding of its result. */
  lemma {:induction false} DecodedIsEncoding(b: seq<u8>)
    requires Decode(b).Got?
    ensures b[..Decode(b).len] == Encode(Decode(b).value)
    ensures b == Encode(Decode(b).value) + b[Decode(b).len..]
  {
    DecodeMeaning(b);
    EncodeUnique(b[..Decode(b).len]);
  }

  /** A read looks at nothing past the bytes it takes. */
  lemma {:induction false} DecodeLocal(b: seq<u8>, tail: seq<u8>)
    requires Decode(b).Got?
    ensures Decode(b + tail) == Decode(b)
  {
    DecodedIsEncoding(b);
    var e, v := Encode(Decode(b).value), Decode(b).value;
    DecodeEncoded(v, b[|e|..] + tail);
    assert b + tail == e + (b[|e|..] + tail);
  }

  /** A read that fails inside a region fails in any longer buffer or runs past the region's end. */
  lemma {:induction false} DecodeExtended(b: seq<u8>, tail: seq<u8>)
    requires !Decode(b).Got?
    ensures Decode(b + tail).Got? ==> Decode(b + tail).len > |b|
    ensures Decode(b + tail).Overflow? ==> Consumed(b + tail) == 9
  {
    DecodeMeaning(b + tail);
    if Decode(b + tail).Got? && Decode(b + tail).len <= |b| {
      var n := Decode(b + tail).len;
      DecodedIsEncoding(b + tail);
      assert (b + tail)[..n] == b[..n];
      assert b == Encode(Decode(b + tail).value) + b[n..];
      DecodeEncoded(Decode(b + tail).value, b[n..]);
    }
  }

  /** The smallest value that needs more than `n` bytes. */
  function Limit(n: nat): nat {
    if n == 0 then 0 else 128 * Limit(n - 1) + 128
  }

  lemma {:induction false} LengthByLimit(v: nat, k: nat)
    requires 1 <= k
    ensures var n := |EncodeUpTo(v, k)|; 1 <= n <= k && Limit(n - 1) <= v && (n < k ==> v < Limit(n))
    decreases k
  {
    if v < 0x80 || k == 1 {
      assert Limit(1) == 0x80;
    } else {
      LengthByLimit(v / 128 - 1, k - 1);
    }
  }

  lemma {:induction false} LimitTable()
    ensures forall i | 0 <= i < 9 :: LIMIT[i] == Limit(i)
  {
    assert Limit(2) == 0x4080;
    assert Limit(4) == 0x1020_4080;
    assert Limit(6) == 0x408_1020_4080;
    assert Limit(8) == 0x102_0408_1020_4080;
  }

  lemma {:induction false} LimitMonotone(m: nat, n: nat)
    requires m <= n
    ensures Limit(m) <= Limit(n)
    decreases n
  {
    if m < n {
      LimitMonotone(m, n - 1);
    }
  }

  /** The branch tree over the limits gives the number of bytes written. */
  lemma {:induction false} EncodedLenIsLength(v: nat)
    ensures |Encode(v)| == EncodedLen(v)
  {
    LengthByLimit(v, 9);
    LimitTable();
    var n := |Encode(v)|;
    if EncodedLen(v) < n {
      LimitMonotone(EncodedLen(v), n - 1);
    } else if n < EncodedLen(v) {
      LimitMonotone(n, EncodedLen(v) - 1);
    }
  }
}
