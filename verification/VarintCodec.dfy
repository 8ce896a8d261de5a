/** The varint writers and readers, step by step as the library runs them. */
module VarintCodec {
  import opened Base
  import opened Buffers
  import opened Varint

  // ---------- writers ----------

  /** What is left of `value` once `i` bytes of it are written. */
  function Left(value: nat, i: nat): int {
    if i == 0 then value else Left(value, i - 1) / 0x80 - 1
  }

  lemma {:induction false} TailOf(value: u64, i: nat)
    requires i < |Encode(value)|
    ensures i <= 8 && 0 <= Left(value, i) < Capacity(9 - i)
    ensures Encode(value)[i..] == EncodeUpTo(Left(value, i), 9 - i)
  {
    if i == 0 {
      CapacityOf9();
    } else {
      TailOf(value, i - 1);
      var v, k := Left(value, i - 1), 10 - i;
      assert Encode(value)[i..] == Encode(value)[i - 1..][1..];
      assert |EncodeUpTo(v, k)| > 1 && EncodeUpTo(v, k)[1..] == EncodeUpTo(v / 0x80 - 1, k - 1);
    }
  }

  /** Byte `i` of a varint, and whether it is the last. */
  lemma {:induction false} ByteOf(value: u64, i: nat)
    requires i < |Encode(value)|
    ensures i <= 8 && 0 <= Left(value, i)
    ensures var v := Left(value, i);
            if i + 1 < |Encode(value)| then v >= 0x80 && i < 8 && Encode(value)[i] == v % 0x80 + 0x80
            else v < 0x100 && (v < 0x80 || i == 8) && Encode(value)[i] == v
  {
    TailOf(value, i);
    assert Encode(value)[i] == Encode(value)[i..][0];
    assert |Encode(value)[i..]| == |Encode(value)| - i;
  }

  /** `encode_varint` without unrolling. */
  method EncodeVarintLoop(value: u64, buf: ByteSink)
    modifies buf
    ensures buf.data == old(buf.data) + Encode(value)
  {
    ghost var goal := Encode(value);
    var v: u64 := value;
    for i := 0 to 9
      invariant i <= |goal| && buf.data == old(buf.data) + goal[..i]
      invariant i < |goal| ==> v == Left(value, i)
      invariant i < 9 ==> i < |goal|
    {
      ByteOf(value, i);
      assert goal[..i + 1] == goal[..i] + [goal[i]];
      if v < 0x80 {
        buf.PutU8(v);
        return;
      } else {
        buf.PutU8(v % 0x80 + 0x80);
        v := v / 0x80 - 1;
      }
    }
    LengthByLimit(value, 9);
  }

  /** The loop shared by the unrolled writers, which know beforehand that `n` bytes are needed. */
  method FillVarint(value: u64, n: nat) returns (data: seq<u8>)
    requires n == |Encode(value)| && 2 <= n
    ensures data == Encode(value)
  {
    ghost var goal := Encode(value);
    data := seq(n, _ => 0);
    var v: u64 := value;
    for i := 0 to n - 1
      invariant |data| == n && data[..i] == goal[..i]
      invariant v == Left(value, i)
    {
      ByteOf(value, i);
      data := data[i := v % 0x80 + 0x80];
      v := v / 0x80 - 1;
    }
    ByteOf(value, n - 1);
    data := data[n - 1 := v % 0x100];
    assert forall j | 0 <= j < n - 1 :: data[j] == data[..n - 1][j] == goal[..n - 1][j] == goal[j];
  }

  /** `encode_varint`, unrolled: the branch tree over the limits picks the loop's length. */
  method EncodeVarintUnrolled(value: u64, buf: ByteSink)
    modifies buf
    ensures buf.data == old(buf.data) + Encode(value)
  {
    EncodedLenIsLength(value);
    if value < LIMIT[1] {
      buf.PutU8(value);
    } else {
      var n;
      if value < LIMIT[5] {
        if value < LIMIT[3] {
          if value < LIMIT[2] { n := 2; } else { n := 3; }
        } else if value < LIMIT[4] { n := 4; } else { n := 5; }
      } else if value < LIMIT[7] {
        if value < LIMIT[6] { n := 6; } else { n := 7; }
      } else if value < LIMIT[8] { n := 8; } else { n := 9; }
      var data := FillVarint(value, n);
      buf.PutSlice(data);
    }
  }

  /** `const_varint`: the bytes at the start of a nine-byte array, and how many of them count. */
  method ConstVarint(value: u64) returns (data: seq<u8>, len: nat)
    ensures |data| == 9 && len <= 9 && data[..len] == Encode(value)
  {
    ghost var goal := Encode(value);
    data := seq(9, _ => 0);
    var v: u64 := value;
    var i := 0;
    while i < 9
      invariant 0 <= i <= 9 && |data| == 9 && i <= |goal| && data[..i] == goal[..i]
      invariant i < |goal| ==> v == Left(value, i)
      invariant i < 9 ==> i < |goal|
    {
      ByteOf(value, i);
      if v < 0x80 {
        data := data[i := v];
        len := i + 1;
        assert data[..len] == goal;
        return;
      }
      data := data[i := v % 0x80 + 0x80];
      v := v / 0x80 - 1;
      i := i + 1;
    }
    LengthByLimit(value, 9);
    return data, 9;
  }

  // ---------- readers ----------

  const POW128: seq<u64> := [
    1, 0x80, 0x4000, 0x20_0000, 0x1000_0000, 0x8_0000_0000, 0x400_0000_0000,
    0x2_0000_0000_0000, 0x100_0000_0000_0000
  ]

  /** The readers' running form: `n` bytes are behind, all with their high bit set, and add up to `v`. */
  function ReadFrom(b: seq<u8>, n: nat, v: nat): Option<Prefix>
    requires n <= 8 && n <= |b|
    decreases |b| - n
  {
    if n == |b| then None
    else if b[n] < 0x80 || n == 8 then Some(Prefix(v + b[n] * POW128[n], n + 1))
    else ReadFrom(b, n + 1, v + b[n] * POW128[n])
  }

  /** One more byte. */
  lemma {:induction false} ReadStep(b: seq<u8>, n: nat, v: nat)
    requires n <= 8 && n < |b|
    ensures var sum := v + b[n] * POW128[n];
            ReadFrom(b, n, v) == if b[n] < 0x80 || n == 8 then Some(Prefix(sum, n + 1)) else ReadFrom(b, n + 1, sum)
  {
  }

  /** Out of bytes before the end of a varint. */
  lemma {:induction false} NoneLeft(b: seq<u8>, v: nat)
    requires |b| <= 8
    ensures ReadFrom(b, |b|, v) == None
  {
  }

  lemma {:induction false} RunningForm(b: seq<u8>, n: nat, v: nat)
    requires n <= 8 && n <= |b|
    ensures ReadFrom(b, n, v) ==
            match DecodeUpTo(b[n..], 9 - n)
            case Some(p) => Some(Prefix(v + POW128[n] * p.value, n + p.len))
            case None => None
    decreases 8 - n
  {
    hide ReadFrom;
    if n == |b| {
      NoneLeft(b, v);
    } else {
      ReadStep(b, n, v);
      if b[n] >= 0x80 && n < 8 {
        RunningForm(b, n + 1, v + b[n] * POW128[n]);
        assert b[n..][1..] == b[n + 1..];
        if DecodeUpTo(b[n + 1..], 8 - n).Some? {
          Scale(n, b[n], DecodeUpTo(b[n + 1..], 8 - n).value.value);
        }
      }
    }
  }

  lemma {:induction false} Scale(n: nat, byte: u8, rest: nat)
    requires n < 8
    ensures POW128[n] * (byte + 128 * rest) == byte * POW128[n] + POW128[n + 1] * rest
  {
    var p := POW128[n];
    assert POW128[n + 1] == 128 * p;
    assert p * (byte + 128 * rest) == p * byte + p * (128 * rest) == byte * p + (128 * p) * rest;
  }

  lemma {:induction false} ReadFromStart(b: seq<u8>)
    ensures ReadFrom(b, 0, 0) == DecodeUpTo(b, 9)
  {
    RunningForm(b, 0, 0);
    assert b[0..] == b;
  }

  /** What a decode call reports about the bytes in front of it. */
  function Outcome(b: seq<u8>): (r: Result<u64>)
    ensures r
            == match Decode(b) case Got(v, _) => Ok(v) case Short => Err(Truncated) case Overflow => Err(InvalidVarint)
  {
    Report(DecodeUpTo(b, 9))
  }

  function Report(p: Option<Prefix>): Result<u64> {
    if p.None? then Err(Truncated)
    else if p.value.value < U64_END then Ok(p.value.value)
    else Err(InvalidVarint)
  }

  /** `decode_varint_slice`: fully unrolled, in two 28-bit halves held in 32 bits each. */
  method DecodeVarintSlice(bytes: seq<u8>) returns (r: Result<u64>, len: nat)
    requires bytes != []
    requires |bytes| >= 9 || bytes[|bytes| - 1] < 0x80
    ensures r == Report(ReadFrom(bytes, 0, 0))
    ensures r.Ok? ==> len == ReadFrom(bytes, 0, 0).value.len
    ensures r.Err? ==> |bytes| >= 9 && len == 0
  {
    var b: u8 := bytes[0];
    var part0: u32 := b;
    if b < 0x80 { return Ok(part0), 1; }
    b := bytes[1];
    part0 := part0 + b * 0x80;
    if b < 0x80 { return Ok(part0), 2; }
    assert ReadFrom(bytes, 0, 0) == ReadFrom(bytes, 2, part0);
    b := bytes[2];
    part0 := part0 + b * 0x4000;
    if b < 0x80 { return Ok(part0), 3; }
    assert ReadFrom(bytes, 0, 0) == ReadFrom(bytes, 3, part0);
    b := bytes[3];
    part0 := part0 + b * 0x20_0000;
    if b < 0x80 { return Ok(part0), 4; }
    var value: u64 := part0;

    r, len := DecodeHighHalf(bytes, value);
  }

  /** The second half of the unrolled reader, which runs once four bytes all had their high bit set. */
  method DecodeHighHalf(bytes: seq<u8>, low: u64) returns (r: Result<u64>, len: nat)
    requires |bytes| > 4 && (|bytes| >= 9 || bytes[|bytes| - 1] < 0x80) && low < 0x4000_0000
    ensures r == Report(ReadFrom(bytes, 4, low))
    ensures r.Ok? ==> len == ReadFrom(bytes, 4, low).value.len
    ensures r.Err? ==> |bytes| >= 9 && len == 0
  {
    hide ReadFrom;
    ReadStep(bytes, 4, low);
    var value := low;
    var b: u8 := bytes[4];
    var part1: u32 := b;
    if b < 0x80 { return Ok(value + part1 * 0x1000_0000), 5; }
    ReadStep(bytes, 5, value + part1 * 0x1000_0000);
    b := bytes[5];
    part1 := part1 + b * 0x80;
    if b < 0x80 { return Ok(value + part1 * 0x1000_0000), 6; }
    ReadStep(bytes, 6, value + part1 * 0x1000_0000);
    b := bytes[6];
    part1 := part1 + b * 0x4000;
    if b < 0x80 { return Ok(value + part1 * 0x1000_0000), 7; }
    ReadStep(bytes, 7, value + part1 * 0x1000_0000);
    b := bytes[7];
    part1 := part1 + b * 0x20_0000;
    if b < 0x80 { return Ok(value + part1 * 0x1000_0000), 8; }
    value := value + part1 * 0x1000_0000;

    ReadStep(bytes, 8, value);
    b := bytes[8];
    if b + value / 0x100_0000_0000_0000 > 0xFF {
      return Err(InvalidVarint), 0;
    } else {
      return Ok(value + b * 0x100_0000_0000_0000), 9;
    }
  }

  /** `decode_varint_slow`: byte by byte, with a checked addition for the ninth. */
  method DecodeVarintSlow(buf: Cursor) returns (r: Result<u64>)
    requires buf.Valid()
    modifies buf
    ensures buf.Valid()
    ensures r == Outcome(old(buf.Bytes))
    ensures buf.Bytes == old(buf.Bytes)[Consumed(old(buf.Bytes))..]
  {
    hide ReadFrom, DecodeUpTo;
    ghost var all := buf.Bytes;
    ReadFromStart(all);
    var value: u64 := 0;
    var remaining := buf.Remaining();
    for count := 0 to Min(8, remaining)
      invariant buf.Valid() && buf.Bytes == all[count..]
      invariant DecodeUpTo(all, 9) == ReadFrom(all, count, value)
      invariant 127 * value <= 255 * (POW128[count] - 1)
    {
      ReadStep(all, count, value);
      SumBound(value, all[count], count);
      var byte := buf.GetU8();
      value := value + byte * POW128[count];
      if byte < 0x80 {
        return Ok(value);
      }
    }
    if remaining <= 8 {
      NoneLeft(all, value);
    }
    var more := buf.Remaining();
    if more == 0 {
      return Err(Truncated);
    }
    ReadStep(all, 8, value);
    var last: int := buf.GetU8();
    var sum := value + last * 0x100_0000_0000_0000;
    return if sum < U64_END then Ok(sum) else Err(InvalidVarint);
  }

  lemma {:induction false} SumBound(value: nat, byte: u8, n: nat)
    requires n < 8 && 127 * value <= 255 * (POW128[n] - 1)
    ensures value + byte * POW128[n] < U64_END
    ensures 127 * (value + byte * POW128[n]) <= 255 * (POW128[n + 1] - 1)
  {
    assert POW128[n + 1] == 128 * POW128[n];
    assert byte * POW128[n] <= 255 * POW128[n];
  }

  /** `decode_varint`: the slice path when the first chunk is known to hold the whole varint. */
  method DecodeVarint(buf: Cursor) returns (r: Result<u64>)
    requires buf.Valid()
    modifies buf
    ensures buf.Valid()
    ensures r == Outcome(old(buf.Bytes))
    ensures buf.Bytes == old(buf.Bytes)[Consumed(old(buf.Bytes))..]
  {
    ghost var all := buf.Bytes;
    var bytes := buf.Chunk();
    var len := |bytes|;
    if len == 0 {
      return Err(Truncated);
    }
    var byte := bytes[0];
    if byte < 0x80 {
      buf.Advance(1);
      r := Ok(byte);
    } else if len >= 9 || bytes[len - 1] < 0x80 {
      ReadFromStart(bytes);
      var result, advance := DecodeVarintSlice(bytes);
      ghost var rest := all[len..];
      assert all == bytes + rest;
      FirstChunkDecides(bytes, rest);
      DecodeMeaning(bytes);
      buf.Advance(if result.Ok? then advance else 9);
      r := result;
    } else {
      r := DecodeVarintSlow(buf);
    }
  }

  /** A chunk that holds a whole varint, valid or not, decides the read whatever follows it. */
  lemma {:induction false} FirstChunkDecides(bytes: seq<u8>, rest: seq<u8>)
    requires bytes != []
    requires |bytes| >= 9 || bytes[|bytes| - 1] < 0x80
    ensures Decode(bytes + rest) == Decode(bytes) && Consumed(bytes + rest) == Consumed(bytes)
  {
    DecodeUpToMeaning(bytes, 9);
    if DecodeUpTo(bytes, 9).Some? {
      var n := DecodeUpTo(bytes, 9).value.len;
      DecodeUpToEncoded(bytes[..n], 9, bytes[n..] + rest);
      assert bytes + rest == bytes[..n] + (bytes[n..] + rest);
    }
  }
}
