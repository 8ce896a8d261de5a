/** The varint writers for the prepend-only buffer. */
module VarintPrepend {
  import opened Base
  import opened Varint
  import opened VarintCodec
  import opened ReverseBuffers

  /** `prepend_varint` without unrolling: the bytes are laid out forward, then prepended at once. */
  method PrependVarintLoop(value: u64, buf: ReverseBuffer)
    requires buf.Valid() && buf.CanGrow()
    modifies buf, buf.chunks
    ensures buf.Prepended(Encode(value))
  {
    if value < 0x80 {
      buf.PrependU8(value);
      return;
    }
    var data := LayOut(value);
    buf.PrependSlice(data);
  }

  /** The loop over a nine-byte array; what counts of the array is returned. */
  method LayOut(value: u64) returns (data: seq<u8>)
    ensures data == Encode(value)
  {
    ghost var goal := Encode(value);
    var v: u64 := value;
    data := seq(9, _ => 0);
    var i := 0;
    while i < 9
      invariant 0 <= i <= 9 && |data| == 9 && i <= |goal| && data[..i] == goal[..i]
      invariant i < |goal| ==> v == Left(value, i)
      invariant i < 9 ==> i < |goal|
    {
      ByteOf(value, i);
      if v < 0x80 {
        data := data[i := v];
        assert data[..i + 1] == goal;
        return data[..i + 1];
      }
      data := data[i := v % 0x80 + 0x80];
      v := v / 0x80 - 1;
      i := i + 1;
    }
    LengthByLimit(value, 9);
  }

  /** `prepend_varint`, unrolled. */
  method PrependVarintUnrolled(value: u64, buf: ReverseBuffer)
    requires buf.Valid() && buf.CanGrow()
    modifies buf, buf.chunks
    ensures buf.Prepended(Encode(value))
  {
    EncodedLenIsLength(value);
    if value < LIMIT[1] {
      buf.PrependU8(value);
    } else {
      var n;
      if value < LIMIT[5] {
        if value < LIMIT[3] {
          if value < LIMIT[2] { n := 2; } else { n := 3; }
        } else if value < LIMIT[4] { n := 4; } else { n := 5; }
      } else if value < LIMIT[7] {
        if value < LIMIT[6] { n := 6; } else { n := 7; }
      } else if value < LIMIT[8] { n := 8; } else { n := 9; }
      var data := FillVarint(value, n);
      buf.PrependSlice(data);
    }
  }
}
