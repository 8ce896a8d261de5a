/** The `bytes` crate's buffer contracts: a growing byte sink and a chunked, draining reader. */
module Buffers {
  import opened Base

  /** All the bytes of a list of chunks, front to back. */
  function Joined(chunks: seq<seq<u8>>): seq<u8> {
    if chunks == [] then [] else chunks[0] + Joined(chunks[1..])
  }

  /** A `BufMut` that grows, such as a `Vec<u8>`. */
  class ByteSink {
    var data: seq<u8>

    constructor ()
      ensures data == []
    {
      data := [];
    }

    method PutU8(byte: u8)
      modifies this
      ensures data == old(data) + [byte]
    {
      data := data + [byte];
    }

    method PutSlice(bytes: seq<u8>)
      modifies this
      ensures data == old(data) + bytes
    {
      data := data + bytes;
    }
  }

  /** A `Buf`: bytes that are read from the front, held in any number of non-empty chunks. */
  class Cursor {
    var chunks: seq<seq<u8>>
    /** What is still to be read. */
    ghost var Bytes: seq<u8>

    ghost predicate Valid()
      reads this
    {
      Bytes == Joined(chunks) && forall i | 0 <= i < |chunks| :: chunks[i] != []
    }

    constructor (pieces: seq<seq<u8>>)
      requires forall i | 0 <= i < |pieces| :: pieces[i] != []
      ensures Valid() && Bytes == Joined(pieces)
    {
      chunks, Bytes := pieces, Joined(pieces);
    }

    /** Empty only when nothing is left. */
    function Chunk(): (bs: seq<u8>)
      requires Valid()
      reads this
      ensures bs <= Bytes && (bs == [] <==> Bytes == [])
    {
      if chunks == [] then [] else chunks[0]
    }

    method Remaining() returns (n: nat)
      requires Valid()
      ensures n == |Bytes|
    {
      n := 0;
      var i := |chunks|;
      while i > 0
        invariant 0 <= i <= |chunks|
        invariant n == |Joined(chunks[i..])|
      {
        i := i - 1;
        assert chunks[i..][1..] == chunks[i + 1..];
        n := n + |chunks[i]|;
      }
      assert chunks[0..] == chunks;
    }

    method Advance(count: nat)
      requires Valid() && count <= |Bytes|
      modifies this
      ensures Valid() && Bytes == old(Bytes)[count..]
    {
      var left: nat := count;
      while left > 0
        invariant Valid() && left <= |Bytes|
        invariant Bytes[left..] == old(Bytes)[count..]
        decreases left
      {
        var first, rest := chunks[0], chunks[1..];
        assert Bytes == first + Joined(rest);
        if left < |first| {
          chunks := [first[left..]] + rest;
          assert chunks[1..] == rest;
          Bytes := Bytes[left..];
          left := 0;
        } else {
          left := left - |first|;
          chunks, Bytes := rest, Joined(rest);
        }
      }
    }

    method GetU8() returns (byte: u8)
      requires Valid() && Bytes != []
      modifies this
      ensures Valid() && byte == old(Bytes)[0] && Bytes == old(Bytes)[1..]
    {
      byte := Chunk()[0];
      Advance(1);
    }

    /** Reads exactly `count` bytes, chunk by chunk. */
    method Take(count: nat) returns (taken: seq<u8>)
      requires Valid() && count <= |Bytes|
      modifies this
      ensures Valid() && old(Bytes) == taken + Bytes && |taken| == count
    {
      taken := [];
      while |taken| < count
        invariant Valid() && |taken| <= count
        invariant taken + Bytes == old(Bytes)
      {
        var piece := Chunk();
        var n := Min(|piece|, count - |taken|);
        taken := taken + piece[..n];
        Advance(n);
      }
    }
  }
}
