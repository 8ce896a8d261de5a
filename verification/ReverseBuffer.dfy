/** The prepend-only rope that the backward encoder writes into. */
module ReverseBuffers {
  import opened Base
  import opened Buffers

  /** Two fat slice pointers on a 64-bit machine. */
  const MIN_CHUNK_SIZE: nat := 32

  /** Chunks are held back to front, so reading order starts at the last one. */
  ghost function Flat(chunks: seq<array<u8>>): (bs: seq<u8>)
    reads chunks
    ensures |bs| == Total(chunks)
  {
    if chunks == [] then [] else chunks[|chunks| - 1][..] + Flat(chunks[..|chunks| - 1])
  }

  ghost function Total(chunks: seq<array<u8>>): (n: nat) {
    if chunks == [] then 0 else chunks[|chunks| - 1].Length + Total(chunks[..|chunks| - 1])
  }

  function Pow2(n: nat): nat {
    if n == 0 then 1 else 2 * Pow2(n - 1)
  }

  ghost predicate Distinct(chunks: seq<array<u8>>) {
    forall i, j | 0 <= i < j < |chunks| :: chunks[i] != chunks[j]
  }

  /** Every chunk is at least as long as all the chunks behind it together. */
  ghost predicate Doubling(chunks: seq<array<u8>>) {
    chunks != [] ==>
      var last, rest := chunks[|chunks| - 1], chunks[..|chunks| - 1];
      last.Length > 0 && last.Length >= Total(rest) && Doubling(rest)
  }

  lemma {:induction false} DoublingBound(chunks: seq<array<u8>>)
    requires Doubling(chunks) && chunks != []
    ensures Pow2(|chunks| - 1) <= Total(chunks)
    decreases |chunks|
  {
    var rest := chunks[..|chunks| - 1];
    if rest != [] {
      DoublingBound(rest);
    }
  }

  lemma {:induction false} DoublingPush(chunks: seq<array<u8>>, chunk: array<u8>)
    requires Doubling(chunks) && chunk.Length > 0 && chunk.Length >= Total(chunks)
    ensures Doubling(chunks + [chunk]) && Total(chunks + [chunk]) == chunk.Length + Total(chunks)
  {
    assert (chunks + [chunk])[..|chunks|] == chunks;
  }

  lemma {:induction false} DoublingPrefix(chunks: seq<array<u8>>, n: nat)
    requires Doubling(chunks) && n <= |chunks|
    ensures Doubling(chunks[..n])
    decreases |chunks|
  {
    if n < |chunks| {
      DoublingPrefix(chunks[..|chunks| - 1], n);
      assert chunks[..|chunks| - 1][..n] == chunks[..n];
    } else {
      assert chunks[..n] == chunks;
    }
  }

  lemma {:induction false} TotalPositive(chunks: seq<array<u8>>)
    requires Doubling(chunks) && chunks != []
    ensures Total(chunks) > 0
  {
  }

  lemma {:induction false} SplitAt(s: seq<u8>, n: nat)
    requires n <= |s|
    ensures s == s[..n] + s[n..]
  {
  }

  lemma {:induction false} DropInto(a: seq<u8>, b: seq<u8>, n: nat)
    requires n <= |a| + |b|
    ensures n <= |a| ==> (a + b)[n..] == a[n..] + b
    ensures n >= |a| ==> (a + b)[n..] == b[n - |a|..]
  {
  }

  /** What a write into the free part of the front chunk does to the bytes that follow it. */
  lemma {:induction false} FrontWritten(before: seq<u8>, after: seq<u8>, rest: seq<u8>, data: seq<u8>, front: nat)
    requires |data| <= front <= |before|
    requires after == before[..front - |data|] + data + before[front..]
    ensures (after + rest)[front - |data|..] == data + (before + rest)[front..]
  {
  }

  /** A copy of bytes into part of a chunk. */
  method CopyInto(dest: array<u8>, at: nat, data: seq<u8>)
    requires at + |data| <= dest.Length
    modifies dest
    ensures dest[..] == old(dest[..at]) + data + old(dest[at + |data|..])
  {
    forall i | 0 <= i < |data| {
      dest[at + i] := data[i];
    }
  }

  /** `copy_buf`: fills a part of a chunk from a reader, one of the reader's chunks at a time. */
  method CopyBuf(data: Cursor, dest: array<u8>, lo: nat, hi: nat) returns (ghost moved: seq<u8>)
    requires data.Valid() && lo <= hi <= dest.Length && hi - lo <= |data.Bytes|
    modifies data, dest
    ensures data.Valid() && old(data.Bytes) == moved + data.Bytes && |moved| == hi - lo
    ensures dest[..] == old(dest[..lo]) + moved + old(dest[hi..])
  {
    var at := lo;
    moved := [];
    while at < hi
      invariant lo <= at <= hi && data.Valid() && |moved| == at - lo
      invariant old(data.Bytes) == moved + data.Bytes
      invariant dest[..] == old(dest[..lo]) + moved + old(dest[at..])
    {
      var src := data.Chunk();
      var n := Min(|src|, hi - at);
      ghost var rest := data.Bytes[n..];
      assert data.Bytes == src[..n] + rest;
      Regroup(moved, src[..n], rest);
      Regroup(old(dest[..lo]), moved, src[..n]);
      CopyInto(dest, at, src[..n]);
      data.Advance(n);
      at := at + n;
      moved := moved + src[..n];
    }
  }

  /** Dropping a front chunk that has been read to its end leaves the unread bytes as they are. */
  lemma {:induction false} DropChunk(chunks: seq<array<u8>>, front: nat)
    requires chunks != [] && chunks[|chunks| - 1].Length <= front <= Total(chunks)
    ensures Flat(chunks[..|chunks| - 1])[front - chunks[|chunks| - 1].Length..] == Flat(chunks)[front..]
  {
    DropInto(chunks[|chunks| - 1][..], Flat(chunks[..|chunks| - 1]), front);
  }

  class ReverseBuffer {
    var chunks: seq<array<u8>>
    /** Index of the first written byte of the front chunk. */
    var front: nat
    var capacity: nat
    var plannedAllocation: nat
    var plannedExact: bool
    /** Whether the back chunk is kept when the buffer is drained. */
    var keepBack: bool
    /** The bytes written so far. */
    ghost var Contents: seq<u8>

    ghost predicate Valid()
      reads this, chunks
      ensures Valid() ==> |Contents| == capacity - front
    {
      && Distinct(chunks) && Doubling(chunks)
      && capacity == Total(chunks)
      && (chunks == [] ==> front == 0 && !keepBack)
      && (chunks != [] ==> front < chunks[|chunks| - 1].Length || (keepBack && |chunks| == 1 && front == capacity))
      && (plannedExact ==> plannedAllocation >= capacity)
      && Contents == Flat(chunks)[front..]
    }

    /** Only an exact plan of nothing stops the next allocation from making room. */
    ghost predicate CanGrow()
      reads this
    {
      plannedExact ==> plannedAllocation > 0
    }

    /** A buffer that stands for no bytes owns no memory, unless its back chunk is kept. */
    lemma {:induction false} UnallocatedIfEmpty()
      requires Valid()
      ensures capacity == 0 <==> Contents == [] && !keepBack
      ensures !CanGrow() ==> capacity == 0 && front == 0
    {
      if chunks != [] {
        TotalPositive(chunks);
      }
    }

    lemma {:induction false} FrontFits()
      requires chunks != [] && Doubling(chunks) && capacity == Total(chunks)
      requires front < chunks[|chunks| - 1].Length || (keepBack && |chunks| == 1 && front == capacity)
      ensures front <= chunks[|chunks| - 1].Length
    {
      if |chunks| == 1 {
        assert chunks[..0] == [];
      }
    }

    constructor ()
      ensures Valid() && CanGrow() && Contents == [] && chunks == [] && !keepBack
    {
      chunks, front, capacity, plannedAllocation, plannedExact, keepBack := [], 0, 0, 0, false, false;
      Contents := [];
    }

    constructor WithCapacity(size: nat)
      ensures Valid() && CanGrow() && Contents == []
      ensures capacity == front == size && |chunks| <= 1 && keepBack == (size > 0)
      ensures forall i | 0 <= i < |chunks| :: fresh(chunks[i])
    {
      if size == 0 {
        chunks, front, capacity, plannedAllocation, plannedExact, keepBack := [], 0, 0, 0, false, false;
      } else {
        var chunk := new u8[size];
        chunks, front, capacity, plannedAllocation, plannedExact, keepBack := [chunk], size, size, 0, false, true;
      }
      Contents := [];
      new;
      assert chunks[..0] == [];
    }

    /** From an owned, full box of bytes. */
    constructor FromBox(value: array<u8>)
      requires value.Length > 0
      ensures Valid() && CanGrow() && Contents == value[..] && chunks == [value] && !keepBack
    {
      chunks, front, capacity, plannedAllocation, plannedExact, keepBack := [value], 0, value.Length, 0, false, false;
      Contents := value[..];
      new;
      assert chunks[..0] == [];
    }

    function Len(): (n: nat)
      requires Valid()
      reads this, chunks
      ensures n == |Contents|
    {
      capacity - front
    }

    method Clear()
      requires Valid()
      modifies this
      ensures Valid() && CanGrow() && Contents == [] && keepBack == old(keepBack)
      ensures plannedAllocation == 0 && !plannedExact
      ensures Owned()
      ensures keepBack ==> chunks == old(chunks)[..1]
    {
      if keepBack {
        DoublingPrefix(chunks, 1);
        chunks := chunks[..1];
        front := chunks[0].Length;
        capacity := front;
        assert chunks[..0] == [];
      } else {
        chunks, front, capacity := [], 0, 0;
      }
      plannedAllocation, plannedExact := 0, false;
      Contents := [];
    }

    // ---------- planning ----------

    method PlanReservation(additional: nat)
      requires Valid()
      modifies `plannedAllocation, `plannedExact
      ensures Valid() && Contents == old(Contents) && (old(CanGrow()) ==> CanGrow())
      ensures Reserved(additional)
      ensures plannedAllocation >= old(plannedAllocation) && NewAllocationSize() >= plannedAllocation
      ensures additional >= front ==> CanGrow()
      ensures additional < front ==> plannedAllocation == old(plannedAllocation) && plannedExact == old(plannedExact)
    {
      if additional < front {
        return;
      }
      var moreNeeded := additional - front;
      if plannedAllocation > moreNeeded {
        return;
      }
      plannedAllocation, plannedExact := moreNeeded, false;
    }

    method PlanReservationExact(additional: nat)
      requires Valid()
      modifies `plannedAllocation, `plannedExact
      ensures Valid() && Contents == old(Contents) && Reserved(additional)
      ensures CanGrow() <==> additional > 0 || capacity > 0
      ensures additional >= front ==> plannedExact && NewAllocationSize() == capacity + (additional - front)
    {
      if additional < front {
        return;
      }
      var moreNeeded := additional - front;
      plannedAllocation, plannedExact := capacity + moreNeeded, true;
      if chunks != [] {
        TotalPositive(chunks);
      }
    }

    function NewAllocationSize(): nat
      reads this
    {
      if plannedExact then plannedAllocation
      else Max(Max(MIN_CHUNK_SIZE, capacity), plannedAllocation)
    }

    /** The free front and the plan for the next allocation together have room for `n` more bytes. */
    ghost predicate Reserved(n: nat)
      reads this
    {
      n <= front + plannedAllocation
    }

    // ---------- growing ----------

    method Grow()
      requires Valid() && CanGrow()
      modifies this
      ensures |chunks| == |old(chunks)| + 1 && chunks[..|old(chunks)|] == old(chunks) && fresh(chunks[|old(chunks)|])
      ensures Distinct(chunks) && Doubling(chunks) && capacity == Total(chunks)
      ensures chunks[|old(chunks)|].Length == old(NewAllocationSize())
      ensures front == old(front) + old(NewAllocationSize())
      ensures !plannedExact && plannedAllocation == 0 && keepBack == old(keepBack) && Contents == old(Contents)
    {
      var size := NewAllocationSize();
      var chunk := new u8[size];
      DoublingPush(chunks, chunk);
      chunks := chunks + [chunk];
      front := front + size;
      capacity := capacity + size;
      plannedAllocation, plannedExact := 0, false;
    }

    /** Every chunk was there before or is newly allocated. */
    twostate predicate Owned()
      reads this
    {
      forall i | 0 <= i < |chunks| :: chunks[i] in old(chunks) || fresh(chunks[i])
    }

    twostate lemma {:induction false} StillOwned()
      requires unchanged(`chunks)
      ensures Owned()
    {
    }

    // ---------- prepending ----------

    /** Everything a prepend of `data` does: the bytes come first, and nothing else is disturbed. */
    twostate predicate Prepended(data: seq<u8>)
      requires old(Valid())
      reads this, chunks
    {
      && Valid()
      && Contents == data + old(Contents)
      && keepBack == old(keepBack)
      && Owned()
      && (old(CanGrow()) ==> CanGrow())
      && (|data| <= old(front) ==> chunks == old(chunks) && front == old(front) - |data|)
    }

    /** A prepend that did not fit: one new chunk in front, of at least the planned size. */
    twostate predicate Grown(data: seq<u8>)
      requires old(Valid())
      reads this, chunks
    {
      && Valid() && CanGrow()
      && Contents == data + old(Contents)
      && keepBack == old(keepBack)
      && |chunks| == |old(chunks)| + 1
      && chunks[..|old(chunks)|] == old(chunks) && fresh(chunks[|old(chunks)|])
      && front + |data| >= old(front) + old(plannedAllocation)
    }

    /** A prepend allocates at most once, and not at all when the front has room. */
    twostate predicate AllocatedOnce(size: nat)
      requires old(Valid())
      reads this
    {
      if size <= old(front) then
        unchanged(`chunks) && unchanged(`plannedAllocation) && unchanged(`plannedExact)
      else
        |chunks| == |old(chunks)| + 1 && CanGrow() && front + size >= old(front) + old(plannedAllocation)
    }

    /** Writes `data` into the free part of the front chunk, just before the written bytes. */
    method FillFront(data: seq<u8>)
      requires Valid() && |data| <= front
      modifies `front, `Contents, if chunks == [] then {} else {chunks[|chunks| - 1]}
      ensures Prepended(data) && unchanged(`chunks)
    {
      hide Flat;
      if chunks == [] {
        assert data + Contents == Contents;
        StillOwned();
      } else {
        FrontFits();
        WriteFront(data);
        MoveFront(|data|, data + Contents);
        StillOwned();
      }
    }

    /** The front moves back over bytes that have been written before it. */
    method MoveFront(n: nat, ghost bytes: seq<u8>)
      requires Distinct(chunks) && Doubling(chunks) && capacity == Total(chunks)
      requires chunks != [] && n <= front && (plannedExact ==> plannedAllocation >= capacity)
      requires front < chunks[|chunks| - 1].Length || (keepBack && |chunks| == 1 && front == capacity)
      requires Flat(chunks)[front - n..] == bytes
      modifies `front, `Contents
      ensures Valid() && Contents == bytes && front == old(front) - n
    {
      hide Flat, Total, Doubling, Distinct;
      FrontFits();
      front := front - n;
      Contents := bytes;
    }

    /** The write itself: the chunks then hold `data` just before what was written earlier. */
    method WriteFront(data: seq<u8>)
      requires Distinct(chunks) && chunks != [] && |data| <= front <= chunks[|chunks| - 1].Length
      modifies chunks[|chunks| - 1]
      ensures Flat(chunks)[front - |data|..] == data + old(Flat(chunks)[front..])
    {
      var chunk := chunks[|chunks| - 1];
      CopyInto(chunk, front - |data|, data);
      ghost var rest := Flat(chunks[..|chunks| - 1]);
      assert rest == old(Flat(chunks[..|chunks| - 1]));
      FrontWritten(old(chunk[..]), chunk[..], rest, data, front);
    }

    /** Grows, and puts `part` at the very end of the new chunk, just before all the old chunks' bytes. */
    method GrowWith(part: seq<u8>)
      requires Valid() && 0 < |part| <= NewAllocationSize()
      modifies this
      ensures Valid() && CanGrow() && keepBack == old(keepBack)
      ensures |chunks| == |old(chunks)| + 1 && chunks[..|old(chunks)|] == old(chunks) && fresh(chunks[|old(chunks)|])
      ensures front + |part| == old(NewAllocationSize())
      ensures Contents == part + old(Flat(chunks))
    {
      hide Total, Doubling;
      ghost var behind := chunks;
      Grow();
      var chunk := chunks[|chunks| - 1];
      var newFront := chunk.Length - |part|;
      label before:
      CopyInto(chunk, newFront, part);
      assert chunk[newFront..] == part;
      assert Flat(behind) == old@before(Flat(behind)) == old(Flat(chunks));
      DropInto(chunk[..], Flat(behind), newFront);
      front := newFront;
      Contents := part + Flat(behind);
    }

    method GrowAndCopySlice(data: seq<u8>)
      requires Valid() && |data| > front
      modifies this, chunks
      ensures Grown(data)
    {
      hide Flat, Total, Doubling;
      PlanReservation(|data|);
      if front == 0 {
        GrowWith(data);
      } else {
        // The data is split between the free part of the front chunk and a new chunk.
        var at := |data| - front;
        var dataFront, dataBack := data[..at], data[at..];
        FillFront(dataBack);
        GrowWith(dataFront);
        SplitAt(data, at);
        Regroup(dataFront, dataBack, old(Contents));
      }
    }

    method PrependSlice(data: seq<u8>)
      requires Valid()
      modifies this, chunks
      ensures Prepended(data) && AllocatedOnce(|data|)
    {
      if |data| <= front {
        FillFront(data);
      } else {
        GrowAndCopySlice(data);
      }
    }

    /** Moves the next `n` bytes of `data` into the end of the free part of the front chunk. */
    method FillFrontFrom(data: Cursor, n: nat) returns (ghost moved: seq<u8>)
      requires Valid() && data.Valid() && n <= front && n <= |data.Bytes|
      modifies `front, `Contents, data, if chunks == [] then {} else {chunks[|chunks| - 1]}
      ensures Prepended(moved) && unchanged(`chunks)
      ensures data.Valid() && old(data.Bytes) == moved + data.Bytes && |moved| == n
    {
      hide Flat;
      moved := [];
      if chunks == [] {
        assert moved + Contents == Contents;
        StillOwned();
      } else {
        FrontFits();
        moved := WriteFrontFrom(data, n);
        MoveFront(n, moved + Contents);
        StillOwned();
      }
    }

    /** The same write, from a reader. */
    method WriteFrontFrom(data: Cursor, n: nat) returns (ghost moved: seq<u8>)
      requires Distinct(chunks) && chunks != [] && n <= front <= chunks[|chunks| - 1].Length
      requires data.Valid() && n <= |data.Bytes|
      modifies data, chunks[|chunks| - 1]
      ensures data.Valid() && old(data.Bytes) == moved + data.Bytes && |moved| == n
      ensures Flat(chunks)[front - n..] == moved + old(Flat(chunks)[front..])
    {
      var chunk := chunks[|chunks| - 1];
      moved := CopyBuf(data, chunk, front - n, front);
      ghost var rest := Flat(chunks[..|chunks| - 1]);
      assert rest == old(Flat(chunks[..|chunks| - 1]));
      FrontWritten(old(chunk[..]), chunk[..], rest, moved, front);
    }

    method GrowAndCopyBuf(data: Cursor, prependingLen: nat)
      requires Valid() && data.Valid() && prependingLen == |data.Bytes| > front
      modifies this, chunks, data
      ensures Grown(old(data.Bytes))
      ensures data.Valid() && data.Bytes == []
    {
      hide Flat, Total, Doubling;
      PlanReservation(prependingLen);
      var newChunkSize := NewAllocationSize();
      var newChunk := new u8[newChunkSize];
      var newFront := newChunkSize + front - prependingLen;
      SplitBetween(data, newChunk, newFront);
      PushFront(newChunk, newFront);
    }

    /** The early part of the data goes to the end of a new chunk, the rest before the written bytes. */
    method SplitBetween(data: Cursor, newChunk: array<u8>, newFront: nat)
      requires Valid() && data.Valid() && newChunk !in chunks
      requires newFront <= newChunk.Length && |data.Bytes| == newChunk.Length - newFront + front
      modifies `front, `Contents, data, newChunk, if chunks == [] then {} else {chunks[|chunks| - 1]}
      ensures Valid() && front == 0 && unchanged(`chunks)
      ensures data.Valid() && data.Bytes == []
      ensures newChunk[newFront..] + Contents == old(data.Bytes) + old(Contents)
    {
      ghost var early := CopyBuf(data, newChunk, newFront, newChunk.Length);
      assert newChunk[newFront..] == early;
      ghost var late := FillFrontFrom(data, front);
      assert old(data.Bytes) == early + late;
      Regroup(early, late, old(Contents));
    }

    /** A filled chunk becomes the front chunk. */
    method PushFront(chunk: array<u8>, newFront: nat)
      requires Valid() && front == 0 && chunk !in chunks && newFront < chunk.Length && chunk.Length >= capacity
      modifies this
      ensures Valid() && CanGrow() && keepBack == old(keepBack)
      ensures chunks == old(chunks) + [chunk] && front == newFront
      ensures Contents == chunk[newFront..] + old(Contents)
    {
      DoublingPush(chunks, chunk);
      assert (chunks + [chunk])[..|chunks|] == chunks;
      DropInto(chunk[..], Flat(chunks), newFront);
      chunks := chunks + [chunk];
      front := newFront;
      capacity := capacity + chunk.Length;
      plannedAllocation, plannedExact := 0, false;
      Contents := chunk[newFront..] + Contents;
    }

    method Prepend(data: Cursor)
      requires Valid() && data.Valid()
      modifies this, chunks, data
      ensures Prepended(old(data.Bytes)) && AllocatedOnce(|old(data.Bytes)|)
      ensures data.Valid() && data.Bytes == []
    {
      hide Flat, Total, Doubling;
      var prependingLen := data.Remaining();
      if prependingLen == 0 {
        return;
      }
      if prependingLen <= front {
        ghost var moved := FillFrontFrom(data, prependingLen);
        assert moved == old(data.Bytes);
      } else {
        GrowAndCopyBuf(data, prependingLen);
      }
    }

    /** Only this does not plan for itself: a front without room is grown by the plan as it stands. */
    method PrependU8(byte: u8)
      requires Valid() && (front > 0 || CanGrow())
      modifies this, chunks
      ensures Prepended([byte]) && AllocatedOnce(1)
    {
      hide Flat, Total, Doubling;
      if front == 0 {
        GrowWith([byte]);
      } else {
        FillFront([byte]);
      }
    }

    // ---------- reading ----------

    /** The slice of bytes at the front of the buffer. */
    function Chunk(): (bs: seq<u8>)
      requires Valid()
      reads this, chunks
      ensures bs <= Contents && (bs == [] <==> Contents == [])
    {
      if chunks == [] then [] else chunks[|chunks| - 1][front..]
    }

    /** All of `Valid()` but for the front's position, while bytes are being dropped. */
    ghost predicate Draining()
      reads this
    {
      && Distinct(chunks) && Doubling(chunks)
      && capacity == Total(chunks) && front <= capacity
      && (chunks == [] ==> !keepBack)
      && (plannedExact ==> plannedAllocation >= capacity)
    }

    method PopFront()
      requires Draining() && chunks != [] && chunks[|chunks| - 1].Length <= front
      requires keepBack ==> |chunks| > 1
      modifies this
      ensures Draining() && CanGrow() && keepBack == old(keepBack) && Contents == old(Contents)
      ensures chunks == old(chunks)[..|old(chunks)| - 1]
      ensures Flat(chunks)[front..] == old(Flat(chunks)[front..])
    {
      hide Flat;
      var size := chunks[|chunks| - 1].Length;
      DropChunk(chunks, front);
      chunks := chunks[..|chunks| - 1];
      capacity := capacity - size;
      front := front - size;
      // The buffer has shrunk, so any plan for it is dropped.
      plannedAllocation, plannedExact := 0, false;
    }

    method Advance(count: nat)
      requires Valid() && count <= |Contents|
      modifies this
      ensures Valid() && Contents == old(Contents)[count..]
      ensures keepBack == old(keepBack) && (old(CanGrow()) ==> CanGrow())
      ensures chunks <= old(chunks) && Owned()
      ensures count == 0 ==> unchanged(this)
    {
      if count == 0 {
        return;
      }
      ghost var goal := Contents[count..];
      front := front + count;
      Contents := goal;
      while chunks != []
        invariant Contents == goal
        invariant Draining() && keepBack == old(keepBack) && (old(CanGrow()) ==> CanGrow())
        invariant chunks <= old(chunks)
        invariant Flat(chunks)[front..] == goal
        decreases |chunks|
      {
        if front < chunks[|chunks| - 1].Length {
          break;
        }
        if keepBack && |chunks| == 1 {
          break;
        }
        PopFront();
      }
    }

    /** `contiguous`: the whole contents as one slice, if they are one. */
    method Contiguous() returns (r: Option<seq<u8>>)
      requires Valid()
      ensures r.Some? <==> |chunks| <= 1
      ensures r.Some? ==> r.value == Contents
    {
      if |chunks| <= 1 {
        return Some(Chunk());
      }
      return None;
    }

    /** Gives the buffer up for one vector of its bytes. */
    method IntoVec() returns (vec: seq<u8>)
      requires Valid()
      modifies this
      ensures vec == old(Contents)
    {
      if |chunks| == 1 && front == 0 {
        return chunks[0][..];
      }
      vec := [];
      ghost var all := Contents;
      while Len() > 0
        invariant Valid() && vec + Contents == all && |vec| <= |all|
        decreases |all| - |vec|
      {
        var piece := TakeChunk();
        Regroup(vec, piece, Contents);
        vec := vec + piece;
      }
    }

    /** Reads the whole front slice. */
    method TakeChunk() returns (piece: seq<u8>)
      requires Valid() && Contents != []
      modifies this
      ensures Valid() && piece != [] && old(Contents) == piece + Contents
    {
      piece := Chunk();
      SplitAt(Contents, |piece|);
      Advance(|piece|);
    }

    method Slices() returns (slices: seq<seq<u8>>)
      requires Valid()
      ensures Joined(slices) == Contents
    {
      slices := VectorableSlices(chunks, front);
    }

    method BufReader() returns (reader: ReverseBufferReader)
      requires Valid()
      ensures fresh(reader) && reader.Valid() && reader.Contents == Contents
      ensures reader.chunks == chunks
    {
      reader := new ReverseBufferReader(chunks, front, capacity);
    }
  }

  /** `to_vectorable_slices`: the written part of the front chunk, then the other chunks in reading order. */
  method VectorableSlices(chunks: seq<array<u8>>, front: nat) returns (slices: seq<seq<u8>>)
    requires front <= Total(chunks) && (chunks != [] ==> front <= chunks[|chunks| - 1].Length)
    ensures Joined(slices) == Flat(chunks)[front..]
  {
    if chunks == [] {
      return [];
    }
    var n := |chunks| - 1;
    slices := [];
    for i := 0 to n
      invariant Joined(slices) == Flat(chunks[..i])
    {
      assert chunks[..i + 1][..i] == chunks[..i];
      assert ([chunks[i][..]] + slices)[1..] == slices;
      slices := [chunks[i][..]] + slices;
    }
    assert ([chunks[n][front..]] + slices)[1..] == slices;
    slices := [chunks[n][front..]] + slices;
  }

  /** A reader over a buffer that leaves the buffer as it is. */
  class ReverseBufferReader {
    var chunks: seq<array<u8>>
    var front: nat
    var capacity: nat

    /** What is still to be read. */
    ghost var Contents: seq<u8>

    ghost predicate Valid()
      reads this, chunks
    {
      && Doubling(chunks)
      && capacity == Total(chunks)
      && (chunks == [] ==> front == 0)
      && (chunks != [] ==> front < chunks[|chunks| - 1].Length || (|chunks| == 1 && front == capacity))
      && Contents == Flat(chunks)[front..]
    }

    constructor (chunks: seq<array<u8>>, front: nat, capacity: nat)
      requires front <= Total(chunks)
      ensures this.chunks == chunks && this.front == front && this.capacity == capacity
      ensures Contents == Flat(chunks)[front..]
    {
      this.chunks, this.front, this.capacity := chunks, front, capacity;
      Contents := Flat(chunks)[front..];
    }

    method Remaining() returns (n: nat)
      requires Valid()
      ensures n == |Contents|
    {
      n := capacity - front;
    }

    function Chunk(): (bs: seq<u8>)
      requires Valid()
      reads this, chunks
      ensures bs <= Contents && (bs == [] <==> Contents == [])
    {
      if chunks == [] then [] else chunks[|chunks| - 1][front..]
    }

    method Advance(count: nat)
      requires Valid() && count <= |Contents|
      modifies this
      ensures Valid() && Contents == old(Contents)[count..]
      ensures chunks <= old(chunks)
    {
      if count == 0 {
        return;
      }
      ghost var goal := Contents[count..];
      front := front + count;
      Contents := goal;
      while chunks != []
        invariant Draining() && Contents == goal
        invariant chunks <= old(chunks)
        decreases |chunks|
      {
        if front < chunks[|chunks| - 1].Length {
          break;
        }
        SnipFront();
      }
    }

    /** All of `Valid()` but for the front's position, while bytes are being passed. */
    ghost predicate Draining()
      reads this, chunks
    {
      && Doubling(chunks)
      && capacity == Total(chunks) && front <= capacity
      && Contents == Flat(chunks)[front..]
    }

    method SnipFront()
      requires Draining() && chunks != [] && chunks[|chunks| - 1].Length <= front
      modifies this
      ensures Draining() && Contents == old(Contents) && chunks == old(chunks)[..|old(chunks)| - 1]
    {
      var size := chunks[|chunks| - 1].Length;
      DropChunk(chunks, front);
      chunks := chunks[..|chunks| - 1];
      front := front - size;
      capacity := capacity - size;
    }

    method Slices() returns (slices: seq<seq<u8>>)
      requires Valid()
      ensures Joined(slices) == Contents
    {
      slices := VectorableSlices(chunks, front);
    }
  }
}
