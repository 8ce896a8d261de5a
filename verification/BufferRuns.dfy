/** Whole runs of operations on one reverse buffer. */
module BufferRuns {
  import opened Base
  import opened Buffers
  import opened ReverseBuffers

  datatype Op =
    | Slice(data: seq<u8>)
    | Byte(byte: u8)
    | Pieces(pieces: seq<seq<u8>>)
    | Skip(count: nat)
    | Clear
    | Plan(additional: nat)
    | PlanExact(additional: nat)
  {
    predicate IsPrepend() {
      Slice? || Byte? || Pieces?
    }

    /** The bytes that a prepend puts in front. */
    function Added(): seq<u8> {
      match this
      case Slice(data) => data
      case Byte(byte) => [byte]
      case Pieces(pieces) => Joined(pieces)
      case _ => []
    }

    ghost predicate WellFormed() {
      Pieces? ==> forall i | 0 <= i < |pieces| :: pieces[i] != []
    }
  }

  /** What one operation does to a plain byte sequence. */
  function Apply(s: seq<u8>, op: Op): seq<u8> {
    match op
    case Skip(count) => s[Min(count, |s|)..]
    case Clear => []
    case _ => op.Added() + s
  }

  function Run(s: seq<u8>, ops: seq<Op>): seq<u8>
    decreases |ops|
  {
    if ops == [] then s else Apply(Run(s, ops[..|ops| - 1]), ops[|ops| - 1])
  }

  /** Nothing is skipped past the end, which the buffer answers with a panic. */
  ghost predicate Legal(s: seq<u8>, ops: seq<Op>) {
    forall i | 0 <= i < |ops| :: LegalAt(s, ops, i)
  }

  ghost predicate LegalAt(s: seq<u8>, ops: seq<Op>, i: nat)
    requires i < |ops|
  {
    ops[i].WellFormed() && (ops[i].Skip? ==> ops[i].count <= |Run(s, ops[..i])|)
  }

  method PrependStep(buf: ReverseBuffer, op: Op)
    requires buf.Valid() && op.IsPrepend() && op.WellFormed()
    requires op.Byte? ==> buf.front > 0 || buf.CanGrow()
    modifies buf, buf.chunks
    ensures buf.Prepended(op.Added()) && buf.AllocatedOnce(|op.Added()|)
  {
    match op {
      case Slice(data) =>
        buf.PrependSlice(data);
      case Byte(byte) =>
        buf.PrependU8(byte);
      case Pieces(pieces) =>
        var data := new Cursor(pieces);
        buf.Prepend(data);
    }
  }

  /**
   * Whether an exact plan of nothing is pending after an operation, from whether one was pending before it
   * and whether the buffer then owned no memory. Nothing but an empty prepend or a skip leaves it in place.
   */
  predicate PlanStays(op: Op, pending: bool, unallocated: bool) {
    match op
    case Slice(_) => op.Added() == [] && pending
    case Pieces(_) => op.Added() == [] && pending
    case Skip(_) => pending
    case PlanExact(additional) => additional == 0 && unallocated
    case _ => false
  }

  /** The same for a run, on the plain bytes alone. */
  predicate Pending(s: seq<u8>, ops: seq<Op>, keepBack: bool)
    decreases |ops|
  {
    if ops == [] then false
    else
      var before := ops[..|ops| - 1];
      PlanStays(ops[|ops| - 1], Pending(s, before, keepBack), !keepBack && Run(s, before) == [])
  }

  /** A single byte is to be prepended while an exact plan of nothing is pending. */
  predicate StuckAt(s: seq<u8>, ops: seq<Op>, keepBack: bool, n: nat)
    requires n < |ops|
  {
    ops[n].Byte? && Pending(s, ops[..n], keepBack)
  }

  method Step(buf: ReverseBuffer, op: Op)
    requires buf.Valid() && op.WellFormed()
    requires op.Skip? ==> op.count <= |buf.Contents|
    requires op.Byte? ==> buf.CanGrow()
    modifies buf, buf.chunks
    ensures buf.Valid() && buf.Contents == Apply(old(buf.Contents), op) && buf.Owned()
    ensures buf.keepBack == old(buf.keepBack)
    ensures !buf.CanGrow() <==> PlanStays(op, old(!buf.CanGrow()), old(!buf.keepBack && buf.Contents == []))
  {
    buf.UnallocatedIfEmpty();
    if op.IsPrepend() {
      PrependStep(buf, op);
    } else {
      OtherStep(buf, op);
    }
  }

  method OtherStep(buf: ReverseBuffer, op: Op)
    requires buf.Valid() && !op.IsPrepend()
    requires op.Skip? ==> op.count <= |buf.Contents|
    modifies buf
    ensures buf.Valid() && buf.Contents == Apply(old(buf.Contents), op) && buf.Owned()
    ensures buf.keepBack == old(buf.keepBack)
    ensures !buf.CanGrow() <==> PlanStays(op, old(!buf.CanGrow()), old(!buf.keepBack && buf.Contents == []))
  {
    if op.Skip? {
      SkipStep(buf, op.count);
    } else if op.Clear? {
      ClearStep(buf);
    } else {
      PlanStep(buf, op.additional, op.PlanExact?);
    }
  }

  method SkipStep(buf: ReverseBuffer, count: nat)
    requires buf.Valid() && count <= |buf.Contents|
    modifies buf
    ensures buf.Valid() && buf.Contents == old(buf.Contents)[count..] && buf.Owned()
    ensures buf.keepBack == old(buf.keepBack) && (buf.CanGrow() <==> old(buf.CanGrow()))
  {
    buf.UnallocatedIfEmpty();
    buf.Advance(count);
  }

  method ClearStep(buf: ReverseBuffer)
    requires buf.Valid()
    modifies buf
    ensures buf.Valid() && buf.Contents == [] && buf.Owned() && buf.keepBack == old(buf.keepBack) && buf.CanGrow()
  {
    buf.Clear();
  }

  method PlanStep(buf: ReverseBuffer, additional: nat, exact: bool)
    requires buf.Valid()
    modifies buf
    ensures buf.Valid() && buf.Contents == old(buf.Contents) && buf.chunks == old(buf.chunks)
    ensures buf.keepBack == old(buf.keepBack)
    ensures !buf.CanGrow() <==> exact && additional == 0 && !buf.keepBack && buf.Contents == []
  {
    buf.UnallocatedIfEmpty();
    if exact {
      buf.PlanReservationExact(additional);
    } else {
      buf.PlanReservation(additional);
    }
  }

  /** The buffer stands for what the first `n` operations make of the plain bytes, and none of them was stuck. */
  ghost predicate After(buf: ReverseBuffer, s: seq<u8>, ops: seq<Op>, keepBack: bool, n: nat)
    requires n <= |ops|
    reads buf
  {
    && buf.Contents == Run(s, ops[..n]) && buf.keepBack == keepBack
    && (buf.CanGrow() <==> !Pending(s, ops[..n], keepBack))
    && forall i | 0 <= i < n :: !StuckAt(s, ops, keepBack, i)
  }

  method NextStep(buf: ReverseBuffer, ghost s: seq<u8>, ops: seq<Op>, ghost keepBack: bool, n: nat)
    requires n < |ops| && buf.Valid() && After(buf, s, ops, keepBack, n)
    requires LegalAt(s, ops, n) && !StuckAt(s, ops, keepBack, n)
    modifies buf, buf.chunks
    ensures buf.Valid() && buf.Owned() && After(buf, s, ops, keepBack, n + 1)
  {
    RunGrows(s, ops, keepBack, n);
    Step(buf, ops[n]);
  }

  /**
   * Over every run the buffer stands for the plain byte sequence of the same run, up to the first operation
   * that is stuck, and nothing else stops a run.
   */
  method RunOps(buf: ReverseBuffer, ops: seq<Op>) returns (done: nat)
    requires buf.Valid() && buf.CanGrow() && Legal(buf.Contents, ops)
    modifies buf, buf.chunks
    ensures done <= |ops| && buf.Valid() && buf.Contents == Run(old(buf.Contents), ops[..done])
    ensures done < |ops| ==> StuckAt(old(buf.Contents), ops, old(buf.keepBack), done)
    ensures forall n | 0 <= n < done :: !StuckAt(old(buf.Contents), ops, old(buf.keepBack), n)
    ensures buf.chunks != [] ==> Pow2(|buf.chunks| - 1) <= buf.capacity
  {
    hide Run, Flat, Total, Doubling;
    ghost var s, keepBack := buf.Contents, buf.keepBack;
    RunStarts(s, ops, keepBack);
    done := 0;
    while done < |ops| && !(ops[done].Byte? && buf.front == 0 && buf.plannedExact && buf.plannedAllocation == 0)
      invariant done <= |ops| && buf.Valid() && buf.Owned() && After(buf, s, ops, keepBack, done)
    {
      buf.UnallocatedIfEmpty();
      NextStep(buf, s, ops, keepBack, done);
      done := done + 1;
    }
    if buf.chunks != [] {
      DoublingBound(buf.chunks);
    }
  }

  lemma {:induction false} RunStarts(s: seq<u8>, ops: seq<Op>, keepBack: bool)
    ensures ops[..0] == [] && Run(s, ops[..0]) == s && !Pending(s, ops[..0], keepBack)
  {
  }

  lemma {:induction false} RunGrows(s: seq<u8>, ops: seq<Op>, keepBack: bool, n: nat)
    requires n < |ops|
    ensures Run(s, ops[..n + 1]) == Apply(Run(s, ops[..n]), ops[n])
    ensures Pending(s, ops[..n + 1], keepBack)
      <==> PlanStays(ops[n], Pending(s, ops[..n], keepBack), !keepBack && Run(s, ops[..n]) == [])
  {
    assert ops[..n + 1][..n] == ops[..n];
  }

  /** The shortest way to get stuck. */
  method StuckAfterEmptyExactPlan(byte: u8) returns (buf: ReverseBuffer)
    ensures buf.Valid() && buf.front == 0 && !buf.CanGrow() && buf.Contents == []
    ensures StuckAt([], [PlanExact(0), Byte(byte)], false, 1)
  {
    buf := new ReverseBuffer();
    buf.PlanReservationExact(0);
    ghost var ops := [PlanExact(0), Byte(byte)];
    RunGrows([], ops, false, 0);
    assert ops[..0] == [];
  }

  function AddedLen(ops: seq<Op>): nat {
    if ops == [] then 0 else |ops[0].Added()| + AddedLen(ops[1..])
  }

  /** After room for `n` bytes is planned, any prepends of at most `n` bytes in all add at most one chunk. */
  method PrependReserved(buf: ReverseBuffer, ops: seq<Op>, n: nat, exact: bool)
    requires buf.Valid()
    requires forall i | 0 <= i < |ops| :: ops[i].IsPrepend() && ops[i].WellFormed()
    requires AddedLen(ops) <= n
    modifies buf, buf.chunks
    ensures buf.Valid() && |old(buf.chunks)| <= |buf.chunks| <= |old(buf.chunks)| + 1
    ensures buf.Contents == Run(old(buf.Contents), ops)
  {
    hide Flat, Total, Doubling;
    ghost var start, chunks := buf.Contents, buf.chunks;
    if exact {
      buf.PlanReservationExact(n);
    } else {
      buf.PlanReservation(n);
    }
    assert ops[..0] == [] && ops[0..] == ops;
    PrependAll(buf, ops, n, start);
  }

  /** The prepends, with room for `n` bytes. */
  method PrependAll(buf: ReverseBuffer, ops: seq<Op>, n: nat, ghost start: seq<u8>)
    requires buf.Valid() && buf.Contents == start && (n <= buf.front || buf.CanGrow()) && buf.Reserved(n)
    requires forall i | 0 <= i < |ops| :: ops[i].IsPrepend() && ops[i].WellFormed()
    requires AddedLen(ops) <= n
    modifies buf, buf.chunks
    ensures buf.Valid() && |old(buf.chunks)| <= |buf.chunks| <= |old(buf.chunks)| + 1
    ensures buf.Contents == Run(start, ops)
  {
    hide Flat, Total, Doubling, Run, AddedLen, Apply;
    var left := n;
    Rest(start, ops, 0);
    for i := 0 to |ops|
      invariant buf.Valid() && (left <= buf.front || buf.CanGrow())
      invariant buf.Contents == Run(start, ops[..i])
      invariant buf.Owned()
      invariant AddedLen(ops[i..]) <= left
      invariant if buf.chunks == old(buf.chunks) then buf.Reserved(left)
                else |buf.chunks| == |old(buf.chunks)| + 1 && left <= buf.front
    {
      Rest(start, ops, i);
      PrependStep(buf, ops[i]);
      left := left - |ops[i].Added()|;
    }
    assert ops[..|ops|] == ops;
  }

  /** One operation at a time, from the front of the run. */
  lemma {:induction false} Rest(s: seq<u8>, ops: seq<Op>, i: nat)
    requires i <= |ops|
    ensures i == 0 ==> Run(s, ops[..i]) == s && ops[i..] == ops
    ensures i < |ops| && ops[i].IsPrepend() ==> Run(s, ops[..i + 1]) == ops[i].Added() + Run(s, ops[..i])
    ensures i < |ops| ==> AddedLen(ops[i..]) == |ops[i].Added()| + AddedLen(ops[i + 1..])
  {
    if i < |ops| {
      assert ops[..i + 1][..i] == ops[..i];
      assert ops[i..][1..] == ops[i + 1..];
    }
  }
}
