/**
 * Arrays of no elements do not read their unpacked values, which are then taken for the next key. This is
 * the one thing that unknown fields are not transparent to, and exactly where.
 */
module UnreadArrays {
  import opened Base
  import opened Varint
  import opened Schemas
  import opened Encoding
  import opened Wire
  import opened Opaque
  import opened Restricted
  import opened UnknownFields
  import CappedBuffers
  import Relaxed
  import RelaxedDecoder
  import RoundTrip
  import Messages

  /** Keys with a distance below this take at most four bytes. */
  const FIVE_BYTES: nat := 0x408_1020

  /** Field `k` is an array of no elements that could be met unpacked, and the unknown tag `u` is above it. */
  predicate Exposed(fields: seq<Field>, k: nat, u: nat) {
    && k < |fields|
    && !fields[k].optional && fields[k].typ.List? && fields[k].typ.kind == Array(0)
       && WireTypeOf(fields[k].typ.elem) != LengthDelimited
    && fields[k].tag < u < U32_END && FindField(fields, u) == |fields|
  }

  // ---------- where nothing is exposed ----------

  lemma {:induction false} UnexposedIsRead(fields: seq<Field>, list: seq<OpaqueField>, last: nat)
    requires InOrder(list, last) && forall k: nat, u: nat :: !Exposed(fields, k, u)
    ensures UnknownsFirst(fields, list)
    decreases |list|
  {
    if list != [] {
      UnexposedIsRead(fields, list[1..], list[0].tag);
      if Unread(fields, list[0]) && AnyUnknown(fields, list[1..]) {
        var i :| 0 <= i < |list| - 1 && FindField(fields, list[1..][i].tag) == |fields|;
        InOrderAt(list[1..], list[0].tag, i);
        assert Exposed(fields, FindField(fields, list[0].tag), list[1..][i].tag);
      }
    }
  }

  // ---------- bytes that wait for more ----------

  /** A varint's bytes, of which the last are the key of another varint, again and again. */
  function Fill(n: nat): (bs: seq<u8>)
    requires n != 1
    ensures |bs| == n
  {
    if n == 0 then [] else if n == 3 then [0x80, 0, 0] else [4, 0] + Fill(n - 2)
  }

  lemma {:induction false} FillSkips(n: nat, more: seq<u8>)
    requires n != 1
    ensures SkipField(WireType.Varint, Fill(n) + more) == SkipField(WireType.Varint, more)
    decreases n
  {
    if n == 0 {
      assert Fill(n) + more == more;
    } else {
      var v := if n == 3 then 128 else 4;
      var rest := if n == 3 then [] else Fill(n - 2);
      FillStarts(n);
      Regroup(Encode(v), [0] + rest, more);
      Regroup([0], rest, more);
      SkipOnce(v, rest + more);
      if n == 3 {
        assert rest + more == more;
      } else {
        FillSkips(n - 2, more);
      }
    }
  }

  lemma {:induction false} FillStarts(n: nat)
    requires n > 1
    ensures Fill(n) == if n == 3 then Encode(128) + ([0] + []) else Encode(4) + ([0] + Fill(n - 2))
  {
    assert Encode(128) == [0x80, 0];
    assert Encode(4) == [4];
  }

  /** A varint, and a repeated key that asks for another one. */
  lemma {:induction false} SkipOnce(n: nat, more: seq<u8>)
    requires n < U64_END
    ensures SkipField(WireType.Varint, Encode(n) + ([0] + more)) == SkipField(WireType.Varint, more)
  {
    var rest := [0] + more;
    RoundTrip.ReadEncoded(n, rest);
    assert rest[1..] == more;
    SkipAgain(Encode(n) + rest, rest);
  }

  lemma {:induction false} SkipAgain(b: seq<u8>, rest: seq<u8>)
    requires ReadVarint(b).Parsed? && ReadVarint(b).rest == rest && rest != [] && rest[0] == 0
    ensures SkipField(WireType.Varint, b) == SkipField(WireType.Varint, rest[1..])
  {
    CappedBuffers.SkipUnfolds(WireType.Varint, b);
  }

  /** The bytes of an unknown field with an empty region behind its own key: one varint, then nothing. */
  lemma {:induction false} UnknownSkips(delta: nat)
    requires delta < U32_END
    ensures SkipField(WireType.Varint, Encode(4 * delta + 1) + [1, 0]) == Parsed((), [])
  {
    hide SkipField;
    var tail: seq<u8> := [1, 0];
    RoundTrip.ReadEncoded(4 * delta + 1, tail);
    CappedBuffers.SkipUnfolds(WireType.Varint, Encode(4 * delta + 1) + tail);
    assert tail[1..] == Delimited([]) + [];
    RoundTrip.ReadDelimited([], []);
    CappedBuffers.SkipUnfolds(LengthDelimited, tail[1..]);
  }

  /** `n` bytes behind a key of wire type `w` that are skipped together with `unknown`, but not without it. */
  lemma {:induction false} Waiting(n: nat, unknown: seq<u8>) returns (w: WireType, filler: seq<u8>)
    requires SkipField(WireType.Varint, unknown) == Parsed((), []) && 0 < |unknown| < 0x80
    ensures |filler| == n && SkipField(w, filler + unknown) == Parsed((), []) && SkipField(w, filler).Rejected?
    ensures n == 0 ==> w == WireType.Varint
  {
    if n == 1 {
      w, filler := LengthDelimited, [|unknown|];
      assert filler + unknown == Delimited(unknown) + [];
      RoundTrip.ReadDelimited(unknown, []);
      CappedBuffers.SkipUnfolds(w, filler + unknown);
      RoundTrip.ReadEncoded(|unknown|, []);
      assert filler == Encode(|unknown|) + [];
      CappedBuffers.SkipUnfolds(w, filler);
    } else {
      w, filler := WireType.Varint, Fill(n);
      FillSkips(n, unknown);
      FillSkips(n, []);
      assert filler + [] == filler;
      CappedBuffers.SkipUnfolds(w, []);
    }
  }

  // ---------- an unread value, taken for a key ----------

  lemma {:induction false} KeyStarts(delta: nat, w: WireType)
    requires 0 < delta < U32_END
    ensures Encode(4 * delta + w.Code())[0] >= 4
  {
  }

  /** Decoding goes on with the unknown field that the unread value's bytes look like. */
  lemma {:induction false} UnreadGoesOn(sch: Schema, id: nat, k: nat, u: nat, w: WireType, more: seq<u8>)
    requires id < |sch| && Exposed(sch[id].fields, k, u)
    ensures var f := sch[id].fields[k];
            var b := KeyBytes(f.tag, 0, WireTypeOf(f.typ.elem)) + (KeyBytes(u, f.tag, w) + more);
            Outcome(sch, id, b, SkipField(w, more))
  {
    var f := sch[id].fields[k];
    var c := KeyBytes(u, f.tag, w) + more;
    assert DefOk(sch[id], id, |sch|);
    RoundTrip.ReadKeyBytes(f.tag, 0, WireTypeOf(f.typ.elem), c);
    RoundTrip.ReadKeyBytes(u, f.tag, w, more);
    KeyStarts(u - f.tag, w);
    assert PeekRepeated(c).None?;
    UnreadThen(sch, id, k, Key(u, w), KeyBytes(f.tag, 0, WireTypeOf(f.typ.elem)) + c, c, more);
    UnreadThenRelaxed(sch, id, k, Key(u, w), KeyBytes(f.tag, 0, WireTypeOf(f.typ.elem)) + c, c, more);
  }

  /** Whole bytes are decoded as far as their last field can be skipped. */
  ghost predicate Outcome(sch: Schema, id: nat, b: seq<u8>, skipped: Parsed<()>)
    requires id < |sch|
  {
    && (skipped.Rejected? ==> Messages.DecodedTo(sch, id, NotCanonical, b).Bad?)
    && (skipped == Parsed((), []) ==>
          Messages.DecodedTo(sch, id, NotCanonical, b).Whole? && Messages.Decoded(sch, id, b).Some?)
  }

  lemma {:induction false} UnreadThen(sch: Schema, id: nat, k: nat, key: Key, b: seq<u8>, c: seq<u8>, more: seq<u8>)
    requires id < |sch| && Exposed(sch[id].fields, k, key.tag) && b != [] && c != [] && PeekRepeated(c).None?
    requires var f := sch[id].fields[k]; ReadKey(0, b) == Parsed(Key(f.tag, WireTypeOf(f.typ.elem)), c)
    requires ReadKey(sch[id].fields[k].tag, c) == Parsed(key, more)
    ensures var p, skipped := Messages.DecodedTo(sch, id, NotCanonical, b), SkipField(key.wireType, more);
            && (skipped.Rejected? ==> p.Bad?)
            && (skipped == Parsed((), []) ==> p.Whole?)
  {
    var f := sch[id].fields[k];
    assert DefOk(sch[id], id, |sch|);
    RoundTrip.FieldAt(sch[id].fields, k);
    var slots, after := EmptyRecord(sch, id), EmptyRecord(sch, id)[k := Holds(Items([]))];
    assert Messages.DecodedTo(sch, id, NotCanonical, b)
        == Merge(sch, id, NotCanonical, Messages.RECURSION_LIMIT, after, Some(f.tag), NotCanonical, c) by {
      MergeKnown(sch, id, NotCanonical, Messages.RECURSION_LIMIT, slots, None, Canonical, b);
      UnreadField(sch, f, Messages.RECURSION_LIMIT, c);
    }
    MergeUnknown(sch, id, NotCanonical, Messages.RECURSION_LIMIT, after, Some(f.tag), NotCanonical, c);
  }

  lemma {:induction false} UnreadField(sch: Schema, f: Field, depth: nat, c: seq<u8>)
    requires TypeOk(f.typ, |sch|) && PeekRepeated(c).None?
    requires !f.optional && f.typ.List? && f.typ.kind == Array(0) && WireTypeOf(f.typ.elem) != LengthDelimited
    ensures DecodeField(sch, f, NotCanonical, depth, WireTypeOf(f.typ.elem), c)
            == Out(Holds(Items([])), NotCanonical, c)
    ensures Relaxed.DecodeField(sch, f, depth, WireTypeOf(f.typ.elem), c) == Parsed(Holds(Items([])), c)
  {
  }

  lemma {:induction false} UnreadThenRelaxed(sch: Schema, id: nat, k: nat, key: Key, b: seq<u8>, c: seq<u8>,
                                             more: seq<u8>)
    requires id < |sch| && Exposed(sch[id].fields, k, key.tag) && b != [] && c != [] && PeekRepeated(c).None?
    requires var f := sch[id].fields[k]; ReadKey(0, b) == Parsed(Key(f.tag, WireTypeOf(f.typ.elem)), c)
    requires ReadKey(sch[id].fields[k].tag, c) == Parsed(key, more)
    ensures SkipField(key.wireType, more) == Parsed((), []) ==> Messages.Decoded(sch, id, b).Some?
  {
    var f := sch[id].fields[k];
    assert DefOk(sch[id], id, |sch|);
    UnreadField(sch, f, Messages.RECURSION_LIMIT, c);
    KeptOn(sch, id, Messages.RECURSION_LIMIT, EmptyRecord(sch, id), k, WireTypeOf(f.typ.elem), Holds(Items([])), b, c);
    if SkipField(key.wireType, more) == Parsed((), []) {
      SkipToEnd(sch, id, Messages.RECURSION_LIMIT, EmptyRecord(sch, id)[k := Holds(Items([]))], f.tag, key, c, more);
    }
  }

  /** A first field that is decoded to `slot`. */
  lemma {:induction false} KeptOn(sch: Schema, id: nat, depth: nat, slots: seq<Slot>, k: nat, w: WireType, slot: Slot,
                                  b: seq<u8>, c: seq<u8>)
    requires id < |sch| && |slots| == |sch[id].fields| && k < |slots| && b != [] && TypeOk(sch[id].fields[k].typ, |sch|)
    requires ReadKey(0, b) == Parsed(Key(sch[id].fields[k].tag, w), c)
    requires Relaxed.DecodeField(sch, sch[id].fields[k], depth, w, c) == Parsed(slot, c)
    ensures Relaxed.Merge(sch, id, depth, slots, None, b)
            == Relaxed.Merge(sch, id, depth, slots[k := slot], Some(sch[id].fields[k].tag), c)
  {
    assert DefOk(sch[id], id, |sch|);
    RoundTrip.FieldAt(sch[id].fields, k);
    RelaxedDecoder.MergeTurn(sch, id, depth, slots, None, b);
  }

  lemma {:induction false} SkipToEnd(sch: Schema, id: nat, depth: nat, slots: seq<Slot>, last: nat, key: Key,
                                     b: seq<u8>, more: seq<u8>)
    requires id < |sch| && |slots| == |sch[id].fields| && b != [] && ReadKey(last, b) == Parsed(key, more)
    requires FindField(sch[id].fields, key.tag) == |sch[id].fields| && SkipField(key.wireType, more) == Parsed((), [])
    ensures Relaxed.Merge(sch, id, depth, slots, Some(last), b) == Some(slots)
  {
    RelaxedDecoder.MergeTurn(sch, id, depth, slots, Some(last), b);
    assert Relaxed.Merge(sch, id, depth, slots, Some(key.tag), []) == Some(slots);
  }

  // ---------- where something is ----------

  /** A key of the unknown field and bytes that wait for it, `size` in all. */
  lemma {:induction false} WaitingKey(delta: nat, size: nat, unknown: seq<u8>) returns (w: WireType, filler: seq<u8>)
    requires 0 < delta < U32_END && |Encode(4 * delta)| <= size <= 8 && unknown == Encode(4 * delta + 1) + [1, 0]
    ensures |Encode(4 * delta + w.Code()) + filler| == size
    ensures SkipField(w, filler + unknown) == Parsed((), []) && SkipField(w, filler).Rejected?
    ensures size == |Encode(4 * delta)| ==> filler == []
  {
    UnknownSkips(delta);
    KeyWidth(delta);
    KeyLengths(delta);
    w, filler := Waiting(size - |Encode(4 * delta)|, unknown);
  }

  /** The bytes are those of some value of this wire type. */
  ghost predicate AreBytes(w: WireType, v: OpaqueValue, bytes: seq<u8>) {
    v.OnWire() == w && v.Bytes() == bytes
  }

  /** These could be the bytes of a value of wire type `t`, a varint being the number `n`. */
  ghost predicate CouldBe(t: WireType, n: nat, bytes: seq<u8>) {
    match t
    case Varint => bytes == Encode(n)
    case LengthDelimited => false
    case ThirtyTwoBit => |bytes| == 4
    case SixtyFourBit => |bytes| == 8
  }

  lemma {:induction false} ValueOfBytes(t: WireType, n: u64, bytes: seq<u8>) returns (v: OpaqueValue)
    requires CouldBe(t, n, bytes)
    ensures AreBytes(t, v, bytes)
  {
    match t {
      case Varint => v := VarintValue(n);
      case ThirtyTwoBit => v := ThirtyTwoBitValue(bytes);
      case SixtyFourBit => v := SixtyFourBitValue(bytes);
    }
  }

  lemma {:induction false} NothingAdded(n: nat, filler: seq<u8>)
    requires filler == []
    ensures Encode(n) + filler == Encode(n)
  {
  }

  /** A key that waits, as long as a value of wire type `t`; a varint is just the key. */
  lemma {:induction false} WaitingSized(t: WireType, delta: nat, unknown: seq<u8>)
    returns (w: WireType, filler: seq<u8>)
    requires 0 < delta < U32_END && t != LengthDelimited && (t == ThirtyTwoBit ==> delta < FIVE_BYTES)
    requires unknown == Encode(4 * delta + 1) + [1, 0]
    ensures CouldBe(t, 4 * delta + w.Code(), Encode(4 * delta + w.Code()) + filler)
    ensures |Encode(4 * delta + w.Code()) + filler| <= 8
    ensures SkipField(w, filler + unknown) == Parsed((), []) && SkipField(w, filler).Rejected?
  {
    KeyWidth(delta);
    match t {
      case Varint =>
        w, filler := WaitingKey(delta, |Encode(4 * delta)|, unknown);
        NothingAdded(4 * delta + w.Code(), filler);
      case ThirtyTwoBit =>
        w, filler := WaitingKey(delta, 4, unknown);
      case SixtyFourBit =>
        w, filler := WaitingKey(delta, 8, unknown);
    }
  }

  /** A value of the array's wire type that looks like the key of the unknown field and waits for its bytes. */
  lemma {:induction false} WaitingValue(t: WireType, delta: nat, unknown: seq<u8>)
    returns (v: OpaqueValue, w: WireType, filler: seq<u8>)
    requires 0 < delta < U32_END && t != LengthDelimited && (t == ThirtyTwoBit ==> delta < FIVE_BYTES)
    requires unknown == Encode(4 * delta + 1) + [1, 0]
    ensures AreBytes(t, v, Encode(4 * delta + w.Code()) + filler) && |Encode(4 * delta + w.Code()) + filler| <= 8
    ensures SkipField(w, filler + unknown) == Parsed((), []) && SkipField(w, filler).Rejected?
  {
    w, filler := WaitingSized(t, delta, unknown);
    v := ValueOfBytes(t, 4 * delta + w.Code(), Encode(4 * delta + w.Code()) + filler);
  }

  lemma {:induction false} KeyLengths(delta: nat)
    requires delta < U32_END
    ensures forall w: WireType :: |Encode(4 * delta + w.Code())| == |Encode(4 * delta)|
    ensures |Encode(4 * delta + 1)| == |Encode(4 * delta)|
  {
    forall w: WireType {
      KeyLength(delta, w);
    }
    EncodedLenIsLength(4 * delta);
    KeyLength(delta, LengthDelimited);
  }

  lemma {:induction false} KeyWidth(delta: nat)
    requires delta < U32_END
    ensures 1 <= |Encode(4 * delta)| <= 5 && (delta < FIVE_BYTES ==> |Encode(4 * delta)| <= 4)
  {
    EncodedLenIsLength(4 * delta);
  }

  /**
   * Wherever an array is exposed there are bytes that are decoded, in either mode, but are not once their
   * unknown field is deleted. For elements of four bytes the unknown tag must be near enough for its key.
   */
  lemma {:induction false} ExposedBreaks(sch: Schema, id: nat, k: nat, u: nat) returns (b: seq<u8>)
    requires id < |sch| && Exposed(sch[id].fields, k, u)
    requires WireTypeOf(sch[id].fields[k].typ.elem) == ThirtyTwoBit ==> u - sch[id].fields[k].tag < FIVE_BYTES
    ensures |b| < U64_END && ReadList(0, b).Some? && AnyUnknown(sch[id].fields, ReadList(0, b).value)
    ensures var kept := ListBytes(Known(sch[id].fields, ReadList(0, b).value), 0);
            && Messages.DecodedTo(sch, id, NotCanonical, b).Whole?
               && Messages.DecodedTo(sch, id, NotCanonical, kept).Bad?
            && Messages.Decoded(sch, id, b).Some? && Messages.Decoded(sch, id, kept).None?
  {
    var fields, f := sch[id].fields, sch[id].fields[k];
    assert DefOk(sch[id], id, |sch|);
    hide EncodeUpTo, ReadList, Known, Relaxed.Merge, Merge;
    var unknown := Encode(4 * (u - f.tag) + 1) + [1, 0];
    var v, w, filler := WaitingValue(WireTypeOf(f.typ.elem), u - f.tag, unknown);
    RoundTrip.FieldAt(fields, k);
    var kept;
    b, kept := TwoFields(fields, f.tag, u, v, KeyBytes(u, f.tag, w), filler, unknown);
    UnreadGoesOn(sch, id, k, u, w, filler + unknown);
    UnreadGoesOn(sch, id, k, u, w, filler);
    Messages.RelaxedIsAccepted(sch, id, kept);
  }

  /** The field of the array, then an unknown one; and what is left without the latter. */
  lemma {:induction false} TwoFields(fields: seq<Field>, tag: nat, u: nat, v: OpaqueValue, inner: seq<u8>,
                                     filler: seq<u8>, unknown: seq<u8>)
    returns (b: seq<u8>, kept: seq<u8>)
    requires tag < u < U32_END && FindField(fields, tag) < |fields| && FindField(fields, u) == |fields|
    requires v.Bytes() == inner + filler && |inner + filler| <= 8 && unknown == Encode(4 * (u - tag) + 1) + [1, 0]
    ensures b == KeyBytes(tag, 0, v.OnWire()) + (inner + (filler + unknown))
    ensures kept == KeyBytes(tag, 0, v.OnWire()) + (inner + filler)
    ensures |b| < U64_END && ReadList(0, b).Some? && AnyUnknown(fields, ReadList(0, b).value)
    ensures ListBytes(Known(fields, ReadList(0, b).value), 0) == kept
  {
    var other := OpaqueField(u, LengthDelimitedValue([0]));
    var list := [OpaqueField(tag, v), other];
    assert Encode(1) == [1];
    hide EncodeUpTo, ReadList;
    assert list[1..] == [other] && [other][1..] == [] && [list[0]][1..] == [];
    assert other.value.Bytes() + [] == [1, 0];
    assert ListBytes([other], tag) == unknown;
    Regroup(inner, filler, unknown);
    b, kept := ListBytes(list, 0), KeyBytes(tag, 0, v.OnWire()) + v.Bytes();
    KeyWidth(tag);
    KeyLengths(tag);
    KeyWidth(u - tag);
    KeyLengths(u - tag);
    ListReads(list, 0);
    assert FindField(fields, list[1].tag) == |fields|;
    assert Known(fields, [other]) == [];
    assert Known(fields, list) == [list[0]];
    assert v.Bytes() + [] == v.Bytes();
  }

  // ---------- the exact condition ----------

  /** Deleting the unknown fields of `b`, if it is a list of fields, changes nothing in either mode. */
  ghost predicate TransparentOn(sch: Schema, id: nat, b: seq<u8>)
    requires id < |sch|
  {
    ReadList(0, b).Some? ==>
      var list := ReadList(0, b).value;
      var kept := ListBytes(Known(sch[id].fields, list), 0);
      && Transparent(AnyUnknown(sch[id].fields, list), Messages.DecodedTo(sch, id, NotCanonical, b),
                     Messages.DecodedTo(sch, id, NotCanonical, kept))
      && Messages.Decoded(sch, id, b) == Messages.Decoded(sch, id, kept)
  }

  lemma {:induction false} TransparentIfUnexposed(sch: Schema, id: nat, b: seq<u8>)
    requires id < |sch| && |b| < U64_END && forall k: nat, u: nat :: !Exposed(sch[id].fields, k, u)
    ensures TransparentOn(sch, id, b)
  {
    if ReadList(0, b).Some? {
      ReadsList(0, b);
      UnexposedIsRead(sch[id].fields, ReadList(0, b).value, 0);
      UnknownFieldsAreTransparent(sch, id, b);
      UnknownFieldsAreTransparentToRelaxed(sch, id, b);
    }
  }

  /** Between the array and the unknown tag there cannot be more known ones than the message has fields. */
  lemma {:induction false} NearUnknown(sch: Schema, id: nat, k: nat, u: nat, m: nat) returns (near: nat)
    requires id < |sch| && Exposed(sch[id].fields, k, u) && k + m < |sch[id].fields|
    requires sch[id].fields[k + m].tag == sch[id].fields[k].tag + m < u
    ensures Exposed(sch[id].fields, k, near) && near - sch[id].fields[k].tag <= |sch[id].fields|
    decreases |sch[id].fields| - k - m
  {
    var fields := sch[id].fields;
    assert DefOk(sch[id], id, |sch|);
    near := fields[k].tag + m + 1;
    var j := FindField(fields, near);
    if j < |fields| {
      TagGap(fields, Base.Min(j, k + m), Base.Max(j, k + m));
      near := NearUnknown(sch, id, k, u, m + 1);
    }
  }

  lemma {:induction false} TagGap(fields: seq<Field>, i: nat, j: nat)
    requires i <= j < |fields| && forall a, b | 0 <= a < b < |fields| :: fields[a].tag < fields[b].tag
    ensures fields[j].tag >= fields[i].tag + (j - i)
    decreases j - i
  {
    if i < j {
      TagGap(fields, i + 1, j);
    }
  }

  /**
   * Unknown fields are transparent to a message, on every byte string and in both modes, if and only if none
   * of its arrays is exposed. Only a message of more than 67 million fields could keep every unknown tag too
   * far from an array of four-byte elements.
   */
  lemma {:induction false} TransparentExactly(sch: Schema, id: nat)
    requires id < |sch| && |sch[id].fields| < FIVE_BYTES
    ensures (forall b: seq<u8> | |b| < U64_END :: TransparentOn(sch, id, b))
            <==> (forall k: nat, u: nat :: !Exposed(sch[id].fields, k, u))
  {
    if k: nat, u: nat :| Exposed(sch[id].fields, k, u) {
      var near := NearUnknown(sch, id, k, u, 0);
      var b := ExposedBreaks(sch, id, k, near);
      assert !TransparentOn(sch, id, b);
    } else {
      forall b: seq<u8> | |b| < U64_END ensures TransparentOn(sch, id, b) {
        TransparentIfUnexposed(sch, id, b);
      }
    }
  }

  /** A message on which it fails: its one field, with tag 1, is an array of no bytes. */
  lemma {:induction false} UnreadExample() returns (sch: Schema, b: seq<u8>)
    ensures |sch| == 1 && ReadList(0, b).Some? && !UnknownsFirst(sch[0].fields, ReadList(0, b).value)
    ensures Messages.DecodedTo(sch, 0, NotCanonical, b).Whole?
    ensures Messages.DecodedTo(sch, 0, NotCanonical, ListBytes(Known(sch[0].fields, ReadList(0, b).value), 0)).Bad?
  {
    sch := [MessageDef([Field(1, false, List(Array(0), Uint(256)))], false)];
    assert sch[0].fields[1..] == [];
    b := ExposedBreaks(sch, 0, 0, 3);
    if |b| < U64_END && UnknownsFirst(sch[0].fields, ReadList(0, b).value) {
      UnknownFieldsAreTransparent(sch, 0, b);
    }
  }
}
