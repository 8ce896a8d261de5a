/**
 * What unknown fields do to a message: it is extended exactly when it would be canonical without them, at every level
 * of nesting. And whatever is decoded, however it was written, fits its schema.
 */
module Extensions {
  import opened Base
  import opened Varint
  import opened Schemas
  import opened Encoding
  import opened Opaque
  import opened Restricted
  import opened Writings
  import opened Increasing
  import opened Acceptance
  import opened Accepted
  import Messages
  import Modes
  import RoundTrip

  // ---------- deleting unknown fields at every level ----------

  function Stripped(sch: Schema, t: Type, way: Writing): (r: Writing)
    decreases way
  {
    match (t, way)
    case (Pair(key, val), PairWriting(k, x)) => PairWriting(Stripped(sch, key, k), Stripped(sch, val, x))
    case (List(_, elem), ListWriting(written, items)) =>
      ListWriting(seq(|written|, i requires 0 <= i < |written| => Stripped(sch, elem, written[i])), items)
    case (Message(id), MessageWriting(parts, slots)) => MessageWriting(StrippedParts(sch, id, parts), slots)
    case _ => way
  }

  /** A plain message that held nothing but unknown fields goes with them, as the encoder leaves it out. */
  function StrippedParts(sch: Schema, id: nat, parts: seq<Part>): seq<Part>
    decreases parts
  {
    if parts == [] then []
    else
      var later := StrippedParts(sch, id, parts[1..]);
      match parts[0]
      case Unknown(_) => later
      case Spread(_, _, _) => [parts[0]] + later
      case Plain(k, way) =>
        assert parts[0].way < parts[0];
        var less := if id < |sch| && k < |sch[id].fields| then Stripped(sch, sch[id].fields[k].typ, way) else way;
        if Vanishes(sch, id, k, way, less) then later else [Plain(k, less)] + later
  }

  predicate Vanishes(sch: Schema, id: nat, k: nat, way: Writing, less: Writing) {
    && id < |sch| && k < |sch[id].fields| && !sch[id].fields[k].optional && sch[id].fields[k].typ.Message?
    && way.MessageWriting? && way.parts != [] && less.MessageWriting? && less.parts == []
  }

  // ---------- what stays ----------

  /** Fields behind the one with tag `last` are still empty. */
  ghost predicate Ahead(sch: Schema, id: nat, slots: seq<Slot>, last: Option<nat>) {
    && id < |sch| && |slots| == |sch[id].fields|
    && forall k | 0 <= k < |slots| && (last.None? || last.value < sch[id].fields[k].tag) ::
         slots[k] == EmptySlot(sch, id, k)
  }

  /** What deleting the unknown fields of a value leaves. */
  ghost predicate Strips(sch: Schema, t: Type, allowEmpty: bool, depth: nat, way: Writing, less: Writing) {
    && WritingOk(sch, t, allowEmpty, depth, less) && Meaning(less) == Meaning(way) && !Extended(less)
    && (less.MessageWriting? ==> way.MessageWriting?)
    && (Odd(sch, t, allowEmpty, less)
        <==> Odd(sch, t, allowEmpty, way)
             || (!allowEmpty && t.Message? && way.MessageWriting? && way.parts != [] && less.parts == []))
    && |WritingBytes(sch, t, less)| <= |WritingBytes(sch, t, way)|
  }

  lemma {:induction false} Strip(sch: Schema, t: Type, allowEmpty: bool, depth: nat, way: Writing)
    requires ItemOk(t, |sch|) && WritingOk(sch, t, allowEmpty, depth, way)
    ensures Strips(sch, t, allowEmpty, depth, way, Stripped(sch, t, way))
    decreases way, 1
  {
    match t {
      case Pair(key, val) =>
        Strip(sch, key, true, depth, way.key);
        Strip(sch, val, true, depth, way.val);
      case List(kind, elem) => StripList(sch, kind, elem, depth, way);
      case Message(id) => StripMessage(sch, id, allowEmpty, depth, way);
      case _ =>
    }
  }

  lemma {:induction false} StripList(sch: Schema, kind: ListKind, elem: Type, depth: nat, way: Writing)
    requires ItemOk(elem, |sch|) && WritingOk(sch, List(kind, elem), true, depth, way)
    ensures var less := Stripped(sch, List(kind, elem), way);
            && Strips(sch, List(kind, elem), true, depth, way, less)
            && Strips(sch, List(kind, elem), false, depth, way, less)
    decreases way, 0
  {
    hide Odd, Extended, WritingBytes, Strips;
    var less := seq(|way.written|, i requires 0 <= i < |way.written| => Stripped(sch, elem, way.written[i]));
    forall i | 0 <= i < |way.written| ensures Strips(sch, elem, true, depth, way.written[i], less[i]) {
      Strip(sch, elem, true, depth, way.written[i]);
    }
    ShorterItems(sch, elem, depth, way.written, less);
    ListStrips(sch, kind, elem, depth, way, less);
  }

  lemma {:induction false} ListStrips(sch: Schema, kind: ListKind, elem: Type, depth: nat, way: Writing,
                                      less: seq<Writing>)
    requires WritingOk(sch, List(kind, elem), true, depth, way) && |less| == |way.written|
    requires forall i | 0 <= i < |less| :: Strips(sch, elem, true, depth, way.written[i], less[i])
    requires |WritingsBytes(sch, elem, less)| <= |WritingsBytes(sch, elem, way.written)|
    ensures Strips(sch, List(kind, elem), true, depth, way, ListWriting(less, way.items))
    ensures Strips(sch, List(kind, elem), false, depth, way, ListWriting(less, way.items))
  {
    assert Meanings(less) == Meanings(way.written);
    ShorterRegion(WritingsBytes(sch, elem, less), WritingsBytes(sch, elem, way.written));
    assert forall i | 0 <= i < |less| ::
        Odd(sch, elem, true, less[i]) == Odd(sch, elem, true, way.written[i]) && !Extended(less[i]);
  }

  lemma {:induction false} ShorterItems(sch: Schema, elem: Type, depth: nat, ways: seq<Writing>, less: seq<Writing>)
    requires |less| == |ways| && forall i | 0 <= i < |less| :: Strips(sch, elem, true, depth, ways[i], less[i])
    ensures |WritingsBytes(sch, elem, less)| <= |WritingsBytes(sch, elem, ways)|
    decreases |ways|
  {
    hide Strips;
    if ways != [] {
      assert Strips(sch, elem, true, depth, ways[0], less[0]);
      ShorterItem(sch, elem, depth, ways[0], less[0]);
      ShorterItems(sch, elem, depth, ways[1..], less[1..]);
    }
  }

  lemma {:induction false} ShorterItem(sch: Schema, elem: Type, depth: nat, way: Writing, less: Writing)
    requires Strips(sch, elem, true, depth, way, less)
    ensures |WritingBytes(sch, elem, less)| <= |WritingBytes(sch, elem, way)|
  {
  }

  lemma {:induction false} ShorterRegion(less: seq<u8>, more: seq<u8>)
    requires |less| <= |more|
    ensures |Delimited(less)| <= |Delimited(more)|
  {
    EncodedLenIsLength(|less|);
    EncodedLenIsLength(|more|);
  }

  lemma {:induction false} StripMessage(sch: Schema, id: nat, allowEmpty: bool, depth: nat, way: Writing)
    requires id < |sch| && WritingOk(sch, Message(id), allowEmpty, depth, way)
    ensures Strips(sch, Message(id), allowEmpty, depth, way, Stripped(sch, Message(id), way))
    decreases way, 0
  {
    hide PartsOk, PartsOdd, PartsExtended, PartsBytes, Filled;
    var less := StrippedParts(sch, id, way.parts);
    if depth > 0 {
      StripParts(sch, id, depth - 1, EmptyRecord(sch, id), way.parts, None, None);
      ShorterRegion(PartsBytes(sch, id, less, 0), PartsBytes(sch, id, way.parts, 0));
    } else {
      NothingExtended();
    }
  }

  lemma {:induction false} NothingExtended()
    ensures !PartsExtended([])
  {
  }

  // ---------- what stays of the fields ----------

  /** How much longer a key gets whose last tag is `d` farther away. */
  function Gap(d: nat): nat {
    if d == 0 then 0 else EncodedLen(4 * d)
  }

  lemma {:induction false} KeysShrink(a: nat, b: nat)
    requires a < U32_END && b < U32_END
    ensures EncodedLen(4 * (a + b)) <= EncodedLen(4 * a) + Gap(b)
  {
    var most := if a < b then b else a;
    assert EncodedLen(4 * (a + b)) <= EncodedLen(8 * most);
    assert EncodedLen(8 * most) <= EncodedLen(4 * most) + 1;
  }

  lemma {:induction false} KeyShrinks(tag: nat, last: nat, from: nat, w: WireType)
    requires from <= last <= tag < U32_END
    ensures |KeyBytes(tag, from, w)| <= |KeyBytes(tag, last, w)| + Gap(last - from)
    ensures Gap(tag - from) <= |KeyBytes(tag, last, w)| + Gap(last - from)
  {
    KeyLength(tag - from, w);
    KeyLength(tag - last, w);
    KeysShrink(tag - last, last - from);
  }

  /** What deleting the unknown fields leaves of these fields, behind an earlier last tag. */
  ghost predicate StripsParts(sch: Schema, id: nat, depth: nat, slots: seq<Slot>, parts: seq<Part>, last: Option<nat>,
                              from: Option<nat>, less: seq<Part>)
    requires id < |sch|
  {
    && PartsOk(sch, id, depth, less, from) && Filled(slots, less) == Filled(slots, parts) && !PartsExtended(less)
    && (PartsOdd(sch, id, less) <==> PartsOdd(sch, id, parts))
    && RoundTrip.LastTag(from) <= RoundTrip.LastTag(last)
    && |PartsBytes(sch, id, less, RoundTrip.LastTag(from))|
       <= |PartsBytes(sch, id, parts, RoundTrip.LastTag(last))|
          + Gap(RoundTrip.LastTag(last) - RoundTrip.LastTag(from))
  }

  /** The last tag of the fields that stay is not behind that of all. */
  ghost predicate NotAfter(from: Option<nat>, last: Option<nat>) {
    from.Some? ==> last.Some? && from.value <= last.value < U32_END
  }

  lemma {:induction false} StripParts(sch: Schema, id: nat, depth: nat, slots: seq<Slot>, parts: seq<Part>,
                                      last: Option<nat>, from: Option<nat>)
    requires id < |sch| && PartsOk(sch, id, depth, parts, last) && Ahead(sch, id, slots, last)
    requires NotAfter(from, last) && (last.Some? ==> last.value < U32_END)
    ensures StripsParts(sch, id, depth, slots, parts, last, from, StrippedParts(sch, id, parts))
    decreases parts
  {
    hide StripsParts, Strips, PartOk;
    if parts == [] {
      NothingStrips(sch, id, depth, slots, last, from);
    } else {
      var tag := TagOf(sch[id].fields, parts[0]);
      TagInRange(sch, id, depth, parts[0]);
      StaysAhead(sch, id, depth, slots, parts[0], last);
      var after := Filled(slots, [parts[0]]);
      match parts[0] {
        case Unknown(_) =>
          StripParts(sch, id, depth, after, parts[1..], Some(tag), from);
          GoesAway(sch, id, depth, slots, parts, last, from);
        case Spread(_, _, _) =>
          StripParts(sch, id, depth, after, parts[1..], Some(tag), Some(tag));
          Stays(sch, id, depth, slots, parts, last, from, parts[0]);
        case Plain(k, way) =>
          assert parts[0].way < parts[0];
          PlainOk(sch, id, depth, parts[0]);
          var f := sch[id].fields[k];
          Strip(sch, f.typ, f.optional, depth, way);
          var less := Stripped(sch, f.typ, way);
          if Vanishes(sch, id, k, way, less) {
            OnlyUnknowns(sch, id, depth, slots, k, way, less, last);
            StripParts(sch, id, depth, after, parts[1..], Some(tag), from);
            GoesAway(sch, id, depth, slots, parts, last, from);
          } else {
            StripParts(sch, id, depth, after, parts[1..], Some(tag), Some(tag));
            PlainStays(sch, id, depth, k, way, less);
            Stays(sch, id, depth, slots, parts, last, from, Plain(k, less));
          }
      }
    }
  }

  lemma {:induction false} NothingStrips(sch: Schema, id: nat, depth: nat, slots: seq<Slot>, last: Option<nat>,
                                         from: Option<nat>)
    requires id < |sch| && NotAfter(from, last)
    ensures StripsParts(sch, id, depth, slots, [], last, from, [])
  {
  }

  lemma {:induction false} TagInRange(sch: Schema, id: nat, depth: nat, part: Part)
    requires id < |sch| && PartOk(sch, id, depth, part)
    ensures TagOf(sch[id].fields, part) < U32_END
  {
    assert DefOk(sch[id], id, |sch|);
  }

  lemma {:induction false} PlainOk(sch: Schema, id: nat, depth: nat, part: Part)
    requires id < |sch| && PartOk(sch, id, depth, part) && part.Plain?
    ensures part.k < |sch[id].fields| && TypeOk(sch[id].fields[part.k].typ, |sch|)
    ensures WritingOk(sch, sch[id].fields[part.k].typ, sch[id].fields[part.k].optional, depth, part.way)
  {
    assert DefOk(sch[id], id, |sch|);
  }

  lemma {:induction false} StaysAhead(sch: Schema, id: nat, depth: nat, slots: seq<Slot>, part: Part, last: Option<nat>)
    requires id < |sch| && Ahead(sch, id, slots, last) && PartOk(sch, id, depth, part)
    requires last.Some? ==> last.value < TagOf(sch[id].fields, part)
    ensures Ahead(sch, id, Filled(slots, [part]), Some(TagOf(sch[id].fields, part)))
  {
    assert [part][1..] == [];
  }

  /** A part that goes away: it is not odd and does not set its field to anything new. */
  lemma {:induction false} GoesAway(sch: Schema, id: nat, depth: nat, slots: seq<Slot>, parts: seq<Part>,
                                    last: Option<nat>, from: Option<nat>)
    requires id < |sch| && parts != [] && NotAfter(from, last) && PartOk(sch, id, depth, parts[0])
    requires last.Some? ==> last.value < TagOf(sch[id].fields, parts[0])
    requires Filled(slots, [parts[0]]) == slots && !PartOdd(sch, id, parts[0])
    requires StripsParts(sch, id, depth, slots, parts[1..], Some(TagOf(sch[id].fields, parts[0])), from,
                         StrippedParts(sch, id, parts[1..]))
    ensures StripsParts(sch, id, depth, slots, parts, last, from, StrippedParts(sch, id, parts[1..]))
  {
    hide PartsOk, PartOdd, PartsOdd, PartsExtended, PartOk, KeyBytes, PartBytes;
    var tag := TagOf(sch[id].fields, parts[0]);
    FirstPart(sch, id, depth, parts);
    FilledFirst(slots, parts);
    KeyOfPart(sch, id, depth, parts[0], RoundTrip.LastTag(last), RoundTrip.LastTag(from));
  }

  /** A part is at least as long as what its absence can add to the next key. */
  lemma {:induction false} KeyOfPart(sch: Schema, id: nat, depth: nat, part: Part, last: nat, from: nat)
    requires id < |sch| && PartOk(sch, id, depth, part) && from <= last <= TagOf(sch[id].fields, part)
    ensures Gap(TagOf(sch[id].fields, part) - from) <= |PartBytes(sch, id, part, last)| + Gap(last - from)
    ensures |PartBytes(sch, id, part, from)| <= |PartBytes(sch, id, part, last)| + Gap(last - from)
  {
    hide KeyBytes, WritingBytes, SpreadBytes;
    TagInRange(sch, id, depth, part);
    match part {
      case Plain(k, way) => KeyShrinks(sch[id].fields[k].tag, last, from, WireTypeOf(sch[id].fields[k].typ));
      case Spread(k, _, _) => KeyShrinks(sch[id].fields[k].tag, last, from, WireTypeOf(sch[id].fields[k].typ.elem));
      case Unknown(run) => KeyShrinks(run[0].tag, last, from, run[0].value.OnWire());
    }
  }

  /** A part that stays, with what stays of it. */
  lemma {:induction false} Stays(sch: Schema, id: nat, depth: nat, slots: seq<Slot>, parts: seq<Part>,
                                 last: Option<nat>, from: Option<nat>, part: Part)
    requires id < |sch| && parts != [] && NotAfter(from, last)
    requires var tag := TagOf(sch[id].fields, parts[0]);
             && (last.Some? ==> last.value < tag)
             && PartOk(sch, id, depth, part) && TagOf(sch[id].fields, part) == tag && !PartExtended(part)
             && (PartOdd(sch, id, part) <==> PartOdd(sch, id, parts[0]))
             && Filled(slots, [part]) == Filled(slots, [parts[0]])
             && (forall n: nat :: |PartBytes(sch, id, part, n)| <= |PartBytes(sch, id, parts[0], n)|)
             && StripsParts(sch, id, depth, Filled(slots, [parts[0]]), parts[1..], Some(tag), Some(tag),
                            StrippedParts(sch, id, parts[1..]))
    ensures StripsParts(sch, id, depth, slots, parts, last, from, [part] + StrippedParts(sch, id, parts[1..]))
  {
    hide PartOk, PartOdd, PartExtended, PartBytes, PartsOdd, PartsExtended, StrippedParts;
    var later := StrippedParts(sch, id, parts[1..]);
    var less := [part] + later;
    assert less[1..] == later && less[0] == part;
    FirstPart(sch, id, depth, parts);
    FirstPart(sch, id, depth, less);
    FilledFirst(slots, parts);
    FilledFirst(slots, less);
    KeyOfPart(sch, id, depth, part, RoundTrip.LastTag(last), RoundTrip.LastTag(from));
    assert |PartBytes(sch, id, part, RoundTrip.LastTag(last))|
        <= |PartBytes(sch, id, parts[0], RoundTrip.LastTag(last))|;
  }

  lemma {:induction false} PlainStays(sch: Schema, id: nat, depth: nat, k: nat, way: Writing, less: Writing)
    requires id < |sch| && k < |sch[id].fields| && !Vanishes(sch, id, k, way, less)
    requires Strips(sch, sch[id].fields[k].typ, sch[id].fields[k].optional, depth, way, less)
    requires WritingOk(sch, sch[id].fields[k].typ, sch[id].fields[k].optional, depth, way)
    ensures PartOk(sch, id, depth, Plain(k, less)) && !PartExtended(Plain(k, less))
    ensures PartOdd(sch, id, Plain(k, less)) <==> PartOdd(sch, id, Plain(k, way))
    ensures forall slots :: Filled(slots, [Plain(k, less)]) == Filled(slots, [Plain(k, way)])
    ensures forall n: nat :: |PartBytes(sch, id, Plain(k, less), n)| <= |PartBytes(sch, id, Plain(k, way), n)|
  {
    hide KeyBytes;
    assert [Plain(k, less)][1..] == [] && [Plain(k, way)][1..] == [];
    var f := sch[id].fields[k];
    if f.typ.Message? {
      assert less.MessageWriting? && way.MessageWriting?;
    }
  }

  /** A plain message that held nothing but unknown fields is the empty one, and not odd. */
  lemma {:induction false} OnlyUnknowns(sch: Schema, id: nat, depth: nat, slots: seq<Slot>, k: nat, way: Writing,
                                        less: Writing, last: Option<nat>)
    requires id < |sch| && k < |sch[id].fields| && Vanishes(sch, id, k, way, less) && Ahead(sch, id, slots, last)
    requires last.Some? ==> last.value < sch[id].fields[k].tag
    requires less == Stripped(sch, sch[id].fields[k].typ, way)
    requires Strips(sch, sch[id].fields[k].typ, sch[id].fields[k].optional, depth, way, less)
    ensures Filled(slots, [Plain(k, way)]) == slots && !PartOdd(sch, id, Plain(k, way))
  {
    var inner := sch[id].fields[k].typ.id;
    assert DefOk(sch[id], id, |sch|);
    assert less.slots == EmptyRecord(sch, inner);
    assert Meaning(way) == EmptyValue(sch, sch[id].fields[k].typ);
    assert slots[k] == EmptySlot(sch, id, k);
    assert slots[k := slots[k]] == slots;
    assert [Plain(k, way)][1..] == [];
    NoneLeft(sch, inner, way.parts);
  }

  lemma {:induction false} NoneLeft(sch: Schema, id: nat, parts: seq<Part>)
    requires StrippedParts(sch, id, parts) == []
    ensures !PartsOdd(sch, id, parts)
    decreases parts
  {
    if parts != [] {
      FirstPart(sch, id, 0, parts);
      NoneLeft(sch, id, parts[1..]);
      if parts[0].Plain? {
        assert parts[0].way < parts[0];
        NoneLeft(sch, sch[id].fields[parts[0].k].typ.id, parts[0].way.parts);
      }
    }
  }

  // ---------- whatever is decoded fits its schema ----------

  /** The value fits, and nests within the limit but for a handwritten message that is empty and in place. */
  ghost predicate Means(sch: Schema, t: Type, allowEmpty: bool, depth: nat, v: Value) {
    Fits(sch, t, v) && (NestsWithin(sch, t, v, depth) || (!allowEmpty && IsEmpty(sch, t, v)))
  }

  lemma {:induction false} WritingFits(sch: Schema, t: Type, allowEmpty: bool, depth: nat, way: Writing)
    requires ItemOk(t, |sch|) && WritingOk(sch, t, allowEmpty, depth, way)
    ensures Means(sch, t, allowEmpty, depth, Meaning(way))
    decreases way, 1
  {
    match t {
      case Pair(key, val) =>
        WritingFits(sch, key, true, depth, way.key);
        WritingFits(sch, val, true, depth, way.val);
      case List(kind, elem) =>
        forall i | 0 <= i < |way.written|
          ensures Fits(sch, elem, Meaning(way.written[i])) && NestsWithin(sch, elem, Meaning(way.written[i]), depth) {
          WritingFits(sch, elem, true, depth, way.written[i]);
        }
        ArrangedFits(sch, kind, elem, depth, Meanings(way.written), way.items);
      case Message(id) =>
        EmptyRecordIsEmpty(sch, id);
        if depth > 0 {
          EmptySettled(sch, id, depth - 1);
          PartsFit(sch, id, depth - 1, EmptyRecord(sch, id), way.parts, None);
        }
      case _ =>
    }
  }

  /** Arranging items only puts them in another order. */
  lemma {:induction false} ArrangedFits(sch: Schema, kind: ListKind, elem: Type, depth: nat, given: seq<Value>,
                                        items: seq<Value>)
    requires Arranged(kind, given, items)
    requires forall i | 0 <= i < |given| :: Fits(sch, elem, given[i]) && NestsWithin(sch, elem, given[i], depth)
    ensures forall i | 0 <= i < |items| :: Fits(sch, elem, items[i]) && NestsWithin(sch, elem, items[i], depth)
  {
    hide Fits, NestsWithin, Ascending;
    forall i | 0 <= i < |items| ensures Fits(sch, elem, items[i]) && NestsWithin(sch, elem, items[i], depth) {
      assert items[i] in multiset(items);
      assert items[i] in multiset(given);
      assert items[i] in given;
    }
  }

  /** Every field fits and nests within the limit. */
  ghost predicate SlotsFit(sch: Schema, id: nat, depth: nat, slots: seq<Slot>) {
    && id < |sch| && |slots| == |sch[id].fields|
    && forall k | 0 <= k < |slots| ::
         SlotFits(sch, sch[id].fields[k], slots[k]) && SlotNestsWithin(sch, sch[id].fields[k], slots[k], depth)
  }

  lemma {:induction false} EmptySettled(sch: Schema, id: nat, depth: nat)
    requires id < |sch|
    ensures SlotsFit(sch, id, depth, EmptyRecord(sch, id))
  {
    EmptyRecordIsEmpty(sch, id);
  }

  lemma {:induction false} PartsFit(sch: Schema, id: nat, depth: nat, slots: seq<Slot>, parts: seq<Part>,
                                    last: Option<nat>)
    requires id < |sch| && PartsOk(sch, id, depth, parts, last) && SlotsFit(sch, id, depth, slots)
    ensures SlotsFit(sch, id, depth, Filled(slots, parts))
    decreases parts, 1
  {
    if parts != [] {
      PartFits(sch, id, depth, slots, parts[0]);
      FilledFirst(slots, parts);
      PartsFit(sch, id, depth, Filled(slots, [parts[0]]), parts[1..], Some(TagOf(sch[id].fields, parts[0])));
    }
  }

  lemma {:induction false} PartFits(sch: Schema, id: nat, depth: nat, slots: seq<Slot>, part: Part)
    requires id < |sch| && PartOk(sch, id, depth, part) && SlotsFit(sch, id, depth, slots)
    ensures SlotsFit(sch, id, depth, Filled(slots, [part]))
    decreases part
  {
    hide WritingOk;
    assert [part][1..] == [];
    assert DefOk(sch[id], id, |sch|);
    match part {
      case Plain(k, way) => WritingFits(sch, sch[id].fields[k].typ, sch[id].fields[k].optional, depth, way);
      case Spread(k, written, items) =>
        SpreadFits(sch, sch[id].fields[k].typ, depth, written, items);
      case Unknown(_) =>
    }
  }

  lemma {:induction false} SpreadFits(sch: Schema, t: Type, depth: nat, written: seq<Value>, items: seq<Value>)
    requires t.List? && ItemOk(t.elem, |sch|) && WireTypeOf(t.elem) != LengthDelimited
    requires Arranged(t.kind, written, items) && forall i | 0 <= i < |written| :: Fits(sch, t.elem, written[i])
    ensures Fits(sch, t, Items(items)) && NestsWithin(sch, t, Items(items), depth)
  {
    ArrangedFits(sch, t.kind, t.elem, depth, written, items);
  }

  /** Whatever is decoded, at any level of canonicity, fits its schema and nests within the limit. */
  lemma {:induction false} DecodedFits(sch: Schema, id: nat, min: Canonicity, b: seq<u8>)
    requires id < |sch| && Messages.DecodedTo(sch, id, min, b).Whole?
    ensures var slots := Messages.DecodedTo(sch, id, min, b).value;
            RecordFits(sch, id, slots) && RecordNestsWithin(sch, id, slots, Messages.RECURSION_LIMIT)
  {
    Messages.EarlyExitIsAFilter(sch, id, min, b);
    var parts := DecodedIsWritten(sch, id, b);
    EmptySettled(sch, id, Messages.RECURSION_LIMIT);
    PartsFit(sch, id, Messages.RECURSION_LIMIT, EmptyRecord(sch, id), parts, None);
  }

  // ---------- what an extension is ----------

  /** Deleting the unknown fields of a message leaves a way of writing the same message. */
  lemma {:induction false} StrippedWrites(sch: Schema, id: nat, parts: seq<Part>, b: seq<u8>, slots: seq<Slot>)
    requires Writes(sch, id, parts, b, slots)
    ensures var less := StrippedParts(sch, id, parts);
            && Writes(sch, id, less, PartsBytes(sch, id, less, 0), slots) && |PartsBytes(sch, id, less, 0)| <= |b|
            && (PartsOdd(sch, id, less) <==> PartsOdd(sch, id, parts)) && !PartsExtended(less)
  {
    StripParts(sch, id, Messages.RECURSION_LIMIT, EmptyRecord(sch, id), parts, None, None);
  }

  /**
   * However b writes a message: it is at least extended exactly if it is the message's encoding once the unknown
   * fields at every level are deleted, with the lengths around them written anew; and it is canonical exactly if
   * there were none, and nothing else that is odd.
   */
  lemma {:induction false} ExtendedMeaning(sch: Schema, id: nat, parts: seq<Part>, b: seq<u8>, slots: seq<Slot>)
    requires Writes(sch, id, parts, b, slots) && |b| < U64_END
    ensures var less := PartsBytes(sch, id, StrippedParts(sch, id, parts), 0);
            && Messages.DecodedTo(sch, id, NotCanonical, less)
               == Whole(slots, if less == MessageBytes(sch, id, slots) then Canonical else NotCanonical)
            && Messages.DecodedTo(sch, id, NotCanonical, b)
               == Whole(slots, if less != MessageBytes(sch, id, slots) then NotCanonical
                               else if PartsExtended(parts) then HasExtensions else Canonical)
  {
    var less := StrippedParts(sch, id, parts);
    var bytes := PartsBytes(sch, id, less, 0);
    StrippedWrites(sch, id, parts, b, slots);
    WrittenIsDecoded(sch, id, parts, b, slots);
    WrittenIsDecoded(sch, id, less, bytes, slots);
    DecodedFits(sch, id, NotCanonical, bytes);
    Messages.EarlyExitIsAFilter(sch, id, Canonical, bytes);
    Messages.CanonicalBijection(sch, id, slots, bytes);
  }

  /** Decoding restricted to extended data accepts b if and only if b is an encoding with unknown fields added. */
  lemma {:induction false} ExtensionsExactly(sch: Schema, id: nat, b: seq<u8>, slots: seq<Slot>)
    requires id < |sch| && |b| < U64_END
    ensures (var r := Messages.DecodedTo(sch, id, HasExtensions, b); r.Whole? && r.value == slots)
            <==> exists parts ::
                   Writes(sch, id, parts, b, slots)
                   && PartsBytes(sch, id, StrippedParts(sch, id, parts), 0) == MessageBytes(sch, id, slots)
  {
    Messages.EarlyExitIsAFilter(sch, id, HasExtensions, b);
    forall parts | Writes(sch, id, parts, b, slots) {
      ExtendedMeaning(sch, id, parts, b, slots);
    }
    if Messages.DecodedTo(sch, id, NotCanonical, b).Whole? {
      var parts := DecodedIsWritten(sch, id, b);
      ExtendedMeaning(sch, id, parts, b, Messages.DecodedTo(sch, id, NotCanonical, b).value);
    }
  }

  /** Bytes that hold an unknown field, at any level. */
  ghost predicate HoldsUnknown(sch: Schema, id: nat, b: seq<u8>) {
    exists parts, slots :: Writes(sch, id, parts, b, slots) && PartsExtended(parts)
  }

  /** Without unknown fields nothing is extended: such bytes are the encoding, or not canonical at all. */
  lemma {:induction false} NoUnknownsNoExtensions(sch: Schema, id: nat, b: seq<u8>)
    requires id < |sch| && |b| < U64_END && !HoldsUnknown(sch, id, b)
    ensures var r := Messages.DecodedTo(sch, id, NotCanonical, b);
            r.Whole? ==>
              && r.canon == (if b == MessageBytes(sch, id, r.value) then Canonical else NotCanonical)
              && (Messages.DecodedTo(sch, id, HasExtensions, b).Whole? <==> b == MessageBytes(sch, id, r.value))
  {
    var r := Messages.DecodedTo(sch, id, NotCanonical, b);
    Messages.EarlyExitIsAFilter(sch, id, HasExtensions, b);
    if r.Whole? {
      var parts := DecodedIsWritten(sch, id, b);
      WrittenIsDecoded(sch, id, parts, b, r.value);
      assert !PartsExtended(parts);
      DecodedFits(sch, id, NotCanonical, b);
      Messages.EarlyExitIsAFilter(sch, id, Canonical, b);
      Messages.CanonicalBijection(sch, id, r.value, b);
    }
  }

  // ---------- plain fields that are empty ----------

  /** Fields that are written canonically and that are there are not all empty. */
  lemma {:induction false} CanonicalNotEmpty(sch: Schema, id: nat, depth: nat, parts: seq<Part>)
    requires id < |sch| && PartsOk(sch, id, depth, parts, None) && parts != []
    requires !PartsOdd(sch, id, parts) && !PartsExtended(parts) && |PartsBytes(sch, id, parts, 0)| < U64_END
    ensures !RecordEmpty(sch, id, Filled(EmptyRecord(sch, id), parts))
  {
    hide PartsOk, PartsOdd, PartsExtended, PartBytes, Merge;
    var empty, b := EmptyRecord(sch, id), PartsBytes(sch, id, parts, 0);
    PartsDecode(sch, id, depth, empty, None, Canonical, parts);
    Modes.FieldsFilter(sch, id, Canonical, depth, empty, None, Canonical, b);
    EmptyRecordIsEmpty(sch, id);
    RoundTrip.FieldsFaithful(sch, id, depth, empty, 0, None, b);
    var slots := Filled(empty, parts);
    if RecordEmpty(sch, id, slots) {
      RoundTrip.EmptiesSkipped(sch, id, slots, 0, |slots|, 0);
      FirstIsThere(sch, id, depth, parts);
    }
  }

  lemma {:induction false} FirstIsThere(sch: Schema, id: nat, depth: nat, parts: seq<Part>)
    requires id < |sch| && PartsOk(sch, id, depth, parts, None) && parts != []
    ensures PartsBytes(sch, id, parts, 0) != []
  {
    PartNonEmpty(sch, id, depth, parts[0], 0);
  }

  /**
   * A plain field that is there although it is empty is never canonical, as the documentation has it, unless it is a
   * message of nothing but unknown fields: exactly then the code takes it for an extension.
   */
  lemma {:induction false} PresentButEmpty(sch: Schema, id: nat, depth: nat, k: nat, way: Writing)
    requires id < |sch| && PartOk(sch, id, depth, Plain(k, way)) && !sch[id].fields[k].optional
    requires IsEmpty(sch, sch[id].fields[k].typ, Meaning(way))
    requires |WritingBytes(sch, sch[id].fields[k].typ, way)| < U64_END
    ensures PartOdd(sch, id, Plain(k, way))
            <==> !Vanishes(sch, id, k, way, Stripped(sch, sch[id].fields[k].typ, way))
  {
    hide WritingOk, PartsOdd, PartsExtended, PartsBytes, PartsOk, IsEmpty, StrippedParts, Filled;
    var f := sch[id].fields[k];
    PlainOk(sch, id, depth, Plain(k, way));
    if f.typ.Message? {
      MessageParts(sch, f.typ.id, depth, way);
      var less := StrippedParts(sch, f.typ.id, way.parts);
      if way.parts == [] {
        NothingStripped(sch, f.typ.id);
      } else if less == [] {
        NoneLeft(sch, f.typ.id, way.parts);
      } else if !PartsOdd(sch, f.typ.id, way.parts) {
        StripParts(sch, f.typ.id, depth - 1, EmptyRecord(sch, f.typ.id), way.parts, None, None);
        InnerShorter(PartsBytes(sch, f.typ.id, way.parts, 0));
        EmptyMessage(sch, f.typ.id, way.slots);
        CanonicalNotEmpty(sch, f.typ.id, depth - 1, less);
      }
    }
  }

  lemma {:induction false} EmptyMessage(sch: Schema, id: nat, slots: seq<Slot>)
    ensures IsEmpty(sch, Message(id), Record(slots)) <==> RecordEmpty(sch, id, slots)
  {
  }

  lemma {:induction false} NothingStripped(sch: Schema, id: nat)
    ensures StrippedParts(sch, id, []) == []
  {
  }

  lemma {:induction false} InnerShorter(region: seq<u8>)
    ensures |region| <= |Delimited(region)|
  {
  }

  lemma {:induction false} MessageParts(sch: Schema, id: nat, depth: nat, way: Writing)
    requires WritingOk(sch, Message(id), false, depth, way)
    ensures way.MessageWriting? && id < |sch| && way.slots == Filled(EmptyRecord(sch, id), way.parts)
    ensures way.parts != [] ==> depth > 0
    ensures depth > 0 ==> PartsOk(sch, id, depth - 1, way.parts, None)
  {
  }

  // ---------- a message of nothing but unknown fields ----------

  /** A message that holds an empty one in place. */
  function Holder(): (sch: Schema) {
    [MessageDef([], false), MessageDef([Field(1, false, Message(0))], false)]
  }

  lemma {:induction false} HolderWrites(inner: seq<Part>, bytes: seq<u8>)
    requires PartsOk(Holder(), 0, 99, inner, None) && PartsBytes(Holder(), 0, inner, 0) == bytes && |bytes| < 128
    ensures Writes(Holder(), 1, [Plain(0, MessageWriting(inner, []))], [5, |bytes|] + bytes, [Holds(Record([]))])
    ensures PartsOdd(Holder(), 1, [Plain(0, MessageWriting(inner, []))])
            <==> inner == [] || PartsOdd(Holder(), 0, inner)
    ensures PartsExtended([Plain(0, MessageWriting(inner, []))]) <==> PartsExtended(inner)
  {
    hide PartsOk, PartsOdd, PartsExtended, PartsBytes;
    HolderAccepts(inner);
    HolderBytes(inner, bytes);
    FirstPart(Holder(), 1, 100, [Plain(0, MessageWriting(inner, []))]);
    NoParts(Holder(), 1);
    assert [Plain(0, MessageWriting(inner, []))][1..] == [];
  }

  lemma {:induction false} HolderEmpty()
    ensures EmptyRecord(Holder(), 1) == [Holds(Record([]))] && EmptyRecord(Holder(), 0) == []
  {
    assert EmptySlot(Holder(), 1, 0) == Holds(EmptyValue(Holder(), Message(0)));
  }

  lemma {:induction false} HolderAccepts(inner: seq<Part>)
    requires PartsOk(Holder(), 0, 99, inner, None)
    ensures PartsOk(Holder(), 1, 100, [Plain(0, MessageWriting(inner, []))], None)
    ensures Filled(EmptyRecord(Holder(), 1), [Plain(0, MessageWriting(inner, []))]) == [Holds(Record([]))]
  {
    var sch, part := Holder(), Plain(0, MessageWriting(inner, []));
    HolderEmpty();
    assert WritingOk(sch, Message(0), false, 100, part.way);
    assert PartOk(sch, 1, 100, part);
    assert [part][1..] == [];
  }

  lemma {:induction false} HolderBytes(inner: seq<Part>, bytes: seq<u8>)
    requires PartsBytes(Holder(), 0, inner, 0) == bytes && |bytes| < 128
    ensures PartsBytes(Holder(), 1, [Plain(0, MessageWriting(inner, []))], 0) == [5, |bytes|] + bytes
  {
    var sch, part := Holder(), Plain(0, MessageWriting(inner, []));
    ShortDelimited(bytes);
    hide KeyBytes, Delimited, EmptyRecord;
    assert WritingBytes(sch, Message(0), part.way) == [|bytes|] + bytes;
    assert PartBytes(sch, 1, part, 0) == [5] + ([|bytes|] + bytes) == [5, |bytes|] + bytes;
    OnePart(sch, 1, part, 0);
  }

  lemma {:induction false} OnePart(sch: Schema, id: nat, part: Part, last: nat)
    requires id < |sch|
    ensures PartsBytes(sch, id, [part], last) == PartBytes(sch, id, part, last)
  {
    assert [part][1..] == [];
  }

  lemma {:induction false} ShortDelimited(bytes: seq<u8>)
    requires |bytes| < 128
    ensures Delimited(bytes) == [|bytes|] + bytes && KeyBytes(1, 0, LengthDelimited) == [5]
  {
  }

  lemma {:induction false} NoParts(sch: Schema, id: nat)
    ensures !PartsOdd(sch, id, []) && !PartsExtended([])
  {
  }

  /**
   * Why deleting unknown fields takes a plain message with it that held nothing else: with its unknown field the
   * inner message is extended, but without it, it would be an empty one that should not be there.
   */
  lemma {:induction false} OnlyUnknownsExample()
    ensures var empty := [Holds(Record([]))];
            && Messages.DecodedTo(Holder(), 1, NotCanonical, [5, 2, 4, 0]) == Whole(empty, HasExtensions)
            && Messages.DecodedTo(Holder(), 1, NotCanonical, [5, 0]) == Whole(empty, NotCanonical)
            && Messages.DecodedTo(Holder(), 1, NotCanonical, []) == Whole(empty, Canonical)
  {
    var inner := [Unknown([OpaqueField(1, VarintValue(0))])];
    InnerWrites(inner);
    HolderWrites(inner, [4, 0]);
    HolderWrites([], []);
    NoParts(Holder(), 0);
    assert [5, 2] + [4, 0] == [5, 2, 4, 0] && [5, 0] + [] == [5, 0];
    WrittenIsDecoded(Holder(), 1, [Plain(0, MessageWriting(inner, []))], [5, 2, 4, 0], [Holds(Record([]))]);
    WrittenIsDecoded(Holder(), 1, [Plain(0, MessageWriting([], []))], [5, 0], [Holds(Record([]))]);
    HolderEmpty();
    assert Messages.DecodedTo(Holder(), 1, NotCanonical, []) == Whole([Holds(Record([]))], Canonical) by {
      MergeEnds(Holder(), 1, NotCanonical, 100, [Holds(Record([]))], None, Canonical);
    }
  }

  lemma {:induction false} InnerWrites(inner: seq<Part>)
    requires inner == [Unknown([OpaqueField(1, VarintValue(0))])]
    ensures PartsOk(Holder(), 0, 99, inner, None) && PartsBytes(Holder(), 0, inner, 0) == [4, 0]
    ensures !PartsOdd(Holder(), 0, inner) && PartsExtended(inner)
  {
    var run := inner[0].run;
    assert inner[1..] == [] && run[1..] == [] && ListBytes(run[1..], 1) == [];
    assert KeyBytes(1, 0, WireType.Varint) == [4];
    assert VarintValue(0).Bytes() == [0];
    assert ListBytes(run, 0) == [4, 0];
    FirstPart(Holder(), 0, 99, inner);
    NoParts(Holder(), 0);
  }
}
