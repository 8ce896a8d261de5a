/**
 * What a reader must put up with: fields that are empty but written all the same, and collections spread over several
 * fields, in any order. Stated on keys and values; `Accepted` has the general form.
 */
module Choices {
  import opened Base
  import opened Schemas
  import opened Encoding
  import opened Restricted
  import opened Writings
  import opened Increasing
  import opened Acceptance
  import opened Accepted
  import RoundTrip
  import Messages

  /** Fields that are written although they are empty, and those that are spread, with their items as written. */
  datatype Choice = Choice(empties: set<nat>, spreads: map<nat, seq<Value>>)

  const NO_CHOICE: Choice := Choice({}, map[])

  /** A message's fields from number `i` on, written as chosen. */
  function ChosenBytes(sch: Schema, id: nat, slots: seq<Slot>, choice: Choice, i: nat, last: nat): seq<u8>
    decreases |slots| - i
  {
    if id >= |sch| || i >= |slots| || i >= |sch[id].fields| then []
    else
      var f := sch[id].fields[i];
      if i in choice.spreads && f.typ.List? then
        KeyBytes(f.tag, last, WireTypeOf(f.typ.elem)) + SpreadBytes(sch, f.typ.elem, f.tag, choice.spreads[i])
        + ChosenBytes(sch, id, slots, choice, i + 1, f.tag)
      else if SlotEmpty(sch, f, slots[i]) && (i !in choice.empties || slots[i].Absent?) then
        ChosenBytes(sch, id, slots, choice, i + 1, last)
      else
        KeyBytes(f.tag, last, WireTypeOf(f.typ))
        + (if slots[i].Holds? then ValueBytes(sch, f.typ, slots[i].value) else [])
        + ChosenBytes(sch, id, slots, choice, i + 1, f.tag)
  }

  /** Something is written as the encoder would not have written it. */
  ghost predicate Unusual(sch: Schema, id: nat, slots: seq<Slot>, choice: Choice, i: nat) {
    id < |sch| &&
    exists k | i <= k < |slots| && k < |sch[id].fields| ::
      (k in choice.spreads && sch[id].fields[k].typ.List?)
      || (k in choice.empties && slots[k].Holds? && SlotEmpty(sch, sch[id].fields[k], slots[k]))
  }

  /** The choices are open to this message: what is written nests within the limit, and spreads hold the items. */
  ghost predicate Open(sch: Schema, id: nat, slots: seq<Slot>, depth: nat, choice: Choice) {
    && id < |sch| && |slots| == |sch[id].fields|
    && (forall k | 0 <= k < |slots| && k in choice.empties && slots[k].Holds? ::
          NestsWithin(sch, sch[id].fields[k].typ, slots[k].value, depth))
    && (forall k | 0 <= k < |slots| && k in choice.spreads && sch[id].fields[k].typ.List? ::
          && slots[k].Holds? && slots[k].value.Items?
          && PartOk(sch, id, depth, Spread(k, choice.spreads[k], slots[k].value.items)))
  }

  // ---------- the way that the encoder writes ----------

  /** The encoder's own way of writing a value. */
  function Standard(sch: Schema, t: Type, v: Value): Writing
    decreases v
  {
    match (t, v)
    case (Pair(key, val), Entry(k, x)) => PairWriting(Standard(sch, key, k), Standard(sch, val, x))
    case (List(_, elem), Items(items)) =>
      ListWriting(seq(|items|, i requires 0 <= i < |items| => Standard(sch, elem, items[i])), items)
    case (Message(id), Record(slots)) => MessageWriting(ChosenParts(sch, id, slots, NO_CHOICE, 0), slots)
    case _ => Leaf(v)
  }

  function ChosenParts(sch: Schema, id: nat, slots: seq<Slot>, choice: Choice, i: nat): (parts: seq<Part>)
    decreases slots, |slots| - i
  {
    if id >= |sch| || i >= |slots| || i >= |sch[id].fields| then []
    else
      var f := sch[id].fields[i];
      var later := ChosenParts(sch, id, slots, choice, i + 1);
      if i in choice.spreads && f.typ.List? then
        [Spread(i, choice.spreads[i], if slots[i].Holds? && slots[i].value.Items? then slots[i].value.items else [])]
        + later
      else if slots[i].Absent? || (SlotEmpty(sch, f, slots[i]) && i !in choice.empties) then later
      else
        assert slots[i].value < slots[i];
        [Plain(i, Standard(sch, f.typ, slots[i].value))] + later
  }

  /** It is accepted wherever the value fits, stands for it, is as long as its encoding, and canonical. */
  ghost predicate IsStandard(sch: Schema, t: Type, v: Value, depth: nat, way: Writing) {
    && WritingOk(sch, t, true, depth, way) && WritingOk(sch, t, false, depth, way) && WritingNests(sch, t, depth, way)
    && Meaning(way) == v && WritingBytes(sch, t, way) == ValueBytes(sch, t, v)
    && !Odd(sch, t, true, way) && (Odd(sch, t, false, way) <==> t.Message? && IsEmpty(sch, t, v)) && !Extended(way)
  }

  lemma {:induction false} StandardWrites(sch: Schema, t: Type, v: Value, depth: nat)
    requires ItemOk(t, |sch|) && Fits(sch, t, v) && NestsWithin(sch, t, v, depth)
    ensures IsStandard(sch, t, v, depth, Standard(sch, t, v))
    decreases v, 1
  {
    match t {
      case Pair(key, val) =>
        StandardWrites(sch, key, v.key, depth);
        StandardWrites(sch, val, v.val, depth);
      case List(kind, elem) => StandardList(sch, kind, elem, v.items, depth);
      case Message(id) => StandardMessage(sch, id, v.slots, depth);
      case _ =>
    }
  }

  lemma {:induction false} StandardList(sch: Schema, kind: ListKind, elem: Type, items: seq<Value>, depth: nat)
    requires ItemOk(elem, |sch|) && Fits(sch, List(kind, elem), Items(items))
    requires forall i | 0 <= i < |items| :: NestsWithin(sch, elem, items[i], depth)
    ensures IsStandard(sch, List(kind, elem), Items(items), depth, Standard(sch, List(kind, elem), Items(items)))
    decreases items, 1
  {
    hide WritingOk, WritingNests, Odd, Extended;
    var ways := seq(|items|, i requires 0 <= i < |items| => Standard(sch, elem, items[i]));
    forall i | 0 <= i < |items| ensures IsStandard(sch, elem, items[i], depth, ways[i]) {
      StandardWrites(sch, elem, items[i], depth);
    }
    assert Meanings(ways) == items;
    SameBytes(sch, elem, items, depth, ways);
    ListStandard(sch, kind, elem, items, depth, ways);
  }

  lemma {:induction false} SameBytes(sch: Schema, elem: Type, items: seq<Value>, depth: nat, ways: seq<Writing>)
    requires |ways| == |items| && forall i | 0 <= i < |items| :: IsStandard(sch, elem, items[i], depth, ways[i])
    ensures WritingsBytes(sch, elem, ways) == ItemsBytes(sch, elem, items)
    decreases |items|
  {
    if items != [] {
      SameBytes(sch, elem, items[1..], depth, ways[1..]);
    }
  }

  lemma {:induction false} ListStandard(sch: Schema, kind: ListKind, elem: Type, items: seq<Value>, depth: nat,
                                        ways: seq<Writing>)
    requires Fits(sch, List(kind, elem), Items(items)) && |ways| == |items| && Meanings(ways) == items
    requires forall i | 0 <= i < |items| :: IsStandard(sch, elem, items[i], depth, ways[i])
    requires WritingsBytes(sch, elem, ways) == ItemsBytes(sch, elem, items)
    ensures IsStandard(sch, List(kind, elem), Items(items), depth, ListWriting(ways, items))
  {
  }

  lemma {:induction false} StandardMessage(sch: Schema, id: nat, slots: seq<Slot>, depth: nat)
    requires id < |sch| && RecordFits(sch, id, slots) && depth > 0 && RecordNestsWithin(sch, id, slots, depth - 1)
    ensures IsStandard(sch, Message(id), Record(slots), depth, Standard(sch, Message(id), Record(slots)))
    decreases slots, |slots| + 1
  {
    hide ChosenParts, ChosenBytes, IsStandard, PartsOdd, PartsExtended, PartsNest, PartBytes, PartOk, Fits, IsEmpty;
    var parts := ChosenParts(sch, id, slots, NO_CHOICE, 0);
    ChosenWrite(sch, id, slots, EmptyRecord(sch, id), depth - 1, NO_CHOICE, 0, None);
    UsualBytes(sch, id, slots, 0, 0);
    if parts == [] {
      RoundTrip.NoBytesMeansEmpty(sch, id, slots, 0, 0);
    } else {
      PartNonEmpty(sch, id, depth - 1, parts[0], 0);
      if RecordEmpty(sch, id, slots) {
        RoundTrip.EmptiesSkipped(sch, id, slots, 0, |slots|, 0);
      }
    }
    MessageStandard(sch, id, slots, depth, parts);
  }

  lemma {:induction false} MessageStandard(sch: Schema, id: nat, slots: seq<Slot>, depth: nat, parts: seq<Part>)
    requires id < |sch| && depth > 0 && PartsOk(sch, id, depth - 1, parts, None) && PartsNest(sch, id, depth - 1, parts)
    requires slots == Filled(EmptyRecord(sch, id), parts)
    requires PartsBytes(sch, id, parts, 0) == MessageBytes(sch, id, slots)
    requires !PartsOdd(sch, id, parts) && !PartsExtended(parts) && (parts == [] <==> RecordEmpty(sch, id, slots))
    ensures IsStandard(sch, Message(id), Record(slots), depth, MessageWriting(parts, slots))
  {
    hide PartsOk, PartsNest, PartsOdd, PartsExtended, PartsBytes, Filled;
  }

  /** With no choices, this is the encoding. */
  lemma {:induction false} UsualBytes(sch: Schema, id: nat, slots: seq<Slot>, i: nat, last: nat)
    requires id < |sch| && |slots| == |sch[id].fields| && i <= |slots| && RecordFits(sch, id, slots)
    ensures ChosenBytes(sch, id, slots, NO_CHOICE, i, last) == FieldsBytes(sch, id, slots, i, last)
    decreases |slots| - i
  {
    if i < |slots| {
      var f := sch[id].fields[i];
      assert SlotFits(sch, f, slots[i]);
      UsualBytes(sch, id, slots, i + 1, if SlotEmpty(sch, f, slots[i]) then last else f.tag);
    }
  }

  /** The parts from number `i` on write the fields that are still missing, with the chosen bytes. */
  ghost predicate Completes(sch: Schema, id: nat, slots: seq<Slot>, now: seq<Slot>, depth: nat, choice: Choice, i: nat,
                            last: Option<nat>, parts: seq<Part>)
    requires id < |sch|
  {
    && PartsOk(sch, id, depth, parts, last) && PartsNest(sch, id, depth, parts) && Filled(now, parts) == slots
    && PartsBytes(sch, id, parts, RoundTrip.LastTag(last))
       == ChosenBytes(sch, id, slots, choice, i, RoundTrip.LastTag(last))
    && (PartsOdd(sch, id, parts) <==> Unusual(sch, id, slots, choice, i)) && !PartsExtended(parts)
  }

  lemma {:induction false} ChosenWrite(sch: Schema, id: nat, slots: seq<Slot>, now: seq<Slot>, depth: nat,
                                       choice: Choice, i: nat, last: Option<nat>)
    requires RoundTrip.Halfway(sch, id, slots, now, i) && RoundTrip.After(sch[id].fields, last, i)
    requires RecordFits(sch, id, slots) && RecordNestsWithin(sch, id, slots, depth)
    requires Open(sch, id, slots, depth, choice)
    ensures Completes(sch, id, slots, now, depth, choice, i, last, ChosenParts(sch, id, slots, choice, i))
    decreases slots, |slots| - i
  {
    hide Completes, ChosenParts, ChosenBytes, IsStandard, PartOk, Fits, NestsWithin, IsEmpty;
    if i == |slots| {
      NoneMissing(sch, id, slots, now, depth, choice, last);
    } else {
      var f, s := sch[id].fields[i], slots[i];
      assert DefOk(sch[id], id, |sch|);
      assert SlotFits(sch, f, s) && SlotNestsWithin(sch, f, s, depth);
      if i in choice.spreads && f.typ.List? {
        ChosenWrite(sch, id, slots, now[i := s], depth, choice, i + 1, Some(f.tag));
        SpreadCompletes(sch, id, slots, now, depth, choice, i, last);
      } else if s.Absent? || (SlotEmpty(sch, f, s) && i !in choice.empties) {
        RoundTrip.EmptySlotUnique(sch, id, i, s);
        ChosenWrite(sch, id, slots, now, depth, choice, i + 1, last);
        SkipCompletes(sch, id, slots, now, depth, choice, i, last);
      } else {
        ChosenWrite(sch, id, slots, now[i := s], depth, choice, i + 1, Some(f.tag));
        assert s.value < s;
        StandardWrites(sch, f.typ, s.value, depth);
        PlainCompletes(sch, id, slots, now, depth, choice, i, last);
      }
    }
  }

  lemma {:induction false} NoneMissing(sch: Schema, id: nat, slots: seq<Slot>, now: seq<Slot>, depth: nat,
                                       choice: Choice, last: Option<nat>)
    requires RoundTrip.Halfway(sch, id, slots, now, |slots|)
    ensures Completes(sch, id, slots, now, depth, choice, |slots|, last,
                      ChosenParts(sch, id, slots, choice, |slots|))
  {
    assert now == slots;
  }

  /** Where something unusual is: at this field, or behind it. */
  lemma {:induction false} UnusualFrom(sch: Schema, id: nat, slots: seq<Slot>, choice: Choice, i: nat)
    requires id < |sch| && |slots| == |sch[id].fields| && i < |slots|
    ensures Unusual(sch, id, slots, choice, i) <==>
            (i in choice.spreads && sch[id].fields[i].typ.List?)
            || (i in choice.empties && slots[i].Holds? && SlotEmpty(sch, sch[id].fields[i], slots[i]))
            || Unusual(sch, id, slots, choice, i + 1)
  {
    hide SlotEmpty;
  }

  lemma {:induction false} SkipCompletes(sch: Schema, id: nat, slots: seq<Slot>, now: seq<Slot>, depth: nat,
                                         choice: Choice, i: nat, last: Option<nat>)
    requires id < |sch| && |slots| == |sch[id].fields| && i < |slots|
    requires !(i in choice.spreads && sch[id].fields[i].typ.List?) && SlotEmpty(sch, sch[id].fields[i], slots[i])
    requires slots[i].Absent? || i !in choice.empties
    requires Completes(sch, id, slots, now, depth, choice, i + 1, last, ChosenParts(sch, id, slots, choice, i + 1))
    ensures Completes(sch, id, slots, now, depth, choice, i, last, ChosenParts(sch, id, slots, choice, i))
  {
    hide PartsOk, PartsNest, PartsOdd, PartsExtended, PartsBytes, Filled, Unusual, SlotEmpty;
    UnusualFrom(sch, id, slots, choice, i);
  }

  lemma {:induction false} SpreadCompletes(sch: Schema, id: nat, slots: seq<Slot>, now: seq<Slot>, depth: nat,
                                           choice: Choice, i: nat, last: Option<nat>)
    requires id < |sch| && |now| == |slots| == |sch[id].fields| && i < |slots|
    requires RoundTrip.After(sch[id].fields, last, i) && Open(sch, id, slots, depth, choice)
    requires i in choice.spreads && sch[id].fields[i].typ.List?
    requires Completes(sch, id, slots, now[i := slots[i]], depth, choice, i + 1, Some(sch[id].fields[i].tag),
                       ChosenParts(sch, id, slots, choice, i + 1))
    ensures Completes(sch, id, slots, now, depth, choice, i, last, ChosenParts(sch, id, slots, choice, i))
  {
    var part := Spread(i, choice.spreads[i], slots[i].value.items);
    PartCompletes(sch, id, slots, now, depth, choice, i, last, part);
  }

  lemma {:induction false} PlainCompletes(sch: Schema, id: nat, slots: seq<Slot>, now: seq<Slot>, depth: nat,
                                          choice: Choice, i: nat, last: Option<nat>)
    requires id < |sch| && |now| == |slots| == |sch[id].fields| && i < |slots| && slots[i].Holds?
    requires RoundTrip.After(sch[id].fields, last, i)
    requires var f := sch[id].fields[i];
             && !(i in choice.spreads && f.typ.List?)
             && !(SlotEmpty(sch, f, slots[i]) && i !in choice.empties)
             && IsStandard(sch, f.typ, slots[i].value, depth, Standard(sch, f.typ, slots[i].value))
    requires Completes(sch, id, slots, now[i := slots[i]], depth, choice, i + 1, Some(sch[id].fields[i].tag),
                       ChosenParts(sch, id, slots, choice, i + 1))
    ensures Completes(sch, id, slots, now, depth, choice, i, last, ChosenParts(sch, id, slots, choice, i))
  {
    hide Completes, WritingOk, WritingNests, Odd, Extended, IsEmpty, Standard;
    var f := sch[id].fields[i];
    var part := Plain(i, Standard(sch, f.typ, slots[i].value));
    assert PartOk(sch, id, depth, part);
    PartCompletes(sch, id, slots, now, depth, choice, i, last, part);
  }

  /** One more part in front. */
  lemma {:induction false} PartCompletes(sch: Schema, id: nat, slots: seq<Slot>, now: seq<Slot>, depth: nat,
                                         choice: Choice, i: nat, last: Option<nat>, part: Part)
    requires id < |sch| && |now| == |slots| == |sch[id].fields| && i < |slots|
    requires RoundTrip.After(sch[id].fields, last, i)
    requires PartOk(sch, id, depth, part) && PartNests(sch, id, depth, part) && !PartExtended(part)
    requires !part.Unknown? && part.k == i && Filled(now, [part]) == now[i := slots[i]]
    requires var from, f := RoundTrip.LastTag(last), sch[id].fields[i];
             && ChosenParts(sch, id, slots, choice, i) == [part] + ChosenParts(sch, id, slots, choice, i + 1)
             && ChosenBytes(sch, id, slots, choice, i, from)
                == PartBytes(sch, id, part, from) + ChosenBytes(sch, id, slots, choice, i + 1, f.tag)
             && (PartOdd(sch, id, part)
                 <==> (i in choice.spreads && f.typ.List?)
                      || (i in choice.empties && slots[i].Holds? && SlotEmpty(sch, f, slots[i])))
    requires Completes(sch, id, slots, now[i := slots[i]], depth, choice, i + 1, Some(sch[id].fields[i].tag),
                       ChosenParts(sch, id, slots, choice, i + 1))
    ensures Completes(sch, id, slots, now, depth, choice, i, last, ChosenParts(sch, id, slots, choice, i))
  {
    hide PartOk, PartNests, PartOdd, PartExtended, PartBytes, Unusual, SlotEmpty, ChosenParts, ChosenBytes;
    var later := ChosenParts(sch, id, slots, choice, i + 1);
    var parts := [part] + later;
    assert parts[1..] == later && parts[0] == part;
    FirstPart(sch, id, depth, parts);
    FilledFirst(now, parts);
    UnusualFrom(sch, id, slots, choice, i);
  }

  // ---------- what a reader must put up with ----------

  /**
   * A message is decoded to itself however it is written: with any of its empty plain fields, and with any of its
   * collections of numbers and words spread over one field per item, the items of a set in any order. It is canonical
   * if nothing of that has been chosen, and else not canonical at all.
   */
  lemma {:induction false} ChosenDecodes(sch: Schema, id: nat, slots: seq<Slot>, choice: Choice)
    requires id < |sch| && RecordFits(sch, id, slots) && RecordNestsWithin(sch, id, slots, Messages.RECURSION_LIMIT)
    requires Open(sch, id, slots, Messages.RECURSION_LIMIT, choice)
    requires |ChosenBytes(sch, id, slots, choice, 0, 0)| < U64_END
    ensures var b := ChosenBytes(sch, id, slots, choice, 0, 0);
            && Messages.Decoded(sch, id, b) == Some(slots)
            && Messages.DecodedTo(sch, id, NotCanonical, b)
               == Whole(slots, if Unusual(sch, id, slots, choice, 0) then NotCanonical else Canonical)
  {
    ChosenWrite(sch, id, slots, EmptyRecord(sch, id), Messages.RECURSION_LIMIT, choice, 0, None);
    WrittenIsDecoded(sch, id, ChosenParts(sch, id, slots, choice, 0), ChosenBytes(sch, id, slots, choice, 0, 0), slots);
  }

  /** Relaxed decoding gives every encoded message back. */
  lemma {:induction false} EncodedDecodesRelaxed(sch: Schema, id: nat, slots: seq<Slot>)
    requires id < |sch| && RecordFits(sch, id, slots) && RecordNestsWithin(sch, id, slots, Messages.RECURSION_LIMIT)
    requires |MessageBytes(sch, id, slots)| < U64_END
    ensures Messages.Decoded(sch, id, MessageBytes(sch, id, slots)) == Some(slots)
  {
    UsualBytes(sch, id, slots, 0, 0);
    ChosenDecodes(sch, id, slots, NO_CHOICE);
  }
}
