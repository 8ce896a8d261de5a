/** Whatever is decoded is one of the ways of writing a message, so that these are exactly what is accepted. */
module Accepted {
  import opened Base
  import opened Schemas
  import opened Ordering
  import opened Encoding
  import opened Wire
  import opened Opaque
  import opened Restricted
  import opened Writings
  import opened Increasing
  import opened Acceptance
  import Relaxed
  import RelaxedDecoder
  import RoundTrip
  import Modes
  import UnknownFields
  import Messages

  // ---------- whatever is decoded has been written in some way ----------

  /** The bytes `b` start with this way of writing `v`, and `rest` comes behind it. */
  ghost predicate Shows(sch: Schema, t: Type, allowEmpty: bool, depth: nat, b: seq<u8>, way: Writing, v: Value,
                        rest: seq<u8>) {
    WritingOk(sch, t, allowEmpty, depth, way) && Meaning(way) == v && b == WritingBytes(sch, t, way) + rest
  }

  lemma {:induction false} ReadWriting(sch: Schema, t: Type, allowEmpty: bool, depth: nat, b: seq<u8>)
    returns (way: Writing)
    requires ItemOk(t, |sch|) && DecodeValue(sch, t, allowEmpty, NotCanonical, depth, b).Out?
    ensures var r := DecodeValue(sch, t, allowEmpty, NotCanonical, depth, b);
            Shows(sch, t, allowEmpty, depth, b, way, r.value, r.rest)
    ensures Relaxed.DecodeValue(sch, t, depth, b).Parsed? ==> WritingNests(sch, t, depth, way)
    decreases depth, 0, t, 1, 0
  {
    match t {
      case Pair(_, _) => way := ReadPair(sch, t, depth, b);
      case List(_, _) => way := ReadListWriting(sch, t, depth, b);
      case Message(id) => way := ReadMessage(sch, id, allowEmpty, depth, b);
      case _ =>
        way := Leaf(DecodeValue(sch, t, allowEmpty, NotCanonical, depth, b).value);
        LeafShows(sch, t, b);
    }
  }

  lemma {:induction false} LeafShows(sch: Schema, t: Type, b: seq<u8>)
    requires ItemOk(t, |sch|) && (t.Uint? || t.Fixed? || t.Bytes?) && Relaxed.DecodeLeaf(t, b).Parsed?
    ensures var p := Relaxed.DecodeLeaf(t, b);
            Fits(sch, t, p.value) && b == ValueBytes(sch, t, p.value) + p.rest
  {
    match t {
      case Uint(_) => RoundTrip.ReadIsEncoding(b);
      case Fixed(size, _) => assert b == b[..size] + b[size..];
      case Bytes => RoundTrip.RegionIsDelimited(b);
    }
  }

  lemma {:induction false} ReadPair(sch: Schema, t: Type, depth: nat, b: seq<u8>) returns (way: Writing)
    requires t.Pair? && ItemOk(t, |sch|) && DecodePair(sch, t, NotCanonical, depth, b).Out?
    ensures var r := DecodePair(sch, t, NotCanonical, depth, b);
            Shows(sch, t, true, depth, b, way, r.value, r.rest)
    ensures Relaxed.DecodePair(sch, t, depth, b).Parsed? ==> WritingNests(sch, t, depth, way)
    decreases depth, 0, t, 0, 0
  {
    hide DecodeValue, Relaxed.DecodeValue;
    Modes.ValueMatches(sch, t.key, true, depth, b);
    var key := ReadWriting(sch, t.key, true, depth, b);
    var more := DecodeValue(sch, t.key, true, NotCanonical, depth, b).rest;
    var val := ReadWriting(sch, t.val, true, depth, more);
    way := PairWriting(key, val);
    Regroup(WritingBytes(sch, t.key, key), WritingBytes(sch, t.val, val),
            DecodeValue(sch, t.val, true, NotCanonical, depth, more).rest);
  }

  lemma {:induction false} ReadListWriting(sch: Schema, t: Type, depth: nat, b: seq<u8>) returns (way: Writing)
    requires t.List? && ItemOk(t, |sch|) && DecodeList(sch, t, NotCanonical, depth, b).Out?
    ensures var r := DecodeList(sch, t, NotCanonical, depth, b);
            Shows(sch, t, true, depth, b, way, r.value, r.rest)
    ensures Relaxed.DecodeList(sch, t, depth, b).Parsed? ==> WritingNests(sch, t, depth, way)
    decreases depth, 0, t, 0, 0
  {
    hide DecodeItems, Relaxed.DecodeItems, ReadRegion, Delimited, WritingNests, Shows;
    RoundTrip.RegionIsDelimited(b);
    var region := ReadRegion(b).value;
    if t.kind.Set? || t.kind.Mapping? {
      OrderedSort(t.kind, t.elem);
    }
    var ways := ReadWritings(sch, t.kind, t.elem, depth, [], Canonical, region);
    var items := DecodeItems(sch, t.kind, t.elem, NotCanonical, depth, [], Canonical, region).value;
    way := ListWriting(ways, items);
    ListShows(sch, t, depth, b, ways, items, ReadRegion(b).rest);
  }

  lemma {:induction false} ListShows(sch: Schema, t: Type, depth: nat, b: seq<u8>, ways: seq<Writing>,
                                     items: seq<Value>, rest: seq<u8>)
    requires t.List? && ArrangedFrom(t.kind, [], Meanings(ways), items)
    requires forall i | 0 <= i < |ways| :: WritingOk(sch, t.elem, true, depth, ways[i])
    requires b == Delimited(WritingsBytes(sch, t.elem, ways)) + rest
    ensures Shows(sch, t, true, depth, b, ListWriting(ways, items), Items(items), rest)
    ensures AllNest(sch, t.elem, depth, ways) ==> WritingNests(sch, t, depth, ListWriting(ways, items))
  {
    assert [] + Meanings(ways) == Meanings(ways);
  }

  lemma {:induction false} ReadWritings(sch: Schema, kind: ListKind, elem: Type, depth: nat, now: seq<Value>,
                                        canon: Canonicity, b: seq<u8>) returns (ways: seq<Writing>)
    requires ItemOk(elem, |sch|) && Orderable(kind, elem) && InPlaceSoFar(kind, elem, now)
    requires DecodeItems(sch, kind, elem, NotCanonical, depth, now, canon, b).Whole?
    ensures forall i | 0 <= i < |ways| :: WritingOk(sch, elem, true, depth, ways[i])
    ensures WritingsBytes(sch, elem, ways) == b
    ensures ArrangedFrom(kind, now, Meanings(ways),
                         DecodeItems(sch, kind, elem, NotCanonical, depth, now, canon, b).value)
    ensures Relaxed.DecodeItems(sch, kind, elem, depth, now, b).Some? ==> AllNest(sch, elem, depth, ways)
    decreases depth, 0, elem, 2, |b|
  {
    hide DecodeValue, Relaxed.DecodeValue, WritingOk, WritingNests, WritingBytes, InsertDistinguished, Insert;
    if b == [] {
      ways := [];
      assert Meanings(ways) == [] && now + [] == now;
    } else {
      var r := DecodeValue(sch, elem, true, NotCanonical, depth, b);
      ItemsUnfold(sch, kind, elem, NotCanonical, depth, now, canon, b);
      RelaxedItems(sch, kind, elem, depth, now, b);
      Modes.ValueMatches(sch, elem, true, depth, b);
      var first := ReadWriting(sch, elem, true, depth, b);
      KeepsOrder(sch, kind, elem, depth, now, first);
      var more := InsertDistinguished(kind, now, r.value).value;
      var later := ReadWritings(sch, kind, elem, depth, more.items, Worse(Worse(canon, r.canon), more.canon), r.rest);
      ways := [first] + later;
      assert ways[1..] == later;
      JoinMeanings(first, later);
      JoinArranged(kind, now, r.value, more.items, Meanings(later),
                   DecodeItems(sch, kind, elem, NotCanonical, depth, now, canon, b).value);
    }
  }

  /** An item that goes in leaves the others in order, and in the same place in either mode. */
  lemma {:induction false} KeepsOrder(sch: Schema, kind: ListKind, elem: Type, depth: nat, now: seq<Value>,
                                      way: Writing)
    requires Orderable(kind, elem) && InPlaceSoFar(kind, elem, now) && WritingOk(sch, elem, true, depth, way)
    ensures InsertDistinguished(kind, now, Meaning(way)).Some? ==>
              var all := InsertDistinguished(kind, now, Meaning(way)).value.items;
              && Insert(kind, now, Meaning(way)) == Some(all) && InPlaceSoFar(kind, elem, all)
              && if kind.Set? || kind.Mapping? then multiset(all) == multiset(now) + multiset{Meaning(way)}
                 else all == now + [Meaning(way)]
  {
    if kind.Set? || kind.Mapping? {
      WritingSort(sch, elem, depth, way);
      assert Keyed(now, Meaning(way));
      InsertMeaning(now, Meaning(way));
      Modes.InsertionsAgree(kind, now, Meaning(way));
    }
  }

  lemma {:induction false} JoinMeanings(first: Writing, later: seq<Writing>)
    ensures Meanings([first] + later) == [Meaning(first)] + Meanings(later)
  {
  }

  lemma {:induction false} JoinArranged(kind: ListKind, now: seq<Value>, item: Value, all: seq<Value>,
                                        given: seq<Value>, items: seq<Value>)
    requires if kind.Set? || kind.Mapping? then multiset(all) == multiset(now) + multiset{item}
             else all == now + [item]
    requires ArrangedFrom(kind, all, given, items)
    ensures ArrangedFrom(kind, now, [item] + given, items)
  {
    Regroup(now, [item], given);
  }

  lemma {:induction false} ReadMessage(sch: Schema, id: nat, allowEmpty: bool, depth: nat, b: seq<u8>)
    returns (way: Writing)
    requires id < |sch| && DecodeMessage(sch, id, allowEmpty, NotCanonical, depth, b).Out?
    ensures var r := DecodeMessage(sch, id, allowEmpty, NotCanonical, depth, b);
            Shows(sch, Message(id), allowEmpty, depth, b, way, r.value, r.rest)
    ensures Relaxed.DecodeMessage(sch, id, depth, b).Parsed? ==> WritingNests(sch, Message(id), depth, way)
    decreases depth, 0, Message(id), 0, 0
  {
    hide DecodeMessage, Relaxed.DecodeMessage, DecodeBody, Relaxed.Merge, ReadRegion, Delimited, EmptyRecord, Shows;
    hide WritingNests, WritingOk;
    MessageUnfold(sch, id, allowEmpty, NotCanonical, depth, b);
    RelaxedUnfold(sch, id, depth, b);
    RoundTrip.RegionIsDelimited(b);
    var region, rest := ReadRegion(b).value, ReadRegion(b).rest;
    if region == [] && !allowEmpty {
      way := MessageWriting([], EmptyRecord(sch, id));
      BareShows(sch, id, depth, b, rest);
    } else {
      BodyIsMerge(sch, id, depth - 1, region, rest);
      var parts := ReadParts(sch, id, depth - 1, EmptyRecord(sch, id), None, Canonical, region);
      var r := Merge(sch, id, NotCanonical, depth - 1, EmptyRecord(sch, id), None, Canonical, region);
      way := MessageWriting(parts, r.value);
      MessageShows(sch, id, allowEmpty, depth, b, parts, r.value, rest);
    }
  }

  lemma {:induction false} BareShows(sch: Schema, id: nat, depth: nat, b: seq<u8>, rest: seq<u8>)
    requires id < |sch| && (depth > 0 || sch[id].handwritten) && b == Delimited([]) + rest
    ensures var way := MessageWriting([], EmptyRecord(sch, id));
            && Shows(sch, Message(id), false, depth, b, way, Record(EmptyRecord(sch, id)), rest)
            && (depth > 0 ==> WritingNests(sch, Message(id), depth, way))
  {
  }

  lemma {:induction false} MessageShows(sch: Schema, id: nat, allowEmpty: bool, depth: nat, b: seq<u8>,
                                        parts: seq<Part>, slots: seq<Slot>, rest: seq<u8>)
    requires id < |sch| && depth > 0 && PartsOk(sch, id, depth - 1, parts, None)
    requires slots == Filled(EmptyRecord(sch, id), parts) && b == Delimited(PartsBytes(sch, id, parts, 0)) + rest
    ensures var way := MessageWriting(parts, slots);
            && Shows(sch, Message(id), allowEmpty, depth, b, way, Record(slots), rest)
            && (PartsNest(sch, id, depth - 1, parts) ==> WritingNests(sch, Message(id), depth, way))
  {
    hide PartsOk, PartsNest, PartsBytes, Filled, Delimited;
  }

  lemma {:induction false} RelaxedUnfold(sch: Schema, id: nat, depth: nat, b: seq<u8>)
    requires id < |sch|
    ensures Relaxed.DecodeMessage(sch, id, depth, b).Parsed? ==>
              && ReadRegion(b).Parsed? && depth > 0
              && Relaxed.Merge(sch, id, depth - 1, EmptyRecord(sch, id), None, ReadRegion(b).value).Some?
  {
  }

  // ---------- fields ----------

  ghost predicate IsUnknown(fields: seq<Field>, tag: nat) {
    forall k | 0 <= k < |fields| :: fields[k].tag != tag
  }

  lemma {:induction false} ReadParts(sch: Schema, id: nat, depth: nat, slots: seq<Slot>, last: Option<nat>,
                                     canon: Canonicity, b: seq<u8>) returns (parts: seq<Part>)
    requires id < |sch| && |slots| == |sch[id].fields|
    requires Merge(sch, id, NotCanonical, depth, slots, last, canon, b).Whole?
    requires last.Some? && IsUnknown(sch[id].fields, last.value) ==> PeekRepeated(b).None?
    ensures PartsOk(sch, id, depth, parts, last) && PartsBytes(sch, id, parts, RoundTrip.LastTag(last)) == b
    ensures Filled(slots, parts) == Merge(sch, id, NotCanonical, depth, slots, last, canon, b).value
    ensures Relaxed.Merge(sch, id, depth, slots, last, b).Some? ==> PartsNest(sch, id, depth, parts)
    decreases depth, 1, |b|, 1
  {
    hide Merge, Relaxed.Merge, PartOk, PartBytes, PartNests, ReadKey;
    if b == [] {
      parts := [];
      MergeEnds(sch, id, NotCanonical, depth, slots, last, canon);
    } else {
      KeyIsThere(sch, id, depth, slots, last, canon, b);
      var key := ReadKey(RoundTrip.LastTag(last), b).value;
      var part, rest, c := ReadPart(sch, id, depth, slots, last, canon, b);
      var later := ReadParts(sch, id, depth, Filled(slots, [part]), Some(key.tag), c, rest);
      parts := [part] + later;
      assert parts[1..] == later && parts[0] == part;
      FilledFirst(slots, parts);
      FirstPart(sch, id, depth, parts);
    }
  }

  lemma {:induction false} KeyIsThere(sch: Schema, id: nat, depth: nat, slots: seq<Slot>, last: Option<nat>,
                                      canon: Canonicity, b: seq<u8>)
    requires id < |sch| && |slots| == |sch[id].fields| && b != []
    requires Merge(sch, id, NotCanonical, depth, slots, last, canon, b).Whole?
    ensures ReadKey(RoundTrip.LastTag(last), b).Parsed?
  {
  }

  /** The first part, what comes behind it, and what the loop goes on with. */
  ghost predicate Goes(sch: Schema, id: nat, depth: nat, slots: seq<Slot>, last: Option<nat>, canon: Canonicity,
                       b: seq<u8>, tag: nat, part: Part, rest: seq<u8>, c: Canonicity)
    requires id < |sch| && |slots| == |sch[id].fields|
  {
    && PartOk(sch, id, depth, part) && TagOf(sch[id].fields, part) == tag
    && (last.Some? ==> last.value < tag)
    && b == PartBytes(sch, id, part, RoundTrip.LastTag(last)) + rest && |rest| < |b|
    && (IsUnknown(sch[id].fields, tag) ==> PeekRepeated(rest).None?)
    && Merge(sch, id, NotCanonical, depth, slots, last, canon, b)
       == Merge(sch, id, NotCanonical, depth, Filled(slots, [part]), Some(tag), c, rest)
    && (Relaxed.Merge(sch, id, depth, slots, last, b).Some? ==>
          && PartNests(sch, id, depth, part)
          && Relaxed.Merge(sch, id, depth, slots, last, b)
             == Relaxed.Merge(sch, id, depth, Filled(slots, [part]), Some(tag), rest))
  }

  lemma {:induction false} ReadPart(sch: Schema, id: nat, depth: nat, slots: seq<Slot>, last: Option<nat>,
                                    canon: Canonicity, b: seq<u8>)
    returns (part: Part, rest: seq<u8>, c: Canonicity)
    requires id < |sch| && |slots| == |sch[id].fields| && b != []
    requires Merge(sch, id, NotCanonical, depth, slots, last, canon, b).Whole?
    requires last.Some? && IsUnknown(sch[id].fields, last.value) ==> PeekRepeated(b).None?
    requires ReadKey(RoundTrip.LastTag(last), b).Parsed?
    ensures Goes(sch, id, depth, slots, last, canon, b, ReadKey(RoundTrip.LastTag(last), b).value.tag, part, rest, c)
    decreases depth, 1, |b|, 0
  {
    hide Goes, ReadKey;
    var key := ReadKey(RoundTrip.LastTag(last), b);
    var k := FindField(sch[id].fields, key.value.tag);
    if k == |slots| {
      part, rest, c := ReadUnknown(sch, id, depth, slots, last, canon, b);
    } else {
      part, rest, c := ReadKnown(sch, id, depth, slots, last, canon, b);
    }
  }

  lemma {:induction false} ReadUnknown(sch: Schema, id: nat, depth: nat, slots: seq<Slot>, last: Option<nat>,
                                       canon: Canonicity, b: seq<u8>)
    returns (part: Part, rest: seq<u8>, c: Canonicity)
    requires id < |sch| && |slots| == |sch[id].fields| && b != []
    requires Merge(sch, id, NotCanonical, depth, slots, last, canon, b).Whole?
    requires last.Some? && IsUnknown(sch[id].fields, last.value) ==> PeekRepeated(b).None?
    requires ReadKey(RoundTrip.LastTag(last), b).Parsed?
    requires FindField(sch[id].fields, ReadKey(RoundTrip.LastTag(last), b).value.tag) == |slots|
    ensures Goes(sch, id, depth, slots, last, canon, b, ReadKey(RoundTrip.LastTag(last), b).value.tag, part, rest, c)
  {
    hide Merge, Relaxed.Merge, SkipField, ReadKey, KeyBytes, Goes;
    var from := RoundTrip.LastTag(last);
    var key := ReadKey(from, b);
    var tag, w := key.value.tag, key.value.wireType;
    UnknownTurn(sch, id, depth, slots, last, canon, b);
    var run := UnknownFields.SkippedIsRun(tag, w, key.rest);
    part, rest, c := Unknown(run), SkipField(w, key.rest).rest, Worse(canon, HasExtensions);
    RunGoes(sch, id, depth, slots, last, canon, b, run, rest);
  }

  lemma {:induction false} UnknownTurn(sch: Schema, id: nat, depth: nat, slots: seq<Slot>, last: Option<nat>,
                                       canon: Canonicity, b: seq<u8>)
    requires id < |sch| && |slots| == |sch[id].fields| && b != []
    requires Merge(sch, id, NotCanonical, depth, slots, last, canon, b).Whole?
    requires last.Some? && IsUnknown(sch[id].fields, last.value) ==> PeekRepeated(b).None?
    requires ReadKey(RoundTrip.LastTag(last), b).Parsed?
    requires FindField(sch[id].fields, ReadKey(RoundTrip.LastTag(last), b).value.tag) == |slots|
    ensures var key := ReadKey(RoundTrip.LastTag(last), b);
            var rest := SkipField(key.value.wireType, key.rest);
            && IsUnknown(sch[id].fields, key.value.tag) && (last.Some? ==> last.value < key.value.tag)
            && rest.Parsed?
            && Merge(sch, id, NotCanonical, depth, slots, last, canon, b)
               == Merge(sch, id, NotCanonical, depth, slots, Some(key.value.tag), Worse(canon, HasExtensions),
                        rest.rest)
            && Relaxed.Merge(sch, id, depth, slots, last, b)
               == Relaxed.Merge(sch, id, depth, slots, Some(key.value.tag), rest.rest)
  {
    hide Merge, Relaxed.Merge, SkipField, ReadKey, KeyBytes;
    var from := RoundTrip.LastTag(last);
    var key := ReadKey(from, b);
    MergeUnknown(sch, id, NotCanonical, depth, slots, last, canon, b);
    RelaxedDecoder.MergeTurn(sch, id, depth, slots, last, b);
    RoundTrip.KeyIsKeyBytes(from, b);
    KeyPeeks(key.value.tag, from, key.value.wireType, key.rest);
  }

  lemma {:induction false} RunGoes(sch: Schema, id: nat, depth: nat, slots: seq<Slot>, last: Option<nat>,
                                   canon: Canonicity, b: seq<u8>, run: seq<OpaqueField>, rest: seq<u8>)
    requires id < |sch| && |slots| == |sch[id].fields| && ReadKey(RoundTrip.LastTag(last), b).Parsed?
    requires var key := ReadKey(RoundTrip.LastTag(last), b);
             && IsUnknown(sch[id].fields, key.value.tag) && (last.Some? ==> last.value < key.value.tag)
             && UnknownFields.StartsWithRun(key.value.tag, key.value.wireType, key.rest, run, rest)
             && Merge(sch, id, NotCanonical, depth, slots, last, canon, b)
                == Merge(sch, id, NotCanonical, depth, slots, Some(key.value.tag), Worse(canon, HasExtensions), rest)
             && Relaxed.Merge(sch, id, depth, slots, last, b)
                == Relaxed.Merge(sch, id, depth, slots, Some(key.value.tag), rest)
    ensures Goes(sch, id, depth, slots, last, canon, b, ReadKey(RoundTrip.LastTag(last), b).value.tag, Unknown(run),
                 rest, Worse(canon, HasExtensions))
  {
    hide Merge, Relaxed.Merge, ReadKey, KeyBytes;
    var from := RoundTrip.LastTag(last);
    var key := ReadKey(from, b);
    RoundTrip.KeyIsKeyBytes(from, b);
    Regroup(KeyBytes(key.value.tag, from, key.value.wireType), UnknownFields.FromValue(run), rest);
    KeyNonEmpty(key.value.tag, from, key.value.wireType);
    assert [Unknown(run)][1..] == [];
    assert PartBytes(sch, id, Unknown(run), from)
        == KeyBytes(key.value.tag, from, key.value.wireType) + UnknownFields.FromValue(run);
    assert b == PartBytes(sch, id, Unknown(run), from) + rest;
    assert Filled(slots, [Unknown(run)]) == slots;
  }

  lemma {:induction false} ReadKnown(sch: Schema, id: nat, depth: nat, slots: seq<Slot>, last: Option<nat>,
                                     canon: Canonicity, b: seq<u8>)
    returns (part: Part, rest: seq<u8>, c: Canonicity)
    requires id < |sch| && |slots| == |sch[id].fields| && b != []
    requires Merge(sch, id, NotCanonical, depth, slots, last, canon, b).Whole?
    requires ReadKey(RoundTrip.LastTag(last), b).Parsed?
    requires FindField(sch[id].fields, ReadKey(RoundTrip.LastTag(last), b).value.tag) < |slots|
    ensures Goes(sch, id, depth, slots, last, canon, b, ReadKey(RoundTrip.LastTag(last), b).value.tag, part, rest, c)
    decreases depth, 0
  {
    hide Merge, Relaxed.Merge, DecodeField, Relaxed.DecodeField, ReadKey, KeyBytes, WritingBytes;
    var from := RoundTrip.LastTag(last);
    var key := ReadKey(from, b);
    var tag, w, k := key.value.tag, key.value.wireType, FindField(sch[id].fields, key.value.tag);
    KnownIsNew(sch, id, depth, slots, last, canon, b);
    FieldTurn(sch, id, depth, slots, last, canon, k, w, key.rest);
    RoundTrip.KeyIsKeyBytes(from, b);
    KeyNonEmpty(tag, from, w);
    var f := sch[id].fields[k];
    var r := DecodeField(sch, f, NotCanonical, depth, w, key.rest);
    part := ReadField(sch, id, k, depth, w, key.rest);
    rest, c := r.rest, Worse(canon, r.canon);
    Regroup(KeyBytes(tag, from, w), Body(sch, f, part), rest);
    Modes.FieldMatches(sch, f, depth, w, key.rest);
    assert [part][1..] == [];
    assert Filled(slots, [part]) == slots[k := r.value];
    assert PartBytes(sch, id, part, from) == KeyBytes(tag, from, w) + Body(sch, f, part);
  }

  lemma {:induction false} KnownIsNew(sch: Schema, id: nat, depth: nat, slots: seq<Slot>, last: Option<nat>,
                                      canon: Canonicity, b: seq<u8>)
    requires id < |sch| && |slots| == |sch[id].fields| && b != []
    requires Merge(sch, id, NotCanonical, depth, slots, last, canon, b).Whole?
    requires ReadKey(RoundTrip.LastTag(last), b).Parsed?
    requires FindField(sch[id].fields, ReadKey(RoundTrip.LastTag(last), b).value.tag) < |slots|
    ensures last.Some? ==> last.value < ReadKey(RoundTrip.LastTag(last), b).value.tag
  {
  }

  /** What comes behind the key of a known field. */
  function Body(sch: Schema, f: Field, part: Part): seq<u8> {
    match part
    case Plain(_, way) => WritingBytes(sch, f.typ, way)
    case Spread(_, written, _) => if f.typ.List? then SpreadBytes(sch, f.typ.elem, f.tag, written) else []
    case Unknown(_) => []
  }

  lemma {:induction false} ReadField(sch: Schema, id: nat, k: nat, depth: nat, w: WireType, b: seq<u8>)
    returns (part: Part)
    requires id < |sch| && k < |sch[id].fields| && TypeOk(sch[id].fields[k].typ, |sch|)
    requires DecodeField(sch, sch[id].fields[k], NotCanonical, depth, w, b).Out?
    ensures var f := sch[id].fields[k];
            var r := DecodeField(sch, f, NotCanonical, depth, w, b);
            && PartOk(sch, id, depth, part) && !part.Unknown? && part.k == k
            && (part.Plain? ==> w == WireTypeOf(f.typ)) && (part.Spread? ==> w == WireTypeOf(f.typ.elem))
            && b == Body(sch, f, part) + r.rest
            && r.value == Holds(if part.Plain? then Meaning(part.way) else Items(part.items))
            && (Relaxed.DecodeField(sch, f, depth, w, b).Parsed? ==> PartNests(sch, id, depth, part))
    decreases depth, 0, sch[id].fields[k].typ, 4, 0
  {
    hide DecodeValue, Relaxed.DecodeValue, WritingBytes, WritingOk, WritingNests;
    var f := sch[id].fields[k];
    if !f.optional && f.typ.List? && !f.typ.kind.Mapping? && w != LengthDelimited {
      var items := Relaxed.DecodeUnpacked(sch, f.typ.kind, f.typ.elem, depth, w, b);
      var written := ReadUnpacked(sch, f.typ.kind, f.typ.elem, depth, f.tag, b);
      part := Spread(k, written, items.value);
    } else {
      var way := ReadWriting(sch, f.typ, f.optional, depth, b);
      part := Plain(k, way);
    }
  }

  // ---------- collections that are spread ----------

  lemma {:induction false} ReadUnpacked(sch: Schema, kind: ListKind, elem: Type, depth: nat, tag: nat, b: seq<u8>)
    returns (written: seq<Value>)
    requires TypeOk(elem, |sch|) && WireTypeOf(elem) != LengthDelimited && Orderable(kind, elem) && !kind.Mapping?
    requires Relaxed.DecodeUnpacked(sch, kind, elem, depth, WireTypeOf(elem), b).Parsed?
    ensures var p := Relaxed.DecodeUnpacked(sch, kind, elem, depth, WireTypeOf(elem), b);
            && (forall i | 0 <= i < |written| :: Fits(sch, elem, written[i]))
            && b == SpreadBytes(sch, elem, tag, written) + p.rest
            && Arranged(kind, written, p.value) && (written == [] ==> kind == Array(0))
  {
    if kind == Array(0) {
      written := [];
    } else {
      if kind.Set? {
        OrderedSort(kind, elem);
      }
      written := ReadSpread(sch, kind, elem, depth, tag, [], b);
      assert [] + written == written;
    }
  }

  lemma {:induction false} ReadSpread(sch: Schema, kind: ListKind, elem: Type, depth: nat, tag: nat, now: seq<Value>,
                                      b: seq<u8>) returns (written: seq<Value>)
    requires TypeOk(elem, |sch|) && WireTypeOf(elem) != LengthDelimited && Orderable(kind, elem)
    requires kind != Array(0) && (kind.Array? ==> |now| < kind.size) && InPlaceSoFar(kind, elem, now)
    requires Relaxed.UnpackedItems(sch, kind, elem, depth, now, b).Parsed?
    ensures var p := Relaxed.UnpackedItems(sch, kind, elem, depth, now, b);
            && written != [] && (forall i | 0 <= i < |written| :: Fits(sch, elem, written[i]))
            && b == SpreadBytes(sch, elem, tag, written) + p.rest
            && ArrangedFrom(kind, now, written, p.value)
    decreases |b|
  {
    hide Relaxed.UnpackedItems, Relaxed.UnpackedOn, InsertDistinguished, Insert, KeyBytes, ArrangedFrom;
    ItemTurn(sch, kind, elem, depth, now, b);
    var p := Relaxed.DecodeValue(sch, elem, depth, b);
    LeafShows(sch, elem, b);
    InsertsAlike(sch, kind, elem, depth, now, p.value);
    var more := Insert(kind, now, p.value).value;
    OnTurn(sch, kind, elem, depth, more, p.rest);
    var r := Relaxed.UnpackedItems(sch, kind, elem, depth, now, b);
    if PeekRepeated(p.rest).None? {
      written := [p.value];
      Ends(kind, elem, more);
      JoinArranged(kind, now, p.value, more, [], r.value);
      assert [p.value] + [] == written;
    } else {
      var later := ReadSpread(sch, kind, elem, depth, tag, more, p.rest[1..]);
      written := [p.value] + later;
      JoinArranged(kind, now, p.value, more, later, r.value);
      UnknownFields.RepeatedKey(tag, p.rest);
      SpreadJoins(sch, elem, tag, p.value, later, r.rest);
    }
  }

  lemma {:induction false} Ends(kind: ListKind, elem: Type, items: seq<Value>)
    requires InPlaceSoFar(kind, elem, items) && (kind.Array? ==> |items| == kind.size)
    ensures ArrangedFrom(kind, items, [], items)
  {
    assert items + [] == items;
  }

  /** An unpacked item that goes in leaves the others in order. */
  lemma {:induction false} InsertsAlike(sch: Schema, kind: ListKind, elem: Type, depth: nat, now: seq<Value>,
                                        item: Value)
    requires InPlaceSoFar(kind, elem, now) && Orderable(kind, elem)
    requires Fits(sch, elem, item) && (elem.Uint? || elem.Fixed? || elem.Bytes?)
    ensures Insert(kind, now, item).Some? ==>
              var all := Insert(kind, now, item).value;
              && InPlaceSoFar(kind, elem, all) && |all| == |now| + 1
              && if kind.Set? || kind.Mapping? then multiset(all) == multiset(now) + multiset{item}
                 else all == now + [item]
  {
    if kind.Set? || kind.Mapping? {
      FitsSort(sch, elem, item);
    }
    Modes.InsertionsAgree(kind, now, item);
    KeepsOrder(sch, kind, elem, depth, now, Leaf(item));
  }

  lemma {:induction false} SpreadJoins(sch: Schema, elem: Type, tag: nat, v: Value, later: seq<Value>, rest: seq<u8>)
    requires later != []
    ensures SpreadBytes(sch, elem, tag, [v] + later) + rest
            == ValueBytes(sch, elem, v)
               + (KeyBytes(tag, tag, WireTypeOf(elem)) + (SpreadBytes(sch, elem, tag, later) + rest))
  {
    assert ([v] + later)[1..] == later;
    Regroup(KeyBytes(tag, tag, WireTypeOf(elem)), SpreadBytes(sch, elem, tag, later), rest);
    Regroup(ValueBytes(sch, elem, v),
            KeyBytes(tag, tag, WireTypeOf(elem)) + SpreadBytes(sch, elem, tag, later), rest);
  }

  // ---------- exactly what is accepted ----------

  /** A way of writing a whole message, with its bytes and the message that it stands for. */
  ghost predicate Writes(sch: Schema, id: nat, parts: seq<Part>, b: seq<u8>, slots: seq<Slot>) {
    && id < |sch| && PartsOk(sch, id, Messages.RECURSION_LIMIT, parts, None)
    && b == PartsBytes(sch, id, parts, 0) && slots == Filled(EmptyRecord(sch, id), parts)
  }

  lemma {:induction false} WrittenIsDecoded(sch: Schema, id: nat, parts: seq<Part>, b: seq<u8>, slots: seq<Slot>)
    requires Writes(sch, id, parts, b, slots) && |b| < U64_END
    ensures Messages.DecodedTo(sch, id, NotCanonical, b) == Whole(slots, PartsCanon(sch, id, parts))
    ensures PartsNest(sch, id, Messages.RECURSION_LIMIT, parts) ==> Messages.Decoded(sch, id, b) == Some(slots)
  {
    PartsDecode(sch, id, Messages.RECURSION_LIMIT, EmptyRecord(sch, id), None, Canonical, parts);
  }

  lemma {:induction false} DecodedIsWritten(sch: Schema, id: nat, b: seq<u8>) returns (parts: seq<Part>)
    requires id < |sch| && Messages.DecodedTo(sch, id, NotCanonical, b).Whole?
    ensures Writes(sch, id, parts, b, Messages.DecodedTo(sch, id, NotCanonical, b).value)
    ensures Messages.Decoded(sch, id, b).Some? ==> PartsNest(sch, id, Messages.RECURSION_LIMIT, parts)
  {
    parts := ReadParts(sch, id, Messages.RECURSION_LIMIT, EmptyRecord(sch, id), None, Canonical, b);
  }

  /**
   * Distinguished decoding, restricted to any level, accepts b as this message, that canonical, if and only if b is
   * a way of writing the message that is just that canonical, and at least of that level.
   */
  lemma {:induction false} DistinguishedExactly(sch: Schema, id: nat, min: Canonicity, b: seq<u8>, slots: seq<Slot>,
                                                canon: Canonicity)
    requires id < |sch| && |b| < U64_END
    ensures Messages.DecodedTo(sch, id, min, b) == Whole(slots, canon)
            <==> canon.AtLeast(min)
                 && exists parts :: Writes(sch, id, parts, b, slots) && PartsCanon(sch, id, parts) == canon
  {
    Messages.EarlyExitIsAFilter(sch, id, min, b);
    forall parts | Writes(sch, id, parts, b, slots) {
      WrittenIsDecoded(sch, id, parts, b, slots);
    }
    if Messages.DecodedTo(sch, id, NotCanonical, b).Whole? {
      var parts := DecodedIsWritten(sch, id, b);
      WrittenIsDecoded(sch, id, parts, b, Messages.DecodedTo(sch, id, NotCanonical, b).value);
    }
  }

  /** Relaxed decoding accepts b as this message if and only if b is a way of writing it that nests within the limit. */
  lemma {:induction false} RelaxedExactly(sch: Schema, id: nat, b: seq<u8>, slots: seq<Slot>)
    requires id < |sch| && |b| < U64_END
    ensures Messages.Decoded(sch, id, b) == Some(slots)
            <==> exists parts ::
                   Writes(sch, id, parts, b, slots) && PartsNest(sch, id, Messages.RECURSION_LIMIT, parts)
  {
    forall parts | Writes(sch, id, parts, b, slots) {
      WrittenIsDecoded(sch, id, parts, b, slots);
    }
    if Messages.Decoded(sch, id, b).Some? {
      Messages.RelaxedIsAccepted(sch, id, b);
      var parts := DecodedIsWritten(sch, id, b);
    }
  }
}
