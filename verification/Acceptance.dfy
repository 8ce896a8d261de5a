/** Decoding accepts exactly the ways of writing a message that `Writings` lists, with their values and verdicts. */
module Acceptance {
  import opened Base
  import opened Varint
  import opened Schemas
  import opened Ordering
  import opened Encoding
  import opened Wire
  import opened Opaque
  import opened Restricted
  import opened Writings
  import opened Increasing
  import Relaxed
  import RelaxedDecoder
  import RoundTrip
  import Modes

  // ---------- keys ----------

  /** A key with a greater tag does not look like a repeated one, and one with the same tag does. */
  lemma {:induction false} KeyPeeks(tag: nat, last: nat, w: WireType, rest: seq<u8>)
    requires last <= tag < U32_END
    ensures var b := KeyBytes(tag, last, w) + rest;
            if last < tag then PeekRepeated(b).None? else PeekRepeated(b) == Some(w) && b[1..] == rest
  {
    var key := KeyBytes(tag, last, w);
    if last == tag {
      assert key == [w.Code()];
    } else {
      assert key[0] >= 4;
    }
  }

  lemma {:induction false} PartsAhead(sch: Schema, id: nat, depth: nat, parts: seq<Part>, last: nat)
    requires id < |sch| && PartsOk(sch, id, depth, parts, Some(last))
    ensures PeekRepeated(PartsBytes(sch, id, parts, last)).None?
  {
    if parts != [] {
      var tail := PartsBytes(sch, id, parts[1..], TagOf(sch[id].fields, parts[0]));
      assert DefOk(sch[id], id, |sch|);
      match parts[0] {
        case Plain(k, way) =>
          var f := sch[id].fields[k];
          KeyPeeks(f.tag, last, WireTypeOf(f.typ), WritingBytes(sch, f.typ, way) + tail);
          Regroup(KeyBytes(f.tag, last, WireTypeOf(f.typ)), WritingBytes(sch, f.typ, way), tail);
        case Spread(k, written, _) =>
          var f := sch[id].fields[k];
          var body := SpreadBytes(sch, f.typ.elem, f.tag, written);
          KeyPeeks(f.tag, last, WireTypeOf(f.typ.elem), body + tail);
          Regroup(KeyBytes(f.tag, last, WireTypeOf(f.typ.elem)), body, tail);
        case Unknown(run) =>
          var body := run[0].value.Bytes() + ListBytes(run[1..], run[0].tag);
          KeyPeeks(run[0].tag, last, run[0].value.OnWire(), body + tail);
          Regroup(KeyBytes(run[0].tag, last, run[0].value.OnWire()), body, tail);
      }
    }
  }

  // ---------- putting items in order ----------

  /** What a collection holds when `given` has been added to `now`. */
  ghost predicate ArrangedFrom(kind: ListKind, now: seq<Value>, given: seq<Value>, items: seq<Value>) {
    if kind.Set? || kind.Mapping? then Ascending(items) && multiset(items) == multiset(now) + multiset(given)
    else items == now + given && (kind.Array? ==> |items| == kind.size)
  }

  /** Items that can be put in order with each other, and are, if the collection is ordered. */
  ghost predicate InPlaceSoFar(kind: ListKind, elem: Type, now: seq<Value>) {
    kind.Set? || kind.Mapping? ==> OneKind(now, Modes.SortOf(elem)) && Ascending(now)
  }

  ghost predicate OfKind(kind: ListKind, elem: Type, given: seq<Value>) {
    kind.Set? || kind.Mapping? ==> OneKind(given, Modes.SortOf(elem))
  }

  /** Adding the next item: it goes in, at the end if it is canonical and elsewhere if it is not. */
  lemma {:induction false} Adds(kind: ListKind, elem: Type, now: seq<Value>, given: seq<Value>, items: seq<Value>)
    requires InPlaceSoFar(kind, elem, now) && OfKind(kind, elem, given) && given != []
    requires ArrangedFrom(kind, now, given, items)
    ensures InsertDistinguished(kind, now, given[0]).Some?
    ensures var more := InsertDistinguished(kind, now, given[0]).value;
            && Insert(kind, now, given[0]) == Some(more.items)
            && InPlaceSoFar(kind, elem, more.items) && ArrangedFrom(kind, more.items, given[1..], items)
            && (more.canon == Canonical || more.canon == NotCanonical)
            && (more.canon == NotCanonical || more.items + given[1..] != items <==> now + given != items)
  {
    assert given == [given[0]] + given[1..];
    Regroup(now, [given[0]], given[1..]);
    if kind.Set? || kind.Mapping? {
      AddsInOrder(kind, Modes.SortOf(elem), now, given[0], given[1..], items);
      var more := InsertDistinguished(kind, now, given[0]).value;
      assert OneKind(more.items, Modes.SortOf(elem));
    }
  }

  lemma {:induction false} AddsInOrder(kind: ListKind, sort: Kind, now: seq<Value>, item: Value, rest: seq<Value>,
                                       items: seq<Value>)
    requires (kind.Set? || kind.Mapping?) && OneKind(now, sort) && OneKind([item] + rest, sort)
    requires Ascending(now) && Ascending(items) && multiset(items) == multiset(now) + multiset([item] + rest)
    ensures InsertDistinguished(kind, now, item).Some?
    ensures var more := InsertDistinguished(kind, now, item).value;
            && Insert(kind, now, item) == Some(more.items)
            && OneKind(more.items, sort) && Ascending(more.items)
            && multiset(more.items) == multiset(now) + multiset{item}
            && (more.canon == Canonical || more.canon == NotCanonical)
            && (more.canon == Canonical ==> more.items == now + [item])
            && (more.canon == NotCanonical ==> now + ([item] + rest) != items)
  {
    hide Less, SameKey, Sort, InsertSorted;
    assert ([item] + rest)[0] == item;
    assert Keyed(now, item);
    Gathered(sort, now, [item] + rest, items);
    InsertMeaning(now, item);
    NoneEqual(sort, now, item, rest, items);
    Modes.InsertionsAgree(kind, now, item);
    if now != [] && !Less(now[|now| - 1], item) {
      OutOfPlace(now, item, rest, items);
    } else if now != [] {
      InsertAtEnd(now, item);
    }
  }

  /** A list of the items of both others has one kind as they do. */
  lemma {:induction false} Gathered(sort: Kind, now: seq<Value>, given: seq<Value>, items: seq<Value>)
    requires OneKind(now, sort) && OneKind(given, sort) && multiset(items) == multiset(now) + multiset(given)
    ensures OneKind(items, sort)
  {
    forall i | 0 <= i < |items| ensures Sort(items[i]) == sort {
      assert items[i] in multiset(items);
      assert items[i] in multiset(now) || items[i] in multiset(given);
      assert items[i] in now || items[i] in given;
    }
  }

  lemma {:induction false} NoneEqual(sort: Kind, now: seq<Value>, item: Value, rest: seq<Value>, items: seq<Value>)
    requires OneKind(items, sort) && Ascending(items) && multiset(items) == multiset(now) + multiset([item] + rest)
    ensures forall i | 0 <= i < |now| :: !SameKey(item, now[i])
  {
    forall i | 0 <= i < |now| ensures !SameKey(item, now[i]) {
      assert now[i] in multiset(now);
      assert multiset{item} <= multiset([item] + rest);
      assert multiset{item, now[i]} == multiset{now[i]} + multiset{item};
      KeysDiffer(items, sort, item, now[i]);
    }
  }

  lemma {:induction false} OutOfPlace(now: seq<Value>, item: Value, rest: seq<Value>, items: seq<Value>)
    requires now != [] && !Less(now[|now| - 1], item) && Ascending(items)
    ensures now + ([item] + rest) != items
  {
    var all := now + ([item] + rest);
    assert all[|now| - 1] == now[|now| - 1] && all[|now|] == item;
  }

  /** When nothing is left to add, the items are those that there are. */
  lemma {:induction false} NothingLeft(kind: ListKind, elem: Type, now: seq<Value>, items: seq<Value>)
    requires InPlaceSoFar(kind, elem, now) && ArrangedFrom(kind, now, [], items)
    ensures now == items && now + [] == items && (kind.Array? ==> |items| == kind.size)
  {
    if kind.Set? || kind.Mapping? {
      Gathered(Modes.SortOf(elem), now, [], items);
      AscendingUnique(now, items, Modes.SortOf(elem));
    }
  }

  // ---------- what is written has the kind of its type ----------

  lemma {:induction false} FitsSort(sch: Schema, t: Type, v: Value)
    requires IsKey(t) && Fits(sch, t, v)
    ensures Sort(v) == Modes.SortOf(t) && Ordered(Sort(v)) && !v.Entry?
  {
  }

  lemma {:induction false} WritingSort(sch: Schema, t: Type, depth: nat, way: Writing)
    requires Member(t) && WritingOk(sch, t, true, depth, way)
    ensures Sort(Meaning(way)) == Modes.SortOf(t) && Ordered(Modes.SortOf(t))
  {
    if t.Pair? {
      FitsSort(sch, t.key, way.key.leaf);
    } else {
      FitsSort(sch, t, way.leaf);
    }
  }

  /** The elements of an ordered collection can be ordered. */
  ghost predicate Orderable(kind: ListKind, elem: Type) {
    kind.Set? || kind.Mapping? ==> Member(elem)
  }

  lemma {:induction false} OrderedSort(kind: ListKind, elem: Type)
    requires Orderable(kind, elem) && (kind.Set? || kind.Mapping?)
    ensures Ordered(Modes.SortOf(elem))
  {
  }

  lemma {:induction false} MeaningsOfKind(sch: Schema, kind: ListKind, elem: Type, depth: nat, ways: seq<Writing>)
    requires Orderable(kind, elem)
    requires forall i | 0 <= i < |ways| :: WritingOk(sch, elem, true, depth, ways[i])
    ensures OfKind(kind, elem, Meanings(ways))
  {
    if kind.Set? || kind.Mapping? {
      OrderedSort(kind, elem);
      forall i | 0 <= i < |ways| ensures Sort(Meanings(ways)[i]) == Modes.SortOf(elem) {
        WritingSort(sch, elem, depth, ways[i]);
      }
    }
  }

  // ---------- every way of writing a value is decoded ----------

  /** Distinguished decoding gives the value and the verdict, and relaxed decoding the value, if it may. */
  ghost predicate Reads<T>(p: Parsed<T>, r: Out<T>, nests: bool, v: T, canon: Canonicity, rest: seq<u8>) {
    r == Out(v, canon, rest) && (nests ==> p == Parsed(v, rest))
  }

  ghost predicate ReadsWhole<T>(p: Option<T>, r: Whole<T>, nests: bool, v: T, canon: Canonicity) {
    r == Whole(v, canon) && (nests ==> p == Some(v))
  }

  lemma {:induction false} LeafDecodes(sch: Schema, t: Type, v: Value, tail: seq<u8>)
    requires ItemOk(t, |sch|) && (t.Uint? || t.Fixed? || t.Bytes?) && Fits(sch, t, v)
    requires |ValueBytes(sch, t, v)| < U64_END
    ensures Relaxed.DecodeLeaf(t, ValueBytes(sch, t, v) + tail) == Parsed(v, tail)
  {
    match t {
      case Uint(_) => RoundTrip.ReadEncoded(v.n, tail);
      case Bytes => RoundTrip.ReadDelimited(v.bytes, tail);
      case _ =>
    }
  }

  lemma {:induction false} WritingDecodes(sch: Schema, t: Type, allowEmpty: bool, depth: nat, way: Writing,
                                          tail: seq<u8>)
    requires ItemOk(t, |sch|) && WritingOk(sch, t, allowEmpty, depth, way) && |WritingBytes(sch, t, way)| < U64_END
    ensures Reads(Relaxed.DecodeValue(sch, t, depth, WritingBytes(sch, t, way) + tail),
                  DecodeValue(sch, t, allowEmpty, NotCanonical, depth, WritingBytes(sch, t, way) + tail),
                  WritingNests(sch, t, depth, way), Meaning(way), WritingCanon(sch, t, allowEmpty, way), tail)
    decreases way, 1
  {
    match t {
      case Pair(_, _) => PairDecodes(sch, t, depth, way, tail);
      case List(_, _) => ListWritingDecodes(sch, t, depth, way, tail);
      case Message(id) => MessageDecodes(sch, id, allowEmpty, depth, way, tail);
      case _ => LeafDecodes(sch, t, way.leaf, tail);
    }
  }

  lemma {:induction false} PairDecodes(sch: Schema, t: Type, depth: nat, way: Writing, tail: seq<u8>)
    requires t.Pair? && ItemOk(t, |sch|) && WritingOk(sch, t, true, depth, way) && |WritingBytes(sch, t, way)| < U64_END
    ensures Reads(Relaxed.DecodePair(sch, t, depth, WritingBytes(sch, t, way) + tail),
                  DecodePair(sch, t, NotCanonical, depth, WritingBytes(sch, t, way) + tail),
                  WritingNests(sch, t, depth, way), Meaning(way), WritingCanon(sch, t, true, way), tail)
    decreases way, 0
  {
    hide DecodeValue, Relaxed.DecodeValue;
    var rest := WritingBytes(sch, t.val, way.val) + tail;
    Regroup(WritingBytes(sch, t.key, way.key), WritingBytes(sch, t.val, way.val), tail);
    WritingDecodes(sch, t.key, true, depth, way.key, rest);
    WritingDecodes(sch, t.val, true, depth, way.val, tail);
  }

  lemma {:induction false} ListWritingDecodes(sch: Schema, t: Type, depth: nat, way: Writing, tail: seq<u8>)
    requires t.List? && ItemOk(t, |sch|) && WritingOk(sch, t, true, depth, way) && |WritingBytes(sch, t, way)| < U64_END
    ensures Reads(Relaxed.DecodeList(sch, t, depth, WritingBytes(sch, t, way) + tail),
                  DecodeList(sch, t, NotCanonical, depth, WritingBytes(sch, t, way) + tail),
                  WritingNests(sch, t, depth, way), Meaning(way), WritingCanon(sch, t, true, way), tail)
    decreases way, 0
  {
    hide DecodeItems, Relaxed.DecodeItems, ReadRegion, WritingsBytes, Odd, Extended, WritingNests;
    var region := WritingsBytes(sch, t.elem, way.written);
    ItemsOfList(sch, t, depth, way);
    RoundTrip.ReadDelimited(region, tail);
    ListRegion(sch, t, depth, region, tail);
    ListVerdict(sch, t, depth, way);
  }

  lemma {:induction false} ListVerdict(sch: Schema, t: Type, depth: nat, way: Writing)
    requires t.List? && way.ListWriting?
    ensures WritingCanon(sch, t, true, way)
            == Verdict(Meanings(way.written) != way.items || AnyOdd(sch, t.elem, way.written), AnyExtended(way.written))
    ensures WritingNests(sch, t, depth, way) <==> AllNest(sch, t.elem, depth, way.written)
  {
  }

  /** A region that holds the items of a list. */
  lemma {:induction false} ListRegion(sch: Schema, t: Type, depth: nat, region: seq<u8>, rest: seq<u8>)
    requires t.List? && ItemOk(t, |sch|) && |region| < U64_END
    requires ReadRegion(Delimited(region) + rest) == Parsed(region, rest)
    ensures var r := DecodeItems(sch, t.kind, t.elem, NotCanonical, depth, [], Canonical, region);
            var p := Relaxed.DecodeItems(sch, t.kind, t.elem, depth, [], region);
            && DecodeList(sch, t, NotCanonical, depth, Delimited(region) + rest)
               == (if r.Bad? then Failed else Out(Items(r.value), r.canon, rest))
            && Relaxed.DecodeList(sch, t, depth, Delimited(region) + rest)
               == if p.None? then Rejected else Parsed(Items(p.value), rest)
  {
    hide DecodeItems, Relaxed.DecodeItems, ReadRegion;
  }

  lemma {:induction false} ItemsOfList(sch: Schema, t: Type, depth: nat, way: Writing)
    requires t.List? && ItemOk(t, |sch|) && WritingOk(sch, t, true, depth, way)
    requires |WritingsBytes(sch, t.elem, way.written)| < U64_END
    ensures var region := WritingsBytes(sch, t.elem, way.written);
            ReadsWhole(Relaxed.DecodeItems(sch, t.kind, t.elem, depth, [], region),
                       DecodeItems(sch, t.kind, t.elem, NotCanonical, depth, [], Canonical, region),
                       AllNest(sch, t.elem, depth, way.written), way.items,
                       Verdict(Meanings(way.written) != way.items || AnyOdd(sch, t.elem, way.written),
                               AnyExtended(way.written)))
    decreases way.written, 1
  {
    hide DecodeItems, Relaxed.DecodeItems, Odd, Extended, WritingNests;
    assert [] + Meanings(way.written) == Meanings(way.written);
    if t.kind.Set? || t.kind.Mapping? {
      OrderedSort(t.kind, t.elem);
    }
    WritingsDecode(sch, t.kind, t.elem, depth, [], Canonical, way.written, way.items);
  }

  /** Some value among these is written oddly. */
  ghost predicate AnyOdd(sch: Schema, elem: Type, ways: seq<Writing>) {
    exists i | 0 <= i < |ways| :: Odd(sch, elem, true, ways[i])
  }

  ghost predicate AnyExtended(ways: seq<Writing>) {
    exists i | 0 <= i < |ways| :: Extended(ways[i])
  }

  ghost predicate AllNest(sch: Schema, elem: Type, depth: nat, ways: seq<Writing>) {
    forall i | 0 <= i < |ways| :: WritingNests(sch, elem, depth, ways[i])
  }

  lemma {:induction false} FirstWriting(sch: Schema, elem: Type, depth: nat, ways: seq<Writing>)
    requires ways != []
    ensures AnyOdd(sch, elem, ways) <==> Odd(sch, elem, true, ways[0]) || AnyOdd(sch, elem, ways[1..])
    ensures AnyExtended(ways) <==> Extended(ways[0]) || AnyExtended(ways[1..])
    ensures AllNest(sch, elem, depth, ways) ==>
              WritingNests(sch, elem, depth, ways[0]) && AllNest(sch, elem, depth, ways[1..])
    ensures Meanings(ways) != [] && Meanings(ways)[0] == Meaning(ways[0])
    ensures Meanings(ways)[1..] == Meanings(ways[1..])
  {
    hide Odd, Extended, WritingNests;
    assert forall i | 1 <= i < |ways| :: ways[i] == ways[1..][i - 1];
    assert forall i | 0 <= i < |ways| - 1 :: ways[1..][i] == ways[i + 1];
  }

  lemma {:induction false} WritingsDecode(sch: Schema, kind: ListKind, elem: Type, depth: nat, now: seq<Value>,
                                       canon: Canonicity, ways: seq<Writing>, items: seq<Value>)
    requires ItemOk(elem, |sch|) && Orderable(kind, elem)
    requires forall i | 0 <= i < |ways| :: WritingOk(sch, elem, true, depth, ways[i])
    requires InPlaceSoFar(kind, elem, now) && ArrangedFrom(kind, now, Meanings(ways), items)
    requires |WritingsBytes(sch, elem, ways)| < U64_END
    ensures ReadsWhole(Relaxed.DecodeItems(sch, kind, elem, depth, now, WritingsBytes(sch, elem, ways)),
                       DecodeItems(sch, kind, elem, NotCanonical, depth, now, canon, WritingsBytes(sch, elem, ways)),
                       AllNest(sch, elem, depth, ways), items,
                       Worse(canon, Verdict(now + Meanings(ways) != items || AnyOdd(sch, elem, ways),
                                            AnyExtended(ways))))
    decreases ways, 0
  {
    hide WritingOk, WritingNests, Odd, Extended, WritingBytes, Insert, InsertDistinguished, WritingsBytes;
    hide DecodeItems, Relaxed.DecodeItems, DecodeValue, Relaxed.DecodeValue;
    hide ArrangedFrom, InPlaceSoFar, Orderable, OfKind, AnyOdd, AnyExtended, AllNest, Reads;
    if ways == [] {
      NothingLeft(kind, elem, now, items);
      ItemsEnd(sch, kind, elem, depth, now, canon, ways);
    } else {
      var rest := WritingsBytes(sch, elem, ways[1..]);
      WritingsUnfold(sch, elem, ways);
      MeaningsOfKind(sch, kind, elem, depth, ways);
      FirstWriting(sch, elem, depth, ways);
      WritingDecodes(sch, elem, true, depth, ways[0], rest);
      WritingNonEmpty(sch, elem, depth, ways[0]);
      Adds(kind, elem, now, Meanings(ways), items);
      var more := InsertDistinguished(kind, now, Meaning(ways[0])).value;
      var c := WritingCanon(sch, elem, true, ways[0]);
      WritingsDecode(sch, kind, elem, depth, more.items, Worse(Worse(canon, c), more.canon), ways[1..], items);
      RoomForMore(kind, now, Meanings(ways), items);
      OneDecodes(sch, kind, elem, depth, now, canon, ways[0], rest);
      VerdictsJoin(canon, c, more.canon, now + Meanings(ways) != items,
                   more.items + Meanings(ways[1..]) != items, AnyOdd(sch, elem, ways[1..]),
                   AnyExtended(ways[1..]));
    }
  }

  lemma {:induction false} WritingsUnfold(sch: Schema, elem: Type, ways: seq<Writing>)
    requires ways != []
    ensures WritingsBytes(sch, elem, ways) == WritingBytes(sch, elem, ways[0]) + WritingsBytes(sch, elem, ways[1..])
  {
  }

  /** The loops read one item, add it and go on behind it. */
  lemma {:induction false} OneDecodes(sch: Schema, kind: ListKind, elem: Type, depth: nat, now: seq<Value>,
                                      canon: Canonicity, way: Writing, rest: seq<u8>)
    requires ItemOk(elem, |sch|) && !(kind.Array? && |now| >= kind.size) && WritingBytes(sch, elem, way) != []
    requires var b, v := WritingBytes(sch, elem, way) + rest, Meaning(way);
             && Reads(Relaxed.DecodeValue(sch, elem, depth, b), DecodeValue(sch, elem, true, NotCanonical, depth, b),
                      WritingNests(sch, elem, depth, way), v, WritingCanon(sch, elem, true, way), rest)
             && InsertDistinguished(kind, now, v).Some?
             && Insert(kind, now, v) == Some(InsertDistinguished(kind, now, v).value.items)
    ensures var b, more := WritingBytes(sch, elem, way) + rest, InsertDistinguished(kind, now, Meaning(way)).value;
            && DecodeItems(sch, kind, elem, NotCanonical, depth, now, canon, b)
               == DecodeItems(sch, kind, elem, NotCanonical, depth, more.items,
                              Worse(Worse(canon, WritingCanon(sch, elem, true, way)), more.canon), rest)
            && (WritingNests(sch, elem, depth, way) ==>
                  Relaxed.DecodeItems(sch, kind, elem, depth, now, b)
                  == Relaxed.DecodeItems(sch, kind, elem, depth, more.items, rest))
  {
    hide WritingBytes, WritingNests, WritingCanon, Insert, InsertDistinguished, DecodeItems, Relaxed.DecodeItems;
    hide DecodeValue, Relaxed.DecodeValue;
    ItemsUnfold(sch, kind, elem, NotCanonical, depth, now, canon, WritingBytes(sch, elem, way) + rest);
    RelaxedItems(sch, kind, elem, depth, now, WritingBytes(sch, elem, way) + rest);
  }

  lemma {:induction false} ItemsEnd(sch: Schema, kind: ListKind, elem: Type, depth: nat, items: seq<Value>,
                                    canon: Canonicity, ways: seq<Writing>)
    requires ItemOk(elem, |sch|) && (kind.Array? ==> |items| == kind.size) && ways == []
    ensures ReadsWhole(Relaxed.DecodeItems(sch, kind, elem, depth, items, []),
                       DecodeItems(sch, kind, elem, NotCanonical, depth, items, canon, []), true, items, canon)
    ensures WritingsBytes(sch, elem, ways) == [] && !AnyOdd(sch, elem, ways) && !AnyExtended(ways)
  {
  }

  lemma {:induction false} RoomForMore(kind: ListKind, now: seq<Value>, given: seq<Value>, items: seq<Value>)
    requires ArrangedFrom(kind, now, given, items) && given != []
    ensures !(kind.Array? && |now| >= kind.size)
  {
  }

  lemma {:induction false} RelaxedItems(sch: Schema, kind: ListKind, elem: Type, depth: nat, items: seq<Value>,
                                        b: seq<u8>)
    requires ItemOk(elem, |sch|) && b != [] && !(kind.Array? && |items| >= kind.size)
    ensures var p := Relaxed.DecodeValue(sch, elem, depth, b);
            Relaxed.DecodeItems(sch, kind, elem, depth, items, b)
            == if p.Rejected? || Insert(kind, items, p.value).None? then None
               else Relaxed.DecodeItems(sch, kind, elem, depth, Insert(kind, items, p.value).value, p.rest)
  {
  }

  /** The verdict over a list is the worst of its parts'. */
  lemma {:induction false} VerdictsJoin(canon: Canonicity, c: Canonicity, d: Canonicity, moved: bool, later: bool,
                                        odd: bool, extended: bool)
    requires d == Canonical || d == NotCanonical
    requires d == NotCanonical || later <==> moved
    ensures Worse(Worse(Worse(canon, c), d), Verdict(later || odd, extended))
            == Worse(canon, Verdict(moved || c == NotCanonical || odd, c == HasExtensions || extended))
  {
  }

  lemma {:induction false} WritingNonEmpty(sch: Schema, t: Type, depth: nat, way: Writing)
    requires ItemOk(t, |sch|) && WritingOk(sch, t, true, depth, way)
    ensures WritingBytes(sch, t, way) != []
    decreases way
  {
    match t {
      case Pair(key, val) => WritingNonEmpty(sch, key, depth, way.key);
      case List(_, _) =>
      case Message(_) =>
      case _ => NonEmptyBytes(sch, t, way.leaf);
    }
  }

  // ---------- messages ----------

  lemma {:induction false} MessageDecodes(sch: Schema, id: nat, allowEmpty: bool, depth: nat, way: Writing,
                                          tail: seq<u8>)
    requires id < |sch| && WritingOk(sch, Message(id), allowEmpty, depth, way)
    requires |WritingBytes(sch, Message(id), way)| < U64_END
    ensures Reads(Relaxed.DecodeMessage(sch, id, depth, WritingBytes(sch, Message(id), way) + tail),
                  DecodeMessage(sch, id, allowEmpty, NotCanonical, depth, WritingBytes(sch, Message(id), way) + tail),
                  WritingNests(sch, Message(id), depth, way), Meaning(way),
                  WritingCanon(sch, Message(id), allowEmpty, way), tail)
    decreases way, 0
  {
    hide DecodeBody, Relaxed.Merge, ReadRegion;
    var region := PartsBytes(sch, id, way.parts, 0);
    RoundTrip.ReadDelimited(region, tail);
    if depth > 0 {
      PartsDecode(sch, id, depth - 1, EmptyRecord(sch, id), None, Canonical, way.parts);
      BodyIsMerge(sch, id, depth - 1, region, tail);
      if way.parts != [] {
        PartNonEmpty(sch, id, depth - 1, way.parts[0], 0);
      }
    }
  }

  lemma {:induction false} BodyIsMerge(sch: Schema, id: nat, depth: nat, region: seq<u8>, rest: seq<u8>)
    requires id < |sch|
    ensures var r := Merge(sch, id, NotCanonical, depth, EmptyRecord(sch, id), None, Canonical, region);
            DecodeBody(sch, id, NotCanonical, depth, region, rest)
            == if r.Bad? then Failed else Out(Record(r.value), r.canon, rest)
  {
  }

  lemma {:induction false} KeyNonEmpty(tag: nat, last: nat, w: WireType)
    ensures KeyBytes(tag, last, w) != []
  {
  }

  lemma {:induction false} PartNonEmpty(sch: Schema, id: nat, depth: nat, part: Part, last: nat)
    requires id < |sch| && PartOk(sch, id, depth, part)
    ensures PartBytes(sch, id, part, last) != []
  {
    match part {
      case Plain(k, _) => KeyNonEmpty(sch[id].fields[k].tag, last, WireTypeOf(sch[id].fields[k].typ));
      case Spread(k, _, _) => KeyNonEmpty(sch[id].fields[k].tag, last, WireTypeOf(sch[id].fields[k].typ.elem));
      case Unknown(run) => KeyNonEmpty(run[0].tag, last, run[0].value.OnWire());
    }
  }

  lemma {:induction false} FirstPart(sch: Schema, id: nat, depth: nat, parts: seq<Part>)
    requires parts != []
    ensures PartsOdd(sch, id, parts) <==> PartOdd(sch, id, parts[0]) || PartsOdd(sch, id, parts[1..])
    ensures PartsExtended(parts) <==> PartExtended(parts[0]) || PartsExtended(parts[1..])
    ensures PartsNest(sch, id, depth, parts) <==>
            PartNests(sch, id, depth, parts[0]) && PartsNest(sch, id, depth, parts[1..])
  {
    hide PartOdd, PartExtended, PartNests;
    assert forall i | 1 <= i < |parts| :: parts[i] == parts[1..][i - 1];
    assert forall i | 0 <= i < |parts| - 1 :: parts[1..][i] == parts[i + 1];
  }

  lemma {:induction false} PartsDecode(sch: Schema, id: nat, depth: nat, slots: seq<Slot>, last: Option<nat>,
                                       canon: Canonicity, parts: seq<Part>)
    requires id < |sch| && |slots| == |sch[id].fields| && PartsOk(sch, id, depth, parts, last)
    requires |PartsBytes(sch, id, parts, RoundTrip.LastTag(last))| < U64_END
    ensures var b := PartsBytes(sch, id, parts, RoundTrip.LastTag(last));
            ReadsWhole(Relaxed.Merge(sch, id, depth, slots, last, b),
                       Merge(sch, id, NotCanonical, depth, slots, last, canon, b),
                       PartsNest(sch, id, depth, parts), Filled(slots, parts),
                       Worse(canon, PartsCanon(sch, id, parts)))
    decreases parts
  {
    hide Merge, Relaxed.Merge, PartOdd, PartExtended, PartNests, PartBytes;
    if parts == [] {
      MergeEnds(sch, id, NotCanonical, depth, slots, last, canon);
      RelaxedEnds(sch, id, depth, slots, last);
    } else {
      var tag := TagOf(sch[id].fields, parts[0]);
      var rest := PartsBytes(sch, id, parts[1..], tag);
      FirstPart(sch, id, depth, parts);
      PartsAhead(sch, id, depth, parts[1..], tag);
      PartDecodes(sch, id, depth, slots, last, canon, parts[0], rest);
      PartsDecode(sch, id, depth, Filled(slots, [parts[0]]), Some(tag), Worse(canon, PartCanon(sch, id, parts[0])),
                  parts[1..]);
      FilledFirst(slots, parts);
      assert Worse(Worse(canon, PartCanon(sch, id, parts[0])), PartsCanon(sch, id, parts[1..]))
          == Worse(canon, PartsCanon(sch, id, parts));
    }
  }

  lemma {:induction false} FilledFirst(slots: seq<Slot>, parts: seq<Part>)
    requires parts != []
    ensures Filled(Filled(slots, [parts[0]]), parts[1..]) == Filled(slots, parts)
  {
    assert [parts[0]][1..] == [];
  }

  lemma {:induction false} RelaxedEnds(sch: Schema, id: nat, depth: nat, slots: seq<Slot>, last: Option<nat>)
    requires id < |sch| && |slots| == |sch[id].fields|
    ensures Relaxed.Merge(sch, id, depth, slots, last, []) == Some(slots)
  {
  }

  /** The loop reads one part and goes on behind it, in either mode. */
  lemma {:induction false} PartDecodes(sch: Schema, id: nat, depth: nat, slots: seq<Slot>, last: Option<nat>,
                                       canon: Canonicity, part: Part, rest: seq<u8>)
    requires id < |sch| && |slots| == |sch[id].fields| && PartOk(sch, id, depth, part)
    requires last.Some? ==> last.value < TagOf(sch[id].fields, part)
    requires PeekRepeated(rest).None?
    requires |PartBytes(sch, id, part, RoundTrip.LastTag(last))| < U64_END
    ensures var b, tag := PartBytes(sch, id, part, RoundTrip.LastTag(last)) + rest, TagOf(sch[id].fields, part);
            && Merge(sch, id, NotCanonical, depth, slots, last, canon, b)
               == Merge(sch, id, NotCanonical, depth, Filled(slots, [part]), Some(tag),
                        Worse(canon, PartCanon(sch, id, part)), rest)
            && (PartNests(sch, id, depth, part) ==>
                  Relaxed.Merge(sch, id, depth, slots, last, b)
                  == Relaxed.Merge(sch, id, depth, Filled(slots, [part]), Some(tag), rest))
    decreases part, 1
  {
    hide Merge, Relaxed.Merge;
    match part {
      case Plain(k, way) => PlainDecodes(sch, id, depth, slots, last, canon, part, rest);
      case Spread(k, written, items) => SpreadPartDecodes(sch, id, depth, slots, last, canon, part, rest);
      case Unknown(run) => UnknownDecodes(sch, id, depth, slots, last, canon, part, rest);
    }
  }

  /** The loop on the key of field `k` and the bytes behind it. */
  lemma {:induction false} FieldTurn(sch: Schema, id: nat, depth: nat, slots: seq<Slot>, last: Option<nat>,
                                     canon: Canonicity, k: nat, w: WireType, more: seq<u8>)
    requires id < |sch| && |slots| == |sch[id].fields| && k < |slots|
    requires last.Some? ==> last.value < sch[id].fields[k].tag
    ensures TypeOk(sch[id].fields[k].typ, |sch|)
    ensures var f := sch[id].fields[k];
            var b := KeyBytes(f.tag, RoundTrip.LastTag(last), w) + more;
            var p := Relaxed.DecodeField(sch, f, depth, w, more);
            && Merge(sch, id, NotCanonical, depth, slots, last, canon, b)
               == AfterKnown(sch, id, NotCanonical, depth, slots, k, f.tag, canon,
                             DecodeField(sch, f, NotCanonical, depth, w, more))
            && Relaxed.Merge(sch, id, depth, slots, last, b)
               == if p.Rejected? then None else Relaxed.Merge(sch, id, depth, slots[k := p.value], Some(f.tag), p.rest)
  {
    hide DecodeField, Relaxed.DecodeField, ReadKey;
    var f := sch[id].fields[k];
    assert DefOk(sch[id], id, |sch|);
    var b := KeyBytes(f.tag, RoundTrip.LastTag(last), w) + more;
    KeyNonEmpty(f.tag, RoundTrip.LastTag(last), w);
    RoundTrip.ReadKeyBytes(f.tag, RoundTrip.LastTag(last), w, more);
    RoundTrip.FieldAt(sch[id].fields, k);
    MergeKnown(sch, id, NotCanonical, depth, slots, last, canon, b);
    RelaxedDecoder.MergeTurn(sch, id, depth, slots, last, b);
  }

  lemma {:induction false} PlainDecodes(sch: Schema, id: nat, depth: nat, slots: seq<Slot>, last: Option<nat>,
                                        canon: Canonicity, part: Part, rest: seq<u8>)
    requires id < |sch| && |slots| == |sch[id].fields| && PartOk(sch, id, depth, part) && part.Plain?
    requires last.Some? ==> last.value < TagOf(sch[id].fields, part)
    requires |PartBytes(sch, id, part, RoundTrip.LastTag(last))| < U64_END
    ensures var b, tag := PartBytes(sch, id, part, RoundTrip.LastTag(last)) + rest, TagOf(sch[id].fields, part);
            && Merge(sch, id, NotCanonical, depth, slots, last, canon, b)
               == Merge(sch, id, NotCanonical, depth, Filled(slots, [part]), Some(tag),
                        Worse(canon, PartCanon(sch, id, part)), rest)
            && (PartNests(sch, id, depth, part) ==>
                  Relaxed.Merge(sch, id, depth, slots, last, b)
                  == Relaxed.Merge(sch, id, depth, Filled(slots, [part]), Some(tag), rest))
    decreases part, 0
  {
    hide Merge, Relaxed.Merge, WritingBytes, WritingOk;
    var f := sch[id].fields[part.k];
    var body := WritingBytes(sch, f.typ, part.way);
    FieldTurn(sch, id, depth, slots, last, canon, part.k, WireTypeOf(f.typ), body + rest);
    Regroup(KeyBytes(f.tag, RoundTrip.LastTag(last), WireTypeOf(f.typ)), body, rest);
    PlainField(sch, f, depth, part.way, rest);
    assert [part][1..] == [];
  }

  lemma {:induction false} PlainField(sch: Schema, f: Field, depth: nat, way: Writing, rest: seq<u8>)
    requires TypeOk(f.typ, |sch|) && WritingOk(sch, f.typ, f.optional, depth, way)
    requires |WritingBytes(sch, f.typ, way)| < U64_END
    ensures Reads(Relaxed.DecodeField(sch, f, depth, WireTypeOf(f.typ), WritingBytes(sch, f.typ, way) + rest),
                  DecodeField(sch, f, NotCanonical, depth, WireTypeOf(f.typ), WritingBytes(sch, f.typ, way) + rest),
                  WritingNests(sch, f.typ, depth, way), Holds(Meaning(way)),
                  Verdict(Odd(sch, f.typ, f.optional, way)
                          || (!f.optional && !f.typ.Message? && IsEmpty(sch, f.typ, Meaning(way))),
                          Extended(way)), rest)
    decreases way, 2
  {
    hide DecodeValue, Relaxed.DecodeValue, WritingBytes, WritingOk, WritingNests, Odd, Extended, IsEmpty;
    WritingDecodes(sch, f.typ, f.optional, depth, way, rest);
  }

  // ---------- collections that are spread ----------

  /** A spread collection is decoded to all of its items, put in order if it is ordered. */
  lemma {:induction false} SpreadDecodes(sch: Schema, kind: ListKind, elem: Type, depth: nat, tag: nat,
                                         now: seq<Value>, written: seq<Value>, items: seq<Value>, rest: seq<u8>)
    requires ItemOk(elem, |sch|) && WireTypeOf(elem) != LengthDelimited && tag < U32_END && Orderable(kind, elem)
    requires written != [] && forall i | 0 <= i < |written| :: Fits(sch, elem, written[i])
    requires InPlaceSoFar(kind, elem, now) && ArrangedFrom(kind, now, written, items)
    requires PeekRepeated(rest).None?
    ensures Relaxed.UnpackedItems(sch, kind, elem, depth, now, SpreadBytes(sch, elem, tag, written) + rest)
            == Parsed(items, rest)
    decreases |written|
  {
    hide Relaxed.UnpackedItems, Relaxed.UnpackedOn, Insert, InsertDistinguished, KeyBytes;
    var w, first, later := WireTypeOf(elem), ValueBytes(sch, elem, written[0]), written[1..];
    var key := KeyBytes(tag, tag, w);
    var tail := if later == [] then rest else key + (SpreadBytes(sch, elem, tag, later) + rest);
    assert SpreadBytes(sch, elem, tag, written) + rest == first + tail by {
      if later != [] {
        Regroup(key, SpreadBytes(sch, elem, tag, later), rest);
        Regroup(first, key + SpreadBytes(sch, elem, tag, later), rest);
      }
    }
    SpreadLeaf(sch, elem, depth, written[0], tail);
    WrittenOfKind(sch, kind, elem, written);
    Adds(kind, elem, now, written, items);
    var more := Insert(kind, now, written[0]).value;
    ItemTurn(sch, kind, elem, depth, now, first + tail);
    OnTurn(sch, kind, elem, depth, more, tail);
    if later == [] {
      NothingLeft(kind, elem, more, items);
    } else {
      KeyPeeks(tag, tag, w, SpreadBytes(sch, elem, tag, later) + rest);
      RoomForMore(kind, more, later, items);
      SpreadDecodes(sch, kind, elem, depth, tag, more, later, items, rest);
    }
  }

  lemma {:induction false} WrittenOfKind(sch: Schema, kind: ListKind, elem: Type, written: seq<Value>)
    requires Orderable(kind, elem) && forall i | 0 <= i < |written| :: Fits(sch, elem, written[i])
    requires !elem.Pair?
    ensures OfKind(kind, elem, written)
  {
    if kind.Set? || kind.Mapping? {
      OrderedSort(kind, elem);
      forall i | 0 <= i < |written| ensures Sort(written[i]) == Modes.SortOf(elem) {
        FitsSort(sch, elem, written[i]);
      }
    }
  }

  lemma {:induction false} SpreadLeaf(sch: Schema, elem: Type, depth: nat, v: Value, tail: seq<u8>)
    requires ItemOk(elem, |sch|) && WireTypeOf(elem) != LengthDelimited && Fits(sch, elem, v)
    ensures Relaxed.DecodeValue(sch, elem, depth, ValueBytes(sch, elem, v) + tail) == Parsed(v, tail)
  {
    if v.Num? {
      EncodeIsVarint(v.n);
    }
    LeafDecodes(sch, elem, v, tail);
  }

  lemma {:induction false} ItemTurn(sch: Schema, kind: ListKind, elem: Type, depth: nat, items: seq<Value>, b: seq<u8>)
    requires ItemOk(elem, |sch|)
    ensures var p := Relaxed.DecodeValue(sch, elem, depth, b);
            Relaxed.UnpackedItems(sch, kind, elem, depth, items, b)
            == if p.Rejected? || Insert(kind, items, p.value).None? then Rejected
               else Relaxed.UnpackedOn(sch, kind, elem, depth, Insert(kind, items, p.value).value, p.rest)
  {
  }

  lemma {:induction false} OnTurn(sch: Schema, kind: ListKind, elem: Type, depth: nat, items: seq<Value>, b: seq<u8>)
    requires ItemOk(elem, |sch|)
    ensures var next := PeekRepeated(b);
            Relaxed.UnpackedOn(sch, kind, elem, depth, items, b)
            == if next.None? then (if kind.Array? && |items| < kind.size then Rejected else Parsed(items, b))
               else if (kind.Array? && |items| >= kind.size) || next.value != WireTypeOf(elem) then Rejected
               else Relaxed.UnpackedItems(sch, kind, elem, depth, items, b[1..])
  {
  }

  lemma {:induction false} SpreadPartDecodes(sch: Schema, id: nat, depth: nat, slots: seq<Slot>, last: Option<nat>,
                                             canon: Canonicity, part: Part, rest: seq<u8>)
    requires id < |sch| && |slots| == |sch[id].fields| && PartOk(sch, id, depth, part) && part.Spread?
    requires last.Some? ==> last.value < TagOf(sch[id].fields, part)
    requires PeekRepeated(rest).None?
    ensures var b, tag := PartBytes(sch, id, part, RoundTrip.LastTag(last)) + rest, TagOf(sch[id].fields, part);
            && Merge(sch, id, NotCanonical, depth, slots, last, canon, b)
               == Merge(sch, id, NotCanonical, depth, Filled(slots, [part]), Some(tag),
                        Worse(canon, PartCanon(sch, id, part)), rest)
            && Relaxed.Merge(sch, id, depth, slots, last, b)
               == Relaxed.Merge(sch, id, depth, Filled(slots, [part]), Some(tag), rest)
  {
    hide Merge, Relaxed.Merge, Relaxed.DecodeUnpacked;
    var f := sch[id].fields[part.k];
    var w, body := WireTypeOf(f.typ.elem), SpreadBytes(sch, f.typ.elem, f.tag, part.written);
    FieldTurn(sch, id, depth, slots, last, canon, part.k, w, body + rest);
    Regroup(KeyBytes(f.tag, RoundTrip.LastTag(last), w), body, rest);
    SpreadField(sch, id, part.k, depth, part.written, part.items, rest);
    assert [part][1..] == [];
  }

  lemma {:induction false} SpreadField(sch: Schema, id: nat, k: nat, depth: nat, written: seq<Value>,
                                       items: seq<Value>, rest: seq<u8>)
    requires id < |sch| && PartOk(sch, id, depth, Spread(k, written, items)) && PeekRepeated(rest).None?
    ensures var f := sch[id].fields[k];
            TypeOk(f.typ.elem, |sch|)
            && Relaxed.DecodeUnpacked(sch, f.typ.kind, f.typ.elem, depth, WireTypeOf(f.typ.elem),
                                      SpreadBytes(sch, f.typ.elem, f.tag, written) + rest)
               == Parsed(items, rest)
  {
    var f := sch[id].fields[k];
    assert DefOk(sch[id], id, |sch|);
    if written == [] {
      assert SpreadBytes(sch, f.typ.elem, f.tag, written) + rest == rest;
    } else {
      if f.typ.kind.Set? {
        OrderedSort(f.typ.kind, f.typ.elem);
      }
      assert [] + written == written;
      SpreadDecodes(sch, f.typ.kind, f.typ.elem, depth, f.tag, [], written, items, rest);
    }
  }

  // ---------- unknown fields ----------

  /** Skipping takes the whole run, whatever comes behind it. */
  lemma {:induction false} SkipRunThen(run: seq<OpaqueField>, rest: seq<u8>)
    requires run != [] && forall i | 0 <= i < |run| :: run[i].tag == run[0].tag
    requires forall i | 0 <= i < |run| :: |run[i].value.Bytes()| < U64_END
    requires PeekRepeated(rest).None?
    ensures SkipField(run[0].value.OnWire(), run[0].value.Bytes() + ListBytes(run[1..], run[0].tag) + rest)
            == Parsed((), rest)
    decreases |run|
  {
    hide KeyBytes;
    var tag, v, later := run[0].tag, run[0].value, run[1..];
    var tail := ListBytes(later, tag) + rest;
    Regroup(v.Bytes(), ListBytes(later, tag), rest);
    SkipOne(v, tail);
    if later == [] {
      assert tail == rest;
    } else {
      var body := later[0].value.Bytes() + ListBytes(later[1..], tag);
      Regroup(KeyBytes(tag, tag, later[0].value.OnWire()), body, rest);
      KeyPeeks(tag, tag, later[0].value.OnWire(), body + rest);
      SkipRunThen(later, rest);
    }
  }

  lemma {:induction false} SkipOne(v: OpaqueValue, tail: seq<u8>)
    requires |v.Bytes()| < U64_END
    ensures SkipValue(v.OnWire(), v.Bytes() + tail) == Parsed((), tail)
  {
    match v {
      case VarintValue(n) => RoundTrip.ReadEncoded(n, tail);
      case LengthDelimitedValue(bytes) => RoundTrip.ReadDelimited(bytes, tail);
      case _ =>
    }
  }

  lemma {:induction false} RunLengths(run: seq<OpaqueField>, last: nat)
    requires |ListBytes(run, last)| < U64_END
    ensures forall i | 0 <= i < |run| :: |run[i].value.Bytes()| < U64_END
    decreases |run|
  {
    if run != [] {
      RunLengths(run[1..], run[0].tag);
      assert forall i | 1 <= i < |run| :: run[i] == run[1..][i - 1];
    }
  }

  lemma {:induction false} UnknownDecodes(sch: Schema, id: nat, depth: nat, slots: seq<Slot>, last: Option<nat>,
                                          canon: Canonicity, part: Part, rest: seq<u8>)
    requires id < |sch| && |slots| == |sch[id].fields| && PartOk(sch, id, depth, part) && part.Unknown?
    requires last.Some? ==> last.value < TagOf(sch[id].fields, part)
    requires PeekRepeated(rest).None?
    requires |PartBytes(sch, id, part, RoundTrip.LastTag(last))| < U64_END
    ensures var b, tag := PartBytes(sch, id, part, RoundTrip.LastTag(last)) + rest, TagOf(sch[id].fields, part);
            && Merge(sch, id, NotCanonical, depth, slots, last, canon, b)
               == Merge(sch, id, NotCanonical, depth, Filled(slots, [part]), Some(tag),
                        Worse(canon, PartCanon(sch, id, part)), rest)
            && Relaxed.Merge(sch, id, depth, slots, last, b)
               == Relaxed.Merge(sch, id, depth, Filled(slots, [part]), Some(tag), rest)
  {
    hide Merge, Relaxed.Merge, SkipField, ReadKey, KeyBytes, PeekRepeated;
    var run, from := part.run, RoundTrip.LastTag(last);
    var tag, w := run[0].tag, run[0].value.OnWire();
    var body := run[0].value.Bytes() + ListBytes(run[1..], tag);
    var b := PartBytes(sch, id, part, from) + rest;
    RunLengths(run, from);
    SkipRunThen(run, rest);
    assert b == KeyBytes(tag, from, w) + (body + rest) by {
      Regroup(KeyBytes(tag, from, w), body, rest);
    }
    UnknownTurn(sch, id, depth, slots, last, canon, tag, w, body + rest);
    assert Filled(slots, [part]) == slots by {
      assert [part][1..] == [];
    }
  }

  /** The loop on an unknown key and the bytes behind it. */
  lemma {:induction false} UnknownTurn(sch: Schema, id: nat, depth: nat, slots: seq<Slot>, last: Option<nat>,
                                       canon: Canonicity, tag: nat, w: WireType, more: seq<u8>)
    requires id < |sch| && |slots| == |sch[id].fields| && RoundTrip.LastTag(last) <= tag < U32_END
    requires forall k | 0 <= k < |slots| :: sch[id].fields[k].tag != tag
    requires SkipField(w, more).Parsed?
    ensures var b, rest := KeyBytes(tag, RoundTrip.LastTag(last), w) + more, SkipField(w, more).rest;
            && Merge(sch, id, NotCanonical, depth, slots, last, canon, b)
               == Merge(sch, id, NotCanonical, depth, slots, Some(tag), Worse(canon, HasExtensions), rest)
            && Relaxed.Merge(sch, id, depth, slots, last, b) == Relaxed.Merge(sch, id, depth, slots, Some(tag), rest)
  {
    hide Merge, Relaxed.Merge, SkipField, ReadKey, KeyBytes;
    var from := RoundTrip.LastTag(last);
    KeyNonEmpty(tag, from, w);
    RoundTrip.ReadKeyBytes(tag, from, w, more);
    MergeUnknown(sch, id, NotCanonical, depth, slots, last, canon, KeyBytes(tag, from, w) + more);
    RelaxedDecoder.MergeTurn(sch, id, depth, slots, last, KeyBytes(tag, from, w) + more);
  }
}
