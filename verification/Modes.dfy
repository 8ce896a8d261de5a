/** How the decoding modes relate: stopping early is only a filter, and relaxed decoding is distinguished decoding. */
module Modes {
  import opened Base
  import opened Schemas
  import opened Ordering
  import opened Wire
  import opened Restricted
  import Relaxed

  // ---------- restricted decoding is distinguished decoding, filtered ----------

  function KeepOut<T>(min: Canonicity, r: Out<T>): Out<T> {
    if r.Out? && !r.canon.AtLeast(min) then Failed else r
  }

  function KeepWhole<T>(min: Canonicity, r: Whole<T>): Whole<T> {
    if r.Whole? && !r.canon.AtLeast(min) then Bad else r
  }

  /** Canonicity only ever falls along a loop. */
  lemma {:induction false} ItemsFall(sch: Schema, kind: ListKind, elem: Type, depth: nat, items: seq<Value>,
                                     canon: Canonicity, b: seq<u8>)
    requires ItemOk(elem, |sch|)
    ensures var r := DecodeItems(sch, kind, elem, NotCanonical, depth, items, canon, b);
            r.Whole? ==> canon.AtLeast(r.canon)
    decreases |b|
  {
    hide DecodeValue, InsertDistinguished;
    if b != [] {
      var r := DecodeValue(sch, elem, true, NotCanonical, depth, b);
      if r.Out? && InsertDistinguished(kind, items, r.value).Some? {
        var more := InsertDistinguished(kind, items, r.value).value;
        ItemsFall(sch, kind, elem, depth, more.items, Worse(Worse(canon, r.canon), more.canon), r.rest);
      }
    }
  }

  lemma {:induction false} FieldsFall(sch: Schema, id: nat, depth: nat, slots: seq<Slot>, last: Option<nat>,
                                      canon: Canonicity, b: seq<u8>)
    requires id < |sch| && |slots| == |sch[id].fields|
    ensures var r := Merge(sch, id, NotCanonical, depth, slots, last, canon, b);
            r.Whole? ==> canon.AtLeast(r.canon)
    decreases |b|
  {
    hide DecodeField, SkipField, ReadKey;
    var key := ReadKey(if last.Some? then last.value else 0, b);
    if b != [] && key.Parsed? {
      var tag, w, k := key.value.tag, key.value.wireType, FindField(sch[id].fields, key.value.tag);
      if k == |sch[id].fields| {
        MergeUnknown(sch, id, NotCanonical, depth, slots, last, canon, b);
        if SkipField(w, key.rest).Parsed? {
          FieldsFall(sch, id, depth, slots, Some(tag), Worse(canon, HasExtensions), SkipField(w, key.rest).rest);
        }
      } else if last != Some(tag) {
        MergeKnown(sch, id, NotCanonical, depth, slots, last, canon, b);
        var r := DecodeField(sch, sch[id].fields[k], NotCanonical, depth, w, key.rest);
        if r.Out? {
          FieldsFall(sch, id, depth, slots[k := r.value], Some(tag), Worse(canon, r.canon), r.rest);
        }
      }
    }
  }

  lemma {:induction false} ValueFilter(sch: Schema, t: Type, allowEmpty: bool, min: Canonicity, depth: nat, b: seq<u8>)
    requires ItemOk(t, |sch|)
    ensures DecodeValue(sch, t, allowEmpty, min, depth, b)
            == KeepOut(min, DecodeValue(sch, t, allowEmpty, NotCanonical, depth, b))
    decreases depth, 0, t, 1, 0
  {
    match t {
      case Pair(_, _) => PairFilter(sch, t, min, depth, b);
      case List(_, _) => ListFilter(sch, t, min, depth, b);
      case Message(id) => MessageFilter(sch, id, allowEmpty, min, depth, b);
      case _ =>
    }
  }

  lemma {:induction false} PairFilter(sch: Schema, t: Type, min: Canonicity, depth: nat, b: seq<u8>)
    requires t.Pair? && ItemOk(t, |sch|)
    ensures DecodePair(sch, t, min, depth, b) == KeepOut(min, DecodePair(sch, t, NotCanonical, depth, b))
    decreases depth, 0, t, 0, 0
  {
    hide DecodeValue;
    ValueFilter(sch, t.key, true, min, depth, b);
    var r := DecodeValue(sch, t.key, true, NotCanonical, depth, b);
    if r.Out? {
      ValueFilter(sch, t.val, true, min, depth, r.rest);
    }
  }

  lemma {:induction false} ListFilter(sch: Schema, t: Type, min: Canonicity, depth: nat, b: seq<u8>)
    requires t.List? && ItemOk(t, |sch|)
    ensures DecodeList(sch, t, min, depth, b) == KeepOut(min, DecodeList(sch, t, NotCanonical, depth, b))
    decreases depth, 0, t, 0, 0
  {
    var region := ReadRegion(b);
    if region.Parsed? {
      ItemsFilter(sch, t.kind, t.elem, min, depth, [], Canonical, region.value);
    }
  }

  lemma {:induction false} MessageFilter(sch: Schema, id: nat, allowEmpty: bool, min: Canonicity, depth: nat,
                                         b: seq<u8>)
    requires id < |sch|
    ensures DecodeMessage(sch, id, allowEmpty, min, depth, b)
            == KeepOut(min, DecodeMessage(sch, id, allowEmpty, NotCanonical, depth, b))
    decreases depth, 0, Message(id), 0, 1
  {
    MessageUnfold(sch, id, allowEmpty, min, depth, b);
    MessageUnfold(sch, id, allowEmpty, NotCanonical, depth, b);
    var region := ReadRegion(b);
    if region.Parsed? {
      RegionFilter(sch, id, allowEmpty, min, depth, region.value, region.rest);
    }
  }

  lemma {:induction false} RegionFilter(sch: Schema, id: nat, allowEmpty: bool, min: Canonicity, depth: nat,
                                        region: seq<u8>, rest: seq<u8>)
    requires id < |sch|
    ensures InRegion(sch, id, allowEmpty, min, depth, region, rest)
            == KeepOut(min, InRegion(sch, id, allowEmpty, NotCanonical, depth, region, rest))
    decreases depth, 0, Message(id), 0, 0
  {
    hide DecodeBody, EmptyRecord;
    if depth > 0 {
      BodyFilter(sch, id, min, depth - 1, region, rest);
    }
  }

  lemma {:induction false} BodyFilter(sch: Schema, id: nat, min: Canonicity, depth: nat, region: seq<u8>, rest: seq<u8>)
    requires id < |sch|
    ensures DecodeBody(sch, id, min, depth, region, rest)
            == KeepOut(min, DecodeBody(sch, id, NotCanonical, depth, region, rest))
    decreases depth, 2, 0
  {
    FieldsFilter(sch, id, min, depth, EmptyRecord(sch, id), None, Canonical, region);
  }

  lemma {:induction false} ItemsFilter(sch: Schema, kind: ListKind, elem: Type, min: Canonicity, depth: nat,
                                       items: seq<Value>, canon: Canonicity, b: seq<u8>)
    requires ItemOk(elem, |sch|) && canon.AtLeast(min)
    ensures DecodeItems(sch, kind, elem, min, depth, items, canon, b)
            == KeepWhole(min, DecodeItems(sch, kind, elem, NotCanonical, depth, items, canon, b))
    decreases depth, 0, elem, 2, |b|, 0
  {
    if b != [] && !(kind.Array? && |items| >= kind.size) {
      ItemsUnfold(sch, kind, elem, min, depth, items, canon, b);
      ItemsUnfold(sch, kind, elem, NotCanonical, depth, items, canon, b);
      ValueFilter(sch, elem, true, min, depth, b);
      var r := DecodeValue(sch, elem, true, NotCanonical, depth, b);
      if r.Out? {
        GoOnFilter(sch, kind, elem, min, depth, canon, InsertDistinguished(kind, items, r.value), r.canon, r.rest);
      }
    }
  }

  lemma {:induction false} GoOnFilter(sch: Schema, kind: ListKind, elem: Type, min: Canonicity, depth: nat,
                                      canon: Canonicity,
                                      more: Option<Inserted>, c: Canonicity, rest: seq<u8>)
    requires ItemOk(elem, |sch|) && canon.AtLeast(min)
    ensures KeepWhole(min, ItemsGoOn(sch, kind, elem, NotCanonical, depth, canon, more, c, rest))
            == if c.AtLeast(min) then ItemsGoOn(sch, kind, elem, min, depth, canon, more, c, rest) else Bad
    decreases depth, 0, elem, 2, |rest|, 1
  {
    hide DecodeItems;
    if more.Some? {
      var next := Worse(Worse(canon, c), more.value.canon);
      if next.AtLeast(min) {
        ItemsFilter(sch, kind, elem, min, depth, more.value.items, next, rest);
      } else {
        ItemsStep(sch, kind, elem, min, depth, more.value.items, next, rest);
      }
    }
  }

  lemma {:induction false} ItemsStep(sch: Schema, kind: ListKind, elem: Type, min: Canonicity, depth: nat,
                                     items: seq<Value>, canon: Canonicity, b: seq<u8>)
    requires ItemOk(elem, |sch|)
    ensures !canon.AtLeast(min) ==>
              KeepWhole(min, DecodeItems(sch, kind, elem, NotCanonical, depth, items, canon, b)) == Bad
  {
    ItemsFall(sch, kind, elem, depth, items, canon, b);
  }

  lemma {:induction false} FieldFilter(sch: Schema, f: Field, min: Canonicity, depth: nat, w: WireType, b: seq<u8>)
    requires TypeOk(f.typ, |sch|)
    ensures DecodeField(sch, f, min, depth, w, b) == KeepOut(min, DecodeField(sch, f, NotCanonical, depth, w, b))
    decreases depth, 0, f.typ, 4, 0
  {
    hide DecodeValue, Relaxed.DecodeUnpacked;
    ValueFilter(sch, f.typ, f.optional, min, depth, b);
  }

  lemma {:induction false} FieldsFilter(sch: Schema, id: nat, min: Canonicity, depth: nat, slots: seq<Slot>,
                                        last: Option<nat>, canon: Canonicity, b: seq<u8>)
    requires id < |sch| && |slots| == |sch[id].fields| && canon.AtLeast(min)
    ensures Merge(sch, id, min, depth, slots, last, canon, b)
            == KeepWhole(min, Merge(sch, id, NotCanonical, depth, slots, last, canon, b))
    decreases depth, 1, |b|, 1
  {
    var key := ReadKey(if last.Some? then last.value else 0, b);
    if b != [] && key.Parsed? {
      var tag, w, k := key.value.tag, key.value.wireType, FindField(sch[id].fields, key.value.tag);
      if k == |sch[id].fields| {
        MergeUnknown(sch, id, min, depth, slots, last, canon, b);
        MergeUnknown(sch, id, NotCanonical, depth, slots, last, canon, b);
        UnknownFilter(sch, id, min, depth, slots, tag, canon, SkipField(w, key.rest), b);
      } else if last != Some(tag) {
        MergeKnown(sch, id, min, depth, slots, last, canon, b);
        MergeKnown(sch, id, NotCanonical, depth, slots, last, canon, b);
        FieldFilter(sch, sch[id].fields[k], min, depth, w, key.rest);
        KnownFilter(sch, id, min, depth, slots, k, tag, canon,
                    DecodeField(sch, sch[id].fields[k], NotCanonical, depth, w, key.rest), b);
      }
    }
  }

  lemma {:induction false} UnknownFilter(sch: Schema, id: nat, min: Canonicity, depth: nat, slots: seq<Slot>, tag: nat,
                                         canon: Canonicity,
                                         skipped: Parsed<()>, b: seq<u8>)
    requires id < |sch| && |slots| == |sch[id].fields| && canon.AtLeast(min)
    requires skipped.Parsed? ==> |skipped.rest| < |b|
    ensures AfterUnknown(sch, id, min, depth, slots, tag, canon, skipped)
            == KeepWhole(min, AfterUnknown(sch, id, NotCanonical, depth, slots, tag, canon, skipped))
    decreases depth, 1, |b|, 0
  {
    if skipped.Parsed? {
      if HasExtensions.AtLeast(min) {
        FieldsFilter(sch, id, min, depth, slots, Some(tag), Worse(canon, HasExtensions), skipped.rest);
      } else {
        FieldsStep(sch, id, min, depth, slots, Some(tag), Worse(canon, HasExtensions), skipped.rest);
      }
    }
  }

  lemma {:induction false} KnownFilter(sch: Schema, id: nat, min: Canonicity, depth: nat, slots: seq<Slot>, k: nat,
                                       tag: nat, canon: Canonicity,
                                       r: Out<Slot>, b: seq<u8>)
    requires id < |sch| && |slots| == |sch[id].fields| && k < |slots| && canon.AtLeast(min)
    requires r.Out? ==> |r.rest| < |b|
    ensures AfterKnown(sch, id, min, depth, slots, k, tag, canon, KeepOut(min, r))
            == KeepWhole(min, AfterKnown(sch, id, NotCanonical, depth, slots, k, tag, canon, r))
    decreases depth, 1, |b|, 0
  {
    if r.Out? {
      if r.canon.AtLeast(min) {
        FieldsFilter(sch, id, min, depth, slots[k := r.value], Some(tag), Worse(canon, r.canon), r.rest);
      } else {
        FieldsStep(sch, id, min, depth, slots[k := r.value], Some(tag), Worse(canon, r.canon), r.rest);
      }
    }
  }

  lemma {:induction false} FieldsStep(sch: Schema, id: nat, min: Canonicity, depth: nat, slots: seq<Slot>,
                                      last: Option<nat>, canon: Canonicity, b: seq<u8>)
    requires id < |sch| && |slots| == |sch[id].fields|
    ensures !canon.AtLeast(min) ==> KeepWhole(min, Merge(sch, id, NotCanonical, depth, slots, last, canon, b)) == Bad
  {
    FieldsFall(sch, id, depth, slots, last, canon, b);
  }

  // ---------- relaxed decoding accepts what distinguished decoding accepts ----------

  /**
   * Whether the modes can part over a value of type `t` with `depth` levels left. Only in one place does
   * distinguished decoding not need a level that relaxed decoding needs: for a handwritten message that must
   * not be empty and has no bytes. It is looked for at that depth, inside of messages, of the items of a
   * collection, if that can have any, and of a mapping's values.
   */
  ghost predicate ValueParts(sch: Schema, t: Type, allowEmpty: bool, depth: nat)
    decreases depth, 0, t
  {
    match t
    case Message(id) =>
      id < |sch| && if depth == 0 then !allowEmpty && sch[id].handwritten else RecordParts(sch, id, depth - 1)
    case List(kind, elem) => kind != Array(0) && ValueParts(sch, elem, true, depth)
    case Pair(_, val) => ValueParts(sch, val, true, depth)
    case _ => false
  }

  /** Whether they can over the fields of a message that are decoded with `depth` levels left. */
  ghost predicate RecordParts(sch: Schema, id: nat, depth: nat)
    requires id < |sch|
    decreases depth, 1
  {
    exists k | 0 <= k < |sch[id].fields| :: ValueParts(sch, sch[id].fields[k].typ, sch[id].fields[k].optional, depth)
  }

  /** Whatever relaxed decoding accepts is accepted with the same value, and, where `both`, the other way around. */
  ghost predicate Matches<T>(both: bool, p: Parsed<T>, r: Out<T>) {
    && (p.Parsed? ==> r.Out? && r.value == p.value && r.rest == p.rest)
    && (both && r.Out? ==> p.Parsed?)
  }

  ghost predicate MatchesWhole<T>(both: bool, p: Option<T>, r: Whole<T>) {
    && (p.Some? ==> r.Whole? && r.value == p.value)
    && (both && r.Whole? ==> p.Some?)
  }

  function SortOf(t: Type): Kind {
    match t
    case Uint(_) => OfNumbers
    case Fixed(size, form) => if form.Raw? then OfBytes else OfWords(form.Signed?, size)
    case Bytes => OfBytes
    case Pair(key, _) => OfEntries(if key.Pair? then NoOrder else SortOf(key))
    case _ => NoOrder
  }

  lemma {:induction false} DecodedSort(sch: Schema, t: Type, depth: nat, b: seq<u8>)
    requires ItemOk(t, |sch|) && Ordered(SortOf(t)) && DecodeValue(sch, t, true, NotCanonical, depth, b).Out?
    ensures Sort(DecodeValue(sch, t, true, NotCanonical, depth, b).value) == SortOf(t)
    decreases t
  {
    if t.Pair? {
      assert DecodePair(sch, t, NotCanonical, depth, b).Out?;
      DecodedSort(sch, t.key, depth, b);
    }
  }

  /** In an ordered collection both kinds of insertion agree; comparing with the last item only judges. */
  lemma {:induction false} InsertionsAgree(kind: ListKind, items: seq<Value>, item: Value)
    requires kind.Set? || kind.Mapping? ==> Keyed(items, item)
    ensures Insert(kind, items, item).Some? <==> InsertDistinguished(kind, items, item).Some?
    ensures Insert(kind, items, item).Some? ==>
              var all := Insert(kind, items, item).value;
              && all == InsertDistinguished(kind, items, item).value.items
              && (kind.Set? || kind.Mapping? ==> Keyed(all, item))
  {
    if kind.Set? || kind.Mapping? {
      InsertMeaning(items, item);
      if items != [] && Less(items[|items| - 1], item) {
        InsertAtEnd(items, item);
      } else if items != [] && SameKey(items[|items| - 1], item) {
        assert SameKey(item, items[|items| - 1]);
      }
    }
  }

  lemma {:induction false} ValueMatches(sch: Schema, t: Type, allowEmpty: bool, depth: nat, b: seq<u8>)
    requires ItemOk(t, |sch|)
    ensures Matches(!ValueParts(sch, t, allowEmpty, depth), Relaxed.DecodeValue(sch, t, depth, b),
                    DecodeValue(sch, t, allowEmpty, NotCanonical, depth, b))
    decreases depth, 0, t, 1, 0
  {
    match t {
      case Pair(_, _) => PairMatches(sch, t, depth, b);
      case List(_, _) => ListMatches(sch, t, depth, b);
      case Message(id) => MessageMatches(sch, id, allowEmpty, depth, b);
      case _ =>
    }
  }

  lemma {:induction false} PairMatches(sch: Schema, t: Type, depth: nat, b: seq<u8>)
    requires t.Pair? && ItemOk(t, |sch|)
    ensures Matches(!ValueParts(sch, t, true, depth), Relaxed.DecodePair(sch, t, depth, b),
                    DecodePair(sch, t, NotCanonical, depth, b))
    decreases depth, 0, t, 0, 0
  {
    ValueMatches(sch, t.key, true, depth, b);
    var r := DecodeValue(sch, t.key, true, NotCanonical, depth, b);
    if r.Out? {
      ValueMatches(sch, t.val, true, depth, r.rest);
    }
  }

  lemma {:induction false} ListMatches(sch: Schema, t: Type, depth: nat, b: seq<u8>)
    requires t.List? && ItemOk(t, |sch|)
    ensures Matches(!ValueParts(sch, t, true, depth), Relaxed.DecodeList(sch, t, depth, b),
                    DecodeList(sch, t, NotCanonical, depth, b))
    decreases depth, 0, t, 0, 0
  {
    var region := ReadRegion(b);
    if region.Parsed? {
      ItemsMatch(sch, t.kind, t.elem, depth, [], Canonical, region.value);
    }
  }

  lemma {:induction false} MessageMatches(sch: Schema, id: nat, allowEmpty: bool, depth: nat, b: seq<u8>)
    requires id < |sch|
    ensures Matches(!ValueParts(sch, Message(id), allowEmpty, depth), Relaxed.DecodeMessage(sch, id, depth, b),
                    DecodeMessage(sch, id, allowEmpty, NotCanonical, depth, b))
    decreases depth, 0, Message(id), 0, 0
  {
    hide DecodeMessage, DecodeBody, Relaxed.Merge, ReadVarint;
    MessageUnfold(sch, id, allowEmpty, NotCanonical, depth, b);
    var region := ReadRegion(b);
    if region.Parsed? && depth > 0 {
      BodyMatches(sch, id, depth - 1, region.value, region.rest);
      NoFields(sch, id, depth - 1);
    }
  }

  /** No bytes are an empty message. */
  lemma {:induction false} NoFields(sch: Schema, id: nat, depth: nat)
    requires id < |sch|
    ensures Relaxed.Merge(sch, id, depth, EmptyRecord(sch, id), None, []) == Some(EmptyRecord(sch, id))
  {
  }

  lemma {:induction false} BodyMatches(sch: Schema, id: nat, depth: nat, region: seq<u8>, rest: seq<u8>)
    requires id < |sch|
    ensures var p := Relaxed.Merge(sch, id, depth, EmptyRecord(sch, id), None, region);
            var r := DecodeBody(sch, id, NotCanonical, depth, region, rest);
            && (p.Some? ==> r.Out? && r.value == Record(p.value))
            && (!RecordParts(sch, id, depth) && r.Out? ==> p.Some?)
    decreases depth, 2, 0
  {
    FieldsMatch(sch, id, depth, EmptyRecord(sch, id), None, Canonical, region);
  }

  lemma {:induction false} ItemsMatch(sch: Schema, kind: ListKind, elem: Type, depth: nat, items: seq<Value>,
                                      canon: Canonicity, b: seq<u8>)
    requires ItemOk(elem, |sch|)
    requires kind.Set? || kind.Mapping? ==>
        Ordered(SortOf(elem)) && Ascending(items) && forall i | 0 <= i < |items| :: Sort(items[i]) == SortOf(elem)
    ensures MatchesWhole(kind == Array(0) || !ValueParts(sch, elem, true, depth),
                         Relaxed.DecodeItems(sch, kind, elem, depth, items, b),
                         DecodeItems(sch, kind, elem, NotCanonical, depth, items, canon, b))
    decreases depth, 0, elem, 2, |b|
  {
    hide DecodeValue, Relaxed.DecodeValue, Insert, InsertDistinguished;
    if b != [] {
      ValueMatches(sch, elem, true, depth, b);
      var r := DecodeValue(sch, elem, true, NotCanonical, depth, b);
      if r.Out? {
        if kind.Set? || kind.Mapping? {
          DecodedSort(sch, elem, depth, b);
        }
        InsertionsAgree(kind, items, r.value);
        if Insert(kind, items, r.value).Some? {
          var more := InsertDistinguished(kind, items, r.value).value;
          ItemsMatch(sch, kind, elem, depth, more.items, Worse(Worse(canon, r.canon), more.canon), r.rest);
        }
      }
    }
  }

  lemma {:induction false} FieldMatches(sch: Schema, f: Field, depth: nat, w: WireType, b: seq<u8>)
    requires TypeOk(f.typ, |sch|)
    ensures Matches(!ValueParts(sch, f.typ, f.optional, depth), Relaxed.DecodeField(sch, f, depth, w, b),
                    DecodeField(sch, f, NotCanonical, depth, w, b))
    decreases depth, 0, f.typ, 4, 0
  {
    ValueMatches(sch, f.typ, f.optional, depth, b);
  }

  lemma {:induction false} FieldsMatch(sch: Schema, id: nat, depth: nat, slots: seq<Slot>, last: Option<nat>,
                                       canon: Canonicity, b: seq<u8>)
    requires id < |sch| && |slots| == |sch[id].fields|
    ensures MatchesWhole(!RecordParts(sch, id, depth), Relaxed.Merge(sch, id, depth, slots, last, b),
                         Merge(sch, id, NotCanonical, depth, slots, last, canon, b))
    decreases depth, 1, |b|
  {
    hide DecodeField, Relaxed.DecodeField, SkipField, ReadKey;
    var key := ReadKey(if last.Some? then last.value else 0, b);
    if b != [] && key.Parsed? {
      var tag, w, k := key.value.tag, key.value.wireType, FindField(sch[id].fields, key.value.tag);
      if k == |sch[id].fields| {
        if SkipField(w, key.rest).Parsed? {
          FieldsMatch(sch, id, depth, slots, Some(tag), Worse(canon, HasExtensions), SkipField(w, key.rest).rest);
        }
      } else if last != Some(tag) {
        assert DefOk(sch[id], id, |sch|);
        FieldMatches(sch, sch[id].fields[k], depth, w, key.rest);
        var r := DecodeField(sch, sch[id].fields[k], NotCanonical, depth, w, key.rest);
        if r.Out? {
          FieldsMatch(sch, id, depth, slots[k := r.value], Some(tag), Worse(canon, r.canon), r.rest);
        }
      }
    }
  }

  // ---------- one level deeper, relaxed decoding accepts all that distinguished decoding does ----------

  ghost predicate Follows<T>(r: Out<T>, p: Parsed<T>) {
    r.Out? ==> p == Parsed(r.value, r.rest)
  }

  ghost predicate FollowsWhole<T>(r: Whole<T>, p: Option<T>) {
    r.Whole? ==> p == Some(r.value)
  }

  lemma {:induction false} ValueFollows(sch: Schema, t: Type, allowEmpty: bool, depth: nat, b: seq<u8>)
    requires ItemOk(t, |sch|)
    ensures Follows(DecodeValue(sch, t, allowEmpty, NotCanonical, depth, b), Relaxed.DecodeValue(sch, t, depth + 1, b))
    decreases depth, 0, t, 1, 0
  {
    match t {
      case Pair(_, _) => PairFollows(sch, t, depth, b);
      case List(_, _) => ListFollows(sch, t, depth, b);
      case Message(id) => MessageFollows(sch, id, allowEmpty, depth, b);
      case _ =>
    }
  }

  lemma {:induction false} PairFollows(sch: Schema, t: Type, depth: nat, b: seq<u8>)
    requires t.Pair? && ItemOk(t, |sch|)
    ensures Follows(DecodePair(sch, t, NotCanonical, depth, b), Relaxed.DecodePair(sch, t, depth + 1, b))
    decreases depth, 0, t, 0, 0
  {
    ValueFollows(sch, t.key, true, depth, b);
    var r := DecodeValue(sch, t.key, true, NotCanonical, depth, b);
    if r.Out? {
      ValueFollows(sch, t.val, true, depth, r.rest);
    }
  }

  lemma {:induction false} ListFollows(sch: Schema, t: Type, depth: nat, b: seq<u8>)
    requires t.List? && ItemOk(t, |sch|)
    ensures Follows(DecodeList(sch, t, NotCanonical, depth, b), Relaxed.DecodeList(sch, t, depth + 1, b))
    decreases depth, 0, t, 0, 0
  {
    var region := ReadRegion(b);
    if region.Parsed? {
      ItemsFollow(sch, t.kind, t.elem, depth, [], Canonical, region.value);
    }
  }

  lemma {:induction false} MessageFollows(sch: Schema, id: nat, allowEmpty: bool, depth: nat, b: seq<u8>)
    requires id < |sch|
    ensures Follows(DecodeMessage(sch, id, allowEmpty, NotCanonical, depth, b),
                    Relaxed.DecodeMessage(sch, id, depth + 1, b))
    decreases depth, 0, Message(id), 0, 0
  {
    var region := ReadRegion(b);
    if region.Parsed? {
      if depth > 0 {
        BodyFollows(sch, id, depth - 1, region.value, region.rest);
      }
      if region.value == [] {
        assert Relaxed.Merge(sch, id, depth, EmptyRecord(sch, id), None, region.value) == Some(EmptyRecord(sch, id));
      }
    }
  }

  lemma {:induction false} BodyFollows(sch: Schema, id: nat, depth: nat, region: seq<u8>, rest: seq<u8>)
    requires id < |sch|
    ensures var r := DecodeBody(sch, id, NotCanonical, depth, region, rest);
            r.Out? ==>
                r.value.Record?
                  && Relaxed.Merge(sch, id, depth + 1, EmptyRecord(sch, id), None, region) == Some(r.value.slots)
    decreases depth, 2, 0
  {
    FieldsFollow(sch, id, depth, EmptyRecord(sch, id), None, Canonical, region);
  }

  lemma {:induction false} ItemsFollow(sch: Schema, kind: ListKind, elem: Type, depth: nat, items: seq<Value>,
                                       canon: Canonicity, b: seq<u8>)
    requires ItemOk(elem, |sch|)
    requires kind.Set? || kind.Mapping? ==>
        Ordered(SortOf(elem)) && Ascending(items) && forall i | 0 <= i < |items| :: Sort(items[i]) == SortOf(elem)
    ensures FollowsWhole(DecodeItems(sch, kind, elem, NotCanonical, depth, items, canon, b),
                         Relaxed.DecodeItems(sch, kind, elem, depth + 1, items, b))
    decreases depth, 0, elem, 2, |b|
  {
    hide DecodeValue, Relaxed.DecodeValue, Insert, InsertDistinguished;
    if b != [] && !(kind.Array? && |items| >= kind.size) {
      ItemsUnfold(sch, kind, elem, NotCanonical, depth, items, canon, b);
      ValueFollows(sch, elem, true, depth, b);
      var r := DecodeValue(sch, elem, true, NotCanonical, depth, b);
      if r.Out? {
        if kind.Set? || kind.Mapping? {
          DecodedSort(sch, elem, depth, b);
        }
        InsertionsAgree(kind, items, r.value);
        if Insert(kind, items, r.value).Some? {
          var more := InsertDistinguished(kind, items, r.value).value;
          ItemsFollow(sch, kind, elem, depth, more.items, Worse(Worse(canon, r.canon), more.canon), r.rest);
        }
      }
    }
  }

  /** Relaxed decoding accepts with a higher limit what it accepts with a lower one. */
  lemma {:induction false} UnpackedFollow(sch: Schema, kind: ListKind, elem: Type, depth: nat, items: seq<Value>,
                                          b: seq<u8>)
    requires ItemOk(elem, |sch|)
    ensures var p := Relaxed.UnpackedItems(sch, kind, elem, depth, items, b);
            p.Parsed? ==> Relaxed.UnpackedItems(sch, kind, elem, depth + 1, items, b) == p
    decreases depth, 0, elem, 2, |b|, 1
  {
    var p := Relaxed.DecodeValue(sch, elem, depth, b);
    if p.Parsed? && Insert(kind, items, p.value).Some? {
      ValueMatches(sch, elem, true, depth, b);
      ValueFollows(sch, elem, true, depth, b);
      UnpackedOnFollow(sch, kind, elem, depth, Insert(kind, items, p.value).value, p.rest);
    }
  }

  lemma {:induction false} UnpackedOnFollow(sch: Schema, kind: ListKind, elem: Type, depth: nat, items: seq<Value>,
                                            b: seq<u8>)
    requires ItemOk(elem, |sch|)
    ensures var p := Relaxed.UnpackedOn(sch, kind, elem, depth, items, b);
            p.Parsed? ==> Relaxed.UnpackedOn(sch, kind, elem, depth + 1, items, b) == p
    decreases depth, 0, elem, 2, |b|, 2
  {
    if PeekRepeated(b).Some? {
      UnpackedFollow(sch, kind, elem, depth, items, b[1..]);
    }
  }

  lemma {:induction false} FieldFollows(sch: Schema, f: Field, depth: nat, w: WireType, b: seq<u8>)
    requires TypeOk(f.typ, |sch|)
    ensures Follows(DecodeField(sch, f, NotCanonical, depth, w, b), Relaxed.DecodeField(sch, f, depth + 1, w, b))
    decreases depth, 0, f.typ, 4, 0
  {
    if !f.optional && f.typ.List? && !f.typ.kind.Mapping? && w != LengthDelimited {
      UnpackedFollow(sch, f.typ.kind, f.typ.elem, depth, [], b);
    } else {
      ValueFollows(sch, f.typ, f.optional, depth, b);
    }
  }

  lemma {:induction false} FieldsFollow(sch: Schema, id: nat, depth: nat, slots: seq<Slot>, last: Option<nat>,
                                        canon: Canonicity, b: seq<u8>)
    requires id < |sch| && |slots| == |sch[id].fields|
    ensures FollowsWhole(Merge(sch, id, NotCanonical, depth, slots, last, canon, b),
                         Relaxed.Merge(sch, id, depth + 1, slots, last, b))
    decreases depth, 1, |b|
  {
    hide DecodeField, Relaxed.DecodeField, SkipField, ReadKey;
    var key := ReadKey(if last.Some? then last.value else 0, b);
    if b != [] && key.Parsed? {
      var tag, w, k := key.value.tag, key.value.wireType, FindField(sch[id].fields, key.value.tag);
      if k == |sch[id].fields| {
        MergeUnknown(sch, id, NotCanonical, depth, slots, last, canon, b);
        if SkipField(w, key.rest).Parsed? {
          FieldsFollow(sch, id, depth, slots, Some(tag), Worse(canon, HasExtensions), SkipField(w, key.rest).rest);
        }
      } else if last != Some(tag) {
        MergeKnown(sch, id, NotCanonical, depth, slots, last, canon, b);
        FieldFollows(sch, sch[id].fields[k], depth, w, key.rest);
        var r := DecodeField(sch, sch[id].fields[k], NotCanonical, depth, w, key.rest);
        if r.Out? {
          FieldsFollow(sch, id, depth, slots[k := r.value], Some(tag), Worse(canon, r.canon), r.rest);
        }
      }
    }
  }
}
