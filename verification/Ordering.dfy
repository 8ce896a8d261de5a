/** Ordered collections: what inserting a decoded item does, and how canonical the result is. */
module Ordering {
  import opened Base
  import opened Schemas

  // ---------- the order is total on keys ----------

  /** The kinds of things that can be ordered: numbers, byte strings, words of one size, and entries keyed by those. */
  datatype Kind = NoOrder | OfNumbers | OfBytes | OfWords(signed: bool, size: nat) | OfEntries(key: Kind)

  function Sort(v: Value): Kind {
    match v
    case Num(_) => OfNumbers
    case Blob(_) => OfBytes
    case Word(signed, bs) => OfWords(signed, |bs|)
    case Entry(key, _) => OfEntries(if key.Entry? then NoOrder else Sort(key))
    case _ => NoOrder
  }

  predicate Ordered(k: Kind) {
    k != NoOrder && k != OfEntries(NoOrder)
  }

  lemma {:induction false} LexTotal(a: seq<u8>, b: seq<u8>)
    ensures a == b || LexLess(a, b) || LexLess(b, a)
    ensures !(LexLess(a, b) && LexLess(b, a)) && (a == b ==> !LexLess(a, b))
    decreases |a|
  {
    if a != [] && b != [] && a[0] == b[0] {
      LexTotal(a[1..], b[1..]);
      assert a == [a[0]] + a[1..] && b == [b[0]] + b[1..];
    }
  }

  lemma {:induction false} LexTransitive(a: seq<u8>, b: seq<u8>, c: seq<u8>)
    requires LexLess(a, b) && LexLess(b, c)
    ensures LexLess(a, c)
    decreases |a|
  {
    if a != [] && a[0] == b[0] && b[0] == c[0] {
      LexTransitive(a[1..], b[1..], c[1..]);
    }
  }

  lemma {:induction false} LittleEndianBound(bs: seq<u8>)
    ensures LittleEndian(bs) < Pow256(|bs|)
    decreases |bs|
  {
    if bs != [] {
      LittleEndianBound(bs[1..]);
    }
  }

  lemma {:induction false} LittleEndianUnique(a: seq<u8>, b: seq<u8>)
    requires |a| == |b| && LittleEndian(a) == LittleEndian(b)
    ensures a == b
    decreases |a|
  {
    if a != [] {
      assert a[0] == LittleEndian(a) % 256 && b[0] == LittleEndian(b) % 256;
      LittleEndianUnique(a[1..], b[1..]);
      assert a == [a[0]] + a[1..] && b == [b[0]] + b[1..];
    }
  }

  /** Words of one size are the same number only if they are the same bytes. */
  lemma {:induction false} WordUnique(signed: bool, a: seq<u8>, b: seq<u8>)
    requires |a| == |b| && WordNumber(signed, a) == WordNumber(signed, b)
    ensures a == b
  {
    LittleEndianBound(a);
    LittleEndianBound(b);
    LittleEndianUnique(a, b);
  }

  lemma {:induction false} Total(a: Value, b: Value)
    requires Sort(a) == Sort(b) && Ordered(Sort(a))
    ensures SameKey(a, b) || Less(a, b) || Less(b, a)
    ensures !(Less(a, b) && Less(b, a)) && (SameKey(a, b) ==> !Less(a, b))
  {
    match (a, b) {
      case (Blob(s), Blob(t)) => LexTotal(s, t);
      case (Word(s, x), Word(_, y)) => if WordNumber(s, x) == WordNumber(s, y) { WordUnique(s, x, y); }
      case (Entry(j, _), Entry(k, _)) => Total(j, k);
      case _ =>
    }
  }

  lemma {:induction false} Transitive(a: Value, b: Value, c: Value)
    requires Sort(a) == Sort(b) == Sort(c) && Ordered(Sort(a)) && Less(a, b) && Less(b, c)
    ensures Less(a, c)
  {
    match (a, b, c) {
      case (Blob(s), Blob(t), Blob(u)) => LexTransitive(s, t, u);
      case (Entry(i, _), Entry(j, _), Entry(k, _)) => Transitive(i, j, k);
      case _ =>
    }
  }

  // ---------- insertion ----------

  /** Insertion into an ordered collection; an equal key is an error. */
  function InsertSorted(items: seq<Value>, item: Value): (r: Option<seq<Value>>)
    ensures r.Some? ==> |r.value| == |items| + 1
  {
    if items == [] then Some([item])
    else if SameKey(item, items[0]) then None
    else if Less(item, items[0]) then Some([item] + items)
    else
      match InsertSorted(items[1..], item)
      case None => None
      case Some(rest) => Some([items[0]] + rest)
  }

  /** `Collection::insert` and `Mapping::insert`. */
  function Insert(kind: ListKind, items: seq<Value>, item: Value): (r: Option<seq<Value>>)
    ensures r.Some? ==> |r.value| == |items| + 1
  {
    if kind.Set? || kind.Mapping? then InsertSorted(items, item) else Some(items + [item])
  }

  datatype Inserted = Inserted(items: seq<Value>, canon: Canonicity)

  /** `insert_distinguished`: compares with the greatest item so far. */
  function InsertDistinguished(kind: ListKind, items: seq<Value>, item: Value): (r: Option<Inserted>)
    ensures r.Some? ==> |r.value.items| == |items| + 1
  {
    if kind.Set? || kind.Mapping? then
      if items == [] || Less(items[|items| - 1], item) then Some(Inserted(items + [item], Canonical))
      else if SameKey(items[|items| - 1], item) then None
      else
        match InsertSorted(items, item)
        case None => None
        case Some(all) => Some(Inserted(all, NotCanonical))
    else Some(Inserted(items + [item], Canonical))
  }

  ghost predicate Keyed(items: seq<Value>, item: Value) {
    Ordered(Sort(item)) && Ascending(items) && forall i | 0 <= i < |items| :: Sort(items[i]) == Sort(item)
  }

  lemma {:induction false} InsertAtEnd(items: seq<Value>, item: Value)
    requires Keyed(items, item) && items != [] && Less(items[|items| - 1], item)
    ensures InsertSorted(items, item) == Some(items + [item])
    decreases |items|
  {
    Total(items[0], item);
    if |items| == 1 {
      assert items[1..] == [];
      assert [items[0]] + [item] == items + [item];
    } else {
      TailKeyed(items, item);
      InsertAtEnd(items[1..], item);
      LastAbove(items, item);
      Total(item, items[0]);
      assert [items[0]] + (items[1..] + [item]) == items + [item];
    }
  }

  lemma {:induction false} TailKeyed(items: seq<Value>, item: Value)
    requires Keyed(items, item) && items != []
    ensures Keyed(items[1..], item) && (|items| > 1 ==> items[1..][|items| - 2] == items[|items| - 1])
  {
    forall i | 0 < i < |items| - 1 ensures Less(items[1..][i - 1], items[1..][i]) {
      assert Less(items[i], items[i + 1]);
    }
  }

  lemma {:induction false} LastAbove(items: seq<Value>, item: Value)
    requires Keyed(items, item) && items != [] && Less(items[|items| - 1], item)
    ensures Less(items[0], item)
    decreases |items|
  {
    if |items| > 1 {
      TailKeyed(items, item);
      LastAbove(items[1..], item);
      assert Less(items[0], items[1]);
      Transitive(items[0], items[1], item);
    }
  }

  /** Insertion keeps the order, adds exactly the item, and fails exactly on an equal key. */
  lemma {:induction false} InsertMeaning(items: seq<Value>, item: Value)
    requires Keyed(items, item)
    ensures InsertSorted(items, item).None? <==> exists i | 0 <= i < |items| :: SameKey(item, items[i])
    ensures InsertSorted(items, item).Some? ==>
              var all := InsertSorted(items, item).value;
              && Keyed(all, item) && multiset(all) == multiset(items) + multiset{item}
              && (all[0] == item || (items != [] && all[0] == items[0]))
    decreases |items|
  {
    hide Less, SameKey, Sort;
    if items == [] {
      SingleKeyed(item);
    } else if SameKey(item, items[0]) {
    } else if Less(item, items[0]) {
      BelowAll(items, item);
      PrependKeyed(item, items, item);
    } else {
      TailKeyed(items, item);
      InsertMeaning(items[1..], item);
      KeyInTail(items, item);
      if InsertSorted(items[1..], item).Some? {
        InsertLater(items, item, InsertSorted(items[1..], item).value);
      }
    }
  }

  lemma {:induction false} SingleKeyed(item: Value)
    requires Ordered(Sort(item))
    ensures Keyed([item], item)
  {
  }

  lemma {:induction false} KeyInTail(items: seq<Value>, item: Value)
    requires items != [] && !SameKey(item, items[0])
    ensures (exists i | 0 <= i < |items| :: SameKey(item, items[i]))
            <==> exists i | 0 <= i < |items[1..]| :: SameKey(item, items[1..][i])
  {
    hide SameKey;
    assert forall i | 1 <= i < |items| :: items[i] == items[1..][i - 1];
    assert forall i | 0 <= i < |items[1..]| :: items[1..][i] == items[i + 1];
  }

  /** Putting the first item back before a tail into which the item has been inserted. */
  lemma {:induction false} InsertLater(items: seq<Value>, item: Value, rest: seq<Value>)
    requires Keyed(items, item) && items != [] && !SameKey(item, items[0]) && !Less(item, items[0])
    requires Keyed(rest, item) && multiset(rest) == multiset(items[1..]) + multiset{item}
    requires rest != [] && (rest[0] == item || (items[1..] != [] && rest[0] == items[1..][0]))
    ensures Keyed([items[0]] + rest, item)
    ensures multiset([items[0]] + rest) == multiset(items) + multiset{item}
  {
    hide Sort;
    Total(item, items[0]);
    Total(items[0], item);
    assert |items| > 1 ==> Less(items[0], items[1]);
    PrependKeyed(items[0], rest, item);
    assert items == [items[0]] + items[1..];
  }

  lemma {:induction false} PrependKeyed(first: Value, rest: seq<Value>, item: Value)
    requires Keyed(rest, item) && Sort(first) == Sort(item) && (rest != [] ==> Less(first, rest[0]))
    ensures Keyed([first] + rest, item)
  {
  }

  lemma {:induction false} BelowAll(items: seq<Value>, item: Value)
    requires Keyed(items, item) && items != [] && Less(item, items[0])
    ensures forall i | 0 <= i < |items| :: !SameKey(item, items[i])
    decreases |items|
  {
    Total(item, items[0]);
    if |items| > 1 {
      TailKeyed(items, item);
      assert Less(items[0], items[1]);
      Transitive(item, items[0], items[1]);
      BelowAll(items[1..], item);
      assert forall i | 1 <= i < |items| :: items[i] == items[1..][i - 1];
    }
  }
}
