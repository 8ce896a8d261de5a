/** What the order of sets and mappings means: numbers by value, words by what they stand for, bytes one by one. */
module Increasing {
  import opened Base
  import opened Schemas
  import opened Ordering
  import opened Encoding
  import opened Restricted
  import Modes
  import RoundTrip

  // ---------- the number that a word stands for ----------

  /** The sum of `bytes[i] * 256^i` over the first `n` bytes. */
  function PlaceSum(bytes: seq<u8>, n: nat): nat
    requires n <= |bytes|
  {
    if n == 0 then 0 else PlaceSum(bytes, n - 1) + bytes[n - 1] * Pow256(n - 1)
  }

  /** The number in two's complement: a set top bit of a signed word takes 256^size off. */
  function WordValue(signed: bool, bytes: seq<u8>): int {
    var sum := PlaceSum(bytes, |bytes|);
    if signed && bytes != [] && bytes[|bytes| - 1] / 128 == 1 then sum - Pow256(|bytes|) else sum
  }

  lemma {:induction false} TailSum(bytes: seq<u8>, n: nat)
    requires bytes != [] && n < |bytes|
    ensures PlaceSum(bytes, n + 1) == bytes[0] + 256 * PlaceSum(bytes[1..], n)
    decreases n
  {
    if n > 0 {
      TailSum(bytes, n - 1);
      assert bytes[1..][n - 1] == bytes[n];
      PlaceShift(bytes[n], n);
    } else {
      assert PlaceSum(bytes, 1) == PlaceSum(bytes, 0) + bytes[0] * Pow256(0);
    }
  }

  lemma {:induction false} PlaceShift(digit: nat, n: nat)
    requires n > 0
    ensures digit * Pow256(n) == 256 * (digit * Pow256(n - 1))
  {
    var p := Pow256(n - 1);
    assert Pow256(n) == 256 * p;
    assert digit * (256 * p) == 256 * (digit * p);
  }

  lemma {:induction false} LittleEndianIsSum(bytes: seq<u8>)
    ensures LittleEndian(bytes) == PlaceSum(bytes, |bytes|)
    decreases |bytes|
  {
    if bytes != [] {
      LittleEndianIsSum(bytes[1..]);
      TailSum(bytes, |bytes| - 1);
    }
  }

  lemma {:induction false} WordNumberMeaning(signed: bool, bytes: seq<u8>)
    ensures WordNumber(signed, bytes) == WordValue(signed, bytes)
  {
    LittleEndianIsSum(bytes);
  }

  // ---------- the order of byte strings ----------

  /** The strings first differ where `a` has the smaller byte. */
  ghost predicate SmallerAt(a: seq<u8>, b: seq<u8>, i: nat) {
    i < |a| && i < |b| && a[..i] == b[..i] && a[i] < b[i]
  }

  /** `a` is a proper prefix of `b`, or has the smaller byte where they first differ. */
  ghost predicate BytesBefore(a: seq<u8>, b: seq<u8>) {
    a < b || exists i: nat :: SmallerAt(a, b, i)
  }

  lemma {:induction false} LexMeaning(a: seq<u8>, b: seq<u8>)
    ensures LexLess(a, b) <==> BytesBefore(a, b)
    decreases |a|
  {
    if a != [] && b != [] {
      LexMeaning(a[1..], b[1..]);
      if a[0] < b[0] {
        assert SmallerAt(a, b, 0);
      } else if a[0] == b[0] {
        BeforeTail(a, b);
      } else {
        assert forall i: nat :: SmallerAt(a, b, i) ==> i == 0 || a[..i][0] == b[..i][0];
      }
    }
  }

  lemma {:induction false} BeforeTail(a: seq<u8>, b: seq<u8>)
    requires a != [] && b != [] && a[0] == b[0]
    ensures BytesBefore(a, b) <==> BytesBefore(a[1..], b[1..])
  {
    assert a == [a[0]] + a[1..] && b == [b[0]] + b[1..];
    if a[1..] < b[1..] {
      assert a == b[..|a|] by {
        assert a[1..] == b[1..][..|a| - 1];
        assert b[..|a|] == [b[0]] + b[1..][..|a| - 1];
      }
    }
    if a < b {
      assert b[1..][..|a| - 1] == b[..|a|][1..];
    }
    forall i: nat | SmallerAt(a, b, i) ensures i > 0 && SmallerAt(a[1..], b[1..], i - 1) {
      assert a[1..][..i - 1] == a[..i][1..] && b[1..][..i - 1] == b[..i][1..];
    }
    forall i: nat | SmallerAt(a[1..], b[1..], i) ensures SmallerAt(a, b, i + 1) {
      assert a[..i + 1] == [a[0]] + a[1..][..i] && b[..i + 1] == [b[0]] + b[1..][..i];
    }
  }

  // ---------- the order of items ----------

  /** How two keys of one type come one after the other. */
  ghost predicate KeyBefore(t: Type, a: Value, b: Value) {
    match t
    case Uint(_) => a.Num? && b.Num? && a.n < b.n
    case Bytes => a.Blob? && b.Blob? && BytesBefore(a.bytes, b.bytes)
    case Fixed(_, Raw) => a.Blob? && b.Blob? && BytesBefore(a.bytes, b.bytes)
    case Fixed(_, form) =>
      a.Word? && b.Word? && WordValue(form.Signed?, a.bytes) < WordValue(form.Signed?, b.bytes)
    case _ => false
  }

  /** The items of a set by themselves, the entries of a mapping by their keys. */
  ghost predicate ItemBefore(elem: Type, a: Value, b: Value) {
    if elem.Pair? then a.Entry? && b.Entry? && KeyBefore(elem.key, a.key, b.key) else KeyBefore(elem, a, b)
  }

  ghost predicate StrictlyIncreasing(elem: Type, items: seq<Value>) {
    forall i, j | 0 <= i < j < |items| :: ItemBefore(elem, items[i], items[j])
  }

  /** What a set or a mapping may hold. */
  ghost predicate Member(elem: Type) {
    if elem.Pair? then IsKey(elem.key) else IsKey(elem)
  }

  lemma {:induction false} KeyOrder(sch: Schema, t: Type, a: Value, b: Value)
    requires IsKey(t) && Fits(sch, t, a) && Fits(sch, t, b)
    ensures Less(a, b) <==> KeyBefore(t, a, b)
    ensures Sort(a) == Sort(b) == Modes.SortOf(t) && Ordered(Sort(a)) && !a.Entry?
  {
    if a.Blob? {
      LexMeaning(a.bytes, b.bytes);
    }
    if a.Word? {
      WordNumberMeaning(a.signed, a.bytes);
      WordNumberMeaning(b.signed, b.bytes);
    }
  }

  lemma {:induction false} ItemOrder(sch: Schema, elem: Type, a: Value, b: Value)
    requires Member(elem) && Fits(sch, elem, a) && Fits(sch, elem, b)
    ensures Less(a, b) <==> ItemBefore(elem, a, b)
    ensures Sort(a) == Sort(b) == Modes.SortOf(elem) && Ordered(Sort(a))
  {
    if elem.Pair? {
      KeyOrder(sch, elem.key, a.key, b.key);
    } else {
      KeyOrder(sch, elem, a, b);
    }
  }

  /** Items of one kind that can be ordered. */
  ghost predicate OneKind(items: seq<Value>, kind: Kind) {
    Ordered(kind) && forall i | 0 <= i < |items| :: Sort(items[i]) == kind
  }

  /** In an ascending list every item comes before every later one. */
  lemma {:induction false} AscendingPairs(items: seq<Value>, kind: Kind, i: nat, j: nat)
    requires OneKind(items, kind) && Ascending(items) && i < j < |items|
    ensures Less(items[i], items[j])
    decreases j
  {
    assert Less(items[j - 1], items[j]);
    if i < j - 1 {
      AscendingPairs(items, kind, i, j - 1);
      Transitive(items[i], items[j - 1], items[j]);
    }
  }

  lemma {:induction false} AscendingMeaning(sch: Schema, elem: Type, items: seq<Value>)
    requires Member(elem) && forall i | 0 <= i < |items| :: Fits(sch, elem, items[i])
    ensures Ascending(items) <==> StrictlyIncreasing(elem, items)
    ensures items != [] ==> OneKind(items, Modes.SortOf(elem))
  {
    forall i | 0 <= i < |items| ensures Sort(items[i]) == Modes.SortOf(elem) {
      ItemOrder(sch, elem, items[i], items[i]);
    }
    if items != [] {
      ItemOrder(sch, elem, items[0], items[0]);
    }
    if Ascending(items) {
      forall i, j | 0 <= i < j < |items| ensures ItemBefore(elem, items[i], items[j]) {
        AscendingPairs(items, Modes.SortOf(elem), i, j);
        ItemOrder(sch, elem, items[i], items[j]);
      }
    }
    if StrictlyIncreasing(elem, items) {
      forall i | 0 < i < |items| ensures Less(items[i - 1], items[i]) {
        ItemOrder(sch, elem, items[i - 1], items[i]);
      }
    }
  }

  /** Which values a set or a mapping takes: strictly increasing ones. */
  lemma {:induction false} OrderedMeaning(sch: Schema, kind: ListKind, elem: Type, items: seq<Value>)
    requires (kind.Set? || kind.Mapping?) && Member(elem)
    ensures Fits(sch, List(kind, elem), Items(items))
            <==> (forall i | 0 <= i < |items| :: Fits(sch, elem, items[i])) && StrictlyIncreasing(elem, items)
  {
    if forall i | 0 <= i < |items| :: Fits(sch, elem, items[i]) {
      AscendingMeaning(sch, elem, items);
    }
  }

  /** What a packed set or mapping is decoded to canonically is strictly increasing, and the bytes are the items'. */
  lemma {:induction false} CanonicalItemsIncrease(sch: Schema, kind: ListKind, elem: Type, depth: nat, b: seq<u8>)
    requires (kind.Set? || kind.Mapping?) && Member(elem) && ItemOk(elem, |sch|)
    ensures var r := DecodeItems(sch, kind, elem, Canonical, depth, [], Canonical, b);
            r.Whole? ==> StrictlyIncreasing(elem, r.value) && b == ItemsBytes(sch, elem, r.value)
  {
    var r := DecodeItems(sch, kind, elem, Canonical, depth, [], Canonical, b);
    if r.Whole? {
      RoundTrip.ItemsFaithful(sch, kind, elem, depth, [], b);
      AscendingMeaning(sch, elem, r.value);
      assert ItemsBytes(sch, elem, []) + b == b;
    }
  }

  /** The encodings of items that fit are decoded canonically if and only if the items are strictly increasing. */
  lemma {:induction false} IncreasingItemsDecode(sch: Schema, kind: ListKind, elem: Type, items: seq<Value>,
                                                 depth: nat)
    requires (kind.Set? || kind.Mapping?) && Member(elem) && ItemOk(elem, |sch|)
    requires forall i | 0 <= i < |items| :: Fits(sch, elem, items[i]) && NestsWithin(sch, elem, items[i], depth)
    requires |ItemsBytes(sch, elem, items)| < U64_END
    ensures DecodeItems(sch, kind, elem, Canonical, depth, [], Canonical, ItemsBytes(sch, elem, items))
              == Whole(items, Canonical)
            <==> StrictlyIncreasing(elem, items)
  {
    if StrictlyIncreasing(elem, items) {
      AscendingMeaning(sch, elem, items);
      RoundTrip.ListDecodes(sch, kind, elem, items, Canonical, depth);
    } else {
      CanonicalItemsIncrease(sch, kind, elem, depth, ItemsBytes(sch, elem, items));
    }
  }

  // ---------- one order for one collection of items ----------

  /** Two items that a list holds together have places of their own. */
  lemma {:induction false} TwoPlaces<T>(s: seq<T>, a: T, b: T)
    requires multiset{a, b} <= multiset(s)
    ensures exists i, j | 0 <= i < |s| && 0 <= j < |s| :: i != j && s[i] == a && s[j] == b
  {
    assert a in multiset(s);
    var i :| 0 <= i < |s| && s[i] == a;
    var rest := s[..i] + s[i + 1..];
    WithoutOne(s, i);
    assert b in multiset(rest);
    var j :| 0 <= j < |rest| && rest[j] == b;
    var k := if j < i then j else j + 1;
    assert k != i && s[k] == b;
  }

  lemma {:induction false} WithoutOne<T>(s: seq<T>, i: nat)
    requires i < |s|
    ensures multiset(s) == multiset(s[..i] + s[i + 1..]) + multiset{s[i]}
  {
    assert s == s[..i] + [s[i]] + s[i + 1..];
  }

  /** Items in ascending order have different keys. */
  lemma {:induction false} KeysDiffer(items: seq<Value>, kind: Kind, a: Value, b: Value)
    requires OneKind(items, kind) && Ascending(items) && multiset{a, b} <= multiset(items)
    ensures !SameKey(a, b)
  {
    TwoPlaces(items, a, b);
    var i, j :| 0 <= i < |items| && 0 <= j < |items| && i != j && items[i] == a && items[j] == b;
    if i < j {
      AscendingPairs(items, kind, i, j);
    } else {
      AscendingPairs(items, kind, j, i);
    }
    Total(a, b);
    Total(b, a);
  }

  /** There is only one ascending list of given items. */
  lemma {:induction false} AscendingUnique(a: seq<Value>, b: seq<Value>, kind: Kind)
    requires OneKind(a, kind) && OneKind(b, kind) && Ascending(a) && Ascending(b) && multiset(a) == multiset(b)
    ensures a == b
    decreases |a|
  {
    hide Less, Sort;
    assert |a| == |multiset(a)| == |multiset(b)| == |b|;
    if a != [] {
      assert a[0] == b[0] by {
        FirstIsLeast(a, b, kind);
        FirstIsLeast(b, a, kind);
        Total(a[0], b[0]);
      }
      TailAscends(a, kind);
      TailAscends(b, kind);
      AscendingUnique(a[1..], b[1..], kind);
      assert a == [a[0]] + a[1..] && b == [b[0]] + b[1..];
    }
  }

  lemma {:induction false} TailAscends(items: seq<Value>, kind: Kind)
    requires items != [] && OneKind(items, kind) && Ascending(items)
    ensures OneKind(items[1..], kind) && Ascending(items[1..])
    ensures multiset(items[1..]) == multiset(items) - multiset{items[0]}
  {
    assert items == [items[0]] + items[1..];
    forall i | 0 < i < |items| - 1 ensures Less(items[1..][i - 1], items[1..][i]) {
      assert Less(items[i], items[i + 1]);
    }
  }

  /** The first of an ascending list is not above any item of a list of the same items. */
  lemma {:induction false} FirstIsLeast(a: seq<Value>, b: seq<Value>, kind: Kind)
    requires OneKind(a, kind) && Ascending(a) && a != [] && b != [] && multiset(a) == multiset(b)
    ensures a[0] == b[0] || Less(a[0], b[0])
  {
    assert b[0] in multiset(b);
    assert b[0] in multiset(a);
    var i :| 0 <= i < |a| && a[i] == b[0];
    if i > 0 {
      AscendingPairs(a, kind, 0, i);
    }
  }
}
