/** Message schemas, the values that fit them, and which of those values are empty. */
module Schemas {
  import opened Base

  datatype Canonicity = NotCanonical | HasExtensions | Canonical {
    predicate AtLeast(min: Canonicity) {
      match min
      case NotCanonical => true
      case HasExtensions => !NotCanonical?
      case Canonical => Canonical?
    }
  }

  /** `Canonicity::update`: the least canonical of the two. */
  function Worse(a: Canonicity, b: Canonicity): Canonicity {
    if a.AtLeast(b) then b else a
  }

  datatype WireType = Varint | LengthDelimited | ThirtyTwoBit | SixtyFourBit {
    function Code(): nat {
      match this
      case Varint => 0
      case LengthDelimited => 1
      case ThirtyTwoBit => 2
      case SixtyFourBit => 3
    }

    static function FromCode(code: nat): (w: WireType)
      ensures w.Code() == code % 4
    {
      if code % 4 == 0 then Varint
      else if code % 4 == 1 then LengthDelimited
      else if code % 4 == 2 then ThirtyTwoBit
      else SixtyFourBit
    }
  }

  /** Collections: sequences, ordered sets, fixed arrays, and the entries of ordered maps. */
  datatype ListKind = Vec | Set | Array(size: nat) | Mapping

  /** What 4 or 8 fixed bytes are: an array of bytes, or a little-endian number. They only differ in order. */
  datatype Form = Raw | Unsigned | Signed

  /**
   * What a field holds and how it is encoded: varints below a limit (2 for `bool`, 2^32 for `u32`),
   * 4 or 8 byte fixed values, byte strings, packed collections, and messages by their number in the
   * schema. A pair is the item of a mapping.
   */
  datatype Type =
    | Uint(limit: nat)
    | Fixed(size: nat, form: Form)
    | Bytes
    | Pair(key: Type, val: Type)
    | List(kind: ListKind, elem: Type)
    | Message(id: nat)

  datatype Field = Field(tag: nat, optional: bool, typ: Type)

  /** `handwritten` messages use the loops that stand in for derived code; the others use derived code. */
  datatype MessageDef = MessageDef(fields: seq<Field>, handwritten: bool)

  datatype Value =
    | Num(n: nat)
    | Blob(bytes: seq<u8>)
    | Word(signed: bool, bytes: seq<u8>)
    | Entry(key: Value, val: Value)
    | Items(items: seq<Value>)
    | Record(slots: seq<Slot>)

  /** A message's field: `Absent` is the `None` of an optional field. */
  datatype Slot = Absent | Holds(value: Value)

  // ---------- well-formed schemas ----------

  ghost predicate IsKey(t: Type) {
    t.Uint? || t.Fixed? || t.Bytes?
  }

  ghost predicate TypeOk(t: Type, messages: nat) {
    match t
    case Uint(limit) => 0 < limit <= U64_END
    case Fixed(size, _) => size == 4 || size == 8
    case Bytes => true
    case Pair(_, _) => false
    case List(Mapping, elem) => elem.Pair? && IsKey(elem.key) && TypeOk(elem.key, messages)
      && TypeOk(elem.val, messages)
    case List(kind, elem) => TypeOk(elem, messages) && (kind.Set? ==> IsKey(elem))
    case Message(id) => id < messages
  }

  ghost predicate ItemOk(t: Type, messages: nat) {
    TypeOk(t, messages) || (t.Pair? && IsKey(t.key) && TypeOk(t.key, messages) && TypeOk(t.val, messages))
  }

  /** One more than the greatest message that a value of this type holds in place, and not behind an indirection. */
  function InPlace(t: Type): nat {
    match t
    case Message(id) => id + 1
    case List(Array(_), elem) => InPlace(elem)
    case _ => 0
  }

  ghost predicate DefOk(def: MessageDef, id: nat, messages: nat) {
    && (forall k | 0 <= k < |def.fields| :: def.fields[k].tag < U32_END && TypeOk(def.fields[k].typ, messages))
    && (forall k | 0 <= k < |def.fields| :: !def.fields[k].optional ==> InPlace(def.fields[k].typ) <= id)
    && (forall j, k | 0 <= j < k < |def.fields| :: def.fields[j].tag < def.fields[k].tag)
  }

  ghost predicate SchemaOk(sch: seq<MessageDef>) {
    forall i | 0 <= i < |sch| :: DefOk(sch[i], i, |sch|)
  }

  /** Messages may recurse freely through options, collections and maps; only in-place nesting is well-founded. */
  type Schema = sch: seq<MessageDef> | SchemaOk(sch) witness []

  // ---------- order ----------

  predicate LexLess(a: seq<u8>, b: seq<u8>) {
    if b == [] then false
    else if a == [] then true
    else a[0] < b[0] || (a[0] == b[0] && LexLess(a[1..], b[1..]))
  }

  function FixedOf(form: Form, bs: seq<u8>): (v: Value)
    ensures (v.Blob? || v.Word?) && v.bytes == bs
  {
    match form
    case Raw => Blob(bs)
    case Unsigned => Word(false, bs)
    case Signed => Word(true, bs)
  }

  function LittleEndian(bs: seq<u8>): nat {
    if bs == [] then 0 else bs[0] + 256 * LittleEndian(bs[1..])
  }

  function Pow256(n: nat): nat {
    if n == 0 then 1 else 256 * Pow256(n - 1)
  }

  /** The number that little-endian bytes stand for, in two's complement if it is signed. */
  function WordNumber(signed: bool, bs: seq<u8>): int {
    if signed && bs != [] && bs[|bs| - 1] >= 0x80 then LittleEndian(bs) - Pow256(|bs|) else LittleEndian(bs)
  }

  /** The order of keys and items; entries are ordered by their keys. */
  predicate Less(a: Value, b: Value) {
    match (a, b)
    case (Num(m), Num(n)) => m < n
    case (Blob(s), Blob(t)) => LexLess(s, t)
    case (Word(s, a), Word(t, b)) => s == t && |a| == |b| && WordNumber(s, a) < WordNumber(t, b)
    case (Entry(j, _), Entry(k, _)) => Less(j, k)
    case _ => false
  }

  predicate SameKey(a: Value, b: Value) {
    if a.Entry? && b.Entry? then a.key == b.key else a == b
  }

  ghost predicate Ascending(items: seq<Value>) {
    forall i | 0 < i < |items| :: Less(items[i - 1], items[i])
  }

  // ---------- values of a type ----------

  ghost predicate Fits(sch: Schema, t: Type, v: Value)
    decreases v
  {
    match t
    case Uint(limit) => v.Num? && v.n < limit
    case Fixed(size, form) => (v.Blob? || v.Word?) && v == FixedOf(form, v.bytes) && |v.bytes| == size
    case Bytes => v.Blob?
    case Pair(key, val) => v.Entry? && Fits(sch, key, v.key) && Fits(sch, val, v.val)
    case List(kind, elem) =>
      && v.Items?
      && (forall i | 0 <= i < |v.items| :: Fits(sch, elem, v.items[i]))
      && (kind.Array? ==> |v.items| == kind.size)
      && (kind.Set? || kind.Mapping? ==> Ascending(v.items))
    case Message(id) => v.Record? && RecordFits(sch, id, v.slots)
  }

  ghost predicate RecordFits(sch: Schema, id: nat, slots: seq<Slot>)
    decreases slots
  {
    && id < |sch| && |slots| == |sch[id].fields|
    && forall k | 0 <= k < |slots| :: SlotFits(sch, sch[id].fields[k], slots[k])
  }

  ghost predicate SlotFits(sch: Schema, f: Field, s: Slot)
    decreases s
  {
    if s.Absent? then f.optional else Fits(sch, f.typ, s.value)
  }

  // ---------- emptiness ----------

  predicate AllZero(bs: seq<u8>) {
    forall i | 0 <= i < |bs| :: bs[i] == 0
  }

  /** `EmptyState::is_empty` for a value that is a field by itself. */
  predicate IsEmpty(sch: Schema, t: Type, v: Value)
    decreases v
  {
    match (t, v)
    case (Uint(_), Num(n)) => n == 0
    case (Fixed(_, _), Blob(bs)) => AllZero(bs)
    case (Fixed(_, _), Word(_, bs)) => AllZero(bs)
    case (Bytes, Blob(bs)) => bs == []
    case (List(kind, elem), Items(items)) =>
      if kind.Array? then forall i | 0 <= i < |items| :: IsEmpty(sch, elem, items[i]) else items == []
    case (Message(id), Record(slots)) => RecordEmpty(sch, id, slots)
    case _ => false
  }

  predicate RecordEmpty(sch: Schema, id: nat, slots: seq<Slot>)
    decreases slots
  {
    && id < |sch| && |slots| == |sch[id].fields|
    && forall k | 0 <= k < |slots| :: SlotEmpty(sch, sch[id].fields[k], slots[k])
  }

  predicate SlotEmpty(sch: Schema, f: Field, s: Slot)
    decreases s
  {
    if f.optional then s.Absent? else s.Holds? && IsEmpty(sch, f.typ, s.value)
  }

  /** `EmptyState::empty`. */
  function EmptyValue(sch: Schema, t: Type): (v: Value)
    requires TypeOk(t, |sch|)
    decreases InPlace(t), 0, t
  {
    match t
    case Uint(_) => Num(0)
    case Fixed(size, form) => FixedOf(form, seq(size, _ => 0))
    case Bytes => Blob([])
    case Pair(_, _) => Num(0)
    case List(kind, elem) =>
      if kind.Array? then
        var item := EmptyValue(sch, elem);
        Items(seq(kind.size, _ => item))
      else Items([])
    case Message(id) => Record(EmptySlots(sch, id, |sch[id].fields|))
  }

  /** The first `n` fields of an empty message. */
  function EmptySlots(sch: Schema, id: nat, n: nat): (slots: seq<Slot>)
    requires id < |sch| && n <= |sch[id].fields|
    ensures |slots| == n
    ensures forall k | 0 <= k < n :: slots[k] == EmptySlot(sch, id, k)
    decreases id, 2, n
  {
    if n == 0 then [] else EmptySlots(sch, id, n - 1) + [EmptySlot(sch, id, n - 1)]
  }

  function EmptySlot(sch: Schema, id: nat, k: nat): (slot: Slot)
    requires id < |sch| && k < |sch[id].fields|
    decreases id, 1, k
  {
    assert DefOk(sch[id], id, |sch|);
    if sch[id].fields[k].optional then Absent else Holds(EmptyValue(sch, sch[id].fields[k].typ))
  }

  function EmptyRecord(sch: Schema, id: nat): (slots: seq<Slot>)
    requires id < |sch|
    ensures |slots| == |sch[id].fields|
    ensures forall k | 0 <= k < |slots| :: slots[k] == EmptySlot(sch, id, k)
  {
    EmptySlots(sch, id, |sch[id].fields|)
  }

  // ---------- the empty state is one value ----------

  lemma {:induction false} EmptyUnique(sch: Schema, t: Type, v: Value)
    requires TypeOk(t, |sch|) && Fits(sch, t, v) && IsEmpty(sch, t, v)
    ensures v == EmptyValue(sch, t)
    decreases v
  {
    match t {
      case List(kind, elem) =>
        if kind.Array? {
          forall i | 0 <= i < |v.items| ensures v.items[i] == EmptyValue(sch, elem) {
            EmptyUnique(sch, elem, v.items[i]);
          }
        }
      case Message(id) =>
        EmptyRecordUnique(sch, id, v.slots);
      case _ =>
    }
  }

  lemma {:induction false} EmptyRecordUnique(sch: Schema, id: nat, slots: seq<Slot>)
    requires RecordFits(sch, id, slots) && RecordEmpty(sch, id, slots)
    ensures slots == EmptyRecord(sch, id)
    decreases slots
  {
    forall k | 0 <= k < |slots| ensures slots[k] == EmptySlot(sch, id, k) {
      assert DefOk(sch[id], id, |sch|);
      assert SlotFits(sch, sch[id].fields[k], slots[k]) && SlotEmpty(sch, sch[id].fields[k], slots[k]);
      if !sch[id].fields[k].optional {
        assert slots[k].value < slots[k];
        EmptyUnique(sch, sch[id].fields[k].typ, slots[k].value);
      }
    }
  }

  lemma {:induction false} EmptyIsEmpty(sch: Schema, t: Type)
    requires TypeOk(t, |sch|)
    ensures Fits(sch, t, EmptyValue(sch, t)) && (t.Pair? || IsEmpty(sch, t, EmptyValue(sch, t)))
    decreases InPlace(t), 0, t
  {
    match t {
      case List(kind, elem) =>
        if kind.Array? {
          EmptyIsEmpty(sch, elem);
        }
      case Message(id) =>
        forall k | 0 <= k < |sch[id].fields| {
          EmptySlotIsEmpty(sch, id, k);
        }
      case _ =>
    }
  }

  lemma {:induction false} EmptySlotIsEmpty(sch: Schema, id: nat, k: nat)
    requires id < |sch| && k < |sch[id].fields|
    ensures SlotFits(sch, sch[id].fields[k], EmptySlot(sch, id, k))
    ensures SlotEmpty(sch, sch[id].fields[k], EmptySlot(sch, id, k))
    decreases id, 1, k
  {
    assert DefOk(sch[id], id, |sch|);
    if !sch[id].fields[k].optional {
      EmptyIsEmpty(sch, sch[id].fields[k].typ);
    }
  }

  lemma {:induction false} EmptyRecordIsEmpty(sch: Schema, id: nat)
    requires id < |sch|
    ensures RecordFits(sch, id, EmptyRecord(sch, id)) && RecordEmpty(sch, id, EmptyRecord(sch, id))
  {
    forall k | 0 <= k < |sch[id].fields| {
      EmptySlotIsEmpty(sch, id, k);
    }
  }

  /** A message that fits is empty exactly when it is the one empty message. */
  lemma {:induction false} EmptyMeansDefault(sch: Schema, id: nat, slots: seq<Slot>)
    requires RecordFits(sch, id, slots)
    ensures RecordEmpty(sch, id, slots) <==> slots == EmptyRecord(sch, id)
  {
    EmptyRecordIsEmpty(sch, id);
    if RecordEmpty(sch, id, slots) {
      EmptyRecordUnique(sch, id, slots);
    }
  }
}
