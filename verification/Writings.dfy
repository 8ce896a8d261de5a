/**
 * Every way in which a value can be written, not only the canonical one: plain fields that are empty, collections
 * spread over several fields, sets and mappings out of order, and fields that the schema does not know. `Acceptance`
 * shows that these are just the bytes that are decoded.
 */
module Writings {
  import opened Base
  import opened Schemas
  import opened Encoding
  import opened Opaque

  /** One way of writing a value, with the items and the fields that it is decoded to. */
  datatype Writing =
    | Leaf(leaf: Value)
    | PairWriting(key: Writing, val: Writing)
    | ListWriting(written: seq<Writing>, items: seq<Value>)
    | MessageWriting(parts: seq<Part>, slots: seq<Slot>)

  /** A field as it is written: number `k` of the message, spread over one field per item or not, or an unknown one. */
  datatype Part =
    | Plain(k: nat, way: Writing)
    | Spread(k: nat, written: seq<Value>, items: seq<Value>)
    | Unknown(run: seq<OpaqueField>)

  // ---------- what is written ----------

  function Meaning(way: Writing): Value {
    match way
    case Leaf(v) => v
    case PairWriting(key, val) => Entry(Meaning(key), Meaning(val))
    case ListWriting(_, items) => Items(items)
    case MessageWriting(_, slots) => Record(slots)
  }

  function Meanings(ways: seq<Writing>): (vs: seq<Value>)
    ensures |vs| == |ways|
    ensures forall i | 0 <= i < |ways| :: vs[i] == Meaning(ways[i])
  {
    seq(|ways|, i requires 0 <= i < |ways| => Meaning(ways[i]))
  }

  function TagOf(fields: seq<Field>, part: Part): nat {
    match part
    case Plain(k, _) => if k < |fields| then fields[k].tag else 0
    case Spread(k, _, _) => if k < |fields| then fields[k].tag else 0
    case Unknown(run) => if run != [] then run[0].tag else 0
  }

  /** The message's fields: those that are written hold what was written, in place of what they held. */
  function Filled(slots: seq<Slot>, parts: seq<Part>): (r: seq<Slot>)
    ensures |r| == |slots|
    decreases |parts|
  {
    if parts == [] then slots
    else
      match parts[0]
      case Plain(k, way) => Filled(if k < |slots| then slots[k := Holds(Meaning(way))] else slots, parts[1..])
      case Spread(k, _, items) => Filled(if k < |slots| then slots[k := Holds(Items(items))] else slots, parts[1..])
      case Unknown(_) => Filled(slots, parts[1..])
  }

  // ---------- the bytes ----------

  function WritingBytes(sch: Schema, t: Type, way: Writing): seq<u8>
    decreases way
  {
    match (t, way)
    case (Pair(key, val), PairWriting(k, x)) => WritingBytes(sch, key, k) + WritingBytes(sch, val, x)
    case (List(_, elem), ListWriting(written, _)) => Delimited(WritingsBytes(sch, elem, written))
    case (Message(id), MessageWriting(parts, _)) => Delimited(PartsBytes(sch, id, parts, 0))
    case (_, Leaf(v)) => ValueBytes(sch, t, v)
    case _ => []
  }

  function WritingsBytes(sch: Schema, elem: Type, ways: seq<Writing>): seq<u8>
    decreases ways
  {
    if ways == [] then [] else WritingBytes(sch, elem, ways[0]) + WritingsBytes(sch, elem, ways[1..])
  }

  function PartsBytes(sch: Schema, id: nat, parts: seq<Part>, last: nat): seq<u8>
    decreases parts
  {
    if parts == [] || id >= |sch| then []
    else PartBytes(sch, id, parts[0], last) + PartsBytes(sch, id, parts[1..], TagOf(sch[id].fields, parts[0]))
  }

  function PartBytes(sch: Schema, id: nat, part: Part, last: nat): seq<u8>
    requires id < |sch|
    decreases part
  {
    match part
    case Plain(k, way) =>
      if k >= |sch[id].fields| then []
      else
        var f := sch[id].fields[k];
        KeyBytes(f.tag, last, WireTypeOf(f.typ)) + WritingBytes(sch, f.typ, way)
    case Spread(k, written, _) =>
      if k >= |sch[id].fields| || !sch[id].fields[k].typ.List? then []
      else
        var f := sch[id].fields[k];
        KeyBytes(f.tag, last, WireTypeOf(f.typ.elem)) + SpreadBytes(sch, f.typ.elem, f.tag, written)
    case Unknown(run) => ListBytes(run, last)
  }

  /** A value, and behind it each further one with a key that repeats the tag. */
  function SpreadBytes(sch: Schema, elem: Type, tag: nat, written: seq<Value>): seq<u8> {
    if written == [] then []
    else if |written| == 1 then ValueBytes(sch, elem, written[0])
    else
      ValueBytes(sch, elem, written[0])
      + (KeyBytes(tag, tag, WireTypeOf(elem)) + SpreadBytes(sch, elem, tag, written[1..]))
  }

  // ---------- what may be written ----------

  /** The items that a collection keeps of those that are written: all of them, and ordered ones in order. */
  ghost predicate Arranged(kind: ListKind, given: seq<Value>, items: seq<Value>) {
    if kind.Set? || kind.Mapping? then Ascending(items) && multiset(items) == multiset(given)
    else items == given && (kind.Array? ==> |items| == kind.size)
  }

  /**
   * A way of writing a value of type `t` that is accepted with `depth` levels left. A handwritten message without
   * bytes needs none, where it is not to be empty.
   */
  ghost predicate WritingOk(sch: Schema, t: Type, allowEmpty: bool, depth: nat, way: Writing)
    decreases way
  {
    match t
    case Pair(key, val) =>
      way.PairWriting? && WritingOk(sch, key, true, depth, way.key) && WritingOk(sch, val, true, depth, way.val)
    case List(kind, elem) =>
      && way.ListWriting?
      && (forall i | 0 <= i < |way.written| :: WritingOk(sch, elem, true, depth, way.written[i]))
      && Arranged(kind, Meanings(way.written), way.items)
    case Message(id) =>
      && way.MessageWriting? && id < |sch|
      && way.slots == Filled(EmptyRecord(sch, id), way.parts)
      && if depth > 0 then PartsOk(sch, id, depth - 1, way.parts, None)
         else !allowEmpty && sch[id].handwritten && way.parts == []
    case _ => way.Leaf? && Fits(sch, t, way.leaf)
  }

  /** Tags go up from field to field. */
  ghost predicate PartsOk(sch: Schema, id: nat, depth: nat, parts: seq<Part>, last: Option<nat>)
    requires id < |sch|
    decreases parts
  {
    parts != [] ==>
      var tag := TagOf(sch[id].fields, parts[0]);
      && (last.Some? ==> last.value < tag)
      && PartOk(sch, id, depth, parts[0]) && PartsOk(sch, id, depth, parts[1..], Some(tag))
  }

  ghost predicate PartOk(sch: Schema, id: nat, depth: nat, part: Part)
    requires id < |sch|
    decreases part
  {
    var fields := sch[id].fields;
    match part
    case Plain(k, way) => k < |fields| && WritingOk(sch, fields[k].typ, fields[k].optional, depth, way)
    case Spread(k, written, items) =>
      && k < |fields| && !fields[k].optional && fields[k].typ.List? && !fields[k].typ.kind.Mapping?
      && WireTypeOf(fields[k].typ.elem) != LengthDelimited
      && (forall i | 0 <= i < |written| :: Fits(sch, fields[k].typ.elem, written[i]))
      && Arranged(fields[k].typ.kind, written, items)
      && (written == [] ==> fields[k].typ.kind == Array(0))
    case Unknown(run) =>
      && run != []
      && (forall i | 0 <= i < |run| :: run[i].tag == run[0].tag)
      && (forall k | 0 <= k < |fields| :: fields[k].tag != run[0].tag)
  }

  /** Messages are nested at most `depth` deep, as relaxed decoding demands even of those without bytes. */
  ghost predicate WritingNests(sch: Schema, t: Type, depth: nat, way: Writing)
    decreases way
  {
    match (t, way)
    case (Pair(key, val), PairWriting(k, x)) => WritingNests(sch, key, depth, k) && WritingNests(sch, val, depth, x)
    case (List(_, elem), ListWriting(written, _)) =>
      forall i | 0 <= i < |written| :: WritingNests(sch, elem, depth, written[i])
    case (Message(id), MessageWriting(parts, _)) => depth > 0 && PartsNest(sch, id, depth - 1, parts)
    case _ => true
  }

  ghost predicate PartsNest(sch: Schema, id: nat, depth: nat, parts: seq<Part>)
    decreases parts
  {
    forall i | 0 <= i < |parts| :: PartNests(sch, id, depth, parts[i])
  }

  ghost predicate PartNests(sch: Schema, id: nat, depth: nat, part: Part)
    decreases part
  {
    part.Plain? && id < |sch| && part.k < |sch[id].fields| ==>
      WritingNests(sch, sch[id].fields[part.k].typ, depth, part.way)
  }

  // ---------- how canonical it is ----------

  /** Something is written as the encoder never writes it, unknown fields aside. */
  ghost predicate Odd(sch: Schema, t: Type, allowEmpty: bool, way: Writing)
    decreases way
  {
    match (t, way)
    case (Pair(key, val), PairWriting(k, x)) => Odd(sch, key, true, k) || Odd(sch, val, true, x)
    case (List(_, elem), ListWriting(written, items)) =>
      Meanings(written) != items || exists i | 0 <= i < |written| :: Odd(sch, elem, true, written[i])
    case (Message(id), MessageWriting(parts, _)) => (!allowEmpty && parts == []) || PartsOdd(sch, id, parts)
    case _ => false
  }

  ghost predicate PartsOdd(sch: Schema, id: nat, parts: seq<Part>)
    decreases parts
  {
    exists i | 0 <= i < |parts| :: PartOdd(sch, id, parts[i])
  }

  /** A field that is odd itself, that is spread, or that is plain and empty and so should have been left out. */
  ghost predicate PartOdd(sch: Schema, id: nat, part: Part)
    decreases part
  {
    match part
    case Plain(k, way) =>
      id < |sch| && k < |sch[id].fields| &&
      var f := sch[id].fields[k];
      || Odd(sch, f.typ, f.optional, way)
      || (!f.optional && !f.typ.Message? && IsEmpty(sch, f.typ, Meaning(way)))
    case Spread(_, _, _) => true
    case Unknown(_) => false
  }

  /** An unknown field is somewhere in it. */
  ghost predicate Extended(way: Writing)
    decreases way
  {
    match way
    case Leaf(_) => false
    case PairWriting(key, val) => Extended(key) || Extended(val)
    case ListWriting(written, _) => exists i | 0 <= i < |written| :: Extended(written[i])
    case MessageWriting(parts, _) => PartsExtended(parts)
  }

  ghost predicate PartsExtended(parts: seq<Part>)
    decreases parts
  {
    exists i | 0 <= i < |parts| :: PartExtended(parts[i])
  }

  ghost predicate PartExtended(part: Part)
    decreases part
  {
    part.Unknown? || (part.Plain? && Extended(part.way))
  }

  /** Anything odd is not canonical at all; unknown fields by themselves only extend. */
  function Verdict(odd: bool, extended: bool): Canonicity {
    if odd then NotCanonical else if extended then HasExtensions else Canonical
  }

  ghost function WritingCanon(sch: Schema, t: Type, allowEmpty: bool, way: Writing): Canonicity {
    Verdict(Odd(sch, t, allowEmpty, way), Extended(way))
  }

  ghost function PartCanon(sch: Schema, id: nat, part: Part): Canonicity {
    Verdict(PartOdd(sch, id, part), PartExtended(part))
  }

  ghost function PartsCanon(sch: Schema, id: nat, parts: seq<Part>): Canonicity {
    Verdict(PartsOdd(sch, id, parts), PartsExtended(parts))
  }
}
