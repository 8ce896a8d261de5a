# Bilrost, proved

A model of three parts of Bilrost and of what they promise.

- **The wire codec.** Bijective base-128 varints, field keys as distances between tags, forward and
  backward encoders, a separate pass that measures lengths, and relaxed, distinguished, restricted and
  canonical decoding over soft-capped views of one shared buffer. Messages are driven by a schema:
  varints below a limit, 4 and 8 byte values, byte strings, packed sequences, sets, arrays and mappings,
  options, and nested messages, which may be recursive. Opaque messages keep any field.
- **`ReverseBuffer`.** The chunked, prepend-only buffer that the backward encoder writes into.
- **Calendar arithmetic.** Timestamps to dates and back over all 64-bit seconds, RFC 3339 text, and
  normalization of durations and timestamps.

The first two share one notion: the byte sequence that a buffer stands for (`Cursor.Bytes`,
`ReverseBuffer.Contents`).

How it is laid out: `Varint`, `Encoding`, `Wire`, `Relaxed` and `Restricted` say what bytes mean, on values
and on regions that stand by themselves. `VarintCodec`, `VarintPrepend`, `Encoder`, `Capped`,
`RelaxedDecoder`, `DistinguishedDecoder`, `Opaque` and `Messages` hold the code as it runs, with buffers
that are advanced and written in place, each method tied to that meaning. `Writings` lists every way in which a
message can be written, without reference to any decoder: in canonical form, with empty fields, with collections
spread over several fields, with sets out of order, with unknown fields. `Acceptance` and `Accepted` show that these
are exactly what is decoded, with the value and the canonicity that they have; `Choices` and `Extensions` say
what that means to a reader, `Increasing` what the order of sets is, and `Format` what the bytes are.
`RoundTrip`, `Modes`, `Limits`, `Unknown` and `Unread` relate whole encodings and decoding modes.
`ReverseBuffer` and `BufferRuns` are the buffer; `Calendar`, `DateTimes`, `Text`, `TextLayout`, `Normalize` and
`Machine` are the calendar, on machine integers whose every step is within range.

Where code and documentation part, the model follows the code:

- An array of no elements that is met unpacked does not read its value: the value is taken for the next
  key (src/encoding/unpacked.rs:92-122). `UnreadArrays.TransparentExactly` says which messages that reaches;
  unknown fields are transparent to all others.
- A plain message that is there and holds nothing but unknown fields is empty, and yet it is taken for an extension
  and not for data that is not canonical at all (src/encoding/message.rs:405-410, README.md:2477-2479).
  `Extensions.PresentButEmpty` says that nothing else is.
- At the recursion limit, handwritten messages accept an empty region in distinguished mode but not in
  relaxed mode (src/encoding/underived.rs:91-92, src/encoding/underived.rs:172-177).
  `RecursionLimits.AgreeExactly` says over which messages the modes part, limit by limit.
- A failed replacement empties the message, but a length in front that cannot be read leaves it as it
  was (src/message.rs:948-954).
- An exact plan of nothing on a buffer without capacity stops `prepend_u8` (src/buf.rs:324-332), until another
  operation ends the plan. `BufferRuns.RunOps` says exactly when.
- A duration with the least number of seconds prints two minus signs, and one that is not canonical may
  print a sign that its normal form does not have (bilrost-types/src/lib.rs:143-149).
- The correction for a 25th group of four years (bilrost-types/src/datetime.rs:139-142) is never needed
  for days within a century; `DateTimes.SplitCentury` says so, and keeps it, on a range one day longer.

## Model

| member | source | states |
|---|---|---|
| `Varint.EncodeIsVarint` | src/encoding/mod.rs:189-275 | every 64-bit value is encoded as a valid varint that stands for it |
| `Varint.EncodeUnique` | src/encoding/mod.rs:189-275 | no other valid varint stands for the same value |
| `Varint.DecodeEncoded` | src/encoding/mod.rs:427-484 | an encoded value is decoded back, whatever bytes follow |
| `Varint.DecodedIsEncoding` | src/encoding/mod.rs:427-484 | whenever a read succeeds, the bytes it took are exactly the encoding of its result |
| `Varint.DecodeMeaning` | src/encoding/mod.rs:427-484 | when a read succeeds, runs out of bytes or overflows, in terms of the valid varints |
| `Varint.DecodeExtended` | src/encoding/mod.rs:387-410 | a read that fails inside a region fails in any longer buffer or runs past the region |
| `Varint.EncodedLenIsLength` | src/encoding/mod.rs:713-739 | the branch tree over the limits gives the number of bytes written |
| `VarintCodec.EncodeVarintLoop` | src/encoding/mod.rs:260-270 | the loop writes the encoding |
| `VarintCodec.EncodeVarintUnrolled` | src/encoding/mod.rs:211-250 | the unrolled writer writes the same bytes |
| `VarintCodec.ConstVarint` | src/encoding/mod.rs:366-382 | the constant form lays out the same bytes |
| `VarintPrepend.PrependVarintLoop` | src/encoding/mod.rs:332-349 | the looping backward writer puts the same bytes in front |
| `VarintPrepend.PrependVarintUnrolled` | src/encoding/mod.rs:281-321 | so does the unrolled backward writer |
| `VarintCodec.DecodeVarintSlice` | src/encoding/mod.rs:427-484 | the fast path on a slice, with its split sums and its overflow test on the last byte, reads what the definition reads |
| `VarintCodec.DecodeVarintSlow` | src/encoding/mod.rs:552-578 | the byte-by-byte path gives the same value, error and number of bytes taken |
| `VarintCodec.DecodeVarint` | src/encoding/mod.rs:387-410 | so the result and the bytes left depend on the bytes alone, and not on how they lie in chunks |
| `VarintCodec.FirstChunkDecides` | src/encoding/mod.rs:387-410 | a first chunk that holds a whole varint decides the read whatever follows it |
| `Encoding.KeyLength` | src/encoding/mod.rs:865-877 | a wire type never changes the length of a key |
| `Encoding.TrivialKeys` | src/encoding/mod.rs:893-904 | over ascending tags below 32 both measurers agree |
| `Encoding.FixedSizeIsLength` | src/encoding/map.rs:27-32 | values of a type with a constant size all have that size |
| `Encoding.FixedItemsLength` | src/encoding/encoding_traits.rs:97-107 | the multiplication that replaces measuring each item is right |
| `Format.KeyOnWire` | src/encoding/mod.rs:793-799 | a key is the varint of four times the distance between tags plus 0, 1, 2 or 3 for the wire type |
| `Format.ValueOnWire` | src/encoding/fixed.rs:51-62 | what is on the wire for a value of each type: a varint that stands for the number, the bytes of a word, a varint of the length in front of bytes, items or fields, a key in front of its value |
| `Format.EmptyIsNothing` | README.md:2509-2526 | which values are empty: zero, zero bytes, no bytes, no items, arrays and messages of such |
| `Format.NoBytesHoldNothing` | README.md:2528-2530 | no bytes are the message whose every field is empty, in every mode, and canonically so |
| `Encoder.TagWriter.EncodeKey` | src/encoding/mod.rs:793-799 | writes the key as a distance from the last tag and remembers the tag |
| `Encoder.TagRevWriter.BeginField` | src/encoding/mod.rs:821-834 | writes the pending key of the field behind, relative to this field's tag, and makes this field's key pending |
| `Encoder.TagRevWriter.Finalize` | src/encoding/mod.rs:838-844 | writes the first field's key |
| `Encoder.RuntimeTagMeasurer.KeyLen` | src/encoding/mod.rs:869-876 | measures a key, for any wire type |
| `Encoder.MeasureValue` | src/encoding/message.rs:370-373 | the measured length is the length of the bytes |
| `Encoder.MeasureItems` | src/encoding/map.rs:34-55 | the same for a collection, with the shortcut for fixed sizes |
| `Encoder.MeasureFields` | src/encoding/underived.rs:64-68 | the same for a message, over the fields that are not empty |
| `Encoder.EncodeValue` | src/encoding/message.rs:357-360 | the forward encoder appends the value's bytes, lengths measured first |
| `Encoder.EncodeItems` | src/encoding/packed.rs:31-39 | the same for the items of a collection |
| `Encoder.EncodeFields` | src/encoding/underived.rs:17-24 | the same for the fields of a message, empty ones left out |
| `Encoder.PrependValue` | src/encoding/packed.rs:42-48 | the one-pass backward encoder puts exactly the same bytes in front |
| `Encoder.PrependPair` | src/encoding/map.rs:74-79 | an entry of a mapping, value first, makes the same bytes |
| `Encoder.PrependItems` | src/encoding/packed.rs:42-48 | the items from last to first make the same bytes |
| `Encoder.PrependField` | src/encoding/encoding_traits.rs:249-257 | a field's value and the key of the field behind it |
| `Encoder.PrependFields` | src/encoding/underived.rs:43-47 | the fields from last to first, with keys written late, make the same bytes |
| `Encoder.PrependMessage` | src/encoding/message.rs:363-367 | a nested message with its length filled in afterwards makes the same bytes |
| `ReverseBuffers.ReverseBuffer.constructor` | src/buf.rs:205-215 | a new buffer is empty and allocates nothing |
| `ReverseBuffers.ReverseBuffer.WithCapacity` | src/buf.rs:219-232 | one chunk of the wanted size, kept when drained |
| `ReverseBuffers.ReverseBuffer.FromBox` | src/buf.rs:797-817 | takes over a full, non-empty box |
| `ReverseBuffers.ReverseBuffer.Clear` | src/buf.rs:252-261 | empties the buffer, keeps the back chunk if it is to be kept, and drops the plan |
| `ReverseBuffers.ReverseBuffer.PlanReservation` | src/buf.rs:304-313 | the free front and the plan have room for what is planned, and contents stay |
| `ReverseBuffers.ReverseBuffer.PlanReservationExact` | src/buf.rs:324-330 | the same with an exact size, never below the current capacity |
| `ReverseBuffers.ReverseBuffer.Grow` | src/buf.rs:386-393 | adds one chunk of the planned size in front, at least as long as all chunks behind it |
| `ReverseBuffers.ReverseBuffer.PrependSlice` | src/buf.rs:640-677 | bytes in front, nothing else disturbed, at most one new chunk and none if they fit |
| `ReverseBuffers.ReverseBuffer.GrowAndCopySlice` | src/buf.rs:445-500 | the split between the free front and one new chunk |
| `ReverseBuffers.ReverseBuffer.Prepend` | src/buf.rs:594-631 | the same for any reader, which is drained |
| `ReverseBuffers.ReverseBuffer.GrowAndCopyBuf` | src/buf.rs:397-441 | the split between a new chunk and the free front, straight from the reader |
| `ReverseBuffers.ReverseBuffer.PrependU8` | src/buf.rs:709-723 | the same for one byte |
| `ReverseBuffers.CopyBuf` | src/buf.rs:554-563 | fills part of a chunk from a reader piece by piece |
| `ReverseBuffers.ReverseBuffer.Advance` | src/buf.rs:759-788 | reading drops bytes from the front and the chunks that are used up |
| `ReverseBuffers.ReverseBuffer.Contiguous` | src/buf.rs:271-277 | yields the whole contents exactly when there is at most one chunk |
| `ReverseBuffers.ReverseBuffer.IntoVec` | src/buf.rs:280-299 | one vector of the same bytes |
| `ReverseBuffers.ReverseBuffer.Slices` | src/buf.rs:519-522 | the slices, joined, are the same bytes |
| `ReverseBuffers.ReverseBuffer.BufReader` | src/buf.rs:504-510 | a reader over the same bytes that leaves the buffer alone |
| `ReverseBuffers.ReverseBufferReader.Advance` | src/buf.rs:897-919 | reading through it drops bytes from its front |
| `ReverseBuffers.DoublingBound` | src/buf.rs:364-373 | chunks that double bound their own number by the logarithm of the capacity |
| `BufferRuns.RunOps` | src/buf.rs:592-788 | over every run of prepends, advances, clears and plans the contents are those of the same run on a plain byte sequence, with at most 1 + log2(capacity) chunks; a run stops exactly at the first single byte that is prepended while an exact plan of nothing is pending, which the operations and the plain bytes decide |
| `BufferRuns.PrependReserved` | src/buf.rs:304-330 | after a plan for n bytes, any prepends of at most n bytes in all add at most one chunk |
| `BufferRuns.StuckAfterEmptyExactPlan` | src/buf.rs:324-330 | the shortest run that gets stuck: an exact plan of nothing for a new buffer, then a byte |
| `ReverseBuffers.ReverseBuffer.UnallocatedIfEmpty` | src/buf.rs:236-243 | a buffer owns no memory exactly when it stands for no bytes and keeps no chunk |
| `Schemas.EmptyMeansDefault` | src/encoding/macros.rs:520-590 | a message that fits its schema is empty exactly when it is the one empty message |
| `Ordering.Total` | README.md:2465-2475 | keys of one kind are totally ordered; `Increasing` says how |
| `Ordering.WordUnique` | src/encoding/fixed.rs:51-62 | fixed-width numbers of one size, signed or not, are equal only if their bytes are |
| `Ordering.InsertMeaning` | src/encoding/type_support/core_and_alloc.rs:237-242 | insertion keeps the order, adds exactly the item, and fails exactly on an equal key |
| `Ordering.InsertAtEnd` | src/encoding/type_support/core_and_alloc.rs:250-270 | an item above the last is appended |
| `Increasing.WordNumberMeaning` | README.md:2539 | fixed-width numbers are ordered by the sum of their bytes times powers of 256, in two's complement if signed |
| `Increasing.LexMeaning` | README.md:2540 | byte strings are ordered by the first byte where they differ, prefixes first |
| `Increasing.KeyOrder` | README.md:2532-2540 | so the order of keys is that of numbers and of byte strings |
| `Increasing.OrderedMeaning` | README.md:2462-2475 | a set or mapping may hold just the items, or entries, that strictly increase from each to every later one |
| `Increasing.CanonicalItemsIncrease` | src/encoding/type_support/core_and_alloc.rs:250-270 | whatever a packed set or mapping is decoded to canonically is strictly increasing, and its bytes are the items' |
| `Increasing.IncreasingItemsDecode` | src/encoding/type_support/core_and_alloc.rs:250-270 | the bytes of items are decoded canonically, to these items, if and only if they are strictly increasing |
| `Format.DecodedSetsIncrease` | README.md:2462-2475 | every set or mapping in a decoded message is strictly increasing, however it was written |
| `CappedBuffers.VarintIsolated` | src/encoding/mod.rs:1017-1027 | a greedy varint read agrees with reading the region before the cap, or has failed or passed the cap |
| `CappedBuffers.ErrorIsolated` | src/encoding/mod.rs:1017-1027 | an invalid varint is reported as truncated exactly when it goes past the cap, which is what the region by itself is |
| `CappedBuffers.RegionIsolated` | src/encoding/mod.rs:987-1003 | the same for a length and its region |
| `CappedBuffers.Capped.DecodeVarint` | src/encoding/mod.rs:1017-1027 | the read itself, in place, and a failed one reports what the region by itself would |
| `CappedBuffers.Capped.TakeLengthDelimited` | src/encoding/mod.rs:987-1003 | succeeds exactly when the region before the cap holds a whole delimited region, and caps just that; otherwise reports an invalid varint exactly when the bytes start with one, cap or no cap, and truncation in all other cases |
| `CappedBuffers.Capped.HasRemaining` | src/encoding/mod.rs:1043-1049 | tells more, none, or past the cap |
| `CappedBuffers.Capped.PeekRepeatedField` | src/encoding/mod.rs:1107-1120 | takes the next key exactly when it repeats the tag |
| `CappedBuffers.Capped.SkipField` | src/encoding/mod.rs:1125-1152 | skips what would be skipped of the region by itself |
| `RelaxedDecoder.TagReader.DecodeKey` | src/encoding/mod.rs:918-931 | reads the key that the region by itself starts with |
| `RelaxedDecoder.DecodeLeaf` | src/encoding/fixed.rs:51-62 | numbers, fixed-size values and byte strings, over a cap |
| `RelaxedDecoder.DecodeValue` | src/encoding/encoding_traits.rs:112-119 | relaxed decoding of a value over a soft cap is relaxed decoding of the region cut out |
| `RelaxedDecoder.DecodeItems` | src/encoding/packed.rs:238-262 | packed collections and mappings, with the check that fixed sizes divide the region |
| `RelaxedDecoder.DecodeArray` | src/encoding/packed.rs:385-421 | fixed arrays, with the check that replaces looking for remaining bytes |
| `RelaxedDecoder.DecodeUnpacked` | src/encoding/unpacked.rs:39-122 | over a cap reads what the region by itself holds, which `Acceptance.SpreadDecodes` and `Accepted.ReadSpread` spell out |
| `RelaxedDecoder.DecodeMessage` | src/encoding/message.rs:381-388 | nested messages, at the recursion limit too |
| `RelaxedDecoder.Merge` | src/encoding/message.rs:23-37 | the field loop up to its cap decodes exactly the region before it, and leaves exactly the bytes behind it |
| `RelaxedDecoder.RawDecodeField` | src/encoding/underived.rs:99-116 | over a cap reads the field that the region by itself starts with, which `Accepted.RelaxedExactly` spells out |
| `DistinguishedDecoder.Check` | src/encoding/mod.rs:701-707 | tolerates what is at least as canonical as the limit, and says how anything else falls short |
| `DistinguishedDecoder.DecodeValue` | src/encoding/encoding_traits.rs:123-139 | distinguished decoding over a soft cap is distinguished decoding of the region cut out, with the same canonicity |
| `DistinguishedDecoder.DecodeItems` | src/encoding/packed.rs:276-303 | over a cap gives the items and the canonicity of the region by itself, which `Acceptance.WritingsDecode` spells out |
| `DistinguishedDecoder.DecodeArray` | src/encoding/packed.rs:432-476 | fixed arrays |
| `DistinguishedDecoder.DecodeMessage` | src/encoding/message.rs:398-412 | nested messages, where an empty region stands for an empty message |
| `DistinguishedDecoder.Merge` | src/encoding/message.rs:42-68 | the field loop and the canonicity it adds up |
| `DistinguishedDecoder.DecodeField` | src/encoding/macros.rs:649-670 | a field that is there but empty is not canonical; unpacked fields are not either |
| `Acceptance.WritingsDecode` | src/encoding/packed.rs:276-303 | items are decoded to themselves, put in order if the collection is ordered; they are not canonical exactly if one of them is not or their order was another |
| `Acceptance.SpreadDecodes` | src/encoding/unpacked.rs:37-64 | a value, and behind it keys that repeat the tag with more values, are decoded to all of these items, put in order for sets |
| `Accepted.ReadSpread` | src/encoding/unpacked.rs:37-122 | and whatever is decoded from several fields is such a run, of the right number of items for an array |
| `Acceptance.SkipRunThen` | src/encoding/mod.rs:1125-1152 | an unknown field is skipped with all that repeat its tag, whatever comes behind them |
| `Acceptance.PartsDecode` | src/encoding/message.rs:42-68 | fields written in any of these ways are decoded, in both modes, with just the canonicity that they have |
| `Accepted.ReadParts` | src/encoding/message.rs:42-68 | and whatever the field loop accepts is fields written in one of these ways |
| `Accepted.DistinguishedExactly` | src/message.rs:926-938 | decoding restricted to any level accepts b as a message, that canonical, if and only if b is a way of writing it that is just that canonical and at least of that level |
| `Accepted.RelaxedExactly` | src/encoding/message.rs:23-37 | relaxed decoding accepts b as a message if and only if b is a way of writing it that nests within the limit |
| `Choices.ChosenDecodes` | README.md:2452-2479 | a message is decoded to itself with any of its empty fields written out and any of its collections spread over fields, sets in any order; it is canonical exactly if nothing of that was chosen |
| `Choices.EncodedDecodesRelaxed` | src/message.rs:793-797 | relaxed decoding gives every encoded message back |
| `Extensions.DecodedFits` | README.md:2465-2475 | whatever is decoded, at any level, fits its schema and nests within the limit |
| `Extensions.StrippedWrites` | src/encoding/mod.rs:1161-1168 | deleting the unknown fields at every level, with lengths written anew, leaves a way of writing the same message, no longer than before and no less canonical |
| `Extensions.ExtendedMeaning` | src/encoding/mod.rs:1161-1168 | a message is at least extended exactly if without its unknown fields, at every level, it is the canonical encoding, and canonical exactly if it had none besides |
| `Extensions.ExtensionsExactly` | src/message.rs:926-938 | decoding restricted to extended data accepts just the encodings to which unknown fields have been added, at any level |
| `Extensions.NoUnknownsNoExtensions` | src/encoding/mod.rs:1161-1168 | without unknown fields nothing is extended, and only the encodings are accepted at that level |
| `Extensions.PresentButEmpty` | src/encoding/message.rs:405-410 | a plain field that is there although it is empty is not canonical, unless it is a message of nothing but unknown fields |
| `Extensions.OnlyUnknownsExample` | src/encoding/message.rs:405-410 | such a message: extended with its unknown field, not canonical once that is deleted, canonical once the field is left out |
| `RoundTrip.ValueDecodes` | src/encoding/packed.rs:276-303 | every encoded value is decoded to itself, canonically, in every mode |
| `RoundTrip.ValueFaithful` | src/encoding/map.rs:156-194 | whatever is decoded canonically fits its type and is the encoding of its value |
| `RoundTrip.FieldsDecode` | src/encoding/underived.rs:172-212 | the same for all fields of a message |
| `RoundTrip.FieldsFaithful` | src/encoding/underived.rs:172-212 | the same for all fields of a message |
| `RoundTrip.ReadKeyBytes` | src/encoding/mod.rs:918-931 | a written key is read back as its tag and wire type |
| `RoundTrip.KeyIsKeyBytes` | src/encoding/mod.rs:918-931 | whatever key is read is the bytes written for it |
| `Modes.ValueFilter` | src/encoding/mod.rs:701-707 | stopping early is a filter on values |
| `Modes.FieldsFilter` | src/encoding/message.rs:42-68 | and on messages |
| `Modes.ValueMatches` | src/encoding/message.rs:398-412 | what relaxed decoding accepts of a value, distinguished decoding accepts with the same result, and the other way around where the modes cannot part at that depth |
| `Modes.FieldsMatch` | src/encoding/underived.rs:172-212 | the same for a message |
| `Modes.FieldsFollow` | src/encoding/underived.rs:172-212 | relaxed decoding with one level more accepts what distinguished decoding does, with the same value |
| `RecursionLimits.Sandwich` | src/encoding/message.rs:398-412 | for every schema and limit, distinguished decoding lies between relaxed decoding with that limit and with one more |
| `RecursionLimits.AgreeUnless` | src/encoding/underived.rs:172-177 | for every schema, message and limit the modes agree on all bytes unless a place is found where they can part |
| `RecursionLimits.AgreeExactly` | src/encoding/underived.rs:172-177 | for each message and each limit there are bytes on which the modes part if and only if some path of fields, items and mapping values leads to a handwritten message that must not be empty, right at the limit |
| `RecursionLimits.WholeMessagesAgree` | src/encoding/mod.rs:601-603 | the same for whole messages at the library's own limit |
| `RecursionLimits.AgreeWithEveryLimit` | src/encoding/underived.rs:172-177 | over all messages, limits and bytes the modes agree if and only if no field holds a handwritten message in place |
| `RecursionLimits.OneLevelAgrees` | src/encoding/underived.rs:172-177 | a schema that holds one in place, and yet the modes agree on all whole messages of it |
| `RecursionLimits.NestedParts` | src/encoding/message.rs:398-412 | where they part, they part one level higher up around the same bytes |
| `RecursionLimits.MessagesPart` | src/encoding/underived.rs:91-92 | a whole message on which they part at the library's own limit: a hundred messages around an empty handwritten one |
| `Messages.CanonicalBijection` | README.md:270-278 | canonical decoding of b is Ok(v) if and only if v fits the schema, nests at most 100 deep, and b is its encoding |
| `Messages.EncodingInjective` | README.md:270-278 | different values have different encodings |
| `Messages.EncodedDecodes` | src/encoding/message.rs:42-68 | every mode gives an encoded value back |
| `Messages.EarlyExitIsAFilter` | src/message.rs:926-938 | decoding restricted to a level is distinguished decoding with everything below the level rejected |
| `Messages.RelaxedIsAccepted` | src/message.rs:793-797 | whatever relaxed decoding accepts, distinguished decoding accepts with the same value, and the reverse unless the message is one over which the modes can part |
| `Messages.NewLengthDelimited` | src/encoding/mod.rs:963-973 | a capped view of the region that comes first |
| `Messages.DecodeRestrictedCapped` | src/message.rs:926-938 | the last check of the canonicity never fails |
| `Messages.DecodeCanonical` | src/message.rs:926-938 | accepts the encodings of values nested within the limit and nothing else |
| `Messages.OwnedMessage.ReplaceFromCapped` | src/message.rs:808-815 | replaces the message, or empties it on failure |
| `Messages.OwnedMessage.ReplaceRestrictedFromCapped` | src/message.rs:956-972 | the same with a level of canonicity |
| `Messages.OwnedMessage.ReplaceRestrictedFromLengthDelimited` | src/message.rs:948-954 | a length that cannot be read leaves the message as it was |
| `Messages.EncodeToVec` | src/message.rs:711-715 | the forward encoding |
| `Messages.EncodeFast` | src/message.rs:723-727 | the backward encoding, the same bytes |
| `Messages.EncodeContiguous` | src/message.rs:735-741 | fills one chunk with no byte to spare |
| `Messages.EncodeLengthDelimitedContiguous` | src/message.rs:743-751 | the same with the length in front |
| `Opaque.ReadBytes` | src/encoding/opaque.rs:182-210 | a value's bytes read back as the value |
| `Opaque.BytesRead` | src/encoding/opaque.rs:182-210 | whatever is read is the bytes of its value |
| `Opaque.IterateOf` | src/encoding/opaque.rs:284-286 | iteration yields the values of every tag in the order they were put in |
| `Opaque.CollectIterate` | src/encoding/opaque.rs:377-385 | putting in all that iteration yields makes the same message |
| `Opaque.IterateCollect` | src/encoding/opaque.rs:377-385 | and iteration over what an ordered list was put into yields the list |
| `Opaque.OpaqueBijection` | src/encoding/opaque.rs:262-269 | decoding b gives m if and only if b is the encoding of m, for every message and every byte string |
| `Opaque.OpaqueMessage.Insert` | src/encoding/opaque.rs:280-282 | puts a value behind the others with its tag |
| `Opaque.OpaqueMessage.RawEncode` | src/encoding/opaque.rs:404-409 | the forward encoder |
| `Opaque.OpaqueMessage.RawPrepend` | src/encoding/opaque.rs:411-417 | the backward encoder makes the same bytes |
| `Opaque.OpaqueMessage.RawEncodedLen` | src/encoding/opaque.rs:419-424 | the measured length is their length |
| `Opaque.OpaqueMessage.Merge` | src/encoding/opaque.rs:428-438 | decoding over a soft cap reads exactly the fields before it |
| `Opaque.DecodeOpaqueMessage` | src/encoding/opaque.rs:428-438 | decoding a whole buffer gives just the message whose encoding it holds |
| `UnknownFields.SkipRun` | src/encoding/mod.rs:1125-1152 | skipping an unknown field skips the whole run with its tag |
| `UnknownFields.SkippedIsRun` | src/encoding/mod.rs:1125-1152 | whatever is skipped is a run of fields with one tag, and no key behind it repeats the tag |
| `UnknownFields.ItemsLocal` | src/encoding/unpacked.rs:39-122 | an unpacked run does not see what follows it |
| `UnknownFields.MergeTransparent` | src/encoding/underived.rs:182-211 | the field loop on all fields and on the known ones go together |
| `UnknownFields.UnknownFieldsAreTransparent` | src/encoding/underived.rs:182-211 | unless an unknown field comes after an unread array, decoding bytes and decoding them with the unknown fields deleted give the same, but for the canonicity, which is at most HasExtensions if there were any |
| `UnknownFields.UnknownFieldsAreTransparentToRelaxed` | src/encoding/message.rs:28-36 | the same for relaxed decoding, for every schema |
| `UnknownFields.MergeTransparentRelaxed` | src/encoding/underived.rs:97-118 | its field loop on all fields and on the known ones |
| `UnreadArrays.TransparentExactly` | src/encoding/unpacked.rs:92-122 | deleting unknown fields changes nothing, in either mode and on any byte string, if and only if no array of no elements that are not length-delimited has an unknown tag above it |
| `UnreadArrays.TransparentIfUnexposed` | src/encoding/unpacked.rs:92-122 | one half of that, for messages of any size |
| `UnreadArrays.ExposedBreaks` | src/encoding/unpacked.rs:92-122 | the other half: bytes that are decoded only as long as their unknown field is there, for elements of every wire type |
| `UnreadArrays.UnreadExample` | src/encoding/unpacked.rs:92-122 | one message and such bytes |
| `Calendar.YearStep` | bilrost-types/src/datetime.rs:421-484 | the closed form for the start of a year begins at 1970 and adds the length of each year |
| `Calendar.MonthLengths` | bilrost-types/src/datetime.rs:182-186 | the lengths of the months, by rule and not by table |
| `Calendar.SecondsCountTicks` | bilrost-types/src/datetime.rs:374-384 | seconds are zero at the start of 1970 and go up by one with each tick of a clock and calendar that carry over |
| `Calendar.OrderIsTimeOrder` | bilrost-types/src/datetime.rs:13-29 | dates are in lexicographic order exactly when their instants are |
| `DateTimes.YearToSeconds` | bilrost-types/src/datetime.rs:421-484 | 86400 times the Gregorian day count and the right leap flag for every supported year, on both paths, without overflow |
| `DateTimes.FastPath` | bilrost-types/src/datetime.rs:425-437 | the formula for 1901 to 2038 |
| `DateTimes.GeneralPath` | bilrost-types/src/datetime.rs:439-483 | the formula by cycles of 400 years |
| `DateTimes.DaysIn` | bilrost-types/src/datetime.rs:182-186 | the days of a month |
| `DateTimes.RangeByFields` | bilrost-types/src/datetime.rs:33-57 | comparing with the first and the last date field by field is checking the range of seconds |
| `DateTimes.IsValid` | bilrost-types/src/datetime.rs:55-63 | accepts exactly the calendar dates that a timestamp can represent |
| `DateTimes.MonthToSeconds` | bilrost-types/src/datetime.rs:391-413 | seconds of the year before a month |
| `DateTimes.DateTimeToSeconds` | bilrost-types/src/datetime.rs:374-384 | the seconds of a valid date, without overflow or truncation |
| `DateTimes.ToTimestamp` | bilrost-types/src/datetime.rs:574-582 | the timestamp of a valid date, and none of any other |
| `DateTimes.SplitCycle` | bilrost-types/src/datetime.rs:133-149 | centuries, groups of four years and years of a cycle, with the corrections for their last days |
| `DateTimes.SplitCentury` | bilrost-types/src/datetime.rs:139-149 | groups of four years, years and days of a century; the quotient that is corrected at 25 stays below that by itself |
| `DateTimes.SplitMonths` | bilrost-types/src/datetime.rs:156-160 | the month counted from March |
| `DateTimes.FromTimestamp` | bilrost-types/src/datetime.rs:105-178 | the valid date whose seconds and nanoseconds are those of the normalized timestamp, for every timestamp |
| `DateTimes.DateUnique` | bilrost-types/src/datetime.rs:105-178 | there is only one such date, so both trips are the identity |
| `DateTimes.TimestampRoundTrip` | bilrost-types/src/datetime.rs:105-178 | a timestamp goes to its date and back to its normal form |
| `DateTimes.DateRoundTrip` | bilrost-types/src/datetime.rs:574-582 | a valid date goes to its timestamp and back to itself |
| `Text.DigitsParse` | bilrost-types/src/datetime.rs:338-347 | digits are split off at the first other character |
| `Text.YearParses` | bilrost-types/src/datetime.rs:206-230 | printed years parse: four digits, more than four, and negative ones |
| `Text.NanosParse` | bilrost-types/src/datetime.rs:258-274 | fractions of 0, 3, 6 and 9 digits parse |
| `Text.PrintedTimestampParses` | bilrost-types/src/datetime.rs:487-538 | every valid date is printed so that parsing gives its timestamp back |
| `TextLayout.DisplayTimestamp` | bilrost-types/src/lib.rs:419-423 | a timestamp is printed as its date in the layout of RFC 3339, and parsed back to its normal form |
| `TextLayout.PrintedLayout` | bilrost-types/src/datetime.rs:67-94 | the layout of a printed date, character by character: which digits are worth the year, month, day, hour, minute, second and fraction, and what stands between them |
| `TextLayout.StampParses` | bilrost-types/src/datetime.rs:487-538 | every text in the layout is read as the instant that it writes: dates by themselves, leap seconds, lower case and spaces, offsets with and without colon and minutes, any number of fraction digits |
| `TextLayout.TimestampsExactly` | bilrost-types/src/datetime.rs:200-347 | exactly these texts are read as a timestamp, with nothing behind them, and as just this one |
| `TextLayout.DurationLayout` | bilrost-types/src/lib.rs:143-163 | the layout of a printed duration: sign, seconds without leading zeros, fraction, unit |
| `TextLayout.DurationsExactly` | bilrost-types/src/datetime.rs:543-569 | exactly which texts are read as a duration, and as which |
| `Text.OffsetTimestampParses` | bilrost-types/src/datetime.rs:278-321 | a local time with an offset is the instant that much earlier, unless that is out of range |
| `Text.PrintedDurationParses` | bilrost-types/src/datetime.rs:543-569 | a printed duration parses back to its normal form if and only if that does not have the least number of seconds, and is not positive while a part of the duration was negative |
| `Text.PrintedCanonicalDurationParses` | bilrost-types/src/datetime.rs:543-569 | a canonical duration parses back if and only if its seconds are not the least value |
| `Normalization.TimestampNormalForm` | bilrost-types/src/lib.rs:215-255 | the one canonical timestamp of the clamped total; normalizing again changes nothing, and the first time only what is not canonical |
| `Normalization.TimestampUnique` | bilrost-types/src/lib.rs:215-217 | two canonical timestamps with one total are equal |
| `Normalization.Timestamp.Normalize` | bilrost-types/src/lib.rs:224-255 | reaches that form in place, for every pair of integers |
| `Normalization.DurationNormalForm` | bilrost-types/src/lib.rs:51-105 | the same for durations, whose parts share a sign |
| `Normalization.DurationUnique` | bilrost-types/src/lib.rs:51-58 | two canonical durations with one total are equal |
| `Normalization.Duration.Normalize` | bilrost-types/src/lib.rs:65-105 | reaches that form in place, for every pair of integers |

## Left out

- Varint.DecodeMeaning: says nothing of lengths over 64 bits; `usize` is taken to be 64 bits wide, so a length never fails to convert.
- RecursionLimits.AgreeExactly: takes a bound on what each field adds around the message inside of it; for `WholeMessagesAgree` it is 2^56 bytes, which only arrays exceed; `AgreeUnless` needs none. Through an array of 2^64 items or more no place is ever reached, because its length does not fit 64 bits.
- RelaxedDecoder.Merge: does not say which error is reported, and covers merging into an empty message only, which is the only use that the public interface makes of it.
- DistinguishedDecoder.Merge: does not say which error is reported.
- UnreadArrays.TransparentExactly: takes messages of fewer than 67,637,280 fields. Beyond that, all unknown tags above an array of four-byte elements could be so far from it that their keys take five bytes; whether such a message is transparent depends on the types of the millions of fields between.
- RecursionLimits.WholeMessagesAgree: the same.
- UnknownFields.UnknownFieldsAreTransparent: deletes the unknown fields of the outermost message only; `Extensions.ExtendedMeaning` is about those at every level, but not about data that is not decoded.
- `prepend_array` and the writers of fixed-width numbers, which do what `prepend_slice` does.
- ReverseBuffers.ReverseBuffer.FromBox: takes non-empty boxes only; an empty one becomes a chunk of no bytes, which the buffer's own invariant excludes: `len` would fail its debug assertion (src/buf.rs:236-243).
- Encoder.EncodeValue: values whose encoding is 2^64 bytes or longer, which no length could describe.
- Encoder.PrependFields: the same.
- Normalization.Duration.Normalize: the two branches for an overflow after the signs are made equal are not there, because neither step can overflow.
- Sums in the reservation planning of `ReverseBuffer` that would overflow `usize`.
- Keys of sets and mappings other than numbers, words of 4 or 8 bytes and byte strings.
- The unpacked encoding as a field's preferred form; packed fields accept it here, as relaxed decoding does.
- Zigzag integers, floats, text with its UTF-8 check, enumerations, tuples, wrapper types, hash sets and maps: leaves and wrappers over the same encodings.
- Oneofs and their collision guards, the path of field names in errors, and decoding of borrowed data, which differs in ownership only.
- The procedural macros as generators of code; the field loops stand for what they generate.
- Unsafe copies, uninitialized memory, feature flags and the variant that copies within a chunk: the safe code does the same.
- `Timestamp::try_normalize`, and the conversions to the system's time types and to JSON.
- The debug assertions, some of which are stricter than the code needs.
