# Armored Core VI map parts: a verified model of the record codec

This project models how the map format of Armored Core VI (MSB, the
`PARTS_PARAM_ST` section) stores its *parts*: the objects placed in a map,
such as map pieces, enemies, players, collisions and assets. It covers:

- the container: one list per part kind, `Add`, `GetEntries` in the fixed
  written order, and the entry reader `ReadEntry`, which peeks at the
  32-bit type tag at offset 8 of a record to pick the kind to read;
- the part record: the fixed 0xC0-byte header, the name and layout path as
  NUL-terminated UTF-16, and eleven sections (T50, T58, entity data, type
  data, T70, T78, T80, T88, T90, T98, TA0) whose offsets, relative to the
  record start, the header stores; a section a kind does not declare has
  offset 0;
- the per-kind slot table, and the reader's rule for which slots it skips
  when their offset is zero;
- every fixed block: the nine auxiliary structs, the entity data, and the
  type payloads of map pieces, enemies (with their optional nested struct),
  players, collisions, dummy assets, connect collisions and assets (with the
  sixteen zero words present only from version 52 on);
- the six passthrough kinds (Object, Item, NPCWander, Protoboss, Navmesh,
  Invalid), which are read like the others and then take a byte blob, but
  are written as that blob padded to 8 bytes.

Bytes are `seq<byte>`. Every 8-, 16-, 32- and 64-bit field is a bounded
integer type, and casts between widths wrap as C# casts do. Floats are kept
as their 32-bit patterns. A read returns a `Result`, whose failure names
the reader's exception: end of data, a failed constant assertion, an
undefined enum value, a negative seek or a negative length.

Modules, in dependency order: `Ints`, `Results`, `Layout` (a generic codec
for fixed blocks of little-endian cells, with asserted constants), `Utf16`,
`PartTypes`, `SubStructs`, `Slots`, `Payloads`, `EnemyPayload`,
`AssetPayload`, `TypeDatas`, `PartHeader`, `Records` (one record), and
`Parts` (the container and the entry reader).

The main theorem is `Records.ReadWritePart`. It covers any record the
writer emits for a non-passthrough part whose declared slots are all
filled. Read from anywhere in a larger file, such a record gives back the
part that was written. The entry reader, as the code writes it, does not
hand the file's version to the part reader, so an Asset comes back as a
version-0 reader builds it (`Parts.ReadWriteEntry`); for a reader that
does hand it over, `Parts.ReadWriteEntryAtVersion` gives the exact round
trip (see Findings). The `Parts` lemmas about `GetEntries` fix the order
the container writes its parts in.

## Model

| member | source | states |
|---|---|---|
| PartTypes.FromCode | src/Andre/SoulsFormats/SoulsFormats/Formats/MSB/MSB-AC6/PartParam.cs:11-27 | a tag value names a kind exactly when it is one of the fourteen enumerated values 0..13, and the kind it names has that value as its code |
| Parts.NewParam | src/Andre/SoulsFormats/SoulsFormats/Formats/MSB/MSB-AC6/PartParam.cs:108-127 | a fresh container keeps the version it is given and every one of the fourteen lists starts empty |
| Parts.Add | src/Andre/SoulsFormats/SoulsFormats/Formats/MSB/MSB-AC6/PartParam.cs:131-183 | the part is appended to the list of its own kind, every other list is left as it was, and the version is kept |
| Parts.AddKeepsRouted | src/Andre/SoulsFormats/SoulsFormats/Formats/MSB/MSB-AC6/PartParam.cs:131-183 | if every list held only parts of its own kind before an add, it still does afterwards |
| Parts.EntriesInOrder | src/Andre/SoulsFormats/SoulsFormats/Formats/MSB/MSB-AC6/PartParam.cs:189-195 | the entries of a routed container come grouped by kind in the order MapPieces, Enemies, Players, Collisions, DummyAssets, DummyEnemies, ConnectCollisions, Assets, Objects, Items, NPCWanders, Protobosses, Navmeshes, Invalids |
| Parts.EntriesOfKind | src/Andre/SoulsFormats/SoulsFormats/Formats/MSB/MSB-AC6/PartParam.cs:189-195 | keeping only the entries of one kind gives back exactly that kind's list, in its order; with the grouping above, the entries are the fourteen lists concatenated |
| Parts.EntriesAfterAdd | src/Andre/SoulsFormats/SoulsFormats/Formats/MSB/MSB-AC6/PartParam.cs:131-195 | after an add, the entries are the old entries with the new part inserted right after the last part of the lists up to and including its kind's list |
| Parts.PeekKind | src/Andre/SoulsFormats/SoulsFormats/Formats/MSB/MSB-AC6/PartParam.cs:198-200 | the tag is the 32-bit word at offset 8 of the record; too little data fails, a value outside 0..13 fails as an undefined enum value, and otherwise the kind with that code is returned |
| Parts.PeekTag | src/Andre/SoulsFormats/SoulsFormats/Formats/MSB/MSB-AC6/PartParam.cs:198-200 | the tag word the writer stores for a kind is peeked as that kind |
| Parts.ReadEntry | src/Andre/SoulsFormats/SoulsFormats/Formats/MSB/MSB-AC6/PartParam.cs:198-249 | a failed tag peek is the entry reader's failure; on success the part read has the peeked kind and the container is the old one with the part added to that kind's list |
| Parts.ReadWriteEntry | src/Andre/SoulsFormats/SoulsFormats/Formats/MSB/MSB-AC6/PartParam.cs:198-249 | the entry reader hands no version to the part constructors, so a record written for a non-passthrough part with every declared struct present comes back, whatever the file's version, as that part with its payload as a version-0 reader rebuilds it, and is added to its own list |
| Parts.EntryDropsAssetVersion | src/Andre/SoulsFormats/SoulsFormats/Formats/MSB/MSB-AC6/PartParam.cs:198-249 | an Asset written for version 52 or later comes back from the entry reader recording version 0, and its payload rewritten from that is 64 bytes shorter |
| Parts.ReadEntryAtVersion | src/Andre/SoulsFormats/SoulsFormats/Formats/MSB/MSB-AC6/PartParam.cs:198-249 | the corrected entry reader of the Findings table, which hands the file's version to the part reader: a failed tag peek is its failure; on success the part has the peeked kind and is added to that kind's list |
| Parts.ReadWriteEntryAtVersion | src/Andre/SoulsFormats/SoulsFormats/Formats/MSB/MSB-AC6/PartParam.cs:198-249 | through the corrected entry reader, a record written for a non-passthrough part with every declared struct present, in a file of the version its payload was written for, reads back as exactly that part and is added to its own list |
| PartHeader.ReadWriteHeader | src/Andre/SoulsFormats/SoulsFormats/Formats/MSB/MSB-AC6/PartParam.cs:413-443 | the 0xC0-byte header reads back as written, whatever follows it |
| PartHeader.ReadHeader | src/Andre/SoulsFormats/SoulsFormats/Formats/MSB/MSB-AC6/PartParam.cs:413-443 | a header the reader accepts is the written form of the header it returns, followed by the rest of the input, and carries the kind it was asked for |
| PartHeader.HeaderLength | src/Andre/SoulsFormats/SoulsFormats/Formats/MSB/MSB-AC6/PartParam.cs:561-592 | the header is exactly 0xC0 bytes long, whatever it holds |
| PartHeader.TagAt | src/Andre/SoulsFormats/SoulsFormats/Formats/MSB/MSB-AC6/PartParam.cs:561-592 | bytes 8 to 12 of a header are the kind's code, little-endian |
| PartHeader.HeaderRefusesOtherKind | src/Andre/SoulsFormats/SoulsFormats/Formats/MSB/MSB-AC6/PartParam.cs:413-417 | a header written for one kind is refused when read as any other, because the tag word is asserted |
| Utf16.ReadWriteZ | src/Andre/SoulsFormats/SoulsFormats/Formats/MSB/MSB-AC6/PartParam.cs:445-446 | a name or layout path without a NUL unit reads back as written from its NUL-terminated UTF-16 form, whatever follows it |
| Utf16.ReadZ | src/Andre/SoulsFormats/SoulsFormats/Formats/MSB/MSB-AC6/PartParam.cs:445-446 | a string the reader returns contains no NUL unit and its terminated form is a prefix of the input |
| Records.WritePart | src/Andre/SoulsFormats/SoulsFormats/Formats/MSB/MSB-AC6/PartParam.cs:561-707 | a passthrough part is written as its bytes followed by fewer than 8 zero bytes that bring the file position to a multiple of 8; any other part is written exactly when every slot its kind declares holds a struct |
| Records.SectionInRecord | src/Andre/SoulsFormats/SoulsFormats/Formats/MSB/MSB-AC6/PartParam.cs:603-706 | a stored section offset is 0 if and only if the kind lacks the section, and a present section's bytes sit at its stored offset from the record start |
| Records.RecordStrings | src/Andre/SoulsFormats/SoulsFormats/Formats/MSB/MSB-AC6/PartParam.cs:594-600 | the name and the layout path sit at the offsets the header stores for them |
| Records.RecordAligned | src/Andre/SoulsFormats/SoulsFormats/Formats/MSB/MSB-AC6/PartParam.cs:598-606 | after the layout path the writer pads, so the first section starts on an 8-byte boundary of the file |
| Records.ReadSlotAt | src/Andre/SoulsFormats/SoulsFormats/Formats/MSB/MSB-AC6/PartParam.cs:448-505 | a slot the kind lacks is not read; T58, T70, T78, T80, T90 and TA0 are read only when declared and their offset is non-zero, T50, T88 and T98 whenever declared; a read slot whose position would be negative fails |
| Records.ReadFront | src/Andre/SoulsFormats/SoulsFormats/Formats/MSB/MSB-AC6/PartParam.cs:445-461 | the reader reads T58 only for kinds that declare it |
| Records.ReadBack | src/Andre/SoulsFormats/SoulsFormats/Formats/MSB/MSB-AC6/PartParam.cs:466-505 | the reader reads T70, T78, T80, T90 and TA0 only for kinds that declare them |
| Records.ReadPart | src/Andre/SoulsFormats/SoulsFormats/Formats/MSB/MSB-AC6/PartParam.cs:413-506 | a part read as a kind has that kind; a passthrough part holds exactly the length, cast to a 32-bit int, of bytes, and they are the bytes right after the last struct its record's reader read: TA0, present in the part, when the header's TA0 offset is non-zero, and otherwise T98, which these kinds always read |
| Records.ReadWritePart | src/Andre/SoulsFormats/SoulsFormats/Formats/MSB/MSB-AC6/PartParam.cs:413-707 | a non-passthrough record written with every declared slot filled reads back with every field as written, the Asset version being the one read with; read with the version it was written for it is exactly the part written |
| Records.SlotPlacedIn | src/Andre/SoulsFormats/SoulsFormats/Formats/MSB/MSB-AC6/PartParam.cs:603-706 | every slot's stored offset in a written record leads the slot reader to exactly the struct held in that slot, or to nothing when the slot is absent |
| Slots.ReadWriteSlotValue | src/Andre/SoulsFormats/SoulsFormats/Formats/MSB/MSB-AC6/PartParam.cs:783-1359 | every one of the nine auxiliary structs reads back as written from its own slot, whatever follows it |
| SubStructs.ReadWriteEntity | src/Andre/SoulsFormats/SoulsFormats/Formats/MSB/MSB-AC6/PartParam.cs:509-531 | the entity data block reads back as written, whatever follows it |
| SubStructs.ReadWrite50 | src/Andre/SoulsFormats/SoulsFormats/Formats/MSB/MSB-AC6/PartParam.cs:783-861 | the T50 struct reads back as written, asserted constants included |
| SubStructs.ReadWrite78 | src/Andre/SoulsFormats/SoulsFormats/Formats/MSB/MSB-AC6/PartParam.cs:994-1093 | the T78 struct reads back as written, asserted constants included |
| Payloads.ReadWriteMapPieceBody | src/Andre/SoulsFormats/SoulsFormats/Formats/MSB/MSB-AC6/PartParam.cs:1436-1465 | the map piece payload reads back as written |
| Payloads.ReadWritePlayerBody | src/Andre/SoulsFormats/SoulsFormats/Formats/MSB/MSB-AC6/PartParam.cs:1978-2003 | the player payload reads back as written |
| Payloads.ReadWriteCollisionBody | src/Andre/SoulsFormats/SoulsFormats/Formats/MSB/MSB-AC6/PartParam.cs:2141-2222 | the collision payload reads back as written |
| Payloads.CollisionRefusesUndefinedFilter | src/Andre/SoulsFormats/SoulsFormats/Formats/MSB/MSB-AC6/PartParam.cs:2141-2143 | a collision payload whose first byte is not a defined hit filter is refused as an undefined enum value |
| Payloads.ReadWriteDummyAssetBody | src/Andre/SoulsFormats/SoulsFormats/Formats/MSB/MSB-AC6/PartParam.cs:2279-2314 | the dummy asset payload reads back as written |
| Payloads.ReadWriteConnectCollisionBody | src/Andre/SoulsFormats/SoulsFormats/Formats/MSB/MSB-AC6/PartParam.cs:2408-2448 | the connect collision payload reads back as written |
| EnemyPayload.EnemyOffsets | src/Andre/SoulsFormats/SoulsFormats/Formats/MSB/MSB-AC6/PartParam.cs:1838-1914 | the stored offset of the optional nested struct is 0 exactly when that struct is null |
| EnemyPayload.ReadEnemy70At | src/Andre/SoulsFormats/SoulsFormats/Formats/MSB/MSB-AC6/PartParam.cs:1822-1828 | the optional nested struct is read exactly when its stored offset is non-zero, and reads as absent otherwise |
| EnemyPayload.Enemy70ReadBack | src/Andre/SoulsFormats/SoulsFormats/Formats/MSB/MSB-AC6/PartParam.cs:1822-1914 | a null optional struct is written with offset 0 and reads back as null; a present one reads back as written |
| EnemyPayload.ReadWriteEnemyBody | src/Andre/SoulsFormats/SoulsFormats/Formats/MSB/MSB-AC6/PartParam.cs:1784-1914 | the enemy and dummy enemy payload, with both nested structs at their stored offsets, reads back as written |
| EnemyPayload.EnemyWriteLayout | src/Andre/SoulsFormats/SoulsFormats/Formats/MSB/MSB-AC6/PartParam.cs:1838-1914 | the nested structs sit exactly at the offsets the writer stores, counted from the payload start |
| AssetPayload.AssetGapIffVersion | src/Andre/SoulsFormats/SoulsFormats/Formats/MSB/MSB-AC6/PartParam.cs:3154-3172 | the writer emits sixteen zero int32s after the four offsets exactly when the version is 52 or more, and none otherwise |
| AssetPayload.AssetWriteLayout | src/Andre/SoulsFormats/SoulsFormats/Formats/MSB/MSB-AC6/PartParam.cs:3113-3185 | the four nested structs sit exactly at the offsets the writer stores, counted from the payload start |
| AssetPayload.ReadAssetBodyWithVersion | src/Andre/SoulsFormats/SoulsFormats/Formats/MSB/MSB-AC6/PartParam.cs:3031-3112 | read with the version it was written for, or any version below 52, the payload reads back as written except that it records the version it was read with |
| AssetPayload.ReadWriteAssetBody | src/Andre/SoulsFormats/SoulsFormats/Formats/MSB/MSB-AC6/PartParam.cs:3031-3185 | read with the version it was written for, the asset payload reads back exactly as written |
| AssetPayload.RewriteBelowGapShorter | src/Andre/SoulsFormats/SoulsFormats/Formats/MSB/MSB-AC6/PartParam.cs:3154-3172 | a payload for version 52 or later, rewritten with a version below 52, is exactly 64 bytes shorter |
| TypeDatas.ReadWriteTypeData | src/Andre/SoulsFormats/SoulsFormats/Formats/MSB/MSB-AC6/PartParam.cs:463-464 | each kind's type payload reads back as its own kind; the Asset payload records the version it was read with |
| Layout.DecodeAcceptsExactlyEncodings | src/Andre/SoulsFormats/SoulsFormats/Formats/MSB/MSB-AC6/PartParam.cs:413-443 | a fixed block's reader succeeds exactly on inputs that begin with the encoding of some content the block can hold |
| Layout.DecodeEncode | src/Andre/SoulsFormats/SoulsFormats/Formats/MSB/MSB-AC6/PartParam.cs:413-443 | every fixed block of cells reads back as written, whatever follows it |

## Left out

- Name disambiguation (`ReambiguateName`) on write, name and index resolution (`GetNames`, `GetIndices`), `DeepCopy` and the default-valued constructors are not modelled: they do not touch the byte format.
- The stream (`BinaryReaderEx` and `BinaryWriterEx`) is modelled as a byte sequence plus a position. Reserve and fill are modelled by computing each offset before writing the header.
- `ReadBoolean`, `ReadEnum8`, `GetEnum32` and the `Assert*` readers are taken to throw on a value outside the type (a boolean other than 0 or 1, an undefined enum code, or a constant mismatch). Those readers' own code is not part of this model.
- Floats and vectors are carried as opaque 32-bit patterns; no floating-point arithmetic is modelled.
- Text encoding is not modelled: a name is its sequence of UTF-16 code units. Names containing a NUL unit are outside the round-trip lemmas (`Records.Terminable`), since the terminated-string reader stops at the first one.
- Records.ReadWritePart: covers non-passthrough parts only. A passthrough part is written as its blob alone, while its reader first reads a header, so the code has no round trip for these kinds to prove. Their writer and reader are modelled separately (`Records.WritePart`, `Records.ReadPart`).
- Records.ReadWritePart: requires each name to be shorter than 2^30 UTF-16 units, as a .NET string is. This keeps every stored offset within a signed 64-bit long, so the overflow of `start + offset` is not modelled.
- Records.WritePart: writing a part whose kind declares a slot that holds no struct fails. In the code this is a null dereference. How such a part arises (a record read with a zero offset for a skip-when-zero slot, or a caller setting the slot's property to null) is not modelled beyond that.
- The `default` branch of `Add`, which a null part reaches, is not modelled: the model has no null parts.
- The header writer's `id` argument is not used by the record codec. The container's own `version` field (PartParam.cs:34, 111) is kept by `Parts.NewParam` and `Parts.Add`, but nothing in this model reads it. The entry reader takes the file's version as a parameter and, as in the code, does not use it.
- SubStructs.ReadWriteEntity: the entity group IDs are modelled as exactly eight 32-bit values, the count the reader builds (line 526). The writer emits whatever array the property holds (line 727), so a part with another count is not covered, nor are the round trips built on this one.
- SubStructs.ReadWrite50: the display and draw groups are modelled as exactly eight values and the collision mask as exactly thirty-two, the counts the reader builds (lines 829-831). The writer emits the arrays as they are (lines 845-847), so other counts are not covered.
- SubStructs.ReadWrite58: the display groups are modelled as exactly eight values (read at line 896, written as they are at line 912), so other counts are not covered.
- Payloads.ReadWriteCollisionBody: the hit filter is modelled as one of the defined `HitFilterType` codes, the only values the reader returns. The writer emits any value cast to a byte (line 2183), and an undefined one does not read back; that case is not covered.
- Payloads.ReadWriteConnectCollisionBody: the map ID is modelled as exactly four signed bytes, the count the reader builds (line 2411). The writer emits the array as it is (line 2424), so other counts are not covered.
- AssetPayload.ReadWriteAssetBody: the part indices are modelled as exactly four 32-bit values, the count the reader builds (line 3055). The writer emits the array as it is (line 3137), so other counts are not covered.

## Findings

| source | as written | input that shows it | evidently intended | confidence | as-written member | corrected member |
|---|---|---|---|---|---|---|
| src/Andre/SoulsFormats/SoulsFormats/Formats/MSB/MSB-AC6/PartParam.cs:226 | `ReadEntry` receives the file version but builds an Asset with `new Part.Asset(br)`, which never sets the Asset's private `version` (only `Asset(int)` at lines 2971-2973 does), so it stays 0 and both `version >= 52` gates (lines 3072, 3154) take the old-format branch for every Asset read from a file | an Asset written with version 52 (so with the sixteen zero words) and read back: it records version 0, and writing it again omits the zero words, making its payload 64 bytes shorter | the entry reader hands the file version to the Asset it reads, so a read-then-write keeps the format | not executed | Parts.EntryDropsAssetVersion | Parts.ReadWriteEntryAtVersion |
