# BestMQTT client engine in Dafny

A model of the core of BestMQTT, an MQTT 5.0 / 3.1.1 client for Unity written
in C#, with proofs about it. It covers:

- **The embedded record store.** `AVLTree` is the index every store is built
  on (`AVLTrees`, with its contents as sorted entries in `SortedEntries`).
  `Metadata` records and `IndexingService` (the flag index) sit above it, and
  `Database` is the slot store. Three typed stores are built on `Database`:
  - `OutgoingPacketDatabase`, the unacknowledged and queued PUBLISH packets;
  - `UInt16Database`, the released packet identifiers;
  - `TopicAliasMappingDatabase`, the client's topic aliases, keyed by
    `MurmurHash2` and by alias.

  Each store class keeps its slots in a `seq` field and its indexes as AVL
  trees. It is proved against abstract contents: the live records, each
  index mapping exactly its live keys to their slots, and the element counts.
  The persisted form of each record is given with its round trip.
- **The protocol state machine.** `MQTTClient` is a class whose fields are:
  - the client state and the send quota with its maximum;
  - the session's unacknowledged, queued, received and released packets, and
    its topic aliases;
  - the subscriptions;
  - the nested packet buffer.

  Its methods are the packet handlers: CONNACK, PUBLISH, PUBACK, PUBREC,
  PUBREL, PUBCOMP, UNSUBACK and DISCONNECT. They also include the quota
  replenish step, the message delivery retry after a reconnect, and the
  publishing, alias, connect and disconnect entry points. Each method states
  its new state in terms of the old one. The specification functions behind
  them live in `ClientModels`, where the protocol properties are proved.
- **Topic filter matching.** These are the `+` and `#` wildcards of section
  4.7 of the OASIS MQTT Version 5.0 standard (`Subscriptions`), together with
  subscriptions and the CONNACK defaults (`ServerConnectAcks`).
- **Wire primitives.** The modules are `BitFields`, `DataEncoderHelper`,
  `StreamUtil`, `PacketData`, `DataReader`, `DataContainers`, `Packets`,
  `PacketIdentifiers` and `ApplicationMessages`. They cover:
  - Two Byte, Four Byte and Variable Byte Integers, strings, binary data and
    property lists;
  - the typed `Data` fields and their read-back;
  - the packet container, size and fixed header;
  - the PUBLISH builder.

  Each encoder is proved against its decoder.

Integers carry the C# widths as subset types (`Byte`, `UInt16`, `UInt32`).
Every C# wrap-around is written out, for example the 16-bit quota increment,
the 32-bit remaining length and the 16-bit counts. A thrown exception becomes
the `Err` of a `Result`. Callbacks become `Event` values appended to the
client's `events`. Transport output becomes the batches the client hands to
the transport (`wire`).

C# semantics decide where the code and its documentation part ways:

- `BeginPublish` takes its `ApplicationMessagePacketBuilder`, a mutable
  struct, as an `in` parameter. Every method called on it therefore acts on a
  defensive copy.
- The statement that raises a message's QoS to the server's Maximum QoS has
  no effect, and the model keeps the message's own QoS.
- The alias step's emptied topic name and added alias are also lost. This is
  recorded under Findings.

## Model

| member | source | states |
|---|---|---|
| BitFields.BitField.constructor | Assets/BestMQTT/Runtime/MQTT/Packets/Utils/BitField.cs:17-20 | the field holds exactly the byte it is given |
| BitFields.BitField.SetToZero | Assets/BestMQTT/Runtime/MQTT/Packets/Utils/BitField.cs:22 | afterwards no bit is set |
| BitFields.BitField.CombineWith | Assets/BestMQTT/Runtime/MQTT/Packets/Utils/BitField.cs:23 | the new byte is the old one or-ed with the value; bit by bit, a bit is set iff it was set before or is set in the value |
| BitFields.BitField.Set | Assets/BestMQTT/Runtime/MQTT/Packets/Utils/BitField.cs:30-36 | bit `idx` takes the given value and every other bit keeps its old value |
| BitFields.BitField.Range | Assets/BestMQTT/Runtime/MQTT/Packets/Utils/BitField.cs:38-46 | bit `i` of the result is bit `lsIdx + i` of the field while `lsIdx + i <= msIdx`, and clear above that |
| BitFields.BitField.ClearRange | Assets/BestMQTT/Runtime/MQTT/Packets/Utils/BitField.cs:48-55 | exactly the bits `lsIdx..msIdx` are cleared; the others keep their values |
| BitFields.BitField.Clone | Assets/BestMQTT/Runtime/MQTT/Packets/Utils/BitField.cs:60 | a fresh field with the same bits |
| BitFields.RangeMask | Assets/BestMQTT/Runtime/MQTT/Packets/Utils/BitField.cs:40-43 | the mask loop sets exactly the bits `lsIdx..msIdx`, none when `msIdx < lsIdx` |
| BitFields.RangeBits | Assets/BestMQTT/Runtime/MQTT/Packets/Utils/BitField.cs:45 | `(bits & mask) >> lsIdx` keeps exactly the range, moved down to bit 0 |
| BitFields.ClearedBits | Assets/BestMQTT/Runtime/MQTT/Packets/Utils/BitField.cs:54 | `bits ^ (bits & mask)` clears exactly the range bits |
| PacketIdentifiers.PacketIdentifier.constructor | Assets/BestMQTT/Runtime/MQTT/Packets/Utils/PacketIdentifier.cs:7 | the counter starts at 1 |
| PacketIdentifiers.PacketIdentifier.Acquire | Assets/BestMQTT/Runtime/MQTT/Packets/Utils/PacketIdentifier.cs:9-13 | a counter at 65535 goes back to 1, then it is incremented; the id handed out is the new counter, between 2 and 65535 |
| PacketIdentifiers.PacketIdentifier.Release | Assets/BestMQTT/Runtime/MQTT/Packets/Utils/PacketIdentifier.cs:15-18 | nothing changes |
| PacketIdentifiers.NextIdentifierRange | Assets/BestMQTT/Runtime/MQTT/Packets/Utils/PacketIdentifier.cs:9-13 | the next id is never 0 or 1; it is one more than the last, and 2 after 65535 |
| PacketIdentifiers.SequenceAt | Assets/BestMQTT/Runtime/MQTT/Packets/Utils/PacketIdentifier.cs:9-13 | the `k`-th of successive calls hands out `last + k + 1`, wrapped onto the cycle 2..65535 |
| PacketIdentifiers.SequenceDistinct | Assets/BestMQTT/Runtime/MQTT/Packets/Utils/PacketIdentifier.cs:9-13 | up to 65534 successive calls never hand out the same id twice |
| DataEncoderHelper.EncodeTwoByteInteger | Assets/BestMQTT/Runtime/MQTT/Packets/Utils/DataEncoderHelper.cs:12-16 | two bytes, most significant first, whose big-endian value is the input |
| DataEncoderHelper.DecodeTwoByteInteger | Assets/BestMQTT/Runtime/MQTT/Packets/Utils/DataEncoderHelper.cs:18-24 | consumes two bytes, or stops at the end of the data |
| DataEncoderHelper.TwoByteIntegerRoundTrip | Assets/BestMQTT/Runtime/MQTT/Packets/Utils/DataEncoderHelper.cs:12-24 | decoding what was encoded gives the value back and ends right after it, whatever surrounds it |
| DataEncoderHelper.EncodeFourByteInteger | Assets/BestMQTT/Runtime/MQTT/Packets/Utils/DataEncoderHelper.cs:26-32 | four bytes, most significant first, whose big-endian value is the input |
| DataEncoderHelper.DecodeFourByteInteger | Assets/BestMQTT/Runtime/MQTT/Packets/Utils/DataEncoderHelper.cs:34-45 | consumes four bytes; a short input decodes to 0xFFFFFFFF, because the last read of -1 sets every bit |
| DataEncoderHelper.FourByteIntegerRoundTrip | Assets/BestMQTT/Runtime/MQTT/Packets/Utils/DataEncoderHelper.cs:26-45 | decoding what was encoded gives the value back and ends right after it |
| DataEncoderHelper.EncodeUTF8String | Assets/BestMQTT/Runtime/MQTT/Packets/Utils/DataEncoderHelper.cs:47-68 | fails exactly when the string is longer than 65535 bytes; otherwise a two-byte length and then the bytes, with `null` written as the empty string |
| DataEncoderHelper.DecodeUTF8String | Assets/BestMQTT/Runtime/MQTT/Packets/Utils/DataEncoderHelper.cs:78-93 | a successful read ends after the length and the announced bytes, inside the data |
| DataEncoderHelper.UTF8StringRoundTrip | Assets/BestMQTT/Runtime/MQTT/Packets/Utils/DataEncoderHelper.cs:47-93 | an encodable string decodes to its own bytes and ends where the encoding ends |
| DataEncoderHelper.EncodeUTF8StringPair | Assets/BestMQTT/Runtime/MQTT/Packets/Utils/DataEncoderHelper.cs:190-194 | succeeds exactly when both strings are encodable; the size is the sum of both sizes |
| DataEncoderHelper.DecodeUTF8StringPair | Assets/BestMQTT/Runtime/MQTT/Packets/Utils/DataEncoderHelper.cs:196-202 | a successful read consumes at least the two length fields and stays inside the data |
| DataEncoderHelper.UTF8StringPairRoundTrip | Assets/BestMQTT/Runtime/MQTT/Packets/Utils/DataEncoderHelper.cs:190-202 | an encodable pair decodes to the key and the value, in that order |
| DataEncoderHelper.EncodeBinary | Assets/BestMQTT/Runtime/MQTT/Packets/Utils/DataEncoderHelper.cs:170-178 | fails exactly when the data is longer than 65535 bytes; otherwise a two-byte length and then the data |
| DataEncoderHelper.DecodeBinary | Assets/BestMQTT/Runtime/MQTT/Packets/Utils/DataEncoderHelper.cs:180-188 | a successful read ends after the length and the announced bytes |
| DataEncoderHelper.BinaryRoundTrip | Assets/BestMQTT/Runtime/MQTT/Packets/Utils/DataEncoderHelper.cs:170-188 | encodable binary data decodes to itself |
| DataEncoderHelper.VbiEncodeContinuationBits | Assets/BestMQTT/Runtime/MQTT/Packets/Utils/DataEncoderHelper.cs:95-109 | every byte but the last of a Variable Byte Integer has the continuation bit set; the last one does not |
| DataEncoderHelper.RequiredBytes | Assets/BestMQTT/Runtime/MQTT/Packets/Utils/DataEncoderHelper.cs:129-146 | the count of seven-bit groups equals the length of the encoding |
| DataEncoderHelper.RequiredBytesBound | Assets/BestMQTT/Runtime/MQTT/Packets/Utils/DataEncoderHelper.cs:129-146 | a value needs at most `k` bytes exactly when it is below 128^k |
| DataEncoderHelper.EncodeVariableByteInteger | Assets/BestMQTT/Runtime/MQTT/Packets/Utils/DataEncoderHelper.cs:95-109 | the loop writes exactly the Variable Byte Integer encoding, at most five bytes for a 32-bit value |
| DataEncoderHelper.CalculateRequiredBytesForVariableByteInteger | Assets/BestMQTT/Runtime/MQTT/Packets/Utils/DataEncoderHelper.cs:129-146 | the loop counts exactly the bytes the encoder writes, at most five |
| DataEncoderHelper.VbiDecodeBounds | Assets/BestMQTT/Runtime/MQTT/Packets/Utils/DataEncoderHelper.cs:111-127 | a successful decode reads one to four bytes and gives a value below 128^4 |
| DataEncoderHelper.VbiRoundTrip | Assets/BestMQTT/Runtime/MQTT/Packets/Utils/DataEncoderHelper.cs:95-127 | every value below 128^4 decodes back from its encoding, whatever surrounds it |
| DataEncoderHelper.VbiDecodeRejectsLargeValues | Assets/BestMQTT/Runtime/MQTT/Packets/Utils/DataEncoderHelper.cs:111-127 | the encoding of a value of 128^4 or more makes the decoder fail at the fifth byte |
| DataEncoderHelper.DecodeVariableByteInteger | Assets/BestMQTT/Runtime/MQTT/Packets/Utils/DataEncoderHelper.cs:111-127 | the decoder's loop fails or succeeds exactly as the decoding function does, with the same value and end position |
| DataEncoderHelper.TryDecodeLoopAgrees | Assets/BestMQTT/Runtime/MQTT/Packets/Utils/DataEncoderHelper.cs:148-168 | the peeking decoder agrees with the wire decoder when it completes, answers "not yet" exactly when the data runs out while every byte has the continuation bit, and fails exactly when four continuation bytes are followed by a fifth |
| DataEncoderHelper.TryToDecodeVariableByteInteger | Assets/BestMQTT/Runtime/MQTT/Packets/Utils/DataEncoderHelper.cs:148-168 | succeeds with a value exactly when the wire decoder does, with the same value; "not yet" only on at most four continuation bytes; fails only on four continuation bytes and a fifth |
| PacketData.FromByteLowBits | Assets/BestMQTT/Runtime/MQTT/Packets/Utils/Data.cs:48 | `FromByte` keeps the low eight bits, so -1 becomes 0xFF and 256 becomes 0 |
| PacketData.EncodedSize | Assets/BestMQTT/Runtime/MQTT/Packets/Utils/Data.cs:75-117 | whenever a value can be encoded, `CalculateByteSize` predicts exactly the number of bytes `EncodeInto` writes |
| PacketData.PropertyEncodedSize | Assets/BestMQTT/Runtime/MQTT/Packets/Utils/Properties.cs:62-91 | the same agreement for one property, its identifier byte included |
| PacketData.ListEncodedSize | Assets/BestMQTT/Runtime/MQTT/Packets/Utils/Properties.cs:62-91 | the same agreement for the remaining items of a property list |
| PacketData.PropertiesEncodedSize | Assets/BestMQTT/Runtime/MQTT/Packets/Utils/Properties.cs:62-91 | the same agreement for a property list with its size prefix |
| PacketData.UnSetFails | Assets/BestMQTT/Runtime/MQTT/Packets/Utils/Data.cs:79-115 | an unset value can be neither sized nor encoded; both report the error |
| PacketData.Count | Assets/BestMQTT/Runtime/MQTT/Packets/Utils/Properties.cs:23-27 | the number of properties is the length of the list, 0 for a list never created |
| PacketData.IsPresent | Assets/BestMQTT/Runtime/MQTT/Packets/Utils/Properties.cs:29-36 | true exactly when some property of the list has the type |
| PacketData.ThrowIfPresent | Assets/BestMQTT/Runtime/MQTT/Packets/Utils/Properties.cs:38-42 | fails exactly when some property of the list has the type |
| PacketData.AddProperty | Assets/BestMQTT/Runtime/MQTT/Packets/Utils/Properties.cs:44-55 | the list is created if needed and the property is appended after the existing ones |
| PacketData.RemoveProperty | Assets/BestMQTT/Runtime/MQTT/Packets/Utils/Properties.cs:57-60 | a list never created stays uncreated |
| PacketData.WithoutSpec | Assets/BestMQTT/Runtime/MQTT/Packets/Utils/Properties.cs:57-60 | the remaining properties are exactly the old ones whose type differs, in their order, and nothing is removed when no property has the type |
| PacketData.WithoutConcat | Assets/BestMQTT/Runtime/MQTT/Packets/Utils/Properties.cs:57-60 | removing by type distributes over concatenation |
| PacketData.RemoveAfterAdd | Assets/BestMQTT/Runtime/MQTT/Packets/Utils/Properties.cs:44-60 | removing a type right after adding a property of it gives the same list as removing it before the add |
| PacketData.Find | Assets/BestMQTT/Runtime/MQTT/Packets/Utils/Properties.cs:93-100 | the first property of the type when there is one, the default property otherwise |
| PacketData.FindFromSpec | Assets/BestMQTT/Runtime/MQTT/Packets/Utils/Properties.cs:102-116 | the search finds something exactly when a property of the type, set and of the data type asked for, exists, and then finds the first one |
| PacketData.TryFindData | Assets/BestMQTT/Runtime/MQTT/Packets/Utils/Properties.cs:102-116 | reports success exactly when such a property exists, and then returns its data; otherwise it returns empty data |
| PacketData.CalculateByteSize | Assets/BestMQTT/Runtime/MQTT/Packets/Utils/Properties.cs:62-77 | the loop's sum is the size of the list, with the Variable Byte Integer size prefix when asked for |
| DataContainers.PrependConcat | Assets/BestMQTT/Runtime/MQTT/Packets/DataContainer.cs:76-85 | writing `a` and then `b` before an encoding is writing `a + b` before it |
| DataContainers.EncodeFromSize | Assets/BestMQTT/Runtime/MQTT/Packets/DataContainer.cs:61-85 | whenever the fields can be encoded, the summed size equals the number of bytes written |
| DataContainers.DataContainer.constructor | Assets/BestMQTT/Runtime/MQTT/Packets/DataContainer.cs:9-16 | a new container holds no field and no properties |
| DataContainers.DataContainer.Count | Assets/BestMQTT/Runtime/MQTT/Packets/DataContainer.cs:11 | the number of fields the container holds; zero exactly when there is no list and the single field is unset |
| DataContainers.DataContainer.Get | Assets/BestMQTT/Runtime/MQTT/Packets/DataContainer.cs:18-20 | the field at the index, the single field whatever the index when there is no list, and an error for an index outside the list |
| DataContainers.DataContainer.SetAt | Assets/BestMQTT/Runtime/MQTT/Packets/DataContainer.cs:21-27 | replaces exactly the field at the index (or the single field), fails outside the list, and leaves the properties alone |
| DataContainers.DataContainer.Add | Assets/BestMQTT/Runtime/MQTT/Packets/DataContainer.cs:30-49 | the container's fields become the old ones followed by the new one (an unset value into an empty container leaves it empty); a property list is remembered |
| DataContainers.DataContainer.Set | Assets/BestMQTT/Runtime/MQTT/Packets/DataContainer.cs:51-59 | the container holds only the new field afterwards; a property list is remembered |
| DataContainers.DataContainer.CalculateByteSize | Assets/BestMQTT/Runtime/MQTT/Packets/DataContainer.cs:61-74 | the sum of the fields' sizes, in order |
| DataContainers.DataContainer.EncodeInto | Assets/BestMQTT/Runtime/MQTT/Packets/DataContainer.cs:76-85 | the fields' encodings concatenated in order |
| DataContainers.ContainerEncodedSize | Assets/BestMQTT/Runtime/MQTT/Packets/DataContainer.cs:61-85 | a container's size equals the length of what it writes |
| Packets.TypeCode | Assets/BestMQTT/Runtime/MQTT/Packets/Enums.cs:5-23 | every packet type's code fits in four bits |
| Packets.TypeCodeInjective | Assets/BestMQTT/Runtime/MQTT/Packets/Enums.cs:5-23 | distinct packet types have distinct codes |
| Packets.HeaderNibbles | Assets/BestMQTT/Runtime/MQTT/Packets/Packet.cs:46-50 | with flags in the low nibble, the first byte holds the type in its high nibble and the flags in its low one |
| Packets.EncodingSize | Assets/BestMQTT/Runtime/MQTT/Packets/Packet.cs:31-61 | a written packet is exactly `CalculatePacketSize` bytes long |
| Packets.FixedHeaderRoundTrip | Assets/BestMQTT/Runtime/MQTT/Packets/Packet.cs:44-61 | a written packet starts with its first byte, and its remaining length decodes back to the size of what follows, which is all of the rest |
| Packets.Packet.Empty | Assets/BestMQTT/Runtime/MQTT/Packets/Packet.cs:67 | a reserved packet with no flags, no header fields and no payload |
| Packets.Packet.AddVariableHeader | Assets/BestMQTT/Runtime/MQTT/Packets/Packet.cs:16-19 | the header fields gain the new field at the end; the payload is unchanged |
| Packets.Packet.SetPayload | Assets/BestMQTT/Runtime/MQTT/Packets/Packet.cs:21-24 | the payload becomes the single value; the header fields are unchanged |
| Packets.Packet.AddPayload | Assets/BestMQTT/Runtime/MQTT/Packets/Packet.cs:26-29 | the payload gains the new field at the end; the header fields are unchanged |
| Packets.Packet.CalculatePayloadSize | Assets/BestMQTT/Runtime/MQTT/Packets/Packet.cs:38-42 | the header size plus the payload size |
| Packets.Packet.CalculatePacketSize | Assets/BestMQTT/Runtime/MQTT/Packets/Packet.cs:31-36 | one byte, the remaining length's bytes and the payload size |
| Packets.Packet.EncodeInto | Assets/BestMQTT/Runtime/MQTT/Packets/Packet.cs:44-61 | the first byte, the remaining length and the two containers' encodings; the packet's own flags are left untouched |
| StreamUtil.WriteLengthPrefixedString | Assets/BestMQTT/Runtime/Database/Utils/StreamUtil.cs:11-35 | fails exactly for a string of 65536 bytes or more; `null` is written as `00 00`; otherwise a big-endian two-byte length and then the bytes |
| StreamUtil.ReadLengthPrefixedString | Assets/BestMQTT/Runtime/Database/Utils/StreamUtil.cs:37-53 | a length of zero reads as `null`, never as the empty string; a string read ends after its length and its bytes, which are the bytes at that place |
| StreamUtil.LengthPrefixedStringRoundTrip | Assets/BestMQTT/Runtime/Database/Utils/StreamUtil.cs:11-53 | every writable string reads back whatever surrounds it, with `""` and `null` both read as `null` |
| StreamUtil.EncodeVariableByteInteger | Assets/BestMQTT/Runtime/Database/Utils/StreamUtil.cs:55-69 | the loop writes exactly the Variable Byte Integer encoding, one to five bytes |
| StreamUtil.DecodeVariableByteInteger | Assets/BestMQTT/Runtime/Database/Utils/StreamUtil.cs:71-89 | the loop fails or succeeds exactly as the store decoding function does, with the same value and end position |
| StreamUtil.StoreVbiRoundTrip | Assets/BestMQTT/Runtime/Database/Utils/StreamUtil.cs:55-89 | every 32-bit value decodes back from its encoding, five-byte encodings included, whatever surrounds it |
| StreamUtil.StoreVbiDecodeFails | Assets/BestMQTT/Runtime/Database/Utils/StreamUtil.cs:71-89 | the store decoder fails exactly when the first five bytes all have the continuation bit (a byte past the end reads as 0xFF) |
| StreamUtil.StoreVbiDecodeAdvances | Assets/BestMQTT/Runtime/Database/Utils/StreamUtil.cs:71-89 | a successful decode consumes at least one byte and stays inside the data |
| StreamUtil.StoreVbiDecodeAt | Assets/BestMQTT/Runtime/Database/Utils/StreamUtil.cs:71-89 | an encoded integer found at a position decodes from there |
| Bytes.ReadByte | Assets/BestMQTT/Runtime/Database/Utils/StreamUtil.cs:37-53 | the byte at the position, or -1 exactly when the stream has ended, as Stream.ReadByte answers |
| Bytes.UInt32ToInt32 | Assets/BestMQTT/Runtime/Database/Metadata.cs:46-47 | the signed value whose unsigned cast is the given one |
| Bytes.Int32RoundTrip | Assets/BestMQTT/Runtime/Database/Metadata.cs:38-47 | casting a 32-bit signed integer to unsigned and back gives it again |
| Metadatas.MarkForDelete | Assets/BestMQTT/Runtime/Database/Metadata.cs:27-31 | the record reads as deleted afterwards, and keeps its index and flags |
| Metadatas.SetFlagAsWrittenDropsFlags | Assets/BestMQTT/Runtime/Database/Metadata.cs:24-34 | the formula as written: marking a locked record user-added clears its lock, and marking a user-added record user-added again clears the mark |
| Metadatas.SetBitsSpec | Assets/BestMQTT/Runtime/Database/Metadata.cs:34 | the intended update: the flag reads as `on` afterwards and every bit outside the flag keeps its value |
| Metadatas.SetBitsKeepsOthers | Assets/BestMQTT/Runtime/Database/Metadata.cs:34 | a flag disjoint from the one being set keeps its value |
| Metadatas.SetFlagSpec | Assets/BestMQTT/Runtime/Database/Metadata.cs:33-34 | after the intended `SetFlag`, `HasFlag` of that flag answers `on` and `HasFlag` of any disjoint flag is unchanged |
| Metadatas.SetUserAdded | Assets/BestMQTT/Runtime/Database/Metadata.cs:24 | `IsUserAdded` reads back what was set, `IsLocked` and the record's position, length and index are unchanged |
| Metadatas.SetLocked | Assets/BestMQTT/Runtime/Database/Metadata.cs:25 | `IsLocked` reads back what was set, `IsUserAdded` and the record's position, length and index are unchanged |
| Metadatas.SaveLoadRoundTrip | Assets/BestMQTT/Runtime/Database/Metadata.cs:36-50 | a saved record loads back as the same record and ends where the save ended, whatever surrounds it (negative positions and lengths go through the 32-bit cast both ways) |
| Metadatas.SavedLoadsAt | Assets/BestMQTT/Runtime/Database/Metadata.cs:36-50 | a saved record found at a position loads back from there |
| Metadatas.FieldsLoad | Assets/BestMQTT/Runtime/Database/Metadata.cs:44-50 | two decodable integers and a flags byte load as a record with those fields, through the cast to a signed 32-bit value |
| Metadatas.DeletedRecordSize | Assets/BestMQTT/Runtime/Database/Metadata.cs:27-42 | a deleted record is saved in eleven bytes: each -1 is written as 0xFFFFFFFF, five bytes long |
| Databases.Deleted | Assets/BestMQTT/Runtime/Database/Metadata.cs:27-31 | a deleted slot is no longer live and keeps its index, flags, extra fields and content; deleting it again changes nothing |
| Databases.FreeIndex | Assets/BestMQTT/Runtime/Database/MetadataIndexFinders/DefaultEmptyMetadataIndexFinder.cs:8-11 | the slot a new record goes to is free: past the end, or a deleted slot; the default finder always appends |
| Databases.FirstDeletedFrom | Assets/BestMQTT/Runtime/Database/MetadataIndexFinders/DefaultEmptyMetadataIndexFinder.cs:8-11 | the first deleted slot from `j`, or the end when every slot is live |
| Databases.Placed | Assets/BestMQTT/Runtime/Database/Database.cs:24-39 | placing a record puts it at that slot, one past the end growing the list, and leaves every other slot unchanged |
| Databases.AddIndexed | Assets/BestMQTT/Runtime/Database/IndexingService.cs:51-77 | adding a live record under its flags keeps the flag index in agreement with the slots |
| Databases.RemoveIndexed | Assets/BestMQTT/Runtime/Database/IndexingService.cs:13-29 | deleting a record and removing its index position under each of its flags keeps the flag index in agreement with the slots |
| Databases.FoundLiveAll | Assets/BestMQTT/Runtime/Database/IndexingService.cs:31-49 | the flag search finds exactly the live records whose flags share a bit with the searched flags |
| Databases.UnlockedMembers | Assets/BestMQTT/Runtime/Database/Database.cs:135-146 | a delete pass deletes exactly the listed records that are not locked |
| Databases.DeleteAll | Assets/BestMQTT/Runtime/Database/Database.cs:113-133 | deleting a set of slots keeps the length and changes exactly those slots |
| Databases.NoneUnlocked | Assets/BestMQTT/Runtime/Database/Database.cs:135-146 | when every record carries only the `None` flag, every listed record is deleted |
| Databases.LiveIndexesCount | Assets/BestMQTT/Runtime/Database/Database.cs:24-39 | the live records of a store, each listed exactly once |
| Databases.NoneCount | Assets/BestMQTT/Runtime/Database/IndexingService.cs:61-77 | when every record carries only the `None` flag, the flag index holds exactly one position per live record |
| Databases.KeptFlags | Assets/BestMQTT/Runtime/Database/Database.cs:80-82 | the flags `Clear` keeps: `Locked` always, `UserAdded` exactly when asked, never `None` |
| Databases.Database.constructor | Assets/BestMQTT/Runtime/Database/Database.cs:49-73 | an empty, clean store with an empty flag index |
| Databases.Database.Add | Assets/BestMQTT/Runtime/Database/Database.cs:148-155 | a live record with the given flags goes to the slot the finder picks, every other slot is unchanged, it is indexed under its flags and the store is dirty |
| Databases.Database.UpdateExtra | Assets/BestMQTT/Runtime/Database/Database.cs:24-39 | only the extra fields of one slot change |
| Databases.Database.FindFirstDeleted | Assets/BestMQTT/Runtime/Database/MetadataIndexFinders/DefaultEmptyMetadataIndexFinder.cs:8-11 | the loop finds the first deleted slot, or the end |
| Databases.Database.DeleteMetadata | Assets/BestMQTT/Runtime/Database/Database.cs:135-146 | an unlocked record is deleted and removed from the flag index and the store becomes dirty; a locked one is left alone; the answer is whether it was deleted |
| Databases.Database.FlagDirty | Assets/BestMQTT/Runtime/Database/Database.cs:148-155 | the store is dirty afterwards when it was or when asked; nothing else changes |
| Databases.Database.Delete | Assets/BestMQTT/Runtime/Database/Database.cs:95-133 | a missing list deletes nothing; otherwise exactly the listed unlocked records are deleted, the count is how many, and the store is dirty when any was |
| Databases.Database.DeleteEach | Assets/BestMQTT/Runtime/Database/Database.cs:118-130 | the loop deletes exactly the listed unlocked records, in order, and counts them |
| Databases.Database.Clear | Assets/BestMQTT/Runtime/Database/Database.cs:75-93 | deletes exactly the live records that are not locked and, when asked, not user-added; the count is how many |
| Databases.Database.FindByFlags | Assets/BestMQTT/Runtime/Database/IndexingService.cs:31-49 | exactly the live records whose flags share a bit with the searched flags |
| Databases.Database.Save | Assets/BestMQTT/Runtime/Database/Database.cs:157-182 | a dirty store records its slots as saved and becomes clean; a clean one is unchanged |
| Databases.Database.FromMetadataIndexes | Assets/BestMQTT/Runtime/Database/Database.cs:186-206 | no list or an empty list gives `null`; otherwise the contents of the listed slots, in the listed order |
| IndexingServices.FlagKeyInjective | Assets/BestMQTT/Runtime/Database/IndexingService.cs:24-72 | distinct bit positions give distinct single-bit keys |
| IndexingServices.KeyOfBit | Assets/BestMQTT/Runtime/Database/IndexingService.cs:70-76 | the key of every set bit is a key the record is indexed under |
| IndexingServices.KeyOfInverse | Assets/BestMQTT/Runtime/Database/IndexingService.cs:70-76 | every key the record is indexed under is the key of one of its set bits |
| IndexingServices.BucketAdd | Assets/BestMQTT/Runtime/Database/IndexingService.cs:27-75 | adding a position under a key appends it to that key's list and leaves every other key's list alone |
| IndexingServices.BucketRemoveUnder | Assets/BestMQTT/Runtime/Database/IndexingService.cs:17 | removing a position under a key takes its first occurrence out of that key's list and leaves every other key's list alone |
| IndexingServices.IndexedBucket | Assets/BestMQTT/Runtime/Database/IndexingService.cs:61-77 | indexing a record appends its position to the list of each key of its flags and to no other list |
| IndexingServices.RemovedBucket | Assets/BestMQTT/Runtime/Database/IndexingService.cs:13-29 | intended removal takes the position out of the list of each key of its flags and changes no other list |
| IndexingServices.NoneIndexedOnce | Assets/BestMQTT/Runtime/Database/IndexingService.cs:63-67 | a record flagged only `None` is indexed under key 1 alone |
| IndexingServices.NoneRemovedOnce | Assets/BestMQTT/Runtime/Database/IndexingService.cs:15-19 | a record flagged only `None` is removed from key 1 alone |
| IndexingServices.RemoveAfterIndex | Assets/BestMQTT/Runtime/Database/IndexingService.cs:13-77 | removing a record right after indexing it restores every list |
| IndexingServices.FoundMembers | Assets/BestMQTT/Runtime/Database/IndexingService.cs:31-49 | the search lists a position exactly when it is in the list of a bit set in the searched flags |
| IndexingServices.IndexingService.constructor | Assets/BestMQTT/Runtime/Database/IndexingService.cs:11 | an empty flag index |
| IndexingServices.IndexingService.IndexByFlags | Assets/BestMQTT/Runtime/Database/IndexingService.cs:51-77 | the new index is the old one with the record added under each key of its flags |
| IndexingServices.IndexingService.RemoveAsWritten | Assets/BestMQTT/Runtime/Database/IndexingService.cs:13-29 | as written: a `None` record leaves key 1, but a record with other flags is added again under each of its bits |
| IndexingServices.IndexingService.Remove | Assets/BestMQTT/Runtime/Database/IndexingService.cs:13-29 | as intended: the record leaves the list of each key of its flags |
| IndexingServices.IndexingService.FindByFlags | Assets/BestMQTT/Runtime/Database/IndexingService.cs:31-49 | the lists of the bits set in the searched flags, lowest bit first, concatenated |
| IndexingServices.IndexingService.Clear | Assets/BestMQTT/Runtime/Database/IndexingService.cs:56-59 | the index is empty afterwards |
| IndexingServices.RemoveAsWrittenReindexes | Assets/BestMQTT/Runtime/Database/IndexingService.cs:13-29 | a record flagged `Locked` at position 7, removed as written, is found twice by a search for `Locked` |
| IndexingServices.RemoveFindsNothing | Assets/BestMQTT/Runtime/Database/IndexingService.cs:13-29 | the same record removed as intended is found no more |
| AVLTrees.RotateRight | Assets/BestMQTT/Runtime/Database/Indexing/AVLTree.cs:595-630 | a right rotation keeps the in-order entries |
| AVLTrees.RotateLeft | Assets/BestMQTT/Runtime/Database/Indexing/AVLTree.cs:632-666 | a left rotation keeps the in-order entries |
| AVLTrees.Rebalance | Assets/BestMQTT/Runtime/Database/Indexing/AVLTree.cs:437-495 | rebalancing a node keeps its in-order entries |
| AVLTrees.RebalanceBalanced | Assets/BestMQTT/Runtime/Database/Indexing/AVLTree.cs:437-495 | a node whose subtrees differ in height by at most two rebalances to an AVL-balanced tree of bounded height, and is left alone when already balanced |
| AVLTrees.InsertEntries | Assets/BestMQTT/Runtime/Database/Indexing/AVLTree.cs:60-141 | after `Add`, the key holds its old list (emptied when `clearValues` is set) followed by the item, and every other key keeps its list |
| AVLTrees.InsertBalanced | Assets/BestMQTT/Runtime/Database/Indexing/AVLTree.cs:60-201 | `Add` keeps the tree AVL-balanced and grows its height by at most one |
| AVLTrees.RemoveNodeDropsRightGrandchildren | Assets/BestMQTT/Runtime/Database/Indexing/AVLTree.cs:311-435 | as written, removing a node whose right child has no left child loses that child's right subtree, which the intended removal keeps |
| AVLTrees.RemoveTwentyLosesThirty | Assets/BestMQTT/Runtime/Database/Indexing/AVLTree.cs:311-435 | keys 15, 20, 25 and 30 added in order and 20 removed: as written key 30 is lost, as intended it stays |
| AVLTrees.DeleteMin | Assets/BestMQTT/Runtime/Database/Indexing/AVLTree.cs:497-505 | the smallest entry, and a tree holding exactly the others, in order |
| AVLTrees.DeleteMinBalanced | Assets/BestMQTT/Runtime/Database/Indexing/AVLTree.cs:437-505 | taking the smallest node out keeps the tree balanced and lowers its height by at most one |
| AVLTrees.DeleteEntries | Assets/BestMQTT/Runtime/Database/Indexing/AVLTree.cs:311-435 | intended removal of a key leaves exactly the other entries, in order |
| AVLTrees.DeleteBalanced | Assets/BestMQTT/Runtime/Database/Indexing/AVLTree.cs:311-495 | removal keeps the tree AVL-balanced and lowers its height by at most one |
| AVLTrees.SetValues | Assets/BestMQTT/Runtime/Database/Indexing/AVLTree.cs:270-272 | replacing a key's list keeps the tree's shape and balance |
| AVLTrees.SetValuesEntries | Assets/BestMQTT/Runtime/Database/Indexing/AVLTree.cs:270-272 | replacing the list of a present key changes that entry only |
| AVLTrees.RemoveFirst | Assets/BestMQTT/Runtime/Database/Indexing/AVLTree.cs:272 | the value is found exactly when it is in the list; one occurrence is taken out and the rest stay |
| AVLTrees.AVLTree.constructor | Assets/BestMQTT/Runtime/Database/Indexing/AVLTree.cs:47-58 | an empty tree with no nodes and no elements |
| AVLTrees.AVLTree.Find | Assets/BestMQTT/Runtime/Database/Indexing/AVLTree.cs:516-553 | the loop's descent finds the key's list exactly when the key is stored |
| AVLTrees.AVLTree.ContainsKey | Assets/BestMQTT/Runtime/Database/Indexing/AVLTree.cs:555-593 | true exactly when the key is stored |
| AVLTrees.AVLTree.Add | Assets/BestMQTT/Runtime/Database/Indexing/AVLTree.cs:60-141 | the key's list gains the item (after being emptied when asked), the node count grows when the key is new and the element count grows by one, less the values cleared |
| AVLTrees.AVLTree.RemoveKey | Assets/BestMQTT/Runtime/Database/Indexing/AVLTree.cs:210-256 | the key's old list is returned and the key is gone, every other entry kept; the counts drop by one node and by the list's length |
| AVLTrees.AVLTree.RemoveValue | Assets/BestMQTT/Runtime/Database/Indexing/AVLTree.cs:258-309 | one occurrence of the value leaves the key's list, and the key itself goes once its list is empty; the counts follow |
| AVLTrees.AVLTree.ReplaceValues | Assets/BestMQTT/Runtime/Database/Indexing/AVLTree.cs:270-272 | the key's list is replaced and the element count follows |
| AVLTrees.AVLTree.Clear | Assets/BestMQTT/Runtime/Database/Indexing/AVLTree.cs:203-208 | the tree is empty and both counts are zero |
| AVLTrees.Height | Assets/BestMQTT/Runtime/Database/Indexing/AVLTree.cs:11-15 | an empty subtree has height -1 and a node at least 0, as the node's Height property computes |
| AVLTrees.HeightBelowSize | Assets/BestMQTT/Runtime/Database/Indexing/AVLTree.cs:11-15 | a tree's height is less than its number of nodes (entries) |
| AVLTrees.Insert | Assets/BestMQTT/Runtime/Database/Indexing/AVLTree.cs:60-149 | adding a key always leaves a node at the top |
| AVLTrees.RebalanceLeftHeavy | Assets/BestMQTT/Runtime/Database/Indexing/AVLTree.cs:151-201 | a node whose left side is two taller is balanced by one or two rotations, its height at most one above its left subtree's |
| AVLTrees.RebalanceRightHeavy | Assets/BestMQTT/Runtime/Database/Indexing/AVLTree.cs:151-201 | a node whose right side is two taller is balanced by one or two rotations, its height at most one above its right subtree's |
| AVLTrees.DoubleRotationBalanced | Assets/BestMQTT/Runtime/Database/Indexing/AVLTree.cs:595-666 | a double rotation around a taller middle subtree gives a balanced node one above it |
| AVLTrees.GrownChildBalanced | Assets/BestMQTT/Runtime/Database/Indexing/AVLTree.cs:151-201 | after one subtree grows by at most one level, rebalancing restores balance and the height grows by at most one |
| AVLTrees.RemoveAtNode | Assets/BestMQTT/Runtime/Database/Indexing/AVLTree.cs:210-256 | removing a key from a sorted tree removes it from the left subtree, the right subtree, or the node itself, as the key compares |
| AVLTrees.ShrunkChildBalanced | Assets/BestMQTT/Runtime/Database/Indexing/AVLTree.cs:437-495 | after one subtree shrinks by at most one level, rebalancing restores balance and the height drops by at most one |
| AVLTrees.PutNonEmpty | Assets/BestMQTT/Runtime/Database/Indexing/AVLTree.cs:60-149 | adding a non-empty list keeps every key's list non-empty |
| AVLTrees.RemoveNonEmpty | Assets/BestMQTT/Runtime/Database/Indexing/AVLTree.cs:210-256 | removing a key keeps every other key's list non-empty |
| AVLTrees.RemoveAbsentKey | Assets/BestMQTT/Runtime/Database/Indexing/AVLTree.cs:210-256 | removing a key not stored changes nothing |
| AVLTrees.LookupAt | Assets/BestMQTT/Runtime/Database/Indexing/AVLTree.cs:516-553 | a key held by an entry is found |
| IdIndexes.IndexDeleted | Assets/BestMQTT/Runtime/MQTT/Databases/OutgoingPacketDatabase.cs:71-76 | deleting a record and dropping its identifier from the identifier index keeps every listed slot a live record of that identifier |
| IdIndexes.IndexRemovedAll | Assets/BestMQTT/Runtime/MQTT/Databases/UInt16Database.cs:62-117 | with an exact index, the slots listed under an identifier are exactly its live records, and deleting them all while dropping the identifier keeps the index exact |
| IdIndexes.SortedKeys | Assets/BestMQTT/Runtime/MQTT/Databases/UInt16Database.cs:140-144 | a sorted index has as many distinct keys as entries |
| IdIndexes.KeysAreValues | Assets/BestMQTT/Runtime/MQTT/Databases/UInt16Database.cs:140-144 | an exact index's keys are exactly the identifiers of the live records |
| IdIndexes.PlacedSound | Assets/BestMQTT/Runtime/MQTT/Databases/UInt16Database.cs:55-60 | placing a record in a free slot and indexing its identifier at that slot keeps the index sound |
| IdIndexes.PlacedExact | Assets/BestMQTT/Runtime/MQTT/Databases/UInt16Database.cs:55-60 | the same keeps an exact index exact when the identifier was not yet held |
| IdIndexes.PlacedValues | Assets/BestMQTT/Runtime/MQTT/Databases/UInt16Database.cs:98-105 | placing a record adds its identifier to the set of held identifiers |
| IdIndexes.DeletedValues | Assets/BestMQTT/Runtime/MQTT/Databases/UInt16Database.cs:109-117 | deleting every live record of an identifier takes exactly that identifier out of the set |
| IdIndexes.RemovedSound | Assets/BestMQTT/Runtime/MQTT/Databases/UInt16Database.cs:62-67 | deleting records of an identifier and dropping it from the index keeps the index sound |
| IdIndexes.RecordMetadataLoads | Assets/BestMQTT/Runtime/MQTT/Databases/UInt16Database.cs:16-28 | the metadata part of a saved identifier record loads back, whatever surrounds it |
| IdIndexes.RecordIdLoads | Assets/BestMQTT/Runtime/MQTT/Databases/UInt16Database.cs:16-28 | the identifier part of a saved identifier record loads back right after the metadata |
| IdIndexes.RecordLoadsFromParts | Assets/BestMQTT/Runtime/MQTT/Databases/OutgoingPacketDatabase.cs:29-41 | a record loads as the metadata and the identifier its two parts decode to, the identifier cut to 16 bits |
| UInt16Databases.ScanIsNext | Assets/BestMQTT/Runtime/MQTT/Databases/UInt16Database.cs:119-138 | the value a scan ends with answers `GetNext`: the smallest value above the one asked for, or "not found" when there is none below 65535 |
| UInt16Databases.NextIsUnique | Assets/BestMQTT/Runtime/MQTT/Databases/UInt16Database.cs:119-138 | the answer to `GetNext` is determined by the set of values |
| UInt16Databases.DeletedRecordIsNext | Assets/BestMQTT/Runtime/MQTT/Databases/UInt16Database.cs:119-138 | a store whose one record (value 5) was removed still answers `(true, 5)` when every record is scanned, which no live record justifies |
| UInt16Databases.RemoveKeeps | Assets/BestMQTT/Runtime/MQTT/Databases/UInt16Database.cs:109-117 | the slots listed under a value hold it and are not locked, so the delete pass removes exactly them and the index drops the value |
| UInt16Databases.AddKept | Assets/BestMQTT/Runtime/MQTT/Databases/UInt16Database.cs:98-105 | adding a value in the first free slot keeps the store's invariant |
| UInt16Databases.UInt16Database.constructor | Assets/BestMQTT/Runtime/MQTT/Databases/UInt16Database.cs:91-96 | an empty, clean store with no values |
| UInt16Databases.UInt16Database.Add | Assets/BestMQTT/Runtime/MQTT/Databases/UInt16Database.cs:98-105 | a record for the value goes to the first deleted slot or the end, the index maps the value to that slot alone, the value joins the set and the store is dirty |
| UInt16Databases.UInt16Database.Contains | Assets/BestMQTT/Runtime/MQTT/Databases/UInt16Database.cs:107 | true exactly when the index holds the value; with an exact index, exactly when a live record holds it |
| UInt16Databases.UInt16Database.Remove | Assets/BestMQTT/Runtime/MQTT/Databases/UInt16Database.cs:109-117 | the records listed under the value are deleted, the value leaves the index and, with an exact index, the set; the store is dirty when anything was deleted |
| UInt16Databases.UInt16Database.DropValue | Assets/BestMQTT/Runtime/MQTT/Databases/UInt16Database.cs:113-115 | the delete pass over the listed records, then the value leaves the index |
| UInt16Databases.UInt16Database.RemovedIndex | Assets/BestMQTT/Runtime/MQTT/Databases/UInt16Database.cs:62-67 | the value leaves the value index whether or not records were deleted |
| UInt16Databases.UInt16Database.GetNextAsWritten | Assets/BestMQTT/Runtime/MQTT/Databases/UInt16Database.cs:119-138 | as written: the scan answers over every record's value, deleted records included |
| UInt16Databases.UInt16Database.GetNext | Assets/BestMQTT/Runtime/MQTT/Databases/UInt16Database.cs:119-138 | as intended: the smallest value a live record holds above the one asked for, or `(false, 0)` |
| UInt16Databases.UInt16Database.Count | Assets/BestMQTT/Runtime/MQTT/Databases/UInt16Database.cs:140-144 | the index's element count cut to 16 bits; with an exact index, the number of distinct live values cut to 16 bits |
| OutgoingPacketDatabases.WithoutId | Assets/BestMQTT/Runtime/MQTT/Databases/OutgoingPacketDatabase.cs:159-178 | the queue without every entry for an identifier holds exactly the other identifiers |
| OutgoingPacketDatabases.WithoutAbsent | Assets/BestMQTT/Runtime/MQTT/Databases/OutgoingPacketDatabase.cs:159-178 | removing an identifier that is not queued leaves the queue unchanged |
| OutgoingPacketDatabases.FirstAboveIndex | Assets/BestMQTT/Runtime/MQTT/Databases/OutgoingPacketDatabase.cs:201 | the first position in queue order whose identifier is above the one asked for; every earlier one is not above it |
| OutgoingPacketDatabases.QueueLength | Assets/BestMQTT/Runtime/MQTT/Databases/OutgoingPacketDatabase.cs:217-221 | the queue has one entry per live record |
| OutgoingPacketDatabases.QueueAppend | Assets/BestMQTT/Runtime/MQTT/Databases/OutgoingPacketDatabase.cs:131-152 | a record appended after the last slot joins the queue at its end |
| OutgoingPacketDatabases.QueueHead | Assets/BestMQTT/Runtime/MQTT/Databases/OutgoingPacketDatabase.cs:184 | the first live record in slot order is the head of the queue, and the queue after it is the rest |
| OutgoingPacketDatabases.QueueIds | Assets/BestMQTT/Runtime/MQTT/Databases/OutgoingPacketDatabase.cs:211-215 | an identifier is queued exactly when a live record holds it |
| OutgoingPacketDatabases.QueueDeleteAll | Assets/BestMQTT/Runtime/MQTT/Databases/OutgoingPacketDatabase.cs:159-178 | deleting every live record of an identifier takes exactly its entries out of the queue, keeping the order of the rest |
| OutgoingPacketDatabases.FirstAboveStep | Assets/BestMQTT/Runtime/MQTT/Databases/OutgoingPacketDatabase.cs:201 | a record that is deleted or not above the identifier does not change the scan's answer |
| OutgoingPacketDatabases.InUse | Assets/BestMQTT/Runtime/MQTT/Databases/OutgoingPacketDatabase.cs:211-215 | an identifier the index holds is queued; with an exact index, the converse too |
| OutgoingPacketDatabases.OutgoingPacketDatabase.constructor | Assets/BestMQTT/Runtime/MQTT/Databases/OutgoingPacketDatabase.cs:134-141 | an empty, clean store with an empty queue |
| OutgoingPacketDatabases.OutgoingPacketDatabase.Add | Assets/BestMQTT/Runtime/MQTT/Databases/OutgoingPacketDatabase.cs:143-152 | the packet joins the end of the queue and the store is dirty |
| OutgoingPacketDatabases.OutgoingPacketDatabase.DeleteRecord | Assets/BestMQTT/Runtime/MQTT/Databases/OutgoingPacketDatabase.cs:172 | one record is deleted and its identifier leaves the identifier index |
| OutgoingPacketDatabases.OutgoingPacketDatabase.TryRemoveByPacketId | Assets/BestMQTT/Runtime/MQTT/Databases/OutgoingPacketDatabase.cs:159-178 | answers whether the identifier was indexed; if so its packets leave the queue, the rest keeping their order, and the store is dirty; otherwise nothing changes |
| OutgoingPacketDatabases.OutgoingPacketDatabase.DeleteListed | Assets/BestMQTT/Runtime/MQTT/Databases/OutgoingPacketDatabase.cs:171-174 | the loop deletes every listed record and the identifier leaves the index |
| OutgoingPacketDatabases.OutgoingPacketDatabase.TryDequeue | Assets/BestMQTT/Runtime/MQTT/Databases/OutgoingPacketDatabase.cs:180-195 | the head of the queue is returned and removed, or nothing when the queue is empty |
| OutgoingPacketDatabases.OutgoingPacketDatabase.FirstLive | Assets/BestMQTT/Runtime/MQTT/Databases/OutgoingPacketDatabase.cs:184 | the scan finds the first live slot |
| OutgoingPacketDatabases.OutgoingPacketDatabase.GetNext | Assets/BestMQTT/Runtime/MQTT/Databases/OutgoingPacketDatabase.cs:197-209 | the first queued packet, in queue order, whose identifier is above the one asked for; the queue is unchanged |
| OutgoingPacketDatabases.OutgoingPacketDatabase.IsPacketIDInUse | Assets/BestMQTT/Runtime/MQTT/Databases/OutgoingPacketDatabase.cs:211-215 | true exactly when the identifier index holds it; such an identifier is queued, and with an exact index every queued identifier is in use |
| OutgoingPacketDatabases.OutgoingPacketDatabase.Count | Assets/BestMQTT/Runtime/MQTT/Databases/OutgoingPacketDatabase.cs:217-221 | the flag index's element count, which is the length of the queue |
| OutgoingPacketDatabases.FirstLiveFrom | Assets/BestMQTT/Runtime/MQTT/Databases/OutgoingPacketDatabase.cs:197-209 | the first live slot from a position, no live slot being skipped before it |
| TopicAliasMappings.HashTopic | Assets/BestMQTT/Runtime/MQTT/Databases/TopicAliasMappingDatabase.cs:92-100 | a record's index key is the MurmurHash2 hash of its topic name; an empty name hashes to 0 |
| TopicAliasMappings.TopicOfLive | Assets/BestMQTT/Runtime/MQTT/Databases/TopicAliasMappingDatabase.cs:170-183 | looking up an alias finds a topic exactly when the alias is non-zero and indexed, and the topic is that of a live record carrying the alias |
| TopicAliasMappings.AliasOfLive | Assets/BestMQTT/Runtime/MQTT/Databases/TopicAliasMappingDatabase.cs:185-204 | a non-empty name whose hash is indexed answers the alias and sent flag of a live record whose name hashes alike |
| TopicAliasMappings.KeyedTotal | Assets/BestMQTT/Runtime/MQTT/Databases/TopicAliasMappingDatabase.cs:82 | an index holding a key counts at least one element |
| TopicAliasMappings.AliasFree | Assets/BestMQTT/Runtime/MQTT/Databases/TopicAliasMappingDatabase.cs:123-143 | an alias the alias index lists nothing under is carried by no live record, so the free-alias scan may hand it out |
| TopicAliasMappings.AliasesAreKeys | Assets/BestMQTT/Runtime/MQTT/Databases/TopicAliasMappingDatabase.cs:52-58 | the keys of the alias index are exactly the aliases of the live records |
| TopicAliasMappings.MappedUnique | Assets/BestMQTT/Runtime/MQTT/Databases/TopicAliasMappingDatabase.cs:145-168 | no two live records carry the same alias |
| TopicAliasMappings.PlacedSound | Assets/BestMQTT/Runtime/MQTT/Databases/TopicAliasMappingDatabase.cs:52-58 | indexing a record placed in a free slot keeps every list pointing at live records with that key |
| TopicAliasMappings.PlacedTracked | Assets/BestMQTT/Runtime/MQTT/Databases/TopicAliasMappingDatabase.cs:52-58 | indexing a placed record keeps every live record listed under its key |
| TopicAliasMappings.PlacedNoRepeats | Assets/BestMQTT/Runtime/MQTT/Databases/TopicAliasMappingDatabase.cs:52-58 | appending a slot a list does not hold keeps every list free of repeats |
| TopicAliasMappings.PlacedAliases | Assets/BestMQTT/Runtime/MQTT/Databases/TopicAliasMappingDatabase.cs:145-151 | placing a live record adds exactly its alias to the aliases in use |
| TopicAliasMappings.PlacedHashed | Assets/BestMQTT/Runtime/MQTT/Databases/TopicAliasMappingDatabase.cs:92-100 | a new record flagged None and keyed by its name's hash keeps every record so |
| TopicAliasMappings.HashListedOnce | Assets/BestMQTT/Runtime/MQTT/Databases/TopicAliasMappingDatabase.cs:60-66 | a record's slot is in its hash's list exactly when the record is live, and only once |
| TopicAliasMappings.UnindexHashSound | Assets/BestMQTT/Runtime/MQTT/Databases/TopicAliasMappingDatabase.cs:60-66 | intended removal: dropping a deleted record's slot from its hash list keeps the hash index pointing at live records |
| TopicAliasMappings.UnindexHashTracked | Assets/BestMQTT/Runtime/MQTT/Databases/TopicAliasMappingDatabase.cs:60-66 | intended removal keeps every other live record listed under its hash |
| TopicAliasMappings.UnindexHashRepeats | Assets/BestMQTT/Runtime/MQTT/Databases/TopicAliasMappingDatabase.cs:60-66 | dropping one slot from a list keeps every list free of repeats |
| TopicAliasMappings.AliasBucketOf | Assets/BestMQTT/Runtime/MQTT/Databases/TopicAliasMappingDatabase.cs:60-66 | a record whose alias no other live record has is alone in its alias's list when live, and its alias lists nothing otherwise |
| TopicAliasMappings.UnindexAliasSound | Assets/BestMQTT/Runtime/MQTT/Databases/TopicAliasMappingDatabase.cs:60-66 | removing a deleted record's alias keeps the alias index pointing at live records |
| TopicAliasMappings.UnindexAliasTracked | Assets/BestMQTT/Runtime/MQTT/Databases/TopicAliasMappingDatabase.cs:60-66 | removing a deleted record's alias keeps every other live record listed under its alias |
| TopicAliasMappings.RemoveUnderTotal | Assets/BestMQTT/Runtime/MQTT/Databases/TopicAliasMappingDatabase.cs:82 | dropping a slot from a list lowers the element count by one exactly when the list held it |
| TopicAliasMappings.SingleLookup | Assets/BestMQTT/Runtime/MQTT/Databases/TopicAliasMappingDatabase.cs:145-151 | an alias the index holds lists exactly one slot |
| TopicAliasMappings.DeletedKeeps | Assets/BestMQTT/Runtime/MQTT/Databases/TopicAliasMappingDatabase.cs:153-168 | deleting a record keeps every record flagged None and keyed by its name's hash |
| TopicAliasMappings.ListedGone | Assets/BestMQTT/Runtime/MQTT/Databases/TopicAliasMappingDatabase.cs:153-168 | once the records listed under an alias are deleted, no live record carries it |
| TopicAliasMappings.AliasListed | Assets/BestMQTT/Runtime/MQTT/Databases/TopicAliasMappingDatabase.cs:170-183 | an alias the index holds belongs to a live record |
| TopicAliasMappings.AliasesAfterDelete | Assets/BestMQTT/Runtime/MQTT/Databases/TopicAliasMappingDatabase.cs:153-168 | deleting the records listed under an alias takes exactly that alias out of those in use |
| TopicAliasMappings.AliasGone | Assets/BestMQTT/Runtime/MQTT/Databases/TopicAliasMappingDatabase.cs:153-168 | after that deletion no sound alias index holds the alias, and the aliases in use lose exactly it |
| TopicAliasMappings.SentSound | Assets/BestMQTT/Runtime/MQTT/Databases/TopicAliasMappingDatabase.cs:212-224 | changing only sent flags keeps an index pointing at live records with its keys |
| TopicAliasMappings.SentTracked | Assets/BestMQTT/Runtime/MQTT/Databases/TopicAliasMappingDatabase.cs:212-224 | changing only sent flags keeps every live record listed |
| TopicAliasMappings.SentHashed | Assets/BestMQTT/Runtime/MQTT/Databases/TopicAliasMappingDatabase.cs:212-224 | changing only sent flags keeps the records hashed and every alias naming the same topic |
| TopicAliasMappings.SentAliases | Assets/BestMQTT/Runtime/MQTT/Databases/TopicAliasMappingDatabase.cs:212-224 | changing only sent flags leaves the aliases in use unchanged |
| TopicAliasMappings.OneEntry | Assets/BestMQTT/Runtime/Database/Indexing/AVLTree.cs:210-256 | lookup, removal and element count over a one-key index |
| TopicAliasMappings.TwoEntries | Assets/BestMQTT/Runtime/Database/Indexing/AVLTree.cs:210-256 | lookup, removal and element count over a two-key index follow from its second key |
| TopicAliasMappings.TwoAliasesBuckets | Assets/BestMQTT/Runtime/MQTT/Databases/TopicAliasMappingDatabase.cs:145-151 | the store holding one name under aliases 1 and 2 lists both slots under the hash and each alone under its alias |
| TopicAliasMappings.TwoAliasesHashed | Assets/BestMQTT/Runtime/MQTT/Databases/TopicAliasMappingDatabase.cs:92-100 | both records of that store are flagged None and keyed by the name's hash |
| TopicAliasMappings.TwoAliasesCounts | Assets/BestMQTT/Runtime/MQTT/Databases/TopicAliasMappingDatabase.cs:82 | that store's hash list has no repeat, each alias lists one slot, and both indexes count two |
| TopicAliasMappings.TwoAliasesSound | Assets/BestMQTT/Runtime/MQTT/Databases/TopicAliasMappingDatabase.cs:52-58 | both indexes of that store point at live records with their keys |
| TopicAliasMappings.TwoAliasesTracked | Assets/BestMQTT/Runtime/MQTT/Databases/TopicAliasMappingDatabase.cs:52-58 | both indexes of that store list both records |
| TopicAliasMappings.HashListDropped | Assets/BestMQTT/Runtime/MQTT/Databases/TopicAliasMappingDatabase.cs:60-66 | as written: re-setting alias 1 drops the whole hash list, so alias 2 stays in use while the name finds no alias and the count is 0 |
| TopicAliasMappings.HashListKept | Assets/BestMQTT/Runtime/MQTT/Databases/TopicAliasMappingDatabase.cs:60-66 | intended: dropping only the deleted slot keeps the name answering alias 2 and the count at 1 |
| TopicAliasMappings.HashListKeptUnder | Assets/BestMQTT/Runtime/MQTT/Databases/TopicAliasMappingDatabase.cs:60-66 | the same, for any hash of the name |
| TopicAliasMappings.KeyLookup | Assets/BestMQTT/Runtime/Database/Indexing/AVLTree.cs:516-553 | a key of the index has a list |
| TopicAliasMappings.LoadAliasRecord | Assets/BestMQTT/Runtime/MQTT/Databases/TopicAliasMappingDatabase.cs:38-44 | a loaded record never carries the sent flag, which is not stored |
| TopicAliasMappings.AliasRecordLoadsFromParts | Assets/BestMQTT/Runtime/MQTT/Databases/TopicAliasMappingDatabase.cs:30-44 | a record whose metadata, hash and alias decode in turn loads as that record with the sent flag cleared |
| TopicAliasMappings.AliasRecordLength | Assets/BestMQTT/Runtime/MQTT/Databases/TopicAliasMappingDatabase.cs:30-36 | a saved record is as long as its metadata, hash and alias encodings |
| TopicAliasMappings.AliasRecordSlices | Assets/BestMQTT/Runtime/MQTT/Databases/TopicAliasMappingDatabase.cs:30-36 | a saved record in a stream holds the metadata, the hash and the alias back to back |
| TopicAliasMappingProofs.CountIsAliases | Assets/BestMQTT/Runtime/MQTT/Databases/TopicAliasMappingDatabase.cs:82 | the hash index's element count is the number of aliases in use |
| TopicAliasMappingProofs.AddKeeps | Assets/BestMQTT/Runtime/MQTT/Databases/TopicAliasMappingDatabase.cs:145-151 | adding a record under a free alias keeps records and indexes in agreement, the alias then names the record's topic, and the aliases in use gain exactly it |
| TopicAliasMappingProofs.UnindexKeeps | Assets/BestMQTT/Runtime/MQTT/Databases/TopicAliasMappingDatabase.cs:60-66 | intended removal of a deleted record from both indexes keeps records and indexes in agreement |
| TopicAliasMappingProofs.UnindexStep | Assets/BestMQTT/Runtime/MQTT/Databases/TopicAliasMappingDatabase.cs:60-66 | one more record of a deletion run unindexed keeps the store in agreement with the records deleted so far |
| TopicAliasMappingProofs.UnindexedNext | Assets/BestMQTT/Runtime/MQTT/Databases/TopicAliasMappingDatabase.cs:60-66 | the indexes after one more removal agree with the records deleted so far |
| TopicAliasMappingProofs.SentKeeps | Assets/BestMQTT/Runtime/MQTT/Databases/TopicAliasMappingDatabase.cs:212-224 | changing only sent flags keeps the store in agreement and every alias naming the same topic |
| TopicAliasMappingProofs.ListedForDelete | Assets/BestMQTT/Runtime/MQTT/Databases/TopicAliasMappingDatabase.cs:153-168 | the slots an alias lists are at least one, all live and none locked |
| TopicAliasMappingProofs.DeletedListGone | Assets/BestMQTT/Runtime/MQTT/Databases/TopicAliasMappingDatabase.cs:153-168 | deleting what an alias lists frees the alias and removes exactly it from the aliases in use |
| TopicAliasMappingProofs.ClearedAll | Assets/BestMQTT/Runtime/MQTT/Databases/TopicAliasMappingDatabase.cs:68-74 | clearing a store of None records deletes every live record, whatever keepUserAdded says |
| TopicAliasMappingProofs.Emptied | Assets/BestMQTT/Runtime/MQTT/Databases/TopicAliasMappingDatabase.cs:68-74 | a store with no live record has empty indexes and no alias in use |
| TopicAliasMappingProofs.TwoAliasesMapped | Assets/BestMQTT/Runtime/MQTT/Databases/TopicAliasMappingDatabase.cs:145-151 | the two-alias store is a well-formed store |
| TopicAliasMappingDatabases.TopicAliasMappingDatabase.constructor | Assets/BestMQTT/Runtime/MQTT/Databases/TopicAliasMappingDatabase.cs:117-121 | a new store is empty, clean and has no alias in use |
| TopicAliasMappingDatabases.TopicAliasMappingDatabase.FindFreeAlias | Assets/BestMQTT/Runtime/MQTT/Databases/TopicAliasMappingDatabase.cs:123-143 | the smallest alias in 1..max not in use, or 0 exactly when all of them are |
| TopicAliasMappingDatabases.TopicAliasMappingDatabase.AddRecord | Assets/BestMQTT/Runtime/MQTT/Databases/TopicAliasMappingDatabase.cs:145-151 | the record goes into the first free slot, the alias names the topic, and the aliases in use gain exactly it |
| TopicAliasMappingDatabases.TopicAliasMappingDatabase.PlaceRecord | Assets/BestMQTT/Runtime/MQTT/Databases/TopicAliasMappingDatabase.cs:92-100 | the new record's metadata takes the first free slot, flagged None |
| TopicAliasMappingDatabases.TopicAliasMappingDatabase.IndexRecord | Assets/BestMQTT/Runtime/MQTT/Databases/TopicAliasMappingDatabase.cs:52-58 | the slot is appended under the hash and listed alone under the alias |
| TopicAliasMappingDatabases.TopicAliasMappingDatabase.Add | Assets/BestMQTT/Runtime/MQTT/Databases/TopicAliasMappingDatabase.cs:123-143 | fails, changing nothing, exactly when every alias 1..max is in use; otherwise hands out the smallest free one and adds it |
| TopicAliasMappingDatabases.TopicAliasMappingDatabase.Set | Assets/BestMQTT/Runtime/MQTT/Databases/TopicAliasMappingDatabase.cs:153-168 | the alias's old records are deleted and a new record for the topic takes the first free slot; the alias then names the topic |
| TopicAliasMappingDatabases.TopicAliasMappingDatabase.DeleteListed | Assets/BestMQTT/Runtime/MQTT/Databases/TopicAliasMappingDatabase.cs:153-168 | the records an alias lists are deleted and the alias is no longer in use |
| TopicAliasMappingDatabases.TopicAliasMappingDatabase.DropRecords | Assets/BestMQTT/Runtime/MQTT/Databases/TopicAliasMappingDatabase.cs:60-66 | the listed records are deleted and the store stays in agreement |
| TopicAliasMappingDatabases.TopicAliasMappingDatabase.Clear | Assets/BestMQTT/Runtime/MQTT/Databases/TopicAliasMappingDatabase.cs:68-74 | every record is deleted, both indexes are emptied, and the store is dirty exactly when it was or something was deleted |
| TopicAliasMappingDatabases.TopicAliasMappingDatabase.UnindexDeleted | Assets/BestMQTT/Runtime/MQTT/Databases/TopicAliasMappingDatabase.cs:60-66 | after deleting records, dropping each from both indexes brings the indexes back into agreement |
| TopicAliasMappingDatabases.TopicAliasMappingDatabase.RemoveIndexed | Assets/BestMQTT/Runtime/MQTT/Databases/TopicAliasMappingDatabase.cs:60-66 | intended removal: only the record's slot leaves its hash list, and its alias leaves the alias index |
| TopicAliasMappingDatabases.TopicAliasMappingDatabase.FindTopic | Assets/BestMQTT/Runtime/MQTT/Databases/TopicAliasMappingDatabase.cs:170-183 | a topic is found exactly when the alias is non-zero and in use, and it is a live record's topic |
| TopicAliasMappingDatabases.TopicAliasMappingDatabase.FindAlias | Assets/BestMQTT/Runtime/MQTT/Databases/TopicAliasMappingDatabase.cs:185-204 | an empty or unknown name answers (0, false); a known one answers a live record whose name hashes alike |
| TopicAliasMappingDatabases.TopicAliasMappingDatabase.Count | Assets/BestMQTT/Runtime/MQTT/Databases/TopicAliasMappingDatabase.cs:206-210 | the number of aliases in use, cut to 16 bits |
| TopicAliasMappingDatabases.TopicAliasMappingDatabase.SetSent | Assets/BestMQTT/Runtime/MQTT/Databases/TopicAliasMappingDatabase.cs:212-224 | an unknown alias changes nothing; otherwise only the first listed record's sent flag changes, and every alias still names the same topic |
| MurmurHash.Hash | Assets/BestMQTT/Runtime/MQTT/Databases/TopicAliasMappingDatabase.cs:247-289 | the hash loop computes the MurmurHash2 function of the bytes, and an empty input hashes to 0 |
| MurmurHash.HashBlocks | Assets/BestMQTT/Runtime/MQTT/Databases/TopicAliasMappingDatabase.cs:253-264 | the block loop mixes every whole four-byte block in order and stops at the first byte of the tail |
| MurmurHash.BlocksStep | Assets/BestMQTT/Runtime/MQTT/Databases/TopicAliasMappingDatabase.cs:253-264 | mixing one more block extends the blocks mixed so far |
| MurmurHash.WholeBlocks | Assets/BestMQTT/Runtime/MQTT/Databases/TopicAliasMappingDatabase.cs:253-264 | the block count is the length divided by four |
| Subscriptions.NewTopicFilter | Assets/BestMQTT/Runtime/MQTT/Subscription.cs:16-25 | a filter is accepted exactly when it is non-empty, and kept unchanged |
| Subscriptions.SkipLevel | Assets/BestMQTT/Runtime/MQTT/Subscription.cs:27-95 | the end of a topic level: the next `/` at or after the position, or the end of the name, with no `/` in between |
| Subscriptions.IsMatching | Assets/BestMQTT/Runtime/MQTT/Subscription.cs:27-95 | the character scan refuses an empty topic name and otherwise answers whether the filter selects the name |
| Subscriptions.DollarTopicsHidden | Assets/BestMQTT/Runtime/MQTT/Subscription.cs:27-95 | a filter starting with a wildcard never selects a name starting with `$` |
| Subscriptions.HashAloneMatchesAll | Assets/BestMQTT/Runtime/MQTT/Subscription.cs:27-95 | `#` selects every non-empty name that does not start with `$` |
| Subscriptions.ScanLiteral | Assets/BestMQTT/Runtime/MQTT/Subscription.cs:27-95 | over a stretch of filter without wildcards the scan compares character by character: equal text continues, the first difference fails |
| Subscriptions.LiteralMatchesItself | Assets/BestMQTT/Runtime/MQTT/Subscription.cs:27-95 | a filter without wildcards selects exactly the name equal to it |
| Subscriptions.MultiLevelWildcard | Assets/BestMQTT/Runtime/MQTT/Subscription.cs:27-95 | `p/#` selects `p` itself and every name below `p/`, and nothing else |
| Subscriptions.SingleLevelWildcard | Assets/BestMQTT/Runtime/MQTT/Subscription.cs:27-95 | `p/+` selects exactly the names one level below `p` |
| Subscriptions.SingleLevelExamples | Assets/BestMQTT/Runtime/MQTT/Subscription.cs:27-95 | `sport/tennis/+` selects `sport/tennis/player1` but not a name one level deeper |
| Subscriptions.MultiLevelExamples | Assets/BestMQTT/Runtime/MQTT/Subscription.cs:27-95 | `#` at the end also selects the parent level |
| Subscriptions.DollarTopicExamples | Assets/BestMQTT/Runtime/MQTT/Subscription.cs:27-95 | neither `#` nor `+/monitor/Clients` selects `$SYS/monitor/Clients` |
| Subscriptions.Subscription.constructor | Assets/BestMQTT/Runtime/MQTT/Subscription.cs:124-129 | a new subscription has its identifier and no topics |
| Subscriptions.Subscription.AddTopic | Assets/BestMQTT/Runtime/MQTT/Subscription.cs:131-135 | the topic is appended to the list |
| Subscriptions.Subscription.TryRemoveTopic | Assets/BestMQTT/Runtime/MQTT/Subscription.cs:137-151 | a topic is found exactly when some topic has the filter; the first such one is removed; the subscription is to go exactly when no topic is left |
| Subscriptions.RemoveFirstFilter | Assets/BestMQTT/Runtime/MQTT/Subscription.cs:137-151 | removing the first topic with a filter shortens the list by one exactly when some topic has it |
| Subscriptions.RemoveFirstFilterAt | Assets/BestMQTT/Runtime/MQTT/Subscription.cs:137-151 | removing the first topic with a filter cuts out exactly its position |
| Subscriptions.RemoveFirstFilterAbsent | Assets/BestMQTT/Runtime/MQTT/Subscription.cs:137-151 | a filter no topic has removes nothing |
| Subscriptions.Subscription.HasMatchingTopic | Assets/BestMQTT/Runtime/MQTT/Subscription.cs:153-160 | true exactly when some topic's filter selects the name; an empty name throws once a topic is tried |
| ServerConnectAcks.FromPacket | Assets/BestMQTT/Runtime/MQTT/Packets/ServerConnectAckMessage.cs:43-107 | every absent limit takes its default: receive maximum 65535, packet size the 32-bit maximum, QoS 2, no aliases, retain available, no session expiry |
| ServerConnectAcks.AbsentDefaults | Assets/BestMQTT/Runtime/MQTT/Packets/ServerConnectAckMessage.cs:43-107 | with no properties every field takes its default, every feature is available and no optional value is set |
| ServerConnectAcks.PresentOverridesDefault | Assets/BestMQTT/Runtime/MQTT/Packets/ServerConnectAckMessage.cs:43-107 | a property present with the expected data type replaces the default, cast to the field's width |
| ServerConnectAcks.FlagsAndReasonCode | Assets/BestMQTT/Runtime/MQTT/Packets/ServerConnectAckMessage.cs:43-107 | the session is present exactly when bit 0 of the first field is set, and the reason code is the second field cut to a byte |
| ApplicationMessages.QoSOfFlags | Assets/BestMQTT/Runtime/MQTT/Packets/Builders/ApplicationMessagePacketBuilder.cs:68-79 | the QoS read from bits 2 and 1 of the flags is at most 3 |
| ApplicationMessages.QoSFromBits | Assets/BestMQTT/Runtime/MQTT/Packets/Builders/ApplicationMessagePacketBuilder.cs:68-79 | flags with bit 1 set exactly for QoS 1 and bit 2 exactly for QoS 2 carry that QoS |
| ApplicationMessages.ReservedBitAbsorbed | Assets/BestMQTT/Runtime/MQTT/Packets/Builders/ApplicationMessagePacketBuilder.cs:241-244 | the bit 4 that Build sets falls inside the PUBLISH type code: the first byte is the same with or without it |
| ApplicationMessages.BuildAccepts | Assets/BestMQTT/Runtime/MQTT/Packets/Builders/ApplicationMessagePacketBuilder.cs:228-262 | Build accepts exactly a QoS within the server's maximum, a non-empty topic name and an alias within the server's maximum |
| ApplicationMessages.FindFromAppend | Assets/BestMQTT/Runtime/MQTT/Packets/Builders/ApplicationMessagePacketBuilder.cs:256 | a property appended to the list is found only when no earlier one matched |
| ApplicationMessages.FirstAliasChecked | Assets/BestMQTT/Runtime/MQTT/Packets/Builders/ApplicationMessagePacketBuilder.cs:256-261 | the alias Build checks is the first one added; a later one is never seen |
| ApplicationMessages.PublishHeaderSize | Assets/BestMQTT/Runtime/MQTT/Packets/Builders/ApplicationMessagePacketBuilder.cs:248-267 | the variable header is the length-prefixed topic name, two bytes of identifier when there is one, and the property list for version 5 |
| ApplicationMessages.NewPublishPacket | Assets/BestMQTT/Runtime/MQTT/Packets/Builders/ApplicationMessagePacketBuilder.cs:238-273 | a new PUBLISH packet with the flags copied, the topic name, the identifier when above 0, the properties for version 5 and the payload when there is one |
| ApplicationMessages.ApplicationMessagePacketBuilder.constructor | Assets/BestMQTT/Runtime/MQTT/Packets/Builders/ApplicationMessagePacketBuilder.cs:30-41 | a new builder has no flags, QoS 0, no topic, identifier 0, no properties and no payload |
| ApplicationMessages.ApplicationMessagePacketBuilder.WithDuplicate | Assets/BestMQTT/Runtime/MQTT/Packets/Builders/ApplicationMessagePacketBuilder.cs:47-51 | sets bit 3 and no other |
| ApplicationMessages.ApplicationMessagePacketBuilder.WithPacketId | Assets/BestMQTT/Runtime/MQTT/Packets/Builders/ApplicationMessagePacketBuilder.cs:56-63 | refused exactly for a non-zero identifier at QoS 0; otherwise only the identifier changes |
| ApplicationMessages.ApplicationMessagePacketBuilder.WithQoS | Assets/BestMQTT/Runtime/MQTT/Packets/Builders/ApplicationMessagePacketBuilder.cs:68-79 | the flags carry the new QoS, and QoS 0 resets the identifier |
| ApplicationMessages.ApplicationMessagePacketBuilder.WithRetain | Assets/BestMQTT/Runtime/MQTT/Packets/Builders/ApplicationMessagePacketBuilder.cs:84-88 | bit 0 is the retain flag and no other bit changes |
| ApplicationMessages.ApplicationMessagePacketBuilder.WithTopicName | Assets/BestMQTT/Runtime/MQTT/Packets/Builders/ApplicationMessagePacketBuilder.cs:93-99 | a name holding `#` or `+` is refused, leaving the builder as it was; any other is kept |
| ApplicationMessages.ApplicationMessagePacketBuilder.WithTopicAlias | Assets/BestMQTT/Runtime/MQTT/Packets/Builders/ApplicationMessagePacketBuilder.cs:128-134 | refused before version 5 or for alias 0; otherwise the alias property is appended |
| ApplicationMessages.ApplicationMessagePacketBuilder.WithPayload | Assets/BestMQTT/Runtime/MQTT/Packets/Builders/ApplicationMessagePacketBuilder.cs:206-210 | only the payload changes |
| ApplicationMessages.ApplicationMessagePacketBuilder.Build | Assets/BestMQTT/Runtime/MQTT/Packets/Builders/ApplicationMessagePacketBuilder.cs:228-273 | fails exactly on the checks above; bit 4 is set once the QoS and name checks pass; a built packet carries the builder's header fields and payload |
| ClientModels.RankInjective | Assets/BestMQTT/Runtime/MQTT/MQTTClient.Public.cs:19-27 | the client states are totally ordered by declaration: equal ranks are equal states |
| ClientModels.DisconnectCodesDistinct | Assets/BestMQTT/Runtime/MQTT/MQTTClient.cs:258-285 | each internal error type sends its own declared disconnect reason code, an error code |
| ClientModels.SwitchCodeIsError | Assets/BestMQTT/Runtime/MQTT/MQTTClient.PacketHandlers.cs:514 | a refused CONNACK is reported with its own code when the disconnect codes declare it, and with Unspecified error otherwise |
| ClientModels.Incremented | Assets/BestMQTT/Runtime/MQTT/MQTTClient.PacketHandlers.cs:21 | the quota after one unit comes back never exceeds its maximum |
| ClientModels.IncrementedGrows | Assets/BestMQTT/Runtime/MQTT/MQTTClient.PacketHandlers.cs:21 | below the maximum the quota grows by one; at a maximum below 65535 it stays; at 65535 the 16-bit cast wraps it to 0 |
| ClientModels.InitialQuota | Assets/BestMQTT/Runtime/MQTT/MQTTClient.PacketHandlers.cs:454 | the quota a CONNACK sets is at least 1 and at most a non-zero Receive Maximum; a Receive Maximum of 0 wraps to 65535 |
| ClientModels.CandidateAsWritten | Assets/BestMQTT/Runtime/MQTT/MQTTClient.cs:115-128 | the identifier tried as written lies in 1..65534 |
| ClientModels.CandidateAsWrittenRepeats | Assets/BestMQTT/Runtime/MQTT/MQTTClient.cs:115-128 | as written, the counter values at each wrap and the one after both try identifier 1 |
| ClientModels.Candidate | Assets/BestMQTT/Runtime/MQTT/MQTTClient.cs:115-128 | the intended identifier for a counter value lies in 1..65534 |
| ClientModels.CandidatesDistinct | Assets/BestMQTT/Runtime/MQTT/MQTTClient.cs:115-128 | fewer than 65534 consecutive counter values never try the same identifier twice |
| ClientModels.CandidateReaches | Assets/BestMQTT/Runtime/MQTT/MQTTClient.cs:115-128 | every identifier in 1..65534 is tried within 65534 counter values |
| ClientModels.NextIdentifier | Assets/BestMQTT/Runtime/MQTT/MQTTClient.cs:115-128 | the identifier handed out from a counter value is a candidate held by no unacknowledged or released packet, the one the counter stood at just before it ends; with none found, the counter has moved past every candidate tried |
| ClientModels.NextIdentifierPasses | Assets/BestMQTT/Runtime/MQTT/MQTTClient.cs:115-128 | a run of candidates that are all held is passed over: the search gives what it gives from the first candidate after the run |
| ClientModels.NextIdentifierSkips | Assets/BestMQTT/Runtime/MQTT/MQTTClient.cs:115-128 | every candidate the search passes over before the one it hands out, or every candidate tried when it finds none, is held by an unacknowledged or released packet |
| ClientModels.NextIdentifierLap | Assets/BestMQTT/Runtime/MQTT/MQTTClient.cs:115-128 | a lap of 65534 candidates finds no identifier exactly when every identifier in 1..65534 is held |
| ClientModels.DistanceStep | Assets/BestMQTT/Runtime/MQTT/MQTTClient.cs:115-128 | each counter step that misses an identifier comes one step nearer to it |
| ClientModels.Kept | Assets/BestMQTT/Runtime/MQTT/MQTTClient.Public.cs:67-129 | a flush writes exactly the waiting packets that fit the server's maximum packet size, in order |
| ClientModels.KeptAppend | Assets/BestMQTT/Runtime/MQTT/MQTTClient.Public.cs:67-129 | flushing two runs of packets writes what flushing each run writes, one after the other |
| ClientModels.KeptAll | Assets/BestMQTT/Runtime/MQTT/MQTTClient.Public.cs:67-129 | without a usable server maximum every packet is written |
| ClientModels.Singles | Assets/BestMQTT/Runtime/MQTT/MQTTClient.cs:161-170 | unbuffered sending hands the transport one batch per packet |
| ClientModels.AliasFind | Assets/BestMQTT/Runtime/MQTT/Databases/TopicAliasMappingDatabase.cs:185-204 | the alias found for a topic name names some topic |
| ClientModels.DistinctAppend | Assets/BestMQTT/Runtime/MQTT/Databases/TopicAliasMappingDatabase.cs:145-151 | adding an entry under an alias not yet held keeps aliases distinct |
| ClientModels.WithoutAlias | Assets/BestMQTT/Runtime/MQTT/Databases/TopicAliasMappingDatabase.cs:153-168 | after dropping an alias it names nothing, every other alias keeps its topic, and aliases stay distinct |
| ClientModels.AliasSet | Assets/BestMQTT/Runtime/MQTT/Databases/TopicAliasMappingDatabase.cs:153-168 | setting an alias keeps aliases distinct |
| ClientModels.AliasTopicAppend | Assets/BestMQTT/Runtime/MQTT/Databases/TopicAliasMappingDatabase.cs:170-183 | an alias lookup over two runs of entries answers from the first run that holds it |
| ClientModels.AliasSetNames | Assets/BestMQTT/Runtime/MQTT/Databases/TopicAliasMappingDatabase.cs:153-168 | after Set the alias names the new topic and every other alias keeps its own |
| ClientModels.MarkSent | Assets/BestMQTT/Runtime/MQTT/Databases/TopicAliasMappingDatabase.cs:212-224 | marking an alias sent changes no alias's topic and keeps aliases distinct |
| ClientModels.MarkSentFound | Assets/BestMQTT/Runtime/MQTT/Databases/TopicAliasMappingDatabase.cs:212-224 | the alias found for a topic, once marked sent, is found again for it, now sent |
| ClientModels.FreeAlias | Assets/BestMQTT/Runtime/MQTT/Databases/TopicAliasMappingDatabase.cs:123-143 | the smallest alias in the range no entry holds, or 0 exactly when every one is taken |
| ClientModels.BuildRefusal | Assets/BestMQTT/Runtime/MQTT/Packets/Builders/ApplicationMessagePacketBuilder.cs:228-262 | intended checks: a packet is refused exactly for a QoS above the server's maximum, for no name and no alias, or for an alias above the server's maximum |
| ClientModels.SecondAliasedPublishRefused | Assets/BestMQTT/Runtime/MQTT/Packets/Builders/ApplicationMessagePacketBuilder.cs:236-237 | as intended, the second publish to an aliased topic carries only the alias; Build as written would refuse its empty name, and the intended checks accept both publishes |
| ClientModels.ReplenishTakesPrefix | Assets/BestMQTT/Runtime/MQTT/MQTTClient.PacketHandlers.cs:19-40 | replenishing takes a prefix of the queue, sends its packets with an identifier in order for one unit of quota each, and stops only without quota or queue |
| ClientModels.FirstDuplicate | Assets/BestMQTT/Runtime/MQTT/MQTTClient.PacketHandlers.cs:230-240 | the position of the first QoS 2 message whose identifier is already received; none before it is one |
| ClientModels.RaisedAppend | Assets/BestMQTT/Runtime/MQTT/MQTTClient.PacketHandlers.cs:321-324 | the application messages raised by two runs of callbacks are those of each run in turn |
| ClientModels.NoneRaisedMatching | Assets/BestMQTT/Runtime/MQTT/MQTTClient.PacketHandlers.cs:285-318 | topic callbacks raise no application message |
| ClientModels.DeliveriesRaiseNothing | Assets/BestMQTT/Runtime/MQTT/MQTTClient.PacketHandlers.cs:259-319 | a message's topic callbacks raise no application message |
| ClientModels.DispatchRaisesUpToDuplicate | Assets/BestMQTT/Runtime/MQTT/MQTTClient.PacketHandlers.cs:230-329 | a delivery loop that runs to its end raises every message before the first duplicate, in order, and none after it |
| ClientModels.RaisedStep | Assets/BestMQTT/Runtime/MQTT/MQTTClient.PacketHandlers.cs:321-324 | one message's callbacks then the rest raise that message, then what the rest raises |
| ClientModels.FirstDuplicateStep | Assets/BestMQTT/Runtime/MQTT/MQTTClient.PacketHandlers.cs:230-240 | the messages before the first duplicate are the first message and those of the rest |
| ClientModels.UnsubscribedRemovesOnlyTopic | Assets/BestMQTT/Runtime/MQTT/MQTTClient.PacketHandlers.cs:140-183 | a subscription goes exactly when the filter was its only topic; one without the filter keeps all its topics |
| ClientModels.CodeAt | Assets/BestMQTT/Runtime/MQTT/Packets/DataContainer.cs:18-21 | the reason code the UNSUBACK payload answers at a position: its own field in a longer payload, the single code of a one-code payload, and 0 from an empty payload, whatever the position |
| ClientModels.AckedCount | Assets/BestMQTT/Runtime/MQTT/MQTTClient.PacketHandlers.cs:149-176 | the UNSUBACK loop handles every filter when the payload holds one code or none, and otherwise the filters that have a code |
| ClientModels.AckEvents | Assets/BestMQTT/Runtime/MQTT/MQTTClient.PacketHandlers.cs:140-183 | one acknowledgement callback per filter, in order, with the code the payload answers at its position |
| ClientModels.AckEventsShortPayload | Assets/BestMQTT/Runtime/MQTT/MQTTClient.PacketHandlers.cs:149-176 | an UNSUBACK with no code reports every filter with code 0, one with a single code reports that code for every filter, and every filter is handled |
| ClientModels.UnsubscribedAllKeeps | Assets/BestMQTT/Runtime/MQTT/MQTTClient.PacketHandlers.cs:140-183 | unsubscribing never adds a subscription, and one holding none of the filters is left as it was |
| ClientModels.NextFrom | Assets/BestMQTT/Runtime/MQTT/Databases/UInt16Database.cs:119-138 | the next identifier found is a member at or above the start |
| ClientModels.AscendingNext | Assets/BestMQTT/Runtime/MQTT/MQTTClient.PacketHandlers.cs:576-584 | the ascending listing goes from one next identifier to the next |
| ClientModels.AscendingMembers | Assets/BestMQTT/Runtime/MQTT/MQTTClient.PacketHandlers.cs:576-584 | the listing holds exactly the members from the start, strictly ascending |
| ClientModels.AscendingIn | Assets/BestMQTT/Runtime/MQTT/MQTTClient.PacketHandlers.cs:576-584 | the listing holds exactly the members from the start below 65535 |
| ClientModels.AscendingSorted | Assets/BestMQTT/Runtime/MQTT/MQTTClient.PacketHandlers.cs:576-584 | the listing is strictly ascending |
| ClientModels.NextFromIsNext | Assets/BestMQTT/Runtime/MQTT/Databases/UInt16Database.cs:119-138 | the next member above an identifier is the smallest member above it |
| ClientModels.Resends | Assets/BestMQTT/Runtime/MQTT/MQTTClient.PacketHandlers.cs:540-565 | one resent PUBLISH per record, in order, with its identifier and DUP set |
| ClientModels.Releases | Assets/BestMQTT/Runtime/MQTT/MQTTClient.PacketHandlers.cs:576-584 | one PUBREL with Success per identifier, in order, and for no other identifier |
| ClientModels.ReleasedOrder | Assets/BestMQTT/Runtime/MQTT/MQTTClient.PacketHandlers.cs:576-584 | the released identifiers in 1..65534 in strictly ascending order |
| ClientModels.RetryResendsAll | Assets/BestMQTT/Runtime/MQTT/MQTTClient.PacketHandlers.cs:528-586 | with quota for all, every unacknowledged packet is resent in order, then every released identifier gets its PUBREL |
| ClientModels.RetryResendsPrefix | Assets/BestMQTT/Runtime/MQTT/MQTTClient.PacketHandlers.cs:528-586 | whatever the quota, the retry resends the first unacknowledged packets the quota allows, in order, and only PUBRELs follow |
| ClientModels.RetryReleasesAll | Assets/BestMQTT/Runtime/MQTT/MQTTClient.PacketHandlers.cs:574-585 | whatever the quota, the retry sends a PUBREL with Success for exactly the released identifiers |
| ClientModels.ResendsPublishOnly | Assets/BestMQTT/Runtime/MQTT/MQTTClient.PacketHandlers.cs:540-565 | the resend pass sends PUBLISH packets only |
| ClientModels.ChainStopsAtHigher | Assets/BestMQTT/Runtime/MQTT/MQTTClient.PacketHandlers.cs:538-569 | as written, the resend chain over packets 5 then 3 holds 5 only |
| ClientModels.RetrySkipsLowerIdentifier | Assets/BestMQTT/Runtime/MQTT/MQTTClient.PacketHandlers.cs:538-569 | as written, packet 5 sent before packet 3 with quota for both: only 5 is resent |
| ClientModels.RetryKeepsLowerIdentifier | Assets/BestMQTT/Runtime/MQTT/MQTTClient.PacketHandlers.cs:538-569 | as intended, the same retry resends both, 5 then 3 |
| ClientModels.RetrySkipsRelease | Assets/BestMQTT/Runtime/MQTT/MQTTClient.PacketHandlers.cs:566-567 | as written, quota running out with the last packet returns before the PUBREL pass, so a release is not resent; as intended it is |
| MQTTClients.Publishes | Assets/BestMQTT/Runtime/MQTT/MQTTClient.PacketHandlers.cs:25-39 | one PUBLISH per queued entry, in order, carrying its identifier |
| MQTTClients.PublishesAppend | Assets/BestMQTT/Runtime/MQTT/MQTTClient.PacketHandlers.cs:25-39 | sending one more queued entry appends its PUBLISH |
| MQTTClients.ReplenishingStep | Assets/BestMQTT/Runtime/MQTT/MQTTClient.PacketHandlers.cs:25-39 | one pass of the replenish loop keeps the loop's invariant: an entry without identifier is sent free, one with an identifier costs a unit of quota |
| MQTTClients.ReplenishingDone | Assets/BestMQTT/Runtime/MQTT/MQTTClient.PacketHandlers.cs:25-39 | when the quota or the queue runs out, the loop has reached exactly what Replenish says |
| MQTTClients.DrainStep | Assets/BestMQTT/Runtime/MQTT/MQTTClient.Public.cs:82-99 | writing one more dequeued packet, when it fits the maximum size, keeps the written batch a prefix of the flush |
| MQTTClients.Drain | Assets/BestMQTT/Runtime/MQTT/MQTTClient.Public.cs:82-99 | the dequeue loop writes exactly the waiting packets that fit the server's maximum packet size, in order |
| MQTTClients.AliasFindNames | Assets/BestMQTT/Runtime/MQTT/Databases/TopicAliasMappingDatabase.cs:185-204 | with no alias held twice, the alias found for a topic names that topic |
| MQTTClients.PublishAliasesName | Assets/BestMQTT/Runtime/MQTT/MQTTClient.Public.cs:300-324 | as intended, a published packet carries its topic name, or an alias that names it in the aliases after the step, and the aliases stay distinct |
| MQTTClients.UnusedAliasAsWritten | Assets/BestMQTT/Runtime/MQTT/MQTTClient.Public.cs:300-324 | as written, a message without properties publishing to a topic with an unsent alias marks the alias sent yet carries the topic name and no alias, twice; the intended step sends name and alias, then the alias alone |
| MQTTClients.UnsubscribeAll | Assets/BestMQTT/Runtime/MQTT/MQTTClient.PacketHandlers.cs:158-180 | the UNSUBACK loop removes the handled filters from the subscriptions in order and reports each with the code the payload answers for it: every filter when the payload holds one code or none, otherwise as many as there are codes |
| MQTTClients.UnsubscribeStep | Assets/BestMQTT/Runtime/MQTT/MQTTClient.PacketHandlers.cs:158-180 | one more filter unsubscribes from the subscriptions left so far and adds its acknowledgement event with the code the payload answers for it |
| MQTTClients.MatchFilters | Assets/BestMQTT/Runtime/MQTT/MQTTClient.PacketHandlers.cs:285-317 | the filter loop raises a topic callback for exactly the filters that match the topic, in order |
| MQTTClients.MatchStep | Assets/BestMQTT/Runtime/MQTT/MQTTClient.PacketHandlers.cs:285-317 | one more filter adds its callback exactly when it matches |
| MQTTClients.Deliver | Assets/BestMQTT/Runtime/MQTT/MQTTClient.PacketHandlers.cs:259-319 | one message's callbacks are those the subscriptions prescribe, or a failure when a filter check throws |
| MQTTClients.DispatchAllCons | Assets/BestMQTT/Runtime/MQTT/MQTTClient.PacketHandlers.cs:230-329 | the delivery of several messages is the first message's callbacks, then the rest delivered with the aliases it leaves |
| MQTTClients.DispatchingStep | Assets/BestMQTT/Runtime/MQTT/MQTTClient.PacketHandlers.cs:230-329 | one pass of the delivery loop keeps its invariant |
| MQTTClients.DispatchingDone | Assets/BestMQTT/Runtime/MQTT/MQTTClient.PacketHandlers.cs:230-329 | the delivery loop stops at the end or at a duplicate having completed, or at a throwing filter check having failed, exactly as DispatchAll says |
| MQTTClients.ReleasedIds | Assets/BestMQTT/Runtime/MQTT/MQTTClient.PacketHandlers.cs:576-584 | the released identifiers are walked in strictly ascending order, each once |
| MQTTClients.ResendPass | Assets/BestMQTT/Runtime/MQTT/MQTTClient.PacketHandlers.cs:538-569 | the resend loop spends one unit of quota per unacknowledged packet and resends the first ones the quota allows, in send order |
| MQTTClients.ReleasePass | Assets/BestMQTT/Runtime/MQTT/MQTTClient.PacketHandlers.cs:574-585 | the release loop sends a PUBREL with Success for each released identifier, ascending |
| MQTTClients.PubRels | Assets/BestMQTT/Runtime/MQTT/MQTTClient.PacketHandlers.cs:578-584 | one PUBREL with Success per identifier, in order |
| MQTTClients.ResendStep | Assets/BestMQTT/Runtime/MQTT/MQTTClient.PacketHandlers.cs:541-569 | one more resent packet keeps the resend loop's output a prefix of the full resend |
| MQTTClients.RetrySplit | Assets/BestMQTT/Runtime/MQTT/MQTTClient.PacketHandlers.cs:528-586 | the resend pass followed by the release pass is the whole retry |
| MQTTClients.MQTTClient.constructor | Assets/BestMQTT/Runtime/MQTT/MQTTClient.cs:150-159 | a new client is Initial, with no quota, no session state, no subscriptions and nothing buffered or written |
| MQTTClients.MQTTClient.SetState | Assets/BestMQTT/Runtime/MQTT/MQTTClient.cs:72-93 | the state becomes the new one, and a change, only a change, is reported |
| MQTTClients.MQTTClient.SetDisconnected | Assets/BestMQTT/Runtime/MQTT/MQTTClient.cs:310-327 | the client ends Disconnected, reporting the change and the disconnect with its code |
| MQTTClients.MQTTClient.Error | Assets/BestMQTT/Runtime/MQTT/MQTTClient.cs:287-308 | the client ends Disconnected and reports the error with its code |
| MQTTClients.MQTTClient.BeginPacketBuffer | Assets/BestMQTT/Runtime/MQTT/MQTTClient.Public.cs:59-62 | one more level of buffering |
| MQTTClients.MQTTClient.EndPacketBuffer | Assets/BestMQTT/Runtime/MQTT/MQTTClient.Public.cs:67-129 | one level less; leaving the last level flushes what waits as one batch, without the packets over the server's maximum size |
| MQTTClients.MQTTClient.Flush | Assets/BestMQTT/Runtime/MQTT/MQTTClient.Public.cs:67-129 | the waiting packets that fit the maximum size go to the transport as one batch and nothing waits |
| MQTTClients.MQTTClient.Send | Assets/BestMQTT/Runtime/MQTT/MQTTClient.cs:161-170 | a packet waits for the flush when buffering, and otherwise goes out on its own |
| MQTTClients.MQTTClient.SendPublishPacket | Assets/BestMQTT/Runtime/MQTT/MQTTClient.cs:242-256 | the PUBLISH is sent; one with an identifier joins the unacknowledged packets and costs one unit of quota |
| MQTTClients.MQTTClient.BeginDisconnect | Assets/BestMQTT/Runtime/MQTT/MQTTClient.Public.cs:188-222 | from a connected or connecting state a DISCONNECT is sent, the queue dropped and the state Disconnecting, or Disconnected when quitting |
| MQTTClients.MQTTClient.MQTTError | Assets/BestMQTT/Runtime/MQTT/MQTTClient.cs:258-285 | the error's own disconnect reason is sent, then the client ends Disconnected with the error reported |
| MQTTClients.MQTTClient.BeginConnect | Assets/BestMQTT/Runtime/MQTT/MQTTClient.Public.cs:139-168 | refused unless Initial; otherwise the state becomes TransportConnecting and the transport is asked to connect |
| MQTTClients.MQTTClient.TransportConnected | Assets/BestMQTT/Runtime/MQTT/MQTTClient.cs:172-205 | before Disconnecting, a CONNECT is sent with the session built for the client identifier; once disconnecting, nothing changes |
| MQTTClients.MQTTClient.TransportDisconnectedWithError | Assets/BestMQTT/Runtime/MQTT/MQTTClient.cs:207-215 | the client ends Disconnected, reporting an Unspecified error unless already disconnected |
| MQTTClients.MQTTClient.TransportDisconnected | Assets/BestMQTT/Runtime/MQTT/MQTTClient.cs:217-226 | the client ends Disconnected with a normal disconnection reported |
| MQTTClients.MQTTClient.GetNextPacketID | Assets/BestMQTT/Runtime/MQTT/MQTTClient.cs:115-128 | the identifier and the new counter are exactly those NextIdentifier gives over a lap from the old counter: the first candidate held by no unacknowledged or released packet, the counter one past it; none exactly when every identifier in 1..65534 is held |
| MQTTClients.MQTTClient.IncrementAndReplenishQueue | Assets/BestMQTT/Runtime/MQTT/MQTTClient.PacketHandlers.cs:19-40 | a unit of quota comes back, then queued packets are sent while quota lasts, each joining the unacknowledged packets |
| MQTTClients.MQTTClient.HandlePublishAck | Assets/BestMQTT/Runtime/MQTT/MQTTClient.PacketHandlers.cs:61-78 | the acknowledged identifier leaves the unacknowledged packets and the queue is replenished |
| MQTTClients.MQTTClient.HandlePublishComplete | Assets/BestMQTT/Runtime/MQTT/MQTTClient.PacketHandlers.cs:83-99 | the identifier leaves the unacknowledged packets and the released ones, and the queue is replenished |
| MQTTClients.MQTTClient.HandlePublishReceived | Assets/BestMQTT/Runtime/MQTT/MQTTClient.PacketHandlers.cs:104-138 | an error code ends the exchange and replenishes; otherwise a PUBREL answers, with Success and the identifier released when it was unacknowledged, with Packet identifier not found when not |
| MQTTClients.MQTTClient.HandlePublishRelease | Assets/BestMQTT/Runtime/MQTT/MQTTClient.PacketHandlers.cs:188-214 | a PUBCOMP answers and the identifier is no longer received |
| MQTTClients.MQTTClient.HandleDisconnect | Assets/BestMQTT/Runtime/MQTT/MQTTClient.PacketHandlers.cs:411-443 | the client ends Disconnected with the server's code, Normal disconnection when absent, and the queue is dropped |
| MQTTClients.MQTTClient.AddSubscription | Assets/BestMQTT/Runtime/MQTT/MQTTClient.cs:228-232 | the subscription is added under its identifier; the others stay |
| MQTTClients.MQTTClient.AddUnsubscription | Assets/BestMQTT/Runtime/MQTT/MQTTClient.cs:234-240 | refused unless connected; the filters wait for their UNSUBACK under the packet identifier, an identifier already waiting kept |
| MQTTClients.MQTTClient.HandleUnsubscribeAck | Assets/BestMQTT/Runtime/MQTT/MQTTClient.PacketHandlers.cs:140-183 | an unknown identifier changes nothing; a known one stops waiting, and its filters are unsubscribed and reported in order with the codes the payload answers: all of them when it holds one code or none (an MQTT 3.1.1 UNSUBACK), otherwise those with a code; no subscription appears |
| MQTTClients.MQTTClient.AddTopicAlias | Assets/BestMQTT/Runtime/MQTT/MQTTClient.Public.cs:268-283 | refused for MQTT 3.1.1, an empty topic, a client not connected, or no free alias; otherwise the smallest free alias names the topic |
| MQTTClients.MQTTClient.QueueOrSend | Assets/BestMQTT/Runtime/MQTT/MQTTClient.Public.cs:330-337 | a QoS 1 or 2 message without quota is queued; any other is sent as SendPublishPacket says |
| MQTTClients.MQTTClient.BeginPublish | Assets/BestMQTT/Runtime/MQTT/MQTTClient.Public.cs:289-338 | refused unless connected, for an alias with no name, or by the checks of Build; otherwise the message is queued or sent with its own QoS and the alias the step chose; when the server's Maximum QoS is above the message's, the packet identifier counter moves on as GetNextPacketID moves it, though the message keeps its QoS |
| MQTTClients.MQTTClient.PublishMessage | Assets/BestMQTT/Runtime/MQTT/MQTTClient.Public.cs:300-337 | the connected part of a publish: the alias step, then refusal by the checks of Build with the alias step kept, or the message queued when it needs quota and none is left, or sent and, with an identifier, recorded unacknowledged for one unit of quota |
| MQTTClients.MQTTClient.DeliverMessages | Assets/BestMQTT/Runtime/MQTT/MQTTClient.PacketHandlers.cs:230-329 | the delivery loop raises the callbacks DispatchAll prescribes and leaves its server aliases |
| MQTTClients.MQTTClient.AcknowledgePublish | Assets/BestMQTT/Runtime/MQTT/MQTTClient.PacketHandlers.cs:334-374 | QoS 1 is answered by a PUBACK, QoS 2 by a PUBREC after its identifier becomes received, with a Receive Maximum exceeded error first when the received identifiers reach the client's Receive Maximum |
| MQTTClients.MQTTClient.ReceiveExactlyOnce | Assets/BestMQTT/Runtime/MQTT/MQTTClient.PacketHandlers.cs:352-372 | the identifier becomes received; reaching the Receive Maximum, counted in 16 bits, is an error that disconnects; a PUBREC follows |
| MQTTClients.MQTTClient.HandlePublish | Assets/BestMQTT/Runtime/MQTT/MQTTClient.PacketHandlers.cs:219-374 | the messages are delivered until a duplicate; when no filter check threw, the first message is acknowledged |
| MQTTClients.MQTTClient.SendAll | Assets/BestMQTT/Runtime/MQTT/MQTTClient.PacketHandlers.cs:528-586 | buffered packets wait for the flush, in order |
| MQTTClients.MQTTClient.SpendQuota | Assets/BestMQTT/Runtime/MQTT/MQTTClient.PacketHandlers.cs:545 | the quota goes down by what was spent |
| MQTTClients.MQTTClient.MessageDeliveryRetry | Assets/BestMQTT/Runtime/MQTT/MQTTClient.PacketHandlers.cs:528-586 | as intended, the first unacknowledged packets the quota allows are resent with DUP set, the quota goes down by as many, then every released identifier gets its PUBREL |
| MQTTClients.MQTTClient.ResendUnacknowledged | Assets/BestMQTT/Runtime/MQTT/MQTTClient.PacketHandlers.cs:538-569 | the resend pass of the retry, one unit of quota per packet |
| MQTTClients.MQTTClient.ResendReleases | Assets/BestMQTT/Runtime/MQTT/MQTTClient.PacketHandlers.cs:574-585 | the release pass of the retry |
| MQTTClients.MQTTClient.HandleConnectAck | Assets/BestMQTT/Runtime/MQTT/MQTTClient.PacketHandlers.cs:445-521 | on Success the quota and its maximum start at the initial quota, the queue and the aliases are dropped, the session kept and retried when the server has it and cleared when not, and the client is Connected; any other code is an error with its disconnect reason |
| MQTTClients.MQTTClient.StartSession | Assets/BestMQTT/Runtime/MQTT/MQTTClient.PacketHandlers.cs:454-512 | the success half of the CONNACK handler |
| MQTTClients.MQTTClient.Dispatch | Assets/BestMQTT/Runtime/MQTT/MQTTClient.cs:343-370 | each incoming packet goes to its handler; the state only moves forward and events are only added |
| MQTTClients.MQTTClient.ConnectAcknowledged | Assets/BestMQTT/Runtime/MQTT/MQTTClient.cs:345 | a CONNACK leaves the client Connected or Disconnected |
| MQTTClients.MQTTClient.DispatchDelivery | Assets/BestMQTT/Runtime/MQTT/MQTTClient.cs:346-351 | DISCONNECT, UNSUBACK and PUBLISH go to their handlers; the state only moves forward |
| MQTTClients.MQTTClient.DispatchAcknowledgement | Assets/BestMQTT/Runtime/MQTT/MQTTClient.cs:354-361 | PUBACK, PUBREC, PUBREL and PUBCOMP go to their handlers; the state only moves forward |
| MQTTClients.MQTTClient.ProcessIncoming | Assets/BestMQTT/Runtime/MQTT/MQTTClient.cs:328-382 | the incoming packets are handled inside one packet buffer; the state only moves forward, events are only added, and from Disconnecting on nothing changes |
| DataReader.SubSub | Assets/BestMQTT/Runtime/MQTT/Packets/Utils/Data.cs:147-160 | two wrapping 32-bit subtractions of the remaining length take off their sum |
| DataReader.ReadTwoBytes | Assets/BestMQTT/Runtime/MQTT/Packets/Utils/Data.cs:126 | two bytes are consumed while the stream lasts; past its end the reads of -1 fill the result |
| DataReader.PropertyDataType | Assets/BestMQTT/Runtime/MQTT/Packets/Utils/Data.cs:226-282 | each known property identifier selects one value type, never a property list; unknown identifiers select none |
| DataReader.ReadBytes | Assets/BestMQTT/Runtime/MQTT/Packets/Utils/Data.cs:147-183 | a string or binary body is exactly as long as its two-byte length says, and the remaining length drops by the length plus two, wrapping |
| DataReader.ReadAs | Assets/BestMQTT/Runtime/MQTT/Packets/Utils/Data.cs:119-211 | a read stays inside the stream and yields data of the requested type |
| DataReader.ReadFixed | Assets/BestMQTT/Runtime/MQTT/Packets/Utils/Data.cs:123-136 | the fixed-width types always read, yielding their own type |
| DataReader.ReadVariable | Assets/BestMQTT/Runtime/MQTT/Packets/Utils/Data.cs:138-207 | the variable-width types yield their own type when the stream holds them; the unset type fails |
| DataReader.ReadVariableByteInteger | Assets/BestMQTT/Runtime/MQTT/Packets/Utils/Data.cs:138-145 | a Variable Byte Integer is decoded, and the remaining length drops by the size of its encoding |
| DataReader.ReadStringPair | Assets/BestMQTT/Runtime/MQTT/Packets/Utils/Data.cs:165-171 | a key string then a value string make a pair |
| DataReader.ReadPropertyList | Assets/BestMQTT/Runtime/MQTT/Packets/Utils/Data.cs:185-194 | a property list's length, then its properties |
| DataReader.ReadProperty | Assets/BestMQTT/Runtime/MQTT/Packets/Utils/Data.cs:221-286 | each turn of the property loop advances in the stream, and at the end of the stream reads nothing and lowers the remaining length by one |
| DataReader.ReadPropertyValue | Assets/BestMQTT/Runtime/MQTT/Packets/Utils/Data.cs:226-282 | the value read for a property has its identifier's type and is appended to the list |
| DataReader.SubOne | Assets/BestMQTT/Runtime/MQTT/Packets/Utils/Data.cs:224 | reading the identifier byte takes exactly one off the remaining length |
| DataReader.StepProgress | Assets/BestMQTT/Runtime/MQTT/Packets/Utils/Data.cs:215-287 | every turn of the loop moves on in the stream, or lowers the declared length when the stream is exhausted, so the loop ends |
| DataReader.ReadPropertiesLoop | Assets/BestMQTT/Runtime/MQTT/Packets/Utils/Data.cs:213-290 | properties are read until the declared length is used up, staying inside the stream |
| DataReader.ReadProperties | Assets/BestMQTT/Runtime/MQTT/Packets/Utils/Data.cs:213-290 | the loop reads exactly what ReadPropertiesLoop says |
| DataReader.ReadBytesAt | Assets/BestMQTT/Runtime/MQTT/Packets/Utils/Data.cs:147-183 | a length prefix followed by its bytes reads back as those bytes |
| DataReader.WrittenBytes | Assets/BestMQTT/Runtime/MQTT/Packets/Utils/Data.cs:147-183 | the bytes EncodeTwoByteInteger and a body wrote sit at the expected positions |
| DataReader.WrittenBytesAt | Assets/BestMQTT/Runtime/MQTT/Packets/Utils/Data.cs:147-183 | a length-prefixed body written by the encoder reads back whole |
| DataReader.ReadFieldRoundTrip | Assets/BestMQTT/Runtime/MQTT/Packets/Utils/Data.cs:119-211 | every well-formed field except a property list, encoded by EncodeInto and read back with its type, gives the field and the position after it, with the remaining length lowered by its size |
| DataReader.OneByteRoundTrip | Assets/BestMQTT/Runtime/MQTT/Packets/Utils/Data.cs:123-125 | bits, booleans and bytes read back as written |
| DataReader.IntegerRoundTrip | Assets/BestMQTT/Runtime/MQTT/Packets/Utils/Data.cs:126-145 | two-byte, four-byte and variable-byte integers read back as written |
| DataReader.VariableByteIntegerRoundTrip | Assets/BestMQTT/Runtime/MQTT/Packets/Utils/Data.cs:138-145 | a Variable Byte Integer reads back as written, in at most four bytes |
| DataReader.StringRoundTrip | Assets/BestMQTT/Runtime/MQTT/Packets/Utils/Data.cs:147-183 | strings and binary data read back as written |
| DataReader.RawRoundTrip | Assets/BestMQTT/Runtime/MQTT/Packets/Utils/Data.cs:196-205 | raw data read with the remaining length equal to its size reads back whole and leaves nothing remaining |
| DataReader.StringPairRoundTrip | Assets/BestMQTT/Runtime/MQTT/Packets/Utils/Data.cs:165-171 | a string pair reads back as written |
| DataReader.PairEncoding | Assets/BestMQTT/Runtime/MQTT/Packets/Utils/Data.cs:165-171 | a pair is encoded as its key then its value, each length-prefixed |
| DataReader.StringPairAt | Assets/BestMQTT/Runtime/MQTT/Packets/Utils/Data.cs:165-171 | a pair's encoding in a stream reads back as the pair |
| DataReader.PairBytesAt | Assets/BestMQTT/Runtime/MQTT/Packets/Utils/Data.cs:165-171 | a pair's encoding reads back as its key, then its value |
| DataReader.ReadPairAt | Assets/BestMQTT/Runtime/MQTT/Packets/Utils/Data.cs:165-171 | a key read then a value read make the pair |
| DataReader.WellFormedFromAll | Assets/BestMQTT/Runtime/MQTT/Packets/Utils/Data.cs:213-290 | a list is well formed from a position exactly when each property from there is |
| DataReader.Appended | Assets/BestMQTT/Runtime/MQTT/Packets/Utils/Data.cs:213-290 | appending properties one by one gives the list followed by them |
| DataReader.AppendedStep | Assets/BestMQTT/Runtime/MQTT/Packets/Utils/Data.cs:213-290 | appending one property, then the rest, appends them all |
| DataReader.SmallIdentifier | Assets/BestMQTT/Runtime/MQTT/Packets/Utils/Data.cs:222-223 | a property identifier below 128 is encoded as its one byte |
| DataReader.SubBack | Assets/BestMQTT/Runtime/MQTT/Packets/Utils/Data.cs:286 | the length consumed, computed back from the remaining lengths, is what was taken off |
| DataReader.ReadFieldAt | Assets/BestMQTT/Runtime/MQTT/Packets/Utils/Data.cs:119-211 | a field's encoding found at a position reads back as the field |
| DataReader.PropertyEncoding | Assets/BestMQTT/Runtime/MQTT/Packets/Utils/Data.cs:226-282 | a property is encoded as its identifier byte, then its value |
| DataReader.PropertyRoundTrip | Assets/BestMQTT/Runtime/MQTT/Packets/Utils/Data.cs:221-286 | an encoded property read back by one turn of the loop is appended to the list |
| DataReader.PropertyBytes | Assets/BestMQTT/Runtime/MQTT/Packets/Utils/Data.cs:221-286 | an encoded property is its identifier byte followed by its value's bytes |
| DataReader.PropertyAssemble | Assets/BestMQTT/Runtime/MQTT/Packets/Utils/Data.cs:221-286 | the identifier byte then its value read back make one turn of the loop |
| DataReader.PropertyReadAt | Assets/BestMQTT/Runtime/MQTT/Packets/Utils/Data.cs:221-286 | the identifier at a position, then its value, is the turn's result |
| DataReader.ListEncodes | Assets/BestMQTT/Runtime/MQTT/Packets/Utils/Data.cs:213-290 | a list of well-formed properties can always be encoded |
| DataReader.ReadListRoundTrip | Assets/BestMQTT/Runtime/MQTT/Packets/Utils/Data.cs:213-290 | an encoded list of well-formed properties read back over its own length gives the list, appended to what was there |
| DataReader.LayoutReadsAt | Assets/BestMQTT/Runtime/MQTT/Packets/Utils/Data.cs:213-290 | properties laid out back to back each read back at their start |
| DataReader.LoopReadsTurns | Assets/BestMQTT/Runtime/MQTT/Packets/Utils/Data.cs:213-290 | when each property reads back at its start, the loop over the whole span reads all of them |
| DataReader.LayoutFirst | Assets/BestMQTT/Runtime/MQTT/Packets/Utils/Data.cs:213-290 | the first property of a layout reads back at its start |
| DataReader.LoopCompose | Assets/BestMQTT/Runtime/MQTT/Packets/Utils/Data.cs:213-290 | one turn then the loop over the rest of the span is the loop over the whole span |
| DataReader.ListLayout | Assets/BestMQTT/Runtime/MQTT/Packets/Utils/Data.cs:213-290 | the encoding of a list lays its properties out back to back |
| DataReader.LayoutCons | Assets/BestMQTT/Runtime/MQTT/Packets/Utils/Data.cs:213-290 | a layout of a list is its first property then a layout of the rest |
| DataReader.LayoutIntro | Assets/BestMQTT/Runtime/MQTT/Packets/Utils/Data.cs:213-290 | a property's encoding followed by a layout of the rest is a layout of the whole |
| DataReader.ListHead | Assets/BestMQTT/Runtime/MQTT/Packets/Utils/Data.cs:213-290 | the encoding of a list starts with its first property |
| DataReader.LoopStep | Assets/BestMQTT/Runtime/MQTT/Packets/Utils/Data.cs:213-290 | one turn of the loop consumes one property |
| DataReader.LoopUnfold | Assets/BestMQTT/Runtime/MQTT/Packets/Utils/Data.cs:213-290 | the loop with length left runs one turn, then itself on the rest |
| DataReader.ReadAsRoundTrip | Assets/BestMQTT/Runtime/MQTT/Packets/Utils/Data.cs:119-211 | every readable field of every type, property lists included, encoded by EncodeInto and read back with its type gives the same field, the position after it, and the remaining length lowered by its size |
| DataReader.ListFieldRoundTrip | Assets/BestMQTT/Runtime/MQTT/Packets/Utils/Data.cs:185-194 | a property-list field encoded and read back with its type is the same field |
| DataReader.ListField | Assets/BestMQTT/Runtime/MQTT/Packets/Utils/Data.cs:185-194 | a property-list field is encoded as its list, and reading that type reads a property list |
| DataReader.ListReadBack | Assets/BestMQTT/Runtime/MQTT/Packets/Utils/Data.cs:185-194 | the properties under a property list's length prefix read back as the list |
| DataReader.EmptyListReadBack | Assets/BestMQTT/Runtime/MQTT/Packets/Utils/Data.cs:185-194 | a list never created is written as a zero length, which reads back as a list never created |
| DataReader.CreatedListBytes | Assets/BestMQTT/Runtime/MQTT/Packets/Utils/Data.cs:185-194 | a created list's field encoding is its length prefix then its properties |
| DataReader.CreatedListRead | Assets/BestMQTT/Runtime/MQTT/Packets/Utils/Data.cs:185-194 | a created list's encoding reads back as the list |
| DataReader.CreatedListAfterSize | Assets/BestMQTT/Runtime/MQTT/Packets/Utils/Data.cs:185-194 | after the length prefix the remaining length is the list's size |
| DataReader.CreatedListSize | Assets/BestMQTT/Runtime/MQTT/Packets/Utils/Data.cs:185-194 | a created list's length prefix gives the size of its properties |
| DataReader.CreatedListLoop | Assets/BestMQTT/Runtime/MQTT/Packets/Utils/Data.cs:185-194 | the loop over a created list's length reads the whole list |
| DataReader.ListAssemble | Assets/BestMQTT/Runtime/MQTT/Packets/Utils/Data.cs:185-194 | the length prefix, then the loop, make the property-list read |
| SortedEntries.SortedSplit | Assets/BestMQTT/Runtime/Database/Indexing/AVLTree.cs:516-553 | in a sorted sequence the entries before a node are below its key and those after above it |
| SortedEntries.SortedJoin | Assets/BestMQTT/Runtime/Database/Indexing/AVLTree.cs:60-149 | entries below a key, an entry, and entries above it form a sorted sequence |
| SortedEntries.LookupAbsent | Assets/BestMQTT/Runtime/Database/Indexing/AVLTree.cs:516-553 | a key no entry holds is not found |
| SortedEntries.LookupConcat | Assets/BestMQTT/Runtime/Database/Indexing/AVLTree.cs:516-553 | a search over two runs answers from the first run that holds the key |
| SortedEntries.LookupSplit | Assets/BestMQTT/Runtime/Database/Indexing/AVLTree.cs:516-553 | the descent compares the key with a node and searches only the side that can hold it |
| SortedEntries.ElemTotalConcat | Assets/BestMQTT/Runtime/Database/Indexing/AVLTree.cs:49 | the element count of two runs is the sum of their counts |
| SortedEntries.PutSpec | Assets/BestMQTT/Runtime/Database/Indexing/AVLTree.cs:60-149 | storing a list under a key keeps the entries sorted, answers the list for that key and the old answer for every other, adds an entry only for a new key, and moves the element count by the list's size minus the old list's |
| SortedEntries.PutSorted | Assets/BestMQTT/Runtime/Database/Indexing/AVLTree.cs:60-149 | storing a list under a key keeps the entries sorted |
| SortedEntries.PutLookup | Assets/BestMQTT/Runtime/Database/Indexing/AVLTree.cs:60-149 | after storing, the key answers the new list and every other key its old answer |
| SortedEntries.PutCounts | Assets/BestMQTT/Runtime/Database/Indexing/AVLTree.cs:60-149 | storing adds a node only for a new key, and the element count moves by the new list's size minus the old one's |
| SortedEntries.LookupAbsentFrom | Assets/BestMQTT/Runtime/Database/Indexing/AVLTree.cs:516-553 | a key below the first entry's is not found |
| SortedEntries.PutKeys | Assets/BestMQTT/Runtime/Database/Indexing/AVLTree.cs:60-149 | storing a key above a bound keeps every key above it |
| SortedEntries.RemoveSpec | Assets/BestMQTT/Runtime/Database/Indexing/AVLTree.cs:210-256 | removing a key keeps the entries sorted, the key answers nothing and every other key its old answer, one node goes when the key was stored, and the element count drops by its list's size |
| SortedEntries.RemoveKeys | Assets/BestMQTT/Runtime/Database/Indexing/AVLTree.cs:210-256 | removing keeps every key above a bound above it |
| SortedEntries.RemoveConcat | Assets/BestMQTT/Runtime/Database/Indexing/AVLTree.cs:210-256 | removing from two runs removes from each |
| SortedEntries.RemoveAbsent | Assets/BestMQTT/Runtime/Database/Indexing/AVLTree.cs:210-256 | removing a key no entry holds changes nothing |
| SortedEntries.PutConcatLeft | Assets/BestMQTT/Runtime/Database/Indexing/AVLTree.cs:60-149 | storing a key below a run leaves that run untouched |
| SortedEntries.PutConcatRight | Assets/BestMQTT/Runtime/Database/Indexing/AVLTree.cs:60-149 | storing a key above a run leaves that run untouched |
| SortedEntries.PutSplitLeft | Assets/BestMQTT/Runtime/Database/Indexing/AVLTree.cs:60-149 | storing a key below a node's key goes into its left side |
| SortedEntries.PutSplitRight | Assets/BestMQTT/Runtime/Database/Indexing/AVLTree.cs:60-149 | storing a key above a node's key goes into its right side |
| SortedEntries.PutSplitHere | Assets/BestMQTT/Runtime/Database/Indexing/AVLTree.cs:60-149 | storing a node's own key replaces that node's list only |

## Left out

- Transports, sockets, TLS, threads, the heartbeat timer and the keep-alive ping are not modelled. Incoming packets are a sequence of decoded `Incoming` values, and outgoing packets are `OutPacket` values handed to the transport in batches.
- Network I/O, the disk manager and all file I/O (content files, metadata files, `Session.cs` paths and JSON) are not modelled. Stores keep their slots in memory; `Save` records the saved slots and clears the dirty flag.
- MetadataService and FindDeletedMetadataIndexFinder are not part of this model. Their behaviour is assumed: create takes the slot the index finder gives (append, or the first deleted slot), with flags None, and indexes it; remove marks the record deleted and unindexes it.
- Session switching by an assigned client identifier is not modelled; the session a CONNACK makes current is a parameter of `HandleConnectAck`.
- Concurrency is not modelled: `Interlocked` increments (`PacketIdentifier`, `_lastPacketID`) and the stores' reader/writer locks become plain sequential updates.
- Logging, `BufferPool` and the user's callbacks are not modelled. A callback is an `Event` appended to the client's events; exceptions thrown by a callback are not, except a topic-filter check that throws, which stops the delivery loop.
- Strings on the wire are byte sequences: those of `DataEncoderHelper`, `StreamUtil`, `DataReader` and `PacketData`, the topic name of an outgoing PUBLISH, and the topics of the client's alias store (`TopicAliasMappings`). UTF-8 encoding and decoding, and the validity of the bytes, are not modelled. Topic filters (`Subscriptions`), the topic names of received messages and the server's aliases for them, and the strings in events are Dafny `string` values, sequences of UTF-16 code units as C# strings are. No conversion between the two kinds is modelled.
- AVL parent links and in-place rotation of linked nodes are not modelled. The tree is a datatype held by the `AVLTree` class; rotation, rebalancing and removal are functions on it.
- Aliasing of lists held by C# structs (`Properties` copied by value but sharing its list) and of `Metadata` objects shared between a store's list and its indexes is not modelled; stores rewrite slots as values.
- The CONNECT, SUBSCRIBE, UNSUBSCRIBE, DISCONNECT, AUTH, PUBACK and PUBCOMP packet builders, and the incoming packet readers, are not part of this model. The packets they make or decode appear as `OutPacket` and `Incoming` values.
- The SUBACK, PINGRESP and AUTH handlers, and the warning for an unknown packet type, are not part of this model.
- MQTTClients.MQTTClient.GetNextPacketID: when every identifier is in use, the source recurses without end; the model answers `None` after one full lap of the counter.
- ClientModels.ReleasedOrder: the PUBREL resend pass walks the released identifiers as a set, in ascending order. The source walks `UInt16Database.GetNext`, which also answers deleted records (see Findings), so it can resend PUBREL for identifiers already completed; the model does not.
- StreamUtil.ReadLengthPrefixedString: fails when the stream ends inside the string, where the source returns a string decoded from a partly filled buffer.
- DataReader.ReadBytes: fails when the stream ends inside a string or binary body, where the source keeps a partly filled buffer; `DataReader.ReadVariable` does the same for raw data.
- DataEncoderHelper.DecodeBinary: fails when the data ends inside the announced bytes, where the source (`DataEncoderHelper.cs` lines 180-188) reads once and returns a segment of the announced length, partly filled.
- PacketData.ByteSize and Packets.PayloadSize: sizes are unbounded sums; the source adds them as 32-bit unsigned integers, which wrap only for a packet of 4 GiB or more, far beyond the 268435455-byte limit of a Variable Byte Integer remaining length.
- MQTTClients.MQTTClient.HandleUnsubscribeAck: every filter is taken to have an acknowledgement callback. The source reads a filter's reason code only when its callback is set, so with no callback a payload of two or more codes that is shorter than the filter list does not stop its loop.

## Findings

| source | as written | input that shows it | evidently intended | confidence | as-written member | corrected member |
|---|---|---|---|---|---|---|
| Assets/BestMQTT/Runtime/Database/Indexing/AVLTree.cs:422-428 | When the in-order successor is the removed node's own right child, RemoveNode sets the successor's right link to null and drops that subtree. | Insert keys 15, 20, 25, 30, then remove 20: key 30 is no longer in the tree. | Removing a key keeps every other key. | high (not executed) | AVLTrees.RemoveTwentyLosesThirty, AVLTrees.RemoveNodeDropsRightGrandchildren | AVLTrees.DeleteEntries |
| Assets/BestMQTT/Runtime/MQTT/MQTTClient.cs:115-128 | The next identifier is the counter modulo 65535, with 0 mapped to 1, so counters 65535 and 65536 both give 1. | Counter values 0 and 1, the first two calls, both try identifier 1; so do 65535 and 65536. | Up to 65534 consecutive counter values try distinct non-zero identifiers. | high (not executed) | ClientModels.CandidateAsWrittenRepeats | ClientModels.CandidatesDistinct |
| Assets/BestMQTT/Runtime/Database/IndexingService.cs:13-29 | Remove calls Add again for a record whose flags are not None, so a removed record stays indexed. | Index record 7 flagged Locked, then remove it: searching for Locked finds it twice. | A removed record is found by no flag. | high (not executed) | IndexingServices.RemoveAsWrittenReindexes | IndexingServices.RemoveFindsNothing |
| Assets/BestMQTT/Runtime/Database/Metadata.cs:34 | SetFlag computes (flags ^ f) & (on ? f : 0), which clears every other flag. | Marking a Locked record as UserAdded clears Locked; marking a UserAdded record as UserAdded again clears UserAdded. | Setting or clearing one flag keeps the other flags. | high (not executed) | Metadatas.SetFlagAsWrittenDropsFlags | Metadatas.SetFlagSpec |
| Assets/BestMQTT/Runtime/MQTT/Databases/TopicAliasMappingDatabase.cs:60-66 | Unindexing a topic alias mapping removes the whole hash list and alias list of its keys, not only its own position. | Aliases 1 and 2 both hold one topic name; alias 1 is set to another name: the name then answers no alias, although alias 2 is live. | Unindexing removes only the deleted record's positions. | medium (not executed) | TopicAliasMappings.HashListDropped | TopicAliasMappings.HashListKept |
| Assets/BestMQTT/Runtime/MQTT/MQTTClient.PacketHandlers.cs:528-586 | The retry returns early when the quota is 0 or runs out, skipping the PUBREL pass; and its GetNext chain follows slot order, stopping at an identifier lower than the last one sent. | Quota 1, one unacknowledged packet and one released identifier: the packet is resent and the PUBREL is not. Packet 5 stored before packet 3: only 5 is resent. | Every released identifier gets its PUBREL, and the resent PUBLISH packets are the unacknowledged ones in order, up to the quota. | medium (not executed) | ClientModels.RetrySkipsRelease, ClientModels.ChainStopsAtHigher, ClientModels.RetrySkipsLowerIdentifier | ClientModels.RetryReleasesAll, ClientModels.RetryResendsPrefix, ClientModels.RetryKeepsLowerIdentifier |
| Assets/BestMQTT/Runtime/MQTT/Databases/UInt16Database.cs:119-138 | GetNext scans all slots, deleted ones included. | A store whose only record, 5, was removed: asked for the next after 0, it answers 5. | Only live identifiers are answered. | high (not executed) | UInt16Databases.DeletedRecordIsNext | UInt16Databases.ScanIsNext |
| Assets/BestMQTT/Runtime/MQTT/MQTTClient.Public.cs:300-324 | The builder is a mutable struct passed as an in parameter, so WithTopicName(string.Empty) and the added Topic Alias property act on defensive copies; the alias reaches the packet only when the message already had properties. | Publish to a new topic with no properties while the server allows aliases: the alias is recorded as sent but the packet carries no alias. | The packet carries the new alias (and, for a known alias, an empty topic name). | medium (not executed) | MQTTClients.UnusedAliasAsWritten | MQTTClients.PublishAliasesName |
