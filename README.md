# Binary telemetry encoder of vex_web, in Dafny

vex_web streams telemetry from a VEX robot brain to a browser. On the
brain, `StructuredLogger` (C++) registers named fields and sends three
kinds of packet to standard output:

- `0x46` data format (the schema);
- `0x44` structured data (one value per field);
- `0x49` AI vision data (one record per detected object).

Every packet is `C0 DE`, the command byte, a two-byte length with its top
bit set, then the payload. Integers travel big-endian. Field codes and
vision coordinates travel as a 1-or-2-byte varint (one byte below 128;
otherwise two bytes with the top bit set). On the host, `visionObject.js`
decodes a vision record back into a `VisionObject`. An older MicroPython
program (`BLETest/src/main.py`) sends the same two telemetry packets with
2-byte codes and a varint length.

The model has ten modules.

- `Wrappers` (`bytes.dfy`): the `Option` and `Result` datatypes. `Option`
  is a read past the end of a `DataView` in the decoder, and `Result` is a
  Python exception in the MicroPython sender.
- `Bytes` (`bytes.dfy`): big-endian encoding of integers, two's
  complement, and the bit fields of a byte.
- `StaticVectors` (`static_vector.dfy`): `static_vector<T>`. The class
  holds its `array` storage and a `size`. `Fill` is the specification of
  a push that silently stops at capacity.
- `Packer` (`packer.dfy`): the format codes (`fmt<T>`), `pack_integer_be`,
  `pack`, `pack_var_int`, `var_int_size` and `pack_len`.
- `Entries` (`entry.dfy`): `Entry<T>` with its precomputed sizes, `pack`
  and `pack_name_and_format`.
- `Framing` (`framing.dfy`): the packet frame, a reader for it, and
  `Groups`. `Groups` states how the send loops split the registered
  entries into packets of at most 99 payload bytes.
- `Vision` (`vision.dfy`): `get_vision_object_type` and
  `pack_vision_object`.
- `Logger` (`logger.dfy`): the `StructuredLogger` class. Its fields are
  the 104-byte buffer, the vision buffer, the 50-slot registry,
  `m_next_code`, `m_fmt_size` and `m_data_size`. The bytes written to
  stdout are recorded in the ghost field `sent`.
- `HostDecoder` (`decoder.dfy`): `unpackVarInt`, `getName` and the
  `VisionObject` constructor. The constructor is written imperatively, with
  its quad loop over an array reversed in place. It is proved equal to the
  specification `ParseVisionObject`. The module also proves the round trip
  from `pack_vision_object` to the constructor.
- `LegacyFraming` (`legacy.dfy`): `pack_len`, `send_data_format` and
  `print_data` of the MicroPython program. A Python exception becomes an
  `Err`.

Modelling conventions:

- Floats are carried by their IEEE-754 bit patterns, which is what
  `memcpy` into `uint32_t`/`uint64_t` hands to `pack_integer_be`.
- A getter is represented by the value it returns in that cycle.
- Integer widths are explicit: a `uint8_t` cast keeps the value mod 256,
  and `BigEndian(v, w)` is the low `w` bytes of the two's complement of
  `v`.
- `pack_vision_object` has no room check: it pushes byte by byte, and
  `push_back` drops what does not fit.

## Model

| member | source | states |
|---|---|---|
| Bytes.BigEndian | BLETestCpp/include/structured_logger.h:96-102 | the width-`w` encoding has exactly `w` bytes, one per loop iteration |
| Bytes.BigEndianAt | BLETestCpp/include/structured_logger.h:99-101 | byte `i` of the encoding is `value >> 8*(w-1-i)` cast to `uint8_t` |
| Bytes.FromBigEndian | BLETestCpp/include/structured_logger.h:96-102 | reading bytes back as an unsigned big-endian number gives a value below 256^n |
| Bytes.UnsignedRoundTrip | BLETestCpp/include/structured_logger.h:96-102 | a value in 0..256^w-1 packed in `w` bytes reads back unchanged |
| Bytes.SignedRoundTrip | BLETestCpp/include/structured_logger.h:96-102 | a value in the signed range of `w` bytes reads back unchanged through two's complement |
| Bytes.BigEndianRoundTrip | BLETestCpp/include/structured_logger.h:96-102 | packing any integer in `w` bytes and reading it back gives the integer mod 256^w |
| Bytes.BitOpsAgree | BLETestCpp/include/structured_logger.h:374 | the bit operations the encoder uses (OR with 0x80, AND with 0x3F, AND with 0xC0 then shift by 6) agree with the arithmetic the model states them by |
| Bytes.JoinAgrees | BLETestCpp/include/structured_logger.h:374 | OR-ing the type tag with `id & 0x3F` keeps the type in the top two bits and the id's six bits below them |
| StaticVectors.FillFits | BLETestCpp/include/static_vector.h:39-53 | pushing a run that fits appends all of it |
| StaticVectors.FillFill | BLETestCpp/include/static_vector.h:39-53 | two pushes in a row act as one push of the concatenation, at any fill level |
| StaticVectors.FillPrefix | BLETestCpp/include/static_vector.h:39-53 | a push keeps exactly the prefix of the input that fits the remaining capacity |
| StaticVectors.StaticVector.constructor | BLETestCpp/include/static_vector.h:17-20 | a vector over a backing array is empty and has the array's length as capacity |
| StaticVectors.StaticVector.Empty | BLETestCpp/include/static_vector.h:24 | true exactly when there are no elements |
| StaticVectors.StaticVector.Full | BLETestCpp/include/static_vector.h:25 | true exactly when size equals capacity |
| StaticVectors.StaticVector.Clear | BLETestCpp/include/static_vector.h:26 | the vector is empty afterwards |
| StaticVectors.StaticVector.PushBack | BLETestCpp/include/static_vector.h:39-43 | below capacity the value goes into slot `size` and size grows by one; at capacity nothing changes |
| StaticVectors.StaticVector.Append | BLETestCpp/include/static_vector.h:45-53 | copies the container's elements in order until capacity is reached; size grows by the number copied; slots past the new size are untouched |
| Packer.FmtCode | BLETestCpp/include/structured_logger.h:84-93 | every format code is a 7-bit ASCII letter, so the small-scale flag never collides with it, and it names its type back |
| Packer.FmtCodesDistinct | BLETestCpp/include/structured_logger.h:84-93 | different types have different format codes |
| Packer.PackIntegerBE | BLETestCpp/include/structured_logger.h:96-102 | pushes the `sizeof(T)` big-endian bytes of the value, most significant first, each push stopping at capacity |
| Packer.Pack | BLETestCpp/include/structured_logger.h:104-128 | integers, and floats and doubles through their bits, append their big-endian bytes of the type's size |
| Packer.ScalarRoundTrip | BLETestCpp/include/structured_logger.h:104-128 | a value in range of its type is `sizeof(T)` bytes and reads back with the type's signedness |
| Packer.SetTopBit16IsOr | BLETestCpp/include/structured_logger.h:141 | OR-ing a 16-bit number with 0x8000 adds 0x8000 unless the bit is already set |
| Packer.TwoBytes | BLETestCpp/include/structured_logger.h:141 | the two big-endian bytes of a 16-bit word are its high and low byte |
| Packer.VarIntForms | BLETestCpp/include/structured_logger.h:131-145 | 0..127 is one byte, 128..32767 is two big-endian bytes of `num + 0x8000`, 32768 and up writes nothing |
| Packer.VarIntSize | BLETestCpp/include/structured_logger.h:147-151 | for 0..32767 `var_int_size` is the number of bytes `pack_var_int` writes, and for any non-negative number it never undercounts them |
| Packer.VarIntFirstByte | BLETestCpp/include/structured_logger.h:131-145 | for 0..32767 the first byte written has its top bit clear exactly when the value is below 128 |
| Packer.NegativeVarIntMismatch | BLETestCpp/include/structured_logger.h:131-151 | a negative number takes the two-byte branch (its 16-bit two's complement) while `var_int_size` says one byte |
| Packer.PackVarInt | BLETestCpp/include/structured_logger.h:131-145 | appends exactly the varint bytes of `num` (none when too large), stopping at capacity |
| Packer.LenHighValue | BLETestCpp/include/structured_logger.h:165 | the high length byte is `len / 256` with the top bit set |
| Packer.LenLowValue | BLETestCpp/include/structured_logger.h:166 | the low length byte is `len mod 256` |
| Packer.LengthFieldIsVarInt | BLETestCpp/include/structured_logger.h:153-167 | the two length bytes are the big-endian bytes of the length OR 0x8000, the two-byte varint form |
| Packer.LengthFieldHigh | BLETestCpp/include/structured_logger.h:165 | the high byte has its top bit set and carries `len / 256` below it |
| Packer.LengthFieldDecodes | BLETestCpp/include/structured_logger.h:153-167 | the length field reads back as the payload length |
| Packer.PackLen | BLETestCpp/include/structured_logger.h:153-167 | overwrites bytes `offset` and `offset+1` with the length field of `size - offset - 2`, and leaves the buffer unchanged when that is 32768 or more |
| Entries.Entry.Pack | BLETestCpp/include/structured_logger.h:229-238 | refuses and writes nothing exactly when the data entry would pass capacity; otherwise appends the code varint and the value |
| Entries.Entry.PackNameAndFormat | BLETestCpp/include/structured_logger.h:240-255 | refuses and writes nothing exactly when the schema entry would pass capacity; otherwise appends code varint, format byte, name and NUL |
| Entries.FormatCodeFlag | BLETestCpp/include/structured_logger.h:249 | the format byte's top bit is the small-scale flag and its low seven bits are `fmt<T>::code` |
| Entries.EntrySizesExact | BLETestCpp/include/structured_logger.h:215-222 | for codes the varint can carry, `m_fmt_size` and `m_data_size` are the exact lengths of the two entries, and the schema entry ends with the name and NUL |
| Framing.FrameRoundTrip | BLETestCpp/include/structured_logger.h:297-314 | a packet is 5 header bytes plus the payload, starts `C0 DE cmd`, and reads back as its command and payload |
| Framing.FrameHead | BLETestCpp/include/structured_logger.h:297-314 | the five header bytes are `C0 DE cmd`, then the high and low length bytes |
| Framing.Groups | BLETestCpp/include/structured_logger.h:316-329 | the split of the entries into packets always has a final (possibly empty) packet |
| Framing.GroupsStep | BLETestCpp/include/structured_logger.h:319-327 | an entry that fits joins the open packet; one that does not closes it and opens a new packet holding the entry, or nothing when the entry alone is too big |
| Framing.FramesSnoc | BLETestCpp/include/structured_logger.h:328 | the packets sent are those closed in the loop followed by the final one |
| Framing.GroupsFit | BLETestCpp/include/structured_logger.h:316-344 | no packet carries more payload than the buffer has room for |
| Framing.GroupsKeep | BLETestCpp/include/structured_logger.h:316-344 | the packets together carry, in order, every entry except those too big for an empty buffer |
| Framing.PayloadsConcat | BLETestCpp/include/structured_logger.h:316-344 | the concatenated payloads are the concatenated groups |
| Framing.ClosedWhenFullGrow | BLETestCpp/include/structured_logger.h:321-326 | adding an entry to the open packet keeps every earlier packet closed only because the next entry did not fit |
| Framing.ClosedWhenFullOpen | BLETestCpp/include/structured_logger.h:321-326 | opening a packet for an entry that did not fit keeps that property |
| Framing.GroupsClosedWhenFull | BLETestCpp/include/structured_logger.h:316-344 | when every entry fits an empty buffer, each packet was closed only because the next entry did not fit in it |
| Framing.GroupsSingle | BLETestCpp/include/structured_logger.h:316-344 | entries that fit together go out as a single packet |
| Framing.TwoPackets | BLETestCpp/include/structured_logger.h:316-344 | when all but the last entry fit and the last one does not, two packets are sent |
| Framing.FramesWellFormed | BLETestCpp/include/structured_logger.h:316-344 | every packet sent is at most 5 + room bytes and reads back as its command and its entries |
| Logger.SchemaItems | BLETestCpp/include/structured_logger.h:319-321 | one schema entry per registered field |
| Logger.DataItems | BLETestCpp/include/structured_logger.h:334-336 | one data entry per registered field |
| Logger.StructuredLogger.constructor | BLETestCpp/include/structured_logger.h:261-270 | empty registry, nothing sent, buffers of 104 and 35 per vision object |
| Logger.StructuredLogger.Add | BLETestCpp/include/structured_logger.h:274-286 | appends an entry with the next code, or, with the 50 slots full, changes nothing (code counter and size totals included) |
| Logger.StructuredLogger.PrepareBuffer | BLETestCpp/include/structured_logger.h:297-306 | the buffer holds exactly `C0 DE cmd 00 00` |
| Logger.StructuredLogger.SendPacket | BLETestCpp/include/structured_logger.h:308-314 | patches the length and writes the buffer: one more packet, the frame of the payload |
| Logger.StructuredLogger.SendFormatEntry | BLETestCpp/include/structured_logger.h:319-327 | one loop iteration of send_data_format advances buffer and output by one step of `Groups` |
| Logger.StructuredLogger.RetryFormat | BLETestCpp/include/structured_logger.h:323-325 | sends the open packet and retries the entry in a fresh buffer, where it lands only if it fits |
| Logger.StructuredLogger.SendDataFormat | BLETestCpp/include/structured_logger.h:316-329 | the output grows by the frames of the registry's schema entries split by `Groups` |
| Logger.StructuredLogger.SendSchema | BLETestCpp/include/structured_logger.h:316-329 | the same, from the invariants of the buffer and registry |
| Logger.StructuredLogger.PackSchema | BLETestCpp/include/structured_logger.h:319-327 | after the loop the buffer holds the open packet and the closed packets have been sent |
| Logger.StructuredLogger.SendDataEntry | BLETestCpp/include/structured_logger.h:334-342 | one loop iteration of send_structured_data advances buffer and output by one step of `Groups` |
| Logger.StructuredLogger.RetryData | BLETestCpp/include/structured_logger.h:338-340 | sends the open packet and retries the entry in a fresh buffer |
| Logger.StructuredLogger.SendStructuredData | BLETestCpp/include/structured_logger.h:331-344 | the output grows by the frames of the data entries split by `Groups` |
| Logger.StructuredLogger.SendData | BLETestCpp/include/structured_logger.h:331-344 | the same, from the invariants of the buffer and registry |
| Logger.StructuredLogger.PackData | BLETestCpp/include/structured_logger.h:334-342 | after the loop the buffer holds the open packet and the closed packets have been sent |
| Logger.StructuredLogger.SendVisionData | BLETestCpp/include/structured_logger.h:346-359 | exactly one 0x49 packet whose payload is the present objects' records, cut where the vision buffer is full |
| Logger.StructuredLogger.SendObjects | BLETestCpp/include/structured_logger.h:348-358 | the loop over the objects leaves the records of the present ones in the buffer |
| Logger.RegisteredCodesOneByte | BLETestCpp/include/structured_logger.h:266-286 | with at most 50 fields every code is one varint byte, so the sizes are name + 3 and value + 1 |
| Logger.NumberedPrefix | BLETestCpp/include/structured_logger.h:282 | a prefix of a registry numbered 0, 1, 2, … is numbered too |
| Logger.TotalsAreLengths | BLETestCpp/include/structured_logger.h:283-284 | `m_fmt_size` and `m_data_size` are the total lengths of the schema and data entries |
| Logger.OnePacketWhenTotalsFit | BLETestCpp/include/structured_logger.h:316-344 | when the total fits the 99 payload bytes, the schema (or data) goes out as one packet |
| Logger.TotalsSnoc | BLETestCpp/include/structured_logger.h:283-284 | each registration adds its entry's sizes to the totals |
| Logger.ExampleSums | BLETestCpp/src/main.cpp:255-271 | the example's schema totals are 89 bytes after nine fields and 101 after ten; its data total is 32 |
| Logger.ExamplePrefixTotals | BLETestCpp/src/main.cpp:255-271 | the size totals of the example registry, field by field |
| Logger.ExampleSchemaSplit | BLETestCpp/src/main.cpp:255-271 | the first nine schema entries take 89 bytes and `dist_rear` 12 |
| Logger.ExampleTotals | BLETestCpp/src/main.cpp:255-271 | the example totals are 101 schema and 32 data bytes |
| Logger.ExampleSchemaPackets | BLETestCpp/src/main.cpp:255-271 | the example schema goes out as two packets, `C0 DE 46 80 59` with nine entries, then `C0 DE 46 80 0C` with `dist_rear` |
| Logger.ExampleLengthBytes | BLETestCpp/include/structured_logger.h:165-166 | the length bytes of 89, 12 and 32 are `80 59`, `80 0C` and `80 20` |
| Logger.ExampleDataPacket | BLETestCpp/src/main.cpp:255-271 | the example data goes out as one packet headed `C0 DE 44 80 20`, whatever the values |
| Logger.VisionPayloadWhole | BLETestCpp/include/structured_logger.h:263 | with fewer objects than the array holds, every present record is sent whole |
| Logger.VisionPayloadCut | BLETestCpp/include/structured_logger.h:263 | the buffer does not count the 5 header bytes: with one-object storage, a 35-byte AprilTag record is cut to 30 bytes |
| Vision.TypeTag | BLETestCpp/include/structured_logger.h:169-189 | 0xFF exactly for an unsupported type; otherwise the low six bits are clear and the top two bits are the type number the decoder reads |
| Vision.VarInts | BLETestCpp/include/structured_logger.h:376-394 | a run of varints takes at most two bytes per value |
| Vision.VarIntsSnoc | BLETestCpp/include/structured_logger.h:376-394 | a run of varints is the previous run plus the next value's bytes |
| Vision.PackVisionObject | BLETestCpp/include/structured_logger.h:361-396 | appends the object's record (nothing for an unsupported type), stopping at capacity |
| Vision.PackVarInts | BLETestCpp/include/structured_logger.h:376-394 | consecutive `pack_var_int` calls append the concatenated varints |
| Vision.IdByteSplits | BLETestCpp/include/structured_logger.h:169-189 | the first byte carries the type number in its top two bits and `id & 0x3F` below them |
| Vision.UnsupportedWritesNothing | BLETestCpp/include/structured_logger.h:368-373 | an object of an unsupported type adds no bytes |
| Vision.ObjectBytesBound | BLETestCpp/include/structured_logger.h:361-396 | a record is at most 35 bytes, and at most 19 without tag corners |
| Vision.ObjectsBytesBound | BLETestCpp/include/structured_logger.h:263 | the records of `n` objects take at most `35 * n` bytes |
| Vision.VarIntsTwoBytes | BLETestCpp/include/structured_logger.h:139-142 | values from 128 to 32767 take two bytes each |
| HostDecoder.UnpackVarInt | visionObject.js:59-70 | a successful read stays within the view, gives a value below 32768, and moves one byte exactly when the top bit is clear |
| HostDecoder.Low15IsAnd | visionObject.js:63 | `& 0x7FFF` keeps the value mod 32768 |
| HostDecoder.UnpackOneAt | visionObject.js:59-70 | a one-byte varint reads back as its value, one byte on |
| HostDecoder.UnpackTwoAt | visionObject.js:59-70 | a two-byte varint reads back as its value, two bytes on |
| HostDecoder.UnpackVarIntAt | visionObject.js:59-70 | every varint `pack_var_int` writes for 0..32767 is read back by `unpackVarInt`, which moves past exactly its bytes |
| HostDecoder.NegativeVarIntReadsBack | visionObject.js:59-70 | a negative coordinate is read back as `v + 32768`, not as `v` |
| HostDecoder.ReadVarInts | visionObject.js:83-98 | a run of reads yields that many values and ends inside the view |
| HostDecoder.ReadVarIntsFails | visionObject.js:83-98 | once a read fails, longer runs fail too |
| HostDecoder.ReadVarIntsNext | visionObject.js:83-98 | a run extends by one successful read |
| HostDecoder.ReadVarIntsFrom | visionObject.js:83-98 | consecutive varints in the view read back as their values, ending after their bytes |
| HostDecoder.ReadVarIntsRoundTrip | visionObject.js:83-98 | varints written after any prefix and before anything read back as their values |
| HostDecoder.DecimalRoundTrip | visionObject.js:22 | the decimal digits of `${id}` read back as the number |
| HostDecoder.IntToStringRoundTrip | visionObject.js:22 | the text of a signed id reads back as the id |
| HostDecoder.IntToStringInjective | visionObject.js:49 | different ids print differently |
| HostDecoder.GetName | visionObject.js:1-53 | every type that two bits can carry has a name other than "Unknown"; Mix & Match, classroom and AprilTag names give their id back |
| HostDecoder.GetNameDefault | visionObject.js:2 | no configuration behaves as `"GameElementsMixAndMatch"` |
| HostDecoder.MixAndMatchNameInverse | visionObject.js:12-23 | every Mix & Match name, listed or not, determines its id |
| HostDecoder.ClassroomNameInverse | visionObject.js:24-46 | every classroom name, listed or not, determines its id |
| HostDecoder.GetNameInjective | visionObject.js:1-53 | for AI-classified objects and AprilTags, the name tells the ids apart |
| HostDecoder.Pairs | visionObject.js:95-100 | the corner values are grouped into half as many (x, y) points |
| HostDecoder.Construct | visionObject.js:76-113 | the constructor's result is `ParseVisionObject` of the view, or none when a read leaves the view |
| HostDecoder.ConstructHead | visionObject.js:77-90 | the id and type split, name, seven varint reads and angle agree with `ParseHead` |
| HostDecoder.ConstructQuad | visionObject.js:92-101 | the quad loop reads eight varints as four points and reverses them; it fails exactly when a read fails |
| HostDecoder.ReadVarIntsExtend | visionObject.js:83-89 | each `unpackVarInt` of the seven reads extends the run or makes the whole run fail |
| HostDecoder.ReverseInPlace | visionObject.js:101 | `quad.reverse()` leaves the array in reverse order |
| HostDecoder.AngleRoundTrip | visionObject.js:90 | the four angle bytes read back as the float's bits |
| HostDecoder.CornersReversed | visionObject.js:101 | the quad holds corner 3 first and corner 0 last |
| HostDecoder.HeadReads | visionObject.js:77-90 | over an encoded record, the id byte, the seven box reads and the angle land on the encoder's fields |
| HostDecoder.ParsePlain | visionObject.js:76-113 | a record whose type is not 3 stops after the angle |
| HostDecoder.HeadParses | visionObject.js:77-90 | the reads of the head give the object without quad and the offset after the angle |
| HostDecoder.ParseTag | visionObject.js:92-112 | a type-3 record goes on to read the reversed quad, and `byteLength` covers the corners |
| HostDecoder.PlainRecordParses | visionObject.js:76-113 | an encoded non-tag record decodes whatever follows it |
| HostDecoder.TagRecordReads | visionObject.js:83-98 | over an encoded tag record, every read lands on the encoder's fields |
| HostDecoder.ObjectBytesLayout | BLETestCpp/include/structured_logger.h:374-394 | a supported record is the id byte, box varints, angle and (for tags) corner varints |
| HostDecoder.TagBits | visionObject.js:80 | the decoder sees type 3 exactly for AprilTag records |
| HostDecoder.RecordOfObjectParses | visionObject.js:76-113 | the record of any encodable object parses to the object built from its fields |
| HostDecoder.TagObjectParses | visionObject.js:92-112 | the same, for AprilTag records |
| HostDecoder.BuiltIsDecoded | visionObject.js:78-112 | the object built from the encoded fields is the decoded form of the original |
| HostDecoder.DecodeRoundTrip | visionObject.js:76-113 | the decoder inverts `pack_vision_object`: a record followed by anything decodes to the id's low six bits, the type, the fields, the angle bits, the reversed corners and the record's length |
| LegacyFraming.SendDataFormat | BLETest/src/main.py:161-176 | the returned bytes are the data format packet of the channels, or the error the first failing `struct.pack` raises |
| LegacyFraming.PrintData | BLETest/src/main.py:179-196 | the returned bytes are the data packet of the channels and values, or the first error |
| LegacyFraming.SchemaPayloadStops | BLETest/src/main.py:167-173 | once a schema entry fails, the loop's result is that failure |
| LegacyFraming.DataPayloadStops | BLETest/src/main.py:185-191 | once a data entry fails, the loop's result is that failure |
| LegacyFraming.PackLen | BLETest/src/main.py:152-159 | `pack_len` raises exactly at 32768 and up, and otherwise returns the C++ varint of the length |
| LegacyFraming.PackLenForms | BLETest/src/main.py:152-159 | the length takes one byte below 128, otherwise two with the top bit set |
| LegacyFraming.PacketRoundTrip | BLETest/src/main.py:175 | a packet is built exactly when the payload is shorter than 32768, and then `unpackVarInt` at offset 3 recovers command and payload |
| LegacyFraming.SchemaPayloadShape | BLETest/src/main.py:167-173 | the schema payload builds exactly when every code fits `!H`, and its length is 4 + name per channel |
| LegacyFraming.DataPayloadShape | BLETest/src/main.py:185-191 | the data payload builds exactly when the codes fit `!H` and the `'b'` values fit a signed char, and its length is 2 + value size per channel |
| LegacyFraming.SchemaEntryDecodes | BLETest/src/main.py:169-173 | a schema entry holds the 2-byte code, the format char, the name and a NUL |
| LegacyFraming.DataEntryDecodes | BLETest/src/main.py:187-191 | a data entry holds the 2-byte code and the value, read back signed for `'b'` and as bits for `'f'` |
| LegacyFraming.LegacyPacketsReadBack | BLETest/src/main.py:161-196 | both packets build exactly when the fields fit and the payload is below 32768 bytes, and each then reads back as its command and payload |

## Left out

- Floating point: floats and doubles are their bit patterns. The quad9 scaling in the `VisionObject` constructor (visionObject.js:103-108) is floating-point arithmetic and is not modelled. `normalize` in main.py is a float loop for a getter and is left out with the getters.
- Getters: the `std::function` and Python lambdas that read the sensors are not modelled. Their returned values are parameters.
- I/O: `fwrite`/`fflush` to stdout become the ghost `sent` sequence, and `sys.stdout.buffer.write` becomes the returned bytes. Warnings from `printf`/`print` (console output) are not modelled; in particular pack_len's warning format has no conversion for its argument.
- Device setup and the main loops of BLETestCpp/src/main.cpp and main.py are not modelled; main.cpp's registrations appear only as the example registry.
- The other JavaScript files (BLE and serial transport, IndexedDB, UI) are not part of this model.
- Logger.StructuredLogger.Add: `m_next_code` is a `uint16_t`; its wrap-around at 65536 is not modelled, because the 50-slot registry stops it at 50.
- Entries.Entry.Pack: the value is any integer, and `BigEndian` keeps it mod 256^Size(t). For a value in the range of `T` (`InRange`), those are the bytes the C++ writes; `Packer.ScalarRoundTrip` states that they read back.
- LegacyFraming: the channel table is a sequence, in the dictionary's insertion order. Names are given as their UTF-8 bytes. Only the formats `'b'` and `'f'` that the table uses are modelled; a `'f'` value is its float's bits.
- HostDecoder.UnpackVarInt: a read past the end of the `DataView`, which throws `RangeError` in JavaScript, is `None`.
