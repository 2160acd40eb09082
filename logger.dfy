// StructuredLogger of structured_logger.h: the 50-slot field registry, the
// 104-byte packet buffer, the vision buffer, and the three send operations.
// What send_packet writes to stdout is recorded in the ghost field `sent`.

module Logger {
  import opened Bytes
  import opened StaticVectors
  import opened Packer
  import opened Entries
  import opened Framing
  import opened Vision

  /** `m_bufferStorage`. */
  const BufferCapacity: nat := 104
  /** `m_registryStorage`. */
  const RegistryCapacity: nat := 50
  /** The per-object share of `m_aiBufferStorage`. */
  const VisionObjectBytes: nat := 35

  /** Codes are handed out 0, 1, 2, ... in registration order. */
  ghost predicate Numbered(es: seq<Entry>)
  {
    forall i :: 0 <= i < |es| ==> es[i].code == i
  }

  /** The sum of the entries' schema sizes (`m_fmt_size`). */
  function TotalFmtSize(es: seq<Entry>): nat
  {
    if es == [] then 0 else TotalFmtSize(es[..|es| - 1]) + es[|es| - 1].FmtSize()
  }

  /** The sum of the entries' data sizes (`m_data_size`). */
  function TotalDataSize(es: seq<Entry>): nat
  {
    if es == [] then 0 else TotalDataSize(es[..|es| - 1]) + es[|es| - 1].DataSize()
  }

  /** The schema entries, in registry order. */
  function SchemaItems(es: seq<Entry>): (r: seq<seq<byte>>)
    ensures |r| == |es|
  {
    seq(|es|, i requires 0 <= i < |es| => es[i].FormatBytes())
  }

  /** The data entries for one cycle's getter results, in registry order. */
  function DataItems(es: seq<Entry>, values: seq<int>): (r: seq<seq<byte>>)
    requires |values| == |es|
    ensures |r| == |es|
  {
    seq(|es|, i requires 0 <= i < |es| => es[i].DataBytes(values[i]))
  }

  /** The payload of the 0x49 packet for `objs`: the records of the
      present objects, cut where the vision buffer of `maxObjects` shares
      is full. */
  function VisionPayload(objs: seq<AiObject>, maxObjects: nat): seq<byte>
    requires maxObjects >= 1
  {
    var b := ObjectsBytes(objs);
    b[..Min(|b|, VisionObjectBytes * maxObjects - HeaderLen)]
  }

  class StructuredLogger {
    const buffer: StaticVector<byte>
    const aiBuffer: StaticVector<byte>
    const registry: StaticVector<Entry>
    /** `AIVISION_MAX_OBJECTS`. */
    const maxObjects: nat
    var nextCode: nat
    var fmtSize: nat
    var dataSize: nat
    /** The packets written to stdout so far, oldest first. */
    ghost var sent: seq<seq<byte>>

    ghost predicate Valid()
      reads this, buffer, aiBuffer, registry, registry.data
    {
      BuffersValid() && RegistryValid()
    }

    /** The packet buffer and the vision buffer: their capacities, and two
        distinct backing arrays. */
    ghost predicate BuffersValid()
      reads this, buffer, aiBuffer
    {
      buffer.Valid() && aiBuffer.Valid()
      && buffer.Capacity() == BufferCapacity
      && aiBuffer.Capacity() == VisionObjectBytes * maxObjects && maxObjects >= 1
      && buffer != aiBuffer && buffer.data != aiBuffer.data
    }

    /** The registry holds the entries numbered in order, `m_next_code` is
        the next number, and the two totals are the sums of the entries'
        sizes. */
    ghost predicate RegistryValid()
      reads this`nextCode, this`fmtSize, this`dataSize, registry, registry.data
    {
      registry.Valid() && registry.Capacity() == RegistryCapacity
      && Numbered(registry.Contents())
      && nextCode == |registry.Contents()|
      && fmtSize == TotalFmtSize(registry.Contents())
      && dataSize == TotalDataSize(registry.Contents())
    }

    /** The payload room of a packet in the main buffer. */
    function Room(): nat
    {
      BufferCapacity - HeaderLen
    }

    constructor (maxObjects: nat)
      requires maxObjects >= 1
      ensures Valid() && fresh(buffer) && fresh(aiBuffer) && fresh(registry)
      ensures this.maxObjects == maxObjects
      ensures registry.Contents() == [] && sent == []
    {
      var storage := new byte[BufferCapacity];
      var aiStorage := new byte[VisionObjectBytes * maxObjects];
      var registryStorage := new Entry[RegistryCapacity];
      buffer := new StaticVector(storage);
      aiBuffer := new StaticVector(aiStorage);
      registry := new StaticVector(registryStorage);
      this.maxObjects := maxObjects;
      nextCode := 0;
      fmtSize := 0;
      dataSize := 0;
      sent := [];
    }

    /** add / add_impl: registers a field under the next code, or leaves
        everything unchanged when the registry is full (the failure message
        goes to the console). */
    method Add(name: seq<byte>, t: WireType, smallScale: bool)
      requires Valid()
      modifies this, registry, registry.data
      ensures Valid() && sent == old(sent)
      ensures var e := Entry(old(nextCode), name, t, smallScale);
        registry.Contents() ==
          if |old(registry.Contents())| < RegistryCapacity then old(registry.Contents()) + [e]
          else old(registry.Contents())
      ensures |old(registry.Contents())| == RegistryCapacity ==>
        nextCode == old(nextCode) && fmtSize == old(fmtSize) && dataSize == old(dataSize)
    {
      if registry.Full() {
        return;
      }
      var entry := Entry(nextCode, name, t, smallScale);
      nextCode := nextCode + 1;
      fmtSize := fmtSize + entry.FmtSize();
      dataSize := dataSize + entry.DataSize();
      ghost var es := registry.Contents();
      registry.PushBack(entry);
      assert registry.Contents() == es + [entry];
      assert (es + [entry])[..|es|] == es;
    }

    /** prepare_buffer: empties `buf` and writes the header of `cmd`. */
    method PrepareBuffer(buf: StaticVector<byte>, cmd: byte)
      requires buf.Valid() && buf.Capacity() >= HeaderLen
      modifies buf, buf.data
      ensures buf.Valid() && buf.Contents() == Header(cmd)
    {
      buf.Clear();
      buf.PushBack(0xC0);
      buf.PushBack(0xDE);
      buf.PushBack(cmd);
      buf.PushBack(0x00);
      buf.PushBack(0x00);
    }

    /** send_packet: patches the length field at offset 3 and writes the
        buffer out. The buffer holds the header of `cmd` and then `payload`. */
    method SendPacket(buf: StaticVector<byte>, ghost cmd: byte, ghost payload: seq<byte>)
      requires buf.Valid() && buf.Contents() == Header(cmd) + payload
      modifies buf.data, this`sent
      ensures buf.Valid() && buf.Contents() == Frame(cmd, payload)
      ensures sent == old(sent) + [Frame(cmd, payload)]
    {
      PackLen(buf, 3);
      assert buf.Contents() == Frame(cmd, payload) by {
        var c := buf.Contents();
        assert |c| == |Frame(cmd, payload)|;
        forall k | 0 <= k < |c|
          ensures c[k] == Frame(cmd, payload)[k]
        {
        }
      }
      sent := sent + [buf.Contents()];
    }

    /** One turn of send_data_format's loop, on the `i`-th of the schema
        entries `items`: pack the entry's schema, and when it does not fit,
        send the packet, start a continuation and retry once. Before the turn
        the buffer holds the open packet of the first `i` entries; after it,
        that of the first `i + 1`. */
    method SendFormatEntry(entry: Entry, ghost items: seq<seq<byte>>, ghost i: nat, ghost sent0: seq<seq<byte>>)
      requires entry.code < 32768 && i < |items| && items[i] == entry.FormatBytes()
      requires buffer.Valid() && buffer.Capacity() == BufferCapacity
      requires buffer.Contents() == Header(DataFormatCommand) + Open(Groups(items[..i], Room()))
      requires sent == sent0 + Frames(DataFormatCommand, Closed(Groups(items[..i], Room())))
      modifies buffer, buffer.data, this`sent
      ensures buffer.Valid()
      ensures buffer.Contents() == Header(DataFormatCommand) + Open(Groups(items[..i + 1], Room()))
      ensures sent == sent0 + Frames(DataFormatCommand, Closed(Groups(items[..i + 1], Room())))
    {
      ghost var g, g' := Groups(items[..i], Room()), Groups(items[..i + 1], Room());
      GroupsStep(items, i, Room());
      EntrySizesExact(entry, 0);
      var ok := entry.PackNameAndFormat(buffer);
      if ok {
        ConcatAssoc(Header(DataFormatCommand), Open(g), entry.FormatBytes());
      } else {
        RetryFormat(entry, g, sent0);
      }
    }

    /** The other branch of that turn: the entry did not fit, so the open
        packet `Open(g)` is sent, a continuation packet is started and the
        entry is packed into it, which stores nothing if it is longer than a
        whole packet. */
    method RetryFormat(entry: Entry, ghost g: seq<seq<seq<byte>>>, ghost sent0: seq<seq<byte>>)
      requires entry.code < 32768 && g != []
      requires buffer.Valid() && buffer.Capacity() == BufferCapacity
      requires buffer.Contents() == Header(DataFormatCommand) + Open(g)
      requires sent == sent0 + Frames(DataFormatCommand, Closed(g))
      modifies buffer, buffer.data, this`sent
      ensures buffer.Valid()
      ensures buffer.Contents() == Header(DataFormatCommand) + if |entry.FormatBytes()| <= Room() then entry.FormatBytes() else []
      ensures sent == sent0 + Frames(DataFormatCommand, g)
    {
      SendPacket(buffer, DataFormatCommand, Open(g));
      FramesSnoc(DataFormatCommand, g);
      PrepareBuffer(buffer, DataFormatCommand);
      EntrySizesExact(entry, 0);
      var ok := entry.PackNameAndFormat(buffer);
      assert Header(DataFormatCommand) + [] == Header(DataFormatCommand);
    }

    /** send_data_format: the schema, split into as many 0x46 packets as it
        needs. */
    method SendDataFormat()
      requires Valid()
      modifies buffer, buffer.data, this`sent
      ensures Valid()
      ensures sent == old(sent) + Frames(DataFormatCommand, Groups(SchemaItems(registry.Contents()), Room()))
    {
      SendSchema();
    }

    /** The body of send_data_format, stated over the parts of Valid() its
        loop uses (the buffer and the registry) instead of the whole object
        invariant, which keeps the facts in scope of the loop's proof few
        (that proof is among the most costly in the model). SendDataFormat,
        which changes only what this method changes, gives callers Valid()
        back. */
    method SendSchema()
      requires buffer.Valid() && buffer.Capacity() == BufferCapacity
      requires registry.Valid() && registry.Capacity() == RegistryCapacity
      requires Numbered(registry.Contents())
      modifies buffer, buffer.data, this`sent
      ensures buffer.Valid()
      ensures sent == old(sent) + Frames(DataFormatCommand, Groups(SchemaItems(registry.Contents()), Room()))
    {
      ghost var es := registry.Contents();
      ghost var g := Groups(SchemaItems(es), Room());
      PrepareBuffer(buffer, DataFormatCommand);
      assert registry.Contents() == es;
      PackSchema();
      assert registry.Contents() == es;
      SendPacket(buffer, DataFormatCommand, Open(g));
      FramesSnoc(DataFormatCommand, g);
    }

    /** The loop of send_data_format over the registry: each schema entry
        goes into the open packet or, when it does not fit, into a
        continuation. */
    method PackSchema()
      requires buffer.Valid() && buffer.Capacity() == BufferCapacity
      requires registry.Valid() && registry.Capacity() == RegistryCapacity
      requires Numbered(registry.Contents())
      requires buffer.Contents() == Header(DataFormatCommand)
      modifies buffer, buffer.data, this`sent
      ensures buffer.Valid()
      ensures buffer.Contents() == Header(DataFormatCommand) + Open(Groups(SchemaItems(registry.Contents()), Room()))
      ensures sent == old(sent) + Frames(DataFormatCommand, Closed(Groups(SchemaItems(registry.Contents()), Room())))
    {
      ghost var es := registry.Contents();
      ghost var items := SchemaItems(es);
      assert Header(DataFormatCommand) + Open(Groups(items[..0], Room())) == Header(DataFormatCommand);
      for i := 0 to registry.size
        invariant buffer.Valid() && registry.Contents() == es && |es| <= RegistryCapacity
        invariant buffer.Contents() == Header(DataFormatCommand) + Open(Groups(items[..i], Room()))
        invariant sent == old(sent) + Frames(DataFormatCommand, Closed(Groups(items[..i], Room())))
      {
        var entry := registry.data[i];
        assert entry == es[i] && items[i] == entry.FormatBytes() && entry.code < 32768;
        SendFormatEntry(entry, items, i, old(sent));
      }
      assert items[..|es|] == items;
    }

    /** One turn of send_structured_data's loop, as SendFormatEntry with the
        data entry of the getter's `value`. */
    method SendDataEntry(entry: Entry, value: int, ghost items: seq<seq<byte>>, ghost i: nat, ghost sent0: seq<seq<byte>>)
      requires entry.code < 32768 && i < |items| && items[i] == entry.DataBytes(value)
      requires buffer.Valid() && buffer.Capacity() == BufferCapacity
      requires buffer.Contents() == Header(StructuredDataCommand) + Open(Groups(items[..i], Room()))
      requires sent == sent0 + Frames(StructuredDataCommand, Closed(Groups(items[..i], Room())))
      modifies buffer, buffer.data, this`sent
      ensures buffer.Valid()
      ensures buffer.Contents() == Header(StructuredDataCommand) + Open(Groups(items[..i + 1], Room()))
      ensures sent == sent0 + Frames(StructuredDataCommand, Closed(Groups(items[..i + 1], Room())))
    {
      ghost var g, g' := Groups(items[..i], Room()), Groups(items[..i + 1], Room());
      GroupsStep(items, i, Room());
      EntrySizesExact(entry, value);
      var ok := entry.Pack(buffer, value);
      if ok {
        ConcatAssoc(Header(StructuredDataCommand), Open(g), entry.DataBytes(value));
      } else {
        RetryData(entry, value, g, sent0);
      }
    }

    /** The other branch of that turn: the entry did not fit, so the open
        packet `Open(g)` is sent, a continuation packet is started and the
        entry is packed into it, which stores nothing if it is longer than a
        whole packet. */
    method RetryData(entry: Entry, value: int, ghost g: seq<seq<seq<byte>>>, ghost sent0: seq<seq<byte>>)
      requires entry.code < 32768 && g != []
      requires buffer.Valid() && buffer.Capacity() == BufferCapacity
      requires buffer.Contents() == Header(StructuredDataCommand) + Open(g)
      requires sent == sent0 + Frames(StructuredDataCommand, Closed(g))
      modifies buffer, buffer.data, this`sent
      ensures buffer.Valid()
      ensures buffer.Contents() == Header(StructuredDataCommand) + if |entry.DataBytes(value)| <= Room() then entry.DataBytes(value) else []
      ensures sent == sent0 + Frames(StructuredDataCommand, g)
    {
      SendPacket(buffer, StructuredDataCommand, Open(g));
      FramesSnoc(StructuredDataCommand, g);
      PrepareBuffer(buffer, StructuredDataCommand);
      EntrySizesExact(entry, value);
      var ok := entry.Pack(buffer, value);
      assert Header(StructuredDataCommand) + [] == Header(StructuredDataCommand);
    }

    /** send_structured_data: one cycle's values, split into as many 0x44
        packets as they need. `values[i]` is what the getter of the `i`-th
        registered field returns. */
    method SendStructuredData(values: seq<int>)
      requires Valid() && |values| == |registry.Contents()|
      modifies buffer, buffer.data, this`sent
      ensures Valid()
      ensures sent == old(sent) + Frames(StructuredDataCommand, Groups(DataItems(registry.Contents(), values), Room()))
    {
      SendData(values);
    }

    /** The body of send_structured_data, stated over the parts of Valid() its
        loop uses (the buffer and the registry) instead of the whole object
        invariant, which keeps the facts in scope of the loop's proof few
        (that proof is among the most costly in the model). SendStructuredData,
        which changes only what this method changes, gives callers Valid()
        back. */
    method SendData(values: seq<int>)
      requires buffer.Valid() && buffer.Capacity() == BufferCapacity
      requires registry.Valid() && registry.Capacity() == RegistryCapacity
      requires Numbered(registry.Contents()) && |values| == |registry.Contents()|
      modifies buffer, buffer.data, this`sent
      ensures buffer.Valid()
      ensures sent == old(sent) + Frames(StructuredDataCommand, Groups(DataItems(registry.Contents(), values), Room()))
    {
      ghost var es := registry.Contents();
      ghost var g := Groups(DataItems(es, values), Room());
      PrepareBuffer(buffer, StructuredDataCommand);
      assert registry.Contents() == es;
      PackData(values);
      assert registry.Contents() == es;
      SendPacket(buffer, StructuredDataCommand, Open(g));
      FramesSnoc(StructuredDataCommand, g);
    }

    /** The loop of send_structured_data over the registry: each data entry
        goes into the open packet or, when it does not fit, into a
        continuation. */
    method PackData(values: seq<int>)
      requires buffer.Valid() && buffer.Capacity() == BufferCapacity
      requires registry.Valid() && registry.Capacity() == RegistryCapacity
      requires Numbered(registry.Contents()) && |values| == |registry.Contents()|
      requires buffer.Contents() == Header(StructuredDataCommand)
      modifies buffer, buffer.data, this`sent
      ensures buffer.Valid()
      ensures buffer.Contents() == Header(StructuredDataCommand) + Open(Groups(DataItems(registry.Contents(), values), Room()))
      ensures sent == old(sent) + Frames(StructuredDataCommand, Closed(Groups(DataItems(registry.Contents(), values), Room())))
    {
      ghost var es := registry.Contents();
      ghost var items := DataItems(es, values);
      assert Header(StructuredDataCommand) + Open(Groups(items[..0], Room())) == Header(StructuredDataCommand);
      for i := 0 to registry.size
        invariant buffer.Valid() && registry.Contents() == es
        invariant |es| <= RegistryCapacity && |values| == |es|
        invariant buffer.Contents() == Header(StructuredDataCommand) + Open(Groups(items[..i], Room()))
        invariant sent == old(sent) + Frames(StructuredDataCommand, Closed(Groups(items[..i], Room())))
      {
        var entry := registry.data[i];
        assert entry == es[i] && items[i] == entry.DataBytes(values[i]) && entry.code < 32768;
        SendDataEntry(entry, values[i], items, i, old(sent));
      }
      assert items[..|es|] == items;
    }

    /** send_vision_data: one 0x49 packet with a record per present object.
        `objs` are the elements of the safe array, `getLength()` of them. */
    method SendVisionData(objs: seq<AiObject>)
      requires Valid() && |objs| <= maxObjects
      modifies aiBuffer, aiBuffer.data, this`sent
      ensures Valid()
      ensures sent == old(sent) + [Frame(VisionDataCommand, VisionPayload(objs, maxObjects))]
    {
      SendObjects(objs);
    }

    /** The body of send_vision_data, stated over the vision buffer alone
        for the same reason as SendSchema; SendVisionData gives callers
        Valid() back. */
    method SendObjects(objs: seq<AiObject>)
      requires aiBuffer.Valid() && aiBuffer.Capacity() == VisionObjectBytes * maxObjects && maxObjects >= 1
      modifies aiBuffer, aiBuffer.data, this`sent
      ensures aiBuffer.Valid()
      ensures sent == old(sent) + [Frame(VisionDataCommand, VisionPayload(objs, maxObjects))]
    {
      ghost var cap := aiBuffer.Capacity();
      ghost var header := Header(VisionDataCommand);
      PrepareBuffer(aiBuffer, VisionDataCommand);
      assert Fill(header, ObjectsBytes(objs[..0]), cap) == header;
      for i := 0 to |objs|
        invariant aiBuffer.Valid() && sent == old(sent)
        invariant aiBuffer.Contents() == Fill(header, ObjectsBytes(objs[..i]), cap)
      {
        assert objs[..i + 1][..i] == objs[..i];
        var obj := objs[i];
        if obj.present {
          PackVisionObject(aiBuffer, obj);
          FillFill(header, ObjectsBytes(objs[..i]), ObjectBytes(obj), cap);
        } else {
          assert ObjectsBytes(objs[..i + 1]) == ObjectsBytes(objs[..i]) + [];
        }
      }
      assert objs[..|objs|] == objs;
      FillPrefix(header, ObjectsBytes(objs), cap);
      SendPacket(aiBuffer, VisionDataCommand, VisionPayload(objs, maxObjects));
    }
  }

  // ---------------------------------------------------------------------
  // Properties of the registry and of the send operations

  /** Codes are below the registry's 50 slots, so every code is one varint
      byte and the precomputed sizes are the name plus three bytes, and
      the value plus one byte. */
  lemma {:induction false} RegisteredCodesOneByte(es: seq<Entry>, i: nat)
    requires Numbered(es) && |es| <= RegistryCapacity && i < |es|
    ensures es[i].code < 128
    ensures VarIntBytes(es[i].code) == [ToByte(es[i].code)]
    ensures es[i].FmtSize() == |es[i].name| + 3
    ensures es[i].DataSize() == Size(es[i].t) + 1
  {
    VarIntForms(es[i].code);
  }

  lemma {:induction false} NumberedPrefix(es: seq<Entry>, n: nat)
    requires Numbered(es) && n <= |es|
    ensures Numbered(es[..n])
  {
  }

  /** `m_fmt_size` is the length of the whole schema and `m_data_size` the
      length of one cycle's data, before either is split into packets. */
  lemma {:induction false} TotalsAreLengths(es: seq<Entry>, values: seq<int>)
    requires Numbered(es) && |es| <= RegistryCapacity && |values| == |es|
    ensures TotalFmtSize(es) == |Flatten(SchemaItems(es))|
    ensures TotalDataSize(es) == |Flatten(DataItems(es, values))|
  {
    if es != [] {
      var n := |es| - 1;
      NumberedPrefix(es, n);
      TotalsAreLengths(es[..n], values[..n]);
      assert SchemaItems(es)[..n] == SchemaItems(es[..n]);
      assert DataItems(es, values)[..n] == DataItems(es[..n], values[..n]);
      FlattenLast(SchemaItems(es));
      FlattenLast(DataItems(es, values));
      EntrySizesExact(es[n], values[n]);
      RegisteredCodesOneByte(es, n);
    }
  }

  /** When the totals fit one packet's room, send_data_format and
      send_structured_data each write a single packet holding everything. */
  lemma {:induction false} OnePacketWhenTotalsFit(es: seq<Entry>, values: seq<int>)
    requires Numbered(es) && |es| <= RegistryCapacity && |values| == |es|
    ensures TotalFmtSize(es) <= BufferCapacity - HeaderLen ==>
      Frames(DataFormatCommand, Groups(SchemaItems(es), BufferCapacity - HeaderLen))
        == [Frame(DataFormatCommand, Flatten(SchemaItems(es)))]
    ensures TotalDataSize(es) <= BufferCapacity - HeaderLen ==>
      Frames(StructuredDataCommand, Groups(DataItems(es, values), BufferCapacity - HeaderLen))
        == [Frame(StructuredDataCommand, Flatten(DataItems(es, values)))]
  {
    TotalsAreLengths(es, values);
    if TotalFmtSize(es) <= BufferCapacity - HeaderLen {
      GroupsSingle(SchemaItems(es), BufferCapacity - HeaderLen);
      FlattenOne(SchemaItems(es));
    }
    if TotalDataSize(es) <= BufferCapacity - HeaderLen {
      GroupsSingle(DataItems(es, values), BufferCapacity - HeaderLen);
      FlattenOne(DataItems(es, values));
    }
  }

  lemma {:induction false} TotalsSnoc(es: seq<Entry>, k: nat)
    requires k < |es|
    ensures TotalFmtSize(es[..k + 1]) == TotalFmtSize(es[..k]) + es[k].FmtSize()
    ensures TotalDataSize(es[..k + 1]) == TotalDataSize(es[..k]) + es[k].DataSize()
  {
    assert es[..k + 1][..k] == es[..k];
  }

  // ---------------------------------------------------------------------
  // The example program's registry: ButtonStates (uint16), Axis A to D
  // (int8), Heading, Roll and Pitch (float), dist_front and dist_rear
  // (int16), registered in that order.

  const ExampleNameLengths: seq<nat> := [12, 6, 6, 6, 6, 7, 4, 5, 10, 9]
  const ExampleTypes: seq<WireType> :=
    [UInt16, Int8, Int8, Int8, Int8, Float32, Float32, Float32, Int16, Int16]

  ghost predicate IsExampleRegistry(es: seq<Entry>)
  {
    Numbered(es) && |es| == 10
    && forall i :: 0 <= i < 10 ==> |es[i].name| == ExampleNameLengths[i] && es[i].t == ExampleTypes[i]
  }

  /** The schema bytes of the first `k` example registrations: each name
      plus three bytes. */
  function ExampleFmtBytes(k: nat): nat
    requires k <= 10
  {
    if k == 0 then 0 else ExampleFmtBytes(k - 1) + ExampleNameLengths[k - 1] + 3
  }

  /** The data bytes of the first `k` example registrations: each value
      plus one byte. */
  function ExampleDataBytes(k: nat): nat
    requires k <= 10
  {
    if k == 0 then 0 else ExampleDataBytes(k - 1) + Size(ExampleTypes[k - 1]) + 1
  }

  lemma {:induction false} ExampleSums()
    ensures ExampleFmtBytes(9) == 89 && ExampleFmtBytes(10) == 101
    ensures ExampleDataBytes(10) == 32
  {
    assert ExampleFmtBytes(5) == 51 && ExampleDataBytes(5) == 11;
  }

  lemma {:induction false} ExamplePrefixTotals(es: seq<Entry>, k: nat)
    requires IsExampleRegistry(es) && k <= 10
    ensures TotalFmtSize(es[..k]) == ExampleFmtBytes(k)
    ensures TotalDataSize(es[..k]) == ExampleDataBytes(k)
  {
    if k > 0 {
      ExamplePrefixTotals(es, k - 1);
      TotalsSnoc(es, k - 1);
      RegisteredCodesOneByte(es, k - 1);
    }
  }

  /** The first nine schema entries take 89 bytes and dist_rear's 12, so
      the schema does not fit the 99 bytes of room of one packet. */
  lemma {:induction false} ExampleSchemaSplit(es: seq<Entry>)
    requires IsExampleRegistry(es)
    ensures TotalFmtSize(es[..9]) == 89 && es[9].FmtSize() == 12
  {
    ExamplePrefixTotals(es, 9);
    ExampleSums();
    RegisteredCodesOneByte(es, 9);
  }

  /** The example registry's schema is 101 bytes and its data 32 bytes. */
  lemma {:induction false} ExampleTotals(es: seq<Entry>)
    requires IsExampleRegistry(es)
    ensures TotalFmtSize(es) == 101 && TotalDataSize(es) == 32
  {
    ExamplePrefixTotals(es, 10);
    ExampleSums();
    assert es[..10] == es;
  }

  /** The example schema goes out as two 0x46 packets: the first nine
      entries (length bytes 80 59), then dist_rear alone (80 0C). */
  lemma {:induction false} ExampleSchemaPackets(es: seq<Entry>)
    requires IsExampleRegistry(es)
    ensures var items := SchemaItems(es);
      Frames(DataFormatCommand, Groups(items, BufferCapacity - HeaderLen))
        == [Frame(DataFormatCommand, Flatten(items[..9])), Frame(DataFormatCommand, items[9])]
    ensures var f := Frames(DataFormatCommand, Groups(SchemaItems(es), BufferCapacity - HeaderLen));
      f[0][..5] == [0xC0, 0xDE, 0x46, 0x80, 0x59] && f[1][..5] == [0xC0, 0xDE, 0x46, 0x80, 0x0C]
  {
    var items := SchemaItems(es);
    ExampleSchemaSplit(es);
    NumberedPrefix(es, 9);
    TotalsAreLengths(es[..9], seq(9, i => 0));
    assert SchemaItems(es[..9]) == items[..9];
    EntrySizesExact(es[9], 0);
    TwoPackets(DataFormatCommand, items, BufferCapacity - HeaderLen);
    FrameHead(DataFormatCommand, Flatten(items[..9]));
    FrameHead(DataFormatCommand, items[9]);
    ExampleLengthBytes();
  }

  lemma {:induction false} ExampleLengthBytes()
    ensures LenHigh(89) == 0x80 && LenLow(89) == 0x59
    ensures LenHigh(12) == 0x80 && LenLow(12) == 0x0C
    ensures LenHigh(32) == 0x80 && LenLow(32) == 0x20
  {
    LenHighValue(89);
    LenLowValue(89);
    LenHighValue(12);
    LenLowValue(12);
    LenHighValue(32);
    LenLowValue(32);
  }

  /** The example's data goes out as one 0x44 packet of 32 payload bytes
      (length bytes 80 20), whatever the values. */
  lemma {:induction false} ExampleDataPacket(es: seq<Entry>, values: seq<int>)
    requires IsExampleRegistry(es) && |values| == 10
    ensures var items := DataItems(es, values);
      Frames(StructuredDataCommand, Groups(items, BufferCapacity - HeaderLen))
        == [Frame(StructuredDataCommand, Flatten(items))]
    ensures Frame(StructuredDataCommand, Flatten(DataItems(es, values)))[..5] == [0xC0, 0xDE, 0x44, 0x80, 0x20]
  {
    ExampleTotals(es);
    OnePacketWhenTotalsFit(es, values);
    TotalsAreLengths(es, values);
    FrameHead(StructuredDataCommand, Flatten(DataItems(es, values)));
    ExampleLengthBytes();
  }

  /** Fewer objects than the array holds always fit the vision buffer: the
      payload is every present object's record. */
  lemma {:induction false} VisionPayloadWhole(objs: seq<AiObject>, maxObjects: nat)
    requires 1 <= |objs| + 1 <= maxObjects
    ensures VisionPayload(objs, maxObjects) == ObjectsBytes(objs)
  {
    ObjectsBytesBound(objs);
  }

  /** The vision buffer is sized 35 bytes per object but also holds the
      5-byte header: with one slot, one AprilTag whose fields all take two
      varint bytes has a 35-byte record of which the packet carries 30. */
  lemma {:induction false} VisionPayloadCut(obj: AiObject)
    requires obj.present && obj.objType == TagObject
    requires forall i :: 0 <= i < 7 ==> 128 <= BoxFields(obj)[i] < 32768
    requires forall i :: 0 <= i < 8 ==> 128 <= CornerFields(obj)[i] < 32768
    ensures |ObjectsBytes([obj])| == 35
    ensures VisionPayload([obj], 1) == ObjectsBytes([obj])[..30]
  {
    VarIntsTwoBytes(BoxFields(obj));
    VarIntsTwoBytes(CornerFields(obj));
    assert |ObjectBytes(obj)| == 35;
    assert [obj][..0] == [];
    assert ObjectsBytes([obj]) == ObjectsBytes([]) + ObjectBytes(obj);
  }
}
