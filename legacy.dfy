// The older telemetry framing of the Python robot program (main.py):
// pack_len, send_data_format and print_data, which build a whole packet in
// a local byte string and then write it out at once.

module LegacyFraming {
  import opened Wrappers
  import opened Bytes
  import opened Packer
  import opened Framing
  import HostDecoder

  /** Why no packet is written: `struct.error` from a code or a value out of
      the range of its format, or pack_len's `ValueError`. */
  datatype Failure = StructError | LengthTooLong

  /** The format characters of the channel table: 'b' (a signed char) and
      'f' (a float, given by its raw IEEE-754 bits). */
  datatype Format = SignedChar | Float

  /** One entry of the channel table `idc`: its code, its name as UTF-8
      bytes and its format. The getter is not part of the entry; print_data
      is given the values the getters return. */
  datatype Channel = Channel(code: int, name: seq<byte>, fmt: Format)

  /** `fmt.encode('utf-8')`. */
  function FormatChar(f: Format): byte
  {
    match f
    case SignedChar => 0x62
    case Float => 0x66
  }

  /** The width `struct.pack` gives a value of format `f`. */
  function ValueSize(f: Format): nat
  {
    match f
    case SignedChar => 1
    case Float => 4
  }

  /** pack_len: one byte below 128, the two big-endian bytes of
      `n | 0x8000` below 32768, and an error otherwise. It fails exactly from
      32768 bytes on; below that it is the varint of the length, which the
      host reads with unpackVarInt. */
  function PackLen(n: nat): (r: Result<seq<byte>, Failure>)
    ensures r.Err? <==> n >= 32768
    ensures r.Ok? ==> r.value == VarIntBytes(n)
  {
    if n < 128 then
      VarIntForms(n);
      assert n % 256 == n && n / 256 == 0;
      assert BigEndian(n, 1) == BigEndian(n / 256, 0) + [ToByte(n % 256)];
      Ok(BigEndian(n, 1))
    else if n < 32768 then
      VarIntForms(n);
      assert SetTopBit16(n) == n + 0x8000;
      Ok(BigEndian(SetTopBit16(n), 2))
    else Err(LengthTooLong)
  }

  /** `struct.pack("!H", code)`. */
  function PackCode(code: int): Result<seq<byte>, Failure>
  {
    if 0 <= code < 65536 then Ok(BigEndian(code, 2)) else Err(StructError)
  }

  /** `struct.pack("!" + fmt, val)`. */
  function PackValue(f: Format, v: int): Result<seq<byte>, Failure>
  {
    match f
    case SignedChar => if -128 <= v < 128 then Ok(BigEndian(v, 1)) else Err(StructError)
    case Float => Ok(BigEndian(v, 4))
  }

  /** What send_data_format appends for one channel: its code, its format
      character, its name and a NUL. */
  function SchemaEntry(c: Channel): Result<seq<byte>, Failure>
  {
    match PackCode(c.code)
    case Err(e) => Err(e)
    case Ok(id) => Ok(id + [FormatChar(c.fmt)] + c.name + [0])
  }

  /** What print_data appends for one channel with value `v`: its code and
      the packed value. */
  function DataEntry(c: Channel, v: int): Result<seq<byte>, Failure>
  {
    match PackCode(c.code)
    case Err(e) => Err(e)
    case Ok(id) =>
      match PackValue(c.fmt, v)
      case Err(e) => Err(e)
      case Ok(b) => Ok(id + b)
  }

  /** The schema payload of `idc`, entry by entry; the first entry that
      cannot be packed ends it with an error. */
  function SchemaPayload(idc: seq<Channel>): Result<seq<byte>, Failure>
  {
    if idc == [] then Ok([])
    else
      match SchemaPayload(idc[..|idc| - 1])
      case Err(e) => Err(e)
      case Ok(p) =>
        match SchemaEntry(idc[|idc| - 1])
        case Err(e) => Err(e)
        case Ok(b) => Ok(p + b)
  }

  /** The data payload of `idc` with the getters' values. */
  function DataPayload(idc: seq<Channel>, values: seq<int>): Result<seq<byte>, Failure>
    requires |values| == |idc|
  {
    if idc == [] then Ok([])
    else
      match DataPayload(idc[..|idc| - 1], values[..|idc| - 1])
      case Err(e) => Err(e)
      case Ok(p) =>
        match DataEntry(idc[|idc| - 1], values[|idc| - 1])
        case Err(e) => Err(e)
        case Ok(b) => Ok(p + b)
  }

  /** `special_header + cmd + pack_len(buffer) + buffer`. */
  function Packet(cmd: byte, payload: seq<byte>): Result<seq<byte>, Failure>
  {
    match PackLen(|payload|)
    case Err(e) => Err(e)
    case Ok(len) => Ok([0xC0, 0xDE] + [cmd] + len + payload)
  }

  /** The packet send_data_format writes. */
  function DataFormatPacket(idc: seq<Channel>): Result<seq<byte>, Failure>
  {
    match SchemaPayload(idc)
    case Err(e) => Err(e)
    case Ok(p) => Packet(DataFormatCommand, p)
  }

  /** The packet print_data writes. */
  function DataPacket(idc: seq<Channel>, values: seq<int>): Result<seq<byte>, Failure>
    requires |values| == |idc|
  {
    match DataPayload(idc, values)
    case Err(e) => Err(e)
    case Ok(p) => Packet(StructuredDataCommand, p)
  }

  // ---------------------------------------------------------------------
  // The two routines, as the loops that grow `buffer`

  /** send_data_format: returns the packet it writes, or the error that
      stops it before anything is written. */
  method SendDataFormat(idc: seq<Channel>) returns (r: Result<seq<byte>, Failure>)
    ensures r == DataFormatPacket(idc)
  {
    var buffer: seq<byte> := [];
    for i := 0 to |idc|
      invariant SchemaPayload(idc[..i]) == Ok(buffer)
    {
      var c := idc[i];
      assert idc[..i + 1][..i] == idc[..i];
      var id := PackCode(c.code);
      if id.Err? {
        SchemaPayloadStops(idc, i + 1);
        return Err(id.error);
      }
      ghost var before := buffer;
      buffer := buffer + id.value;
      buffer := buffer + [FormatChar(c.fmt)];
      buffer := buffer + c.name + [0];
      assert buffer == before + SchemaEntry(c).value;
    }
    assert idc[..|idc|] == idc;
    var len := PackLen(|buffer|);
    if len.Err? {
      return Err(len.error);
    }
    buffer := [0xC0, 0xDE] + [DataFormatCommand] + len.value + buffer;
    return Ok(buffer);
  }

  /** print_data: `values[i]` is what the getter of `idc[i]` returns. */
  method PrintData(idc: seq<Channel>, values: seq<int>) returns (r: Result<seq<byte>, Failure>)
    requires |values| == |idc|
    ensures r == DataPacket(idc, values)
  {
    var buffer: seq<byte> := [];
    for i := 0 to |idc|
      invariant DataPayload(idc[..i], values[..i]) == Ok(buffer)
    {
      var c := idc[i];
      assert idc[..i + 1][..i] == idc[..i] && values[..i + 1][..i] == values[..i];
      var id := PackCode(c.code);
      if id.Err? {
        DataPayloadStops(idc, values, i + 1);
        return Err(id.error);
      }
      ghost var before := buffer;
      buffer := buffer + id.value;
      var val := values[i];
      var packed := PackValue(c.fmt, val);
      if packed.Err? {
        DataPayloadStops(idc, values, i + 1);
        return Err(packed.error);
      }
      buffer := buffer + packed.value;
      assert buffer == before + DataEntry(c, val).value;
    }
    assert idc[..|idc|] == idc && values[..|idc|] == values;
    var len := PackLen(|buffer|);
    if len.Err? {
      return Err(len.error);
    }
    buffer := [0xC0, 0xDE] + [StructuredDataCommand] + len.value + buffer;
    return Ok(buffer);
  }

  /** Once a prefix of the table fails, the whole schema fails with that
      error. */
  lemma {:induction false} SchemaPayloadStops(idc: seq<Channel>, k: nat)
    requires 0 < k <= |idc| && SchemaPayload(idc[..k]).Err?
    ensures SchemaPayload(idc) == SchemaPayload(idc[..k])
    decreases |idc|
  {
    if k < |idc| {
      var front := idc[..|idc| - 1];
      assert front[..k] == idc[..k];
      SchemaPayloadStops(front, k);
    } else {
      assert idc[..k] == idc;
    }
  }

  lemma {:induction false} DataPayloadStops(idc: seq<Channel>, values: seq<int>, k: nat)
    requires |values| == |idc| && 0 < k <= |idc| && DataPayload(idc[..k], values[..k]).Err?
    ensures DataPayload(idc, values) == DataPayload(idc[..k], values[..k])
    decreases |idc|
  {
    if k < |idc| {
      var front, vs := idc[..|idc| - 1], values[..|idc| - 1];
      assert front[..k] == idc[..k] && vs[..k] == values[..k];
      DataPayloadStops(front, vs, k);
    } else {
      assert idc[..k] == idc && values[..k] == values;
    }
  }

  // ---------------------------------------------------------------------
  // pack_len

  /** The two forms are told apart by the top bit of the first byte, and
      their widths are var_int_size's. */
  lemma {:induction false} PackLenForms(n: nat)
    requires n < 32768
    ensures |PackLen(n).value| == VarIntSize(n)
    ensures TopBitSet(PackLen(n).value[0]) <==> n >= 128
  {
    VarIntFirstByte(n);
  }

  /** The receiver's reading of a packet: the magic, the command, the
      length as a varint and exactly that many payload bytes. */
  function ParsePacket(pkt: seq<byte>): Option<(byte, seq<byte>)>
  {
    if |pkt| < 3 || pkt[0] != 0xC0 || pkt[1] != 0xDE then None
    else
      match HostDecoder.UnpackVarInt(pkt, 3)
      case None => None
      case Some((n, o)) => if o + n != |pkt| then None else Some((pkt[2], pkt[o..]))
  }

  /** A packet is built exactly when its payload is shorter than 32768
      bytes, and then it reads back as its command and its payload. */
  lemma {:induction false} PacketRoundTrip(cmd: byte, p: seq<byte>)
    ensures Packet(cmd, p).Ok? <==> |p| < 32768
    ensures Packet(cmd, p).Ok? ==> ParsePacket(Packet(cmd, p).value) == Some((cmd, p))
  {
    if |p| < 32768 {
      var len := VarIntBytes(|p|);
      var pkt := [0xC0, 0xDE] + [cmd] + len + p;
      assert pkt == Packet(cmd, p).value;
      MiddleSliceAt(pkt, [0xC0, 0xDE] + [cmd], len, p, 3, 3 + |len|);
      HostDecoder.UnpackVarIntAt(pkt, 3, |p|);
      assert pkt[3 + |len|..] == p;
    }
  }

  // ---------------------------------------------------------------------
  // The payloads

  /** The schema payload's size: four bytes and the name per channel. */
  function SchemaSize(idc: seq<Channel>): nat
  {
    if idc == [] then 0 else SchemaSize(idc[..|idc| - 1]) + 4 + |idc[|idc| - 1].name|
  }

  /** The data payload's size: the code and the value per channel. */
  function DataSize(idc: seq<Channel>): nat
  {
    if idc == [] then 0 else DataSize(idc[..|idc| - 1]) + 2 + ValueSize(idc[|idc| - 1].fmt)
  }

  predicate CodesFit(idc: seq<Channel>)
  {
    forall i :: 0 <= i < |idc| ==> 0 <= idc[i].code < 65536
  }

  /** The values print_data can pack: signed chars within -128..127. */
  predicate ValuesFit(idc: seq<Channel>, values: seq<int>)
    requires |values| == |idc|
  {
    forall i :: 0 <= i < |idc| ==> idc[i].fmt == SignedChar ==> -128 <= values[i] < 128
  }

  /** The schema payload is built exactly when every code fits two bytes,
      and it then holds 4 + |name| bytes per channel. */
  lemma {:induction false} SchemaPayloadShape(idc: seq<Channel>)
    ensures SchemaPayload(idc).Ok? <==> CodesFit(idc)
    ensures SchemaPayload(idc).Ok? ==> |SchemaPayload(idc).value| == SchemaSize(idc)
  {
    if idc != [] {
      var front := idc[..|idc| - 1];
      SchemaPayloadShape(front);
      assert CodesFit(idc) <==> CodesFit(front) && 0 <= idc[|idc| - 1].code < 65536 by {
        if CodesFit(front) && 0 <= idc[|idc| - 1].code < 65536 {
          forall i | 0 <= i < |idc| ensures 0 <= idc[i].code < 65536 {
            if i < |idc| - 1 {
              assert idc[i] == front[i];
            }
          }
        }
        if CodesFit(idc) {
          forall i | 0 <= i < |front| ensures 0 <= front[i].code < 65536 {
            assert front[i] == idc[i];
          }
        }
      }
    }
  }

  /** The data payload is built exactly when every code fits two bytes and
      every signed char value one, and it then holds the code and the value
      per channel. */
  lemma {:induction false} DataPayloadShape(idc: seq<Channel>, values: seq<int>)
    requires |values| == |idc|
    ensures DataPayload(idc, values).Ok? <==> CodesFit(idc) && ValuesFit(idc, values)
    ensures DataPayload(idc, values).Ok? ==> |DataPayload(idc, values).value| == DataSize(idc)
  {
    if idc != [] {
      var n := |idc| - 1;
      var front, vs := idc[..n], values[..n];
      DataPayloadShape(front, vs);
      FitSnoc(idc, values);
    }
  }

  /** CodesFit and ValuesFit of a table are those of all but its last
      channel and the last channel's own. */
  lemma {:induction false} FitSnoc(idc: seq<Channel>, values: seq<int>)
    requires |values| == |idc| > 0
    ensures var n := |idc| - 1;
      (CodesFit(idc) && ValuesFit(idc, values))
      == (CodesFit(idc[..n]) && ValuesFit(idc[..n], values[..n])
          && 0 <= idc[n].code < 65536 && (idc[n].fmt == SignedChar ==> -128 <= values[n] < 128))
  {
    var n := |idc| - 1;
    var front, vs := idc[..n], values[..n];
    if CodesFit(front) && ValuesFit(front, vs) && 0 <= idc[n].code < 65536
      && (idc[n].fmt == SignedChar ==> -128 <= values[n] < 128) {
      forall i | 0 <= i < |idc| ensures 0 <= idc[i].code < 65536 && (idc[i].fmt == SignedChar ==> -128 <= values[i] < 128) {
        if i < n {
          assert idc[i] == front[i] && values[i] == vs[i];
        }
      }
    }
    if CodesFit(idc) && ValuesFit(idc, values) {
      forall i | 0 <= i < n ensures 0 <= front[i].code < 65536 && (front[i].fmt == SignedChar ==> -128 <= vs[i] < 128) {
        assert front[i] == idc[i] && vs[i] == values[i];
      }
    }
  }

  /** One schema entry reads back as its code, its format character, its
      name and the terminating NUL. */
  lemma {:induction false} SchemaEntryDecodes(c: Channel)
    requires 0 <= c.code < 65536
    ensures |SchemaEntry(c).value| == 4 + |c.name|
    ensures FromBigEndian(SchemaEntry(c).value[..2]) == c.code
    ensures SchemaEntry(c).value[2] == FormatChar(c.fmt)
    ensures SchemaEntry(c).value[3..3 + |c.name|] == c.name
    ensures SchemaEntry(c).value[3 + |c.name|] == 0
  {
    var id := BigEndian(c.code, 2);
    var e := SchemaEntry(c).value;
    assert e == id + [FormatChar(c.fmt)] + c.name + [0];
    assert e[..2] == id;
    assert Pow256(2) == 65536;
    UnsignedRoundTrip(c.code, 2);
    MiddleSlice(id + [FormatChar(c.fmt)], c.name, [0]);
  }

  /** One data entry reads back as its code and its value: the signed char
      in two's complement, the float's 32 bits unchanged. */
  lemma {:induction false} DataEntryDecodes(c: Channel, v: int)
    requires 0 <= c.code < 65536
    requires c.fmt == SignedChar ==> -128 <= v < 128
    requires c.fmt == Float ==> 0 <= v < 0x1_0000_0000
    ensures |DataEntry(c, v).value| == 2 + ValueSize(c.fmt)
    ensures FromBigEndian(DataEntry(c, v).value[..2]) == c.code
    ensures c.fmt == SignedChar ==> ToSigned(FromBigEndian(DataEntry(c, v).value[2..]), 1) == v
    ensures c.fmt == Float ==> FromBigEndian(DataEntry(c, v).value[2..]) == v
  {
    var id := BigEndian(c.code, 2);
    var b := BigEndian(v, ValueSize(c.fmt));
    var e := DataEntry(c, v).value;
    assert e == id + b;
    assert e[..2] == id && e[2..] == b;
    assert Pow256(2) == 65536;
    UnsignedRoundTrip(c.code, 2);
    if c.fmt == SignedChar {
      assert Pow256(1) == 256;
      SignedRoundTrip(v, 1);
    } else {
      assert Pow256(4) == 0x1_0000_0000;
      UnsignedRoundTrip(v, 4);
    }
  }

  /** The packets of both routines: the magic, the command, pack_len of the
      payload and the payload. */
  lemma {:induction false} LegacyPacketsReadBack(idc: seq<Channel>, values: seq<int>)
    requires |values| == |idc|
    ensures DataFormatPacket(idc).Ok? <==> CodesFit(idc) && SchemaSize(idc) < 32768
    ensures DataFormatPacket(idc).Ok? ==>
      ParsePacket(DataFormatPacket(idc).value) == Some((DataFormatCommand, SchemaPayload(idc).value))
    ensures DataPacket(idc, values).Ok? <==> CodesFit(idc) && ValuesFit(idc, values) && DataSize(idc) < 32768
    ensures DataPacket(idc, values).Ok? ==>
      ParsePacket(DataPacket(idc, values).value) == Some((StructuredDataCommand, DataPayload(idc, values).value))
  {
    SchemaPayloadShape(idc);
    DataPayloadShape(idc, values);
    if SchemaPayload(idc).Ok? {
      PacketRoundTrip(DataFormatCommand, SchemaPayload(idc).value);
    }
    if DataPayload(idc, values).Ok? {
      PacketRoundTrip(StructuredDataCommand, DataPayload(idc, values).value);
    }
  }
}
