// Entry<T> of structured_logger.h: one registered telemetry field with its
// precomputed schema and data sizes and its two packers.

module Entries {
  import opened Bytes
  import opened StaticVectors
  import opened Packer

  /** A registered field. The getter is not held here: the value it returns
      in a cycle is passed to Pack. */
  datatype Entry = Entry(code: nat, name: seq<byte>, t: WireType, smallScale: bool)
  {
    /** m_fmt_size: code, format byte, name and NUL. */
    function FmtSize(): nat
    {
      VarIntSize(code) + 1 + |name| + 1
    }

    /** m_data_size: code and value. */
    function DataSize(): nat
    {
      VarIntSize(code) + Size(t)
    }

    /** The format byte: `fmt<T>::code`, with the top bit set for a
        small-scale field. */
    function FormatCode(): byte
    {
      if smallScale then WithTopBit(FmtCode(t)) else FmtCode(t)
    }

    /** The schema entry pack_name_and_format writes. */
    function FormatBytes(): seq<byte>
    {
      VarIntBytes(code) + [FormatCode()] + name + [0]
    }

    /** The data entry pack writes for the getter's current `value`. */
    function DataBytes(value: int): seq<byte>
    {
      VarIntBytes(code) + BigEndian(value, Size(t))
    }

    /** Entry::pack: refuses, touching nothing, when the data entry would
        pass the buffer's capacity; otherwise appends the whole entry. */
    method Pack(buf: StaticVector<byte>, value: int) returns (ok: bool)
      requires buf.Valid()
      modifies buf, buf.data
      ensures buf.Valid()
      ensures ok <==> old(buf.size) + DataSize() <= buf.Capacity()
      ensures !ok ==> buf.size == old(buf.size) && buf.data[..] == old(buf.data[..])
      ensures buf.Contents() == if ok then old(buf.Contents()) + DataBytes(value) else old(buf.Contents())
    {
      if DataSize() + buf.size > buf.Capacity() {
        return false;
      }
      ghost var s0 := buf.Contents();
      PackVarInt(buf, code);
      FillFits(s0, VarIntBytes(code), buf.Capacity());
      Packer.Pack(buf, t, value);
      FillFits(s0 + VarIntBytes(code), BigEndian(value, Size(t)), buf.Capacity());
      return true;
    }

    /** Entry::pack_name_and_format: the schema counterpart of Pack. */
    method PackNameAndFormat(buf: StaticVector<byte>) returns (ok: bool)
      requires buf.Valid()
      modifies buf, buf.data
      ensures buf.Valid()
      ensures ok <==> old(buf.size) + FmtSize() <= buf.Capacity()
      ensures !ok ==> buf.size == old(buf.size) && buf.data[..] == old(buf.data[..])
      ensures buf.Contents() == if ok then old(buf.Contents()) + FormatBytes() else old(buf.Contents())
    {
      if FmtSize() + buf.size > buf.Capacity() {
        return false;
      }
      ghost var s0, v := buf.Contents(), VarIntBytes(code);
      PackVarInt(buf, code);
      var fmtCode := FormatCode();
      buf.PushBack(fmtCode);
      buf.Append(name);
      buf.PushBack(0);
      FillFour(s0, v, [fmtCode], name, [0], buf.Capacity());
      FillFits(s0, v + [fmtCode] + name + [0], buf.Capacity());
      return true;
    }
  }

  /** The format byte carries the type's code in its low seven bits and the
      small-scale flag in its top bit. */
  lemma {:induction false} FormatCodeFlag(e: Entry)
    ensures TopBitSet(e.FormatCode()) <==> e.smallScale
    ensures LowSeven(e.FormatCode()) == FmtCode(e.t)
  {
  }

  /** With a code the varint can encode, the precomputed sizes are exactly
      the lengths of the entries the packers write, and the schema entry
      ends with the name and its NUL terminator. */
  lemma {:induction false} EntrySizesExact(e: Entry, value: int)
    requires e.code < 32768
    ensures |e.FormatBytes()| == e.FmtSize()
    ensures |e.DataBytes(value)| == e.DataSize()
    ensures e.FormatBytes()[e.FmtSize() - |e.name| - 1..] == e.name + [0]
  {
  }
}
