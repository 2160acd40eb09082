// Primitive packers of structured_logger.h: the wire types and their format
// codes, fixed-width big-endian values, the 1-or-2-byte varint and the
// back-patched packet length.

module Packer {
  import opened Bytes
  import opened StaticVectors
  import opened Wrappers

  /** The ten scalar types that have a format code (`fmt<T>`). */
  datatype WireType = Int8 | UInt8 | Int16 | UInt16 | Int32 | UInt32 | Int64 | UInt64 | Float32 | Float64

  /** `sizeof(T)`. */
  function Size(t: WireType): nat
  {
    match t
    case Int8 | UInt8 => 1
    case Int16 | UInt16 => 2
    case Int32 | UInt32 | Float32 => 4
    case Int64 | UInt64 | Float64 => 8
  }

  /** `fmt<T>::code`: the ASCII letter of Python's struct module for the
      type. The codes are 7-bit, so the small-scale flag in the top bit never
      collides with a code, and each names its type back. */
  function FmtCode(t: WireType): (r: byte)
    ensures r < 0x80
    ensures TypeOfCode(r) == Some(t)
  {
    match t
    case Int8 => 0x62 // 'b'
    case UInt8 => 0x42 // 'B'
    case Int16 => 0x68 // 'h'
    case UInt16 => 0x48 // 'H'
    case Int32 => 0x69 // 'i'
    case UInt32 => 0x49 // 'I'
    case Int64 => 0x71 // 'q'
    case UInt64 => 0x51 // 'Q'
    case Float32 => 0x66 // 'f'
    case Float64 => 0x64 // 'd'
  }

  predicate IsSigned(t: WireType)
  {
    t.Int8? || t.Int16? || t.Int32? || t.Int64?
  }

  /** The values a getter of type `t` can return. A float or double is given
      by its raw IEEE bit pattern, which is what the packer writes. */
  predicate InRange(t: WireType, v: int)
  {
    if IsSigned(t) then -(Pow256(Size(t)) as int) <= 2 * v < Pow256(Size(t))
    else 0 <= v < Pow256(Size(t))
  }

  /** The host's reading of a format code (the struct format letter). */
  function TypeOfCode(c: byte): (r: Option<WireType>)
  {
    if c == 0x62 then Some(Int8) // 'b'
    else if c == 0x42 then Some(UInt8) // 'B'
    else if c == 0x68 then Some(Int16) // 'h'
    else if c == 0x48 then Some(UInt16) // 'H'
    else if c == 0x69 then Some(Int32) // 'i'
    else if c == 0x49 then Some(UInt32) // 'I'
    else if c == 0x71 then Some(Int64) // 'q'
    else if c == 0x51 then Some(UInt64) // 'Q'
    else if c == 0x66 then Some(Float32) // 'f'
    else if c == 0x64 then Some(Float64) // 'd'
    else None
  }

  /** Distinct types have distinct codes. */
  lemma {:induction false} FmtCodesDistinct(t: WireType, u: WireType)
    requires t != u
    ensures FmtCode(t) != FmtCode(u)
  {
  }

  // ---------------------------------------------------------------------
  // Fixed-width values

  /** pack_integer_be: pushes the `width` bytes of `value`, most significant
      first; bytes that do not fit are dropped by push_back. */
  method PackIntegerBE(buf: StaticVector<byte>, value: int, width: nat)
    requires buf.Valid()
    modifies buf, buf.data
    ensures buf.Valid()
    ensures buf.Contents() == Fill(old(buf.Contents()), BigEndian(value, width), buf.Capacity())
  {
    ghost var s0 := buf.Contents();
    ghost var bytes := BigEndian(value, width);
    for i := 0 to width
      invariant buf.Valid()
      invariant buf.Contents() == Fill(s0, bytes[..i], buf.Capacity())
    {
      BigEndianAt(value, width, i);
      ghost var before := buf.Contents();
      buf.PushBack(ShiftByte(value, width - 1 - i));
      FillFill(s0, bytes[..i], [bytes[i]], buf.Capacity());
      assert bytes[..i] + [bytes[i]] == bytes[..i + 1];
    }
    assert bytes[..width] == bytes;
  }

  /** pack<T> and its float/double overloads: a value of type `t` (for a
      float, its bit pattern) as `sizeof(T)` big-endian bytes. */
  method Pack(buf: StaticVector<byte>, t: WireType, value: int)
    requires buf.Valid()
    modifies buf, buf.data
    ensures buf.Valid()
    ensures buf.Contents() == Fill(old(buf.Contents()), BigEndian(value, Size(t)), buf.Capacity())
  {
    PackIntegerBE(buf, value, Size(t));
  }

  /** What a host reads back from the `Size(t)` bytes of a value of type `t`. */
  function DecodeScalar(t: WireType, s: seq<byte>): int
  {
    if IsSigned(t) then ToSigned(FromBigEndian(s), |s|) else FromBigEndian(s)
  }

  /** Every value of every type survives the big-endian round trip. */
  lemma {:induction false} ScalarRoundTrip(t: WireType, v: int)
    requires InRange(t, v)
    ensures |BigEndian(v, Size(t))| == Size(t)
    ensures DecodeScalar(t, BigEndian(v, Size(t))) == v
  {
    if IsSigned(t) {
      SignedRoundTrip(v, Size(t));
    } else {
      UnsignedRoundTrip(v, Size(t));
    }
  }

  // ---------------------------------------------------------------------
  // Variable-length integers

  /** `w | 0x8000` on a 16-bit word, as arithmetic. */
  function SetTopBit16(w: int): int
  {
    if w >= 0x8000 then w else w + 0x8000
  }

  /** SetTopBit16 is the bitwise or with 0x8000 of a 16-bit word. */
  lemma {:induction false} SetTopBit16IsOr(w: bv16)
    ensures (w | 0x8000) == if w >= 0x8000 then w else w + 0x8000
  {
    if w >= 0x8000 {
      assert w | 0x8000 == w;
    } else {
      assert w | 0x8000 == w + 0x8000;
    }
  }

  /** `static_cast<uint16_t>(num | 0x8000)`: the low 16 bits of `num` (two's
      complement) with the top bit forced on. */
  function VarIntWord(num: int): int
  {
    SetTopBit16(num % 65536)
  }

  /** The bytes pack_var_int appends: one byte below 128, the two
      big-endian bytes of `num | 0x8000` below 32768 (a negative `num` lands
      here too), and nothing at or above 32768. PackVarInt shows these are
      the bytes of its pack calls. */
  function VarIntBytes(num: int): seq<byte>
  {
    if 0 <= num < 128 then [ToByte(num)]
    else if num < 32768 then [ToByte(VarIntWord(num) / 256), ToByte(VarIntWord(num) % 256)]
    else []
  }

  /** var_int_size: the width the registry reserves for a varint. It is
      the number of bytes pack_var_int appends for every value that has a
      varint, and never too few for a non-negative value. */
  function VarIntSize(num: int): (r: nat)
    ensures 0 <= num < 32768 ==> r == |VarIntBytes(num)|
    ensures num >= 0 ==> |VarIntBytes(num)| <= r
  {
    if num < 128 then 1 else 2
  }

  lemma {:induction false} TwoBytes(w: int)
    requires 0 <= w < 65536
    ensures BigEndian(w, 2) == [ToByte(w / 256), ToByte(w % 256)]
  {
    var hi := w / 256;
    assert hi % 256 == hi && hi / 256 == 0;
    assert BigEndian(hi, 1) == BigEndian(0, 0) + [ToByte(hi)];
    assert BigEndian(w, 2) == BigEndian(hi, 1) + [ToByte(w % 256)];
  }

  /** The three ranges of pack_var_int: one byte equal to the value, two
      big-endian bytes of the value plus 0x8000, or nothing. */
  lemma {:induction false} VarIntForms(num: int)
    ensures 0 <= num < 128 ==> VarIntBytes(num) == [ToByte(num)]
    ensures 128 <= num < 32768 ==> VarIntBytes(num) == BigEndian(num + 0x8000, 2)
    ensures num >= 32768 ==> VarIntBytes(num) == []
  {
    if 0 <= num < 128 {
      assert num % 256 == num;
      assert BigEndian(num, 1) == BigEndian(num / 256, 0) + [ToByte(num % 256)];
    } else if 128 <= num < 32768 {
      assert num % 65536 == num;
      assert VarIntWord(num) == num + 0x8000;
    }
  }

  /** For every value pack_var_int can encode, the first byte's top bit
      tells the one-byte form from the two-byte form. */
  lemma {:induction false} VarIntFirstByte(num: int)
    requires 0 <= num < 32768
    ensures |VarIntBytes(num)| > 0
    ensures !TopBitSet(VarIntBytes(num)[0]) <==> num < 128
  {
    VarIntForms(num);
    if num < 128 {
    } else {
      var w := num + 0x8000;
      TwoBytes(w);
    }
  }

  /** A negative value is written in the two-byte form although var_int_size
      counts it as one byte. */
  lemma {:induction false} NegativeVarIntMismatch(num: int)
    requires -32768 <= num < 0
    ensures VarIntSize(num) == 1
    ensures VarIntBytes(num) == BigEndian(num + 65536, 2)
    ensures |VarIntBytes(num)| == 2
  {
    DivModUnique(num, 65536, -1, num + 65536);
  }

  /** pack_var_int. The out-of-range warning goes to the console, which is
      not modelled. */
  method PackVarInt(buf: StaticVector<byte>, num: int)
    requires buf.Valid()
    modifies buf, buf.data
    ensures buf.Valid()
    ensures buf.Contents() == Fill(old(buf.Contents()), VarIntBytes(num), buf.Capacity())
  {
    if 0 <= num < 128 {
      PackIntegerBE(buf, num, 1);
      assert num % 256 == num;
      assert BigEndian(num, 1) == BigEndian(num / 256, 0) + [ToByte(num % 256)];
      return;
    }
    if num < 32768 {
      PackIntegerBE(buf, VarIntWord(num), 2);
      TwoBytes(VarIntWord(num));
      return;
    }
    assert buf.Contents() == Fill(buf.Contents(), [], buf.Capacity());
  }

  // ---------------------------------------------------------------------
  // The packet length field

  /** `((uint8_t)(payload_len >> 8)) | 0x80`. */
  function LenHigh(len: int): byte
  {
    WithTopBit(ShiftByte(len, 1))
  }

  /** `(uint8_t)payload_len`. */
  function LenLow(len: int): byte
  {
    ShiftByte(len, 0)
  }

  /** The two length bytes of a packet whose payload has `len` bytes. */
  function LengthField(len: int): seq<byte>
  {
    [LenHigh(len), LenLow(len)]
  }

  lemma {:induction false} LenHighValue(len: int)
    requires 0 <= len < 32768
    ensures LenHigh(len) as int == len / 256 + 128
  {
    var hi := len / 256;
    assert Pow256(1) == 256;
    assert hi % 256 == hi;
  }

  lemma {:induction false} LenLowValue(len: int)
    requires 0 <= len
    ensures LenLow(len) as int == len % 256
  {
    assert Pow256(0) == 1;
  }

  /** The length field is the two-byte varint form of the length. */
  lemma {:induction false} LengthFieldIsVarInt(len: int)
    requires 0 <= len < 32768
    ensures LengthField(len) == BigEndian(len + 0x8000, 2)
  {
    var hi, lo := len / 256, len % 256;
    LenHighValue(len);
    LenLowValue(len);
    var w := len + 0x8000;
    assert w / 256 == hi + 128 && w % 256 == lo;
    TwoBytes(w);
  }

  /** Masking the flag off the high byte leaves the length's high byte. */
  lemma {:induction false} LengthFieldHigh(len: int)
    requires 0 <= len < 32768
    ensures TopBitSet(LenHigh(len))
    ensures LowSeven(LenHigh(len)) as int == len / 256
  {
    LenHighValue(len);
  }

  /** For every representable payload length the field is the varint's
      two-byte form, whose top bit is set, and masking that bit off gives the
      length back. */
  lemma {:induction false} LengthFieldDecodes(len: int)
    requires 0 <= len < 32768
    ensures LengthField(len) == BigEndian(len + 0x8000, 2)
    ensures TopBitSet(LengthField(len)[0])
    ensures (LowSeven(LengthField(len)[0]) as int) * 256 + LengthField(len)[1] as int == len
  {
    LengthFieldIsVarInt(len);
    LengthFieldHigh(len);
    LenLowValue(len);
  }

  /** pack_len: writes the payload length (size - offset - 2) into the two
      placeholder bytes at `offset`, top bit set; at 32768 or more it warns
      and writes nothing. The size never changes. */
  method PackLen(buf: StaticVector<byte>, offset: nat)
    requires buf.Valid() && offset + 1 < buf.Capacity()
    modifies buf.data
    ensures buf.Valid()
    ensures var len := buf.size - offset - 2;
      buf.data[..] == if len >= 32768 then old(buf.data[..])
                      else old(buf.data[..])[offset := LenHigh(len)][offset + 1 := LenLow(len)]
  {
    var payloadLen := buf.size - offset - 2;
    if payloadLen >= 32768 {
      return;
    }
    buf.data[offset] := LenHigh(payloadLen);
    buf.data[offset + 1] := LenLow(payloadLen);
  }
}
