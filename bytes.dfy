// Bytes, big-endian fixed-width encoding and the small arithmetic facts the
// encoders rely on.

module Wrappers {

  datatype Option<+T> = None | Some(value: T)

  datatype Result<+R, +E> = Ok(value: R) | Err(error: E)
}

module Bytes {

  /** One octet on the wire (`uint8_t` on the device, a DataView byte on the
      host), held as its value. */
  newtype byte = x: int | 0 <= x < 256

  function Pow256(k: nat): (r: nat)
    ensures r > 0
  {
    if k == 0 then 1 else 256 * Pow256(k - 1)
  }

  /** `(uint8_t)(v >> (8 * k))` with an arithmetic shift: Dafny's `/` by a
      positive divisor rounds toward minus infinity, as the shift does. */
  function ShiftByte(v: int, k: nat): byte
  {
    ToByte((v / Pow256(k)) % 256)
  }

  /** The low `w` bytes of `v` (two's complement when `v` is negative),
      most significant first. */
  function BigEndian(v: int, w: nat): (r: seq<byte>)
    ensures |r| == w
    decreases w
  {
    if w == 0 then [] else BigEndian(v / 256, w - 1) + [ToByte(v % 256)]
  }

  /** Reads a byte string as an unsigned big-endian number. */
  function FromBigEndian(s: seq<byte>): (n: nat)
    ensures n < Pow256(|s|)
  {
    if s == [] then 0 else FromBigEndian(s[..|s| - 1]) * 256 + s[|s| - 1] as int
  }

  /** Reads a `w`-byte unsigned number as two's complement. */
  function ToSigned(u: nat, w: nat): int
  {
    if 2 * u >= Pow256(w) then u - Pow256(w) else u
  }

  /** Concatenation of a sequence of sequences. */
  function Flatten<T>(ss: seq<seq<T>>): (r: seq<T>)
  {
    if ss == [] then [] else Flatten(ss[..|ss| - 1]) + ss[|ss| - 1]
  }

  function Min(a: int, b: int): int
  {
    if a <= b then a else b
  }

  // ---------------------------------------------------------------------
  // Division facts

  lemma {:induction false} MulAtLeast(x: int, d: int)
    requires x >= 1 && d > 0
    ensures x * d >= d
  {
    assert x * d == (x - 1) * d + d;
  }

  lemma {:induction false} DivModUnique(v: int, d: int, q: int, r: int)
    requires d > 0 && 0 <= r < d && v == q * d + r
    ensures v / d == q && v % d == r
  {
    var q', r' := v / d, v % d;
    assert v == q' * d + r';
    assert (q - q') * d == r' - r by {
      assert (q - q') * d == q * d - q' * d;
    }
    if q > q' {
      MulAtLeast(q - q', d);
    } else if q < q' {
      MulAtLeast(q' - q, d);
    }
  }

  lemma {:induction false} DivDiv(v: int, a: int, b: int)
    requires a > 0 && b > 0
    ensures (v / a) / b == v / (a * b)
    ensures ((v / a) % b) * a + v % a == v % (a * b)
  {
    var q1, r1 := v / a, v % a;
    var q2, r2 := q1 / b, q1 % b;
    assert r2 * a <= (b - 1) * a;
    assert v == q2 * (a * b) + (r2 * a + r1);
    DivModUnique(v, a * b, q2, r2 * a + r1);
  }

  // ---------------------------------------------------------------------
  // Big-endian encoding

  /** Byte `i` of the big-endian encoding is the shift-and-truncate the
      device computes in its packing loop. */
  lemma {:induction false} BigEndianAt(v: int, w: nat, i: nat)
    requires i < w
    ensures BigEndian(v, w)[i] == ShiftByte(v, w - 1 - i)
    decreases w
  {
    if i == w - 1 {
      assert Pow256(0) == 1;
    } else {
      BigEndianAt(v / 256, w - 1, i);
      DivDiv(v, 256, Pow256(w - 2 - i));
    }
  }

  /** Decoding the `w` big-endian bytes of `v` gives `v` modulo `256^w`. */
  lemma {:induction false} BigEndianRoundTrip(v: int, w: nat)
    ensures FromBigEndian(BigEndian(v, w)) == v % Pow256(w)
    decreases w
  {
    if w > 0 {
      var s := BigEndian(v, w);
      var p := Pow256(w - 1);
      assert s[..w - 1] == BigEndian(v / 256, w - 1);
      BigEndianRoundTrip(v / 256, w - 1);
      var hi := FromBigEndian(s[..w - 1]);
      assert hi == (v / 256) % p;
      assert FromBigEndian(s) == hi * 256 + v % 256;
      DivDiv(v, 256, p);
      assert Pow256(w) == 256 * p;
    }
  }

  /** A value within the width's unsigned range survives the round trip. */
  lemma {:induction false} UnsignedRoundTrip(v: int, w: nat)
    requires 0 <= v < Pow256(w)
    ensures FromBigEndian(BigEndian(v, w)) == v
  {
    BigEndianRoundTrip(v, w);
    DivModUnique(v, Pow256(w), 0, v);
  }

  /** A value within the width's signed range survives the round trip once
      the decoded bits are read as two's complement. */
  lemma {:induction false} SignedRoundTrip(v: int, w: nat)
    requires w > 0
    requires -(Pow256(w) as int) <= 2 * v < Pow256(w)
    ensures ToSigned(FromBigEndian(BigEndian(v, w)), w) == v
  {
    BigEndianRoundTrip(v, w);
    var p := Pow256(w);
    assert p == 256 * Pow256(w - 1);
    if v < 0 {
      DivModUnique(v, p, -1, v + p);
    } else {
      DivModUnique(v, p, 0, v);
    }
  }

  // ---------------------------------------------------------------------
  // The bit operations the source applies to bytes, written as the
  // arithmetic they amount to (BitOpsAgree checks each against the
  // operation on eight bits)

  /** The byte holding the value `x`: a truncating cast of a value already
      reduced below 256. */
  function ToByte(x: int): (b: byte)
    requires 0 <= x < 256
    ensures b as int == x
  {
    x as byte
  }

  /** `b & 0x80` is set. */
  predicate TopBitSet(b: byte)
  {
    b >= 0x80
  }

  /** `b & 0x7F`. */
  function LowSeven(b: byte): byte
  {
    b % 0x80
  }

  /** `b | 0x80`. */
  function WithTopBit(b: byte): byte
  {
    if b >= 0x80 then b else b + 0x80
  }

  /** `b & 0x3F`. */
  function LowSix(b: byte): byte
  {
    b % 0x40
  }

  /** `(b & 0xC0) >> 6`. */
  function TopTwo(b: byte): byte
  {
    b / 0x40
  }

  /** `tag | low` where `tag` has only its top two bits set and `low` only
      its low six. */
  function JoinTopTwo(tag: byte, low: byte): byte
    requires tag % 0x40 == 0 && low < 0x40
  {
    tag + low
  }

  /** Each arithmetic form is the bit operation it stands for. */
  lemma {:induction false} BitOpsAgree(b: byte)
    ensures ((b as bv8) & 0x80 != 0) == TopBitSet(b)
    ensures ((b as bv8) & 0x7F) as int == LowSeven(b) as int
    ensures ((b as bv8) | 0x80) as int == WithTopBit(b) as int
    ensures ((b as bv8) & 0x3F) as int == LowSix(b) as int
    ensures (((b as bv8) & 0xC0) >> 6) as int == TopTwo(b) as int
  {
  }

  /** `tag | low` keeps the top two bits of `tag` and the low six of `low`,
      the two fields BitOpsAgree reads back with `& 0xC0` and `& 0x3F`. */
  lemma {:induction false} JoinAgrees(tag: byte, low: byte)
    requires tag % 0x40 == 0 && low < 0x40
    ensures TopTwo(JoinTopTwo(tag, low)) == TopTwo(tag)
    ensures LowSix(JoinTopTwo(tag, low)) == low
  {
  }

  lemma {:induction false} ConcatAssoc<T>(a: seq<T>, b: seq<T>, c: seq<T>)
    ensures (a + b) + c == a + (b + c)
  {
  }

  /** A slice holding `f + b` holds `f` and then `b`. */
  lemma {:induction false} SliceSplit<T>(s: seq<T>, at: nat, f: seq<T>, b: seq<T>)
    requires at + |f + b| <= |s| && s[at..at + |f + b|] == f + b
    ensures s[at..at + |f|] == f && s[at + |f|..at + |f| + |b|] == b
  {
    forall k | 0 <= k < |f| ensures s[at..at + |f|][k] == f[k] {
      assert s[at + k] == s[at..at + |f + b|][k] == (f + b)[k];
    }
    forall k | 0 <= k < |b| ensures s[at + |f|..at + |f| + |b|][k] == b[k] {
      assert s[at + |f| + k] == s[at..at + |f + b|][|f| + k] == (f + b)[|f| + k];
    }
  }

  /** The middle of a concatenation, sliced back out. */
  lemma {:induction false} MiddleSlice<T>(a: seq<T>, m: seq<T>, c: seq<T>)
    ensures |a| + |m| <= |a + m + c|
    ensures (a + m + c)[|a|..|a| + |m|] == m
  {
    var s := a + m + c;
    forall k | 0 <= k < |m|
      ensures s[|a|..|a| + |m|][k] == m[k]
    {
      assert s[|a| + k] == m[k];
    }
  }

  /** MiddleSlice with the sequence and the bounds of the slice named. */
  lemma {:induction false} MiddleSliceAt<T>(s: seq<T>, a: seq<T>, m: seq<T>, c: seq<T>, at: nat, end: nat)
    requires s == a + m + c && at == |a| && end == at + |m|
    ensures at <= end <= |s| && s[at..end] == m
  {
    MiddleSlice(a, m, c);
  }

  lemma {:induction false} FlattenAppend<T>(a: seq<seq<T>>, b: seq<seq<T>>)
    ensures Flatten(a + b) == Flatten(a) + Flatten(b)
  {
    if b != [] {
      assert (a + b)[..|a + b| - 1] == a + b[..|b| - 1];
      FlattenAppend(a, b[..|b| - 1]);
    } else {
      assert a + b == a;
    }
  }
}
