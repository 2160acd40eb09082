// The browser-side reader of visionObject.js: unpackVarInt, the byte
// decoding of the VisionObject constructor, and getName. A DataView is the
// byte sequence it views; a read past its end, which throws a RangeError
// in the browser, is `None` here.

module HostDecoder {
  import opened Wrappers
  import opened Bytes
  import opened Packer
  import opened Vision

  // ---------------------------------------------------------------------
  // unpackVarInt

  /** unpackVarInt: the value at `offset` and the offset after it. A clear
      top bit means a one-byte value; a set one means the 16-bit big-endian
      word at `offset` (getUint16) with its top bit masked off (`& 0x7FFF`,
      written as the remainder modulo 32768; Low15IsAnd). */
  function UnpackVarInt(dv: seq<byte>, offset: nat): (r: Option<(nat, nat)>)
    ensures r.Some? ==> offset < r.value.1 <= |dv| && r.value.0 < 32768
    ensures r.Some? ==> (r.value.1 == offset + 1 <==> !TopBitSet(dv[offset]))
  {
    if offset >= |dv| then None
    else if !TopBitSet(dv[offset]) then Some((dv[offset] as nat, offset + 1))
    else if offset + 2 > |dv| then None
    else Some(((dv[offset] as nat * 256 + dv[offset + 1] as nat) % 32768, offset + 2))
  }

  /** `w & 0x7FFF` on a 16-bit word is its remainder modulo 32768. */
  lemma {:induction false} Low15IsAnd(w: bv16)
    ensures w & 0x7FFF == w % 0x8000
  {
  }

  lemma {:induction false} UnpackOneAt(dv: seq<byte>, o: nat, v: int)
    requires 0 <= v < 128 && o < |dv| && dv[o] == ToByte(v)
    ensures UnpackVarInt(dv, o) == Some((v, o + 1))
  {
  }

  lemma {:induction false} UnpackTwoAt(dv: seq<byte>, o: nat, v: int)
    requires 128 <= v < 32768 && o + 2 <= |dv|
    requires dv[o] == ToByte((v + 32768) / 256) && dv[o + 1] == ToByte((v + 32768) % 256)
    ensures UnpackVarInt(dv, o) == Some((v, o + 2))
  {
    DivModUnique(v + 32768, 32768, 1, v);
  }

  /** What unpackVarInt reads back at `o`, where the bytes pack_var_int
      wrote for `v` start, is `v`; it advances by var_int_size(v). */
  lemma {:induction false} UnpackVarIntAt(dv: seq<byte>, o: nat, v: int)
    requires 0 <= v < 32768
    requires o + |VarIntBytes(v)| <= |dv| && dv[o..o + |VarIntBytes(v)|] == VarIntBytes(v)
    ensures UnpackVarInt(dv, o) == Some((v, o + |VarIntBytes(v)|))
  {
    VarIntForms(v);
    if v < 128 {
      assert dv[o] == dv[o..o + 1][0];
      UnpackOneAt(dv, o, v);
    } else {
      TwoBytes(v + 32768);
      assert dv[o] == dv[o..o + 2][0] && dv[o + 1] == dv[o..o + 2][1];
      UnpackTwoAt(dv, o, v);
    }
  }

  /** A negative value, which pack_var_int writes in the two-byte form,
      reads back as `v + 32768`, not as `v`. */
  lemma {:induction false} NegativeVarIntReadsBack(v: int, rest: seq<byte>)
    requires -32768 <= v < 0
    ensures UnpackVarInt(VarIntBytes(v) + rest, 0) == Some((v + 32768, 2))
  {
    NegativeVarIntMismatch(v);
    var dv := VarIntBytes(v) + rest;
    TwoBytes(v + 65536);
    assert dv[0] == ToByte((v + 65536) / 256) && dv[1] == ToByte((v + 65536) % 256);
    DivModUnique(v + 65536, 32768, 1, v + 32768);
  }

  /** `n` varints read one after the other from `offset`: their values and
      the offset after the last one. */
  function ReadVarInts(dv: seq<byte>, offset: nat, n: nat): (r: Option<(seq<int>, nat)>)
    ensures r.Some? ==> |r.value.0| == n && offset <= r.value.1
    ensures r.Some? && n > 0 ==> r.value.1 <= |dv|
  {
    if n == 0 then Some(([], offset))
    else
      match ReadVarInts(dv, offset, n - 1)
      case None => None
      case Some((vs, o)) =>
        match UnpackVarInt(dv, o)
        case None => None
        case Some((v, o')) => Some((vs + [v], o'))
  }

  /** Once a read fails, reading further fails too. */
  lemma {:induction false} ReadVarIntsFails(dv: seq<byte>, offset: nat, k: nat, n: nat)
    requires k <= n && ReadVarInts(dv, offset, k) == None
    ensures ReadVarInts(dv, offset, n) == None
  {
    if k < n {
      ReadVarIntsFails(dv, offset, k, n - 1);
    }
  }

  /** One more read after the reads of `front` succeeded. */
  lemma {:induction false} ReadVarIntsNext(dv: seq<byte>, offset: nat, front: seq<int>, o: nat, x: int, o': nat)
    requires ReadVarInts(dv, offset, |front|) == Some((front, o)) && UnpackVarInt(dv, o) == Some((x, o'))
    ensures ReadVarInts(dv, offset, |front| + 1) == Some((front + [x], o'))
  {
  }

  /** The reads of `front`, all but the last of `ns`, ending at `at + |f|`
      where the bytes `b` pack_var_int wrote for the last one follow,
      extend to the reads of `ns`. */
  lemma {:induction false} ReadVarIntsStep(dv: seq<byte>, at: nat, ns: seq<int>, front: seq<int>, f: seq<byte>, b: seq<byte>)
    requires |ns| > 0 && front == ns[..|ns| - 1]
    requires 0 <= ns[|ns| - 1] < 32768 && b == VarIntBytes(ns[|ns| - 1])
    requires ReadVarInts(dv, at, |front|) == Some((front, at + |f|))
    requires at + |f| + |b| <= |dv| && dv[at + |f|..at + |f| + |b|] == b
    ensures ReadVarInts(dv, at, |ns|) == Some((ns, at + |f| + |b|))
  {
    var x := ns[|ns| - 1];
    UnpackVarIntAt(dv, at + |f|, x);
    ReadVarIntsNext(dv, at, front, at + |f|, x, at + |f| + |b|);
    assert front + [x] == ns;
  }

  /** The bytes of `ns` at offset `at` of `dv` split into those of `front`,
      all but the last of `ns`, and those of the last one right after. */
  lemma ReadVarIntsSplit(dv: seq<byte>, at: nat, ns: seq<int>, front: seq<int>, f: seq<byte>, b: seq<byte>)
    requires |ns| > 0 && front == ns[..|ns| - 1]
    requires f == VarInts(front) && b == VarIntBytes(ns[|ns| - 1])
    requires at + |VarInts(ns)| <= |dv| && dv[at..at + |VarInts(ns)|] == VarInts(ns)
    ensures |VarInts(ns)| == |f| + |b|
    ensures at + |f| <= |dv| && dv[at..at + |f|] == f
    ensures at + |f| + |b| <= |dv| && dv[at + |f|..at + |f| + |b|] == b
  {
    assert VarInts(ns) == f + b;
    SliceSplit(dv, at, f, b);
  }

  /** Reading `|ns|` varints, all within the varint range, from offset
      `at` of a buffer holding the bytes pack_var_int wrote for them there
      gives `ns` back and the offset just past them. */
  lemma {:induction false} ReadVarIntsFrom(dv: seq<byte>, at: nat, ns: seq<int>)
    requires forall i :: 0 <= i < |ns| ==> 0 <= ns[i] < 32768
    requires at + |VarInts(ns)| <= |dv| && dv[at..at + |VarInts(ns)|] == VarInts(ns)
    ensures ReadVarInts(dv, at, |ns|) == Some((ns, at + |VarInts(ns)|))
  {
    if |ns| > 0 {
      var front := ns[..|ns| - 1];
      var f, b := VarInts(front), VarIntBytes(ns[|ns| - 1]);
      ReadVarIntsSplit(dv, at, ns, front, f, b);
      ReadVarIntsFrom(dv, at, front);
      ReadVarIntsStep(dv, at, ns, front, f, b);
    }
  }

  /** ReadVarIntsFrom with the written bytes `c` and the offset `end` just
      past them named. */
  lemma {:induction false} ReadVarIntsAt(dv: seq<byte>, at: nat, ns: seq<int>, c: seq<byte>, end: nat)
    requires forall i :: 0 <= i < |ns| ==> 0 <= ns[i] < 32768
    requires c == VarInts(ns) && end == at + |c| && end <= |dv| && dv[at..end] == c
    ensures ReadVarInts(dv, at, |ns|) == Some((ns, end))
  {
    ReadVarIntsFrom(dv, at, ns);
  }

  /** ReadVarIntsFrom for varints written between `pre` and `rest`. */
  lemma {:induction false} ReadVarIntsRoundTrip(pre: seq<byte>, ns: seq<int>, rest: seq<byte>)
    requires forall i :: 0 <= i < |ns| ==> 0 <= ns[i] < 32768
    ensures ReadVarInts(pre + VarInts(ns) + rest, |pre|, |ns|) == Some((ns, |pre| + |VarInts(ns)|))
  {
    MiddleSlice(pre, VarInts(ns), rest);
    ReadVarIntsFrom(pre + VarInts(ns) + rest, |pre|, ns);
  }

  // ---------------------------------------------------------------------
  // getName

  const MixAndMatch: string := "GameElementsMixAndMatch"

  /** The decimal digits of `n`, as a template literal prints a
      non-negative number. */
  function Decimal(n: nat): (r: string)
    ensures r != [] && r[0] != '-'
  {
    if n < 10 then ["0123456789"[n]] else Decimal(n / 10) + ["0123456789"[n % 10]]
  }

  /** `${id}` for an integer id. */
  function IntToString(i: int): string
  {
    if i < 0 then "-" + Decimal(-i) else Decimal(i)
  }

  /** A reader of decimal digits, the inverse of Decimal. */
  function DigitsValue(s: string): int
  {
    if s == [] then 0 else DigitsValue(s[..|s| - 1]) * 10 + (s[|s| - 1] as int - '0' as int)
  }

  /** A reader of an optionally signed decimal, the inverse of IntToString. */
  function ParseInt(s: string): int
  {
    if s != [] && s[0] == '-' then -DigitsValue(s[1..]) else DigitsValue(s)
  }

  lemma {:induction false} DecimalRoundTrip(n: nat)
    ensures DigitsValue(Decimal(n)) == n
  {
    var d := Decimal(n);
    if n >= 10 {
      DecimalRoundTrip(n / 10);
      assert d[..|d| - 1] == Decimal(n / 10);
    }
    assert "0123456789"[n % 10] as int - '0' as int == n % 10;
  }

  lemma {:induction false} IntToStringRoundTrip(i: int)
    ensures ParseInt(IntToString(i)) == i
  {
    var s := IntToString(i);
    if i < 0 {
      var d := Decimal(-i);
      assert s == "-" + d && s[0] == '-' && s[1..] == d;
      DecimalRoundTrip(-i);
      assert ParseInt(s) == -DigitsValue(d);
    } else {
      assert s == Decimal(i) && s[0] != '-';
      DecimalRoundTrip(i);
      assert ParseInt(s) == DigitsValue(s);
    }
  }

  /** Distinct ids print differently. */
  lemma {:induction false} IntToStringInjective(a: int, b: int)
    requires IntToString(a) == IntToString(b)
    ensures a == b
  {
    IntToStringRoundTrip(a);
    IntToStringRoundTrip(b);
  }

  /** Equal wrapped texts have equal insides. */
  lemma {:induction false} Unwrap(p: string, x: string, y: string, q: string)
    requires p + x + q == p + y + q
    ensures x == y
  {
    assert x == (p + x + q)[|p|..|p| + |x|];
    assert |x| == |y|;
    assert y == (p + y + q)[|p|..|p| + |y|];
  }

  /** getName: the label of a detected object. A missing configuration
      means the Mix & Match game elements; any other configuration than
      that one means the classroom elements. A type a record can carry (two
      bits) always has a name, and the names of AI-classified objects and
      AprilTags give their id back. */
  function GetName(id: int, typ: int, config: Option<string>): (r: string)
    ensures 0 <= typ < 4 ==> r != "Unknown"
    ensures typ == 2 && (config.None? || config.value == MixAndMatch) ==> MixAndMatchId(r) == id
    ensures typ == 2 && config.Some? && config.value != MixAndMatch ==> ClassroomId(r) == id
    ensures typ == 3 ==> AprilTagId(r) == id
  {
    var c := if config.None? then MixAndMatch else config.value;
    if typ == 0 then "Color Object"
    else if typ == 1 then "Code Object"
    else if typ == 2 then
      if c == MixAndMatch then
        MixAndMatchNameInverse(id);
        var n := MixAndMatchName(id);
        assert n != "Beam" ==> n[0] != 'U';
        n
      else
        ClassroomNameInverse(id);
        ClassroomName(id)
    else if typ == 3 then
      var n := "AprilTag " + IntToString(id);
      assert n[0] == 'A' && |n| >= 9 && n[9..] == IntToString(id);
      IntToStringRoundTrip(id);
      n
    else "Unknown"
  }

  function MixAndMatchName(id: int): string
  {
    if id == 0 then "Beam"
    else if id == 1 then "Blue Pin"
    else if id == 2 then "Red Pin"
    else if id == 3 then "Orange Pin"
    else "GameElementsMixAndMatch(" + IntToString(id) + ")"
  }

  function ClassroomName(id: int): string
  {
    if id == 0 then "Blue Ball"
    else if id == 1 then "Green Ball"
    else if id == 2 then "Red Ball"
    else if id == 3 then "Blue Ring"
    else if id == 4 then "Green Ring"
    else if id == 5 then "Red Ring"
    else if id == 6 then "Blue Cube"
    else if id == 7 then "Green Cube"
    else if id == 8 then "Red Cube"
    else "ClassroomElements(" + IntToString(id) + ")"
  }

  /** No configuration and the Mix & Match configuration name alike. */
  lemma {:induction false} GetNameDefault(id: int, typ: int)
    ensures GetName(id, typ, None) == GetName(id, typ, Some(MixAndMatch))
  {
  }

  /** Reads the id back out of a Mix & Match name. */
  function MixAndMatchId(n: string): int
  {
    if n == "Beam" then 0
    else if n == "Blue Pin" then 1
    else if n == "Red Pin" then 2
    else if n == "Orange Pin" then 3
    else if |n| >= 25 then ParseInt(n[24..|n| - 1])
    else 0
  }

  /** Reads the id back out of a classroom name. */
  function ClassroomId(n: string): int
  {
    if n == "Blue Ball" then 0
    else if n == "Green Ball" then 1
    else if n == "Red Ball" then 2
    else if n == "Blue Ring" then 3
    else if n == "Green Ring" then 4
    else if n == "Red Ring" then 5
    else if n == "Blue Cube" then 6
    else if n == "Green Cube" then 7
    else if n == "Red Cube" then 8
    else if |n| >= 19 then ParseInt(n[18..|n| - 1])
    else 0
  }

  /** Reads the id back out of an AprilTag name. */
  function AprilTagId(n: string): int
  {
    if |n| >= 9 then ParseInt(n[9..]) else 0
  }

  /** Every Mix & Match name, listed or not, gives its id back. */
  lemma {:induction false} MixAndMatchNameInverse(id: int)
    ensures MixAndMatchId(MixAndMatchName(id)) == id
  {
    if !(0 <= id <= 3) {
      var n, d := MixAndMatchName(id), IntToString(id);
      assert n == "GameElementsMixAndMatch(" + d + ")";
      assert |n| > 10 && n[24..|n| - 1] == d;
      IntToStringRoundTrip(id);
    }
  }

  /** Every classroom name, listed or not, gives its id back. */
  lemma {:induction false} ClassroomNameInverse(id: int)
    ensures ClassroomId(ClassroomName(id)) == id
  {
    if !(0 <= id <= 8) {
      var n, d := ClassroomName(id), IntToString(id);
      assert n == "ClassroomElements(" + d + ")";
      assert |n| > 10 && n[18..|n| - 1] == d;
      IntToStringRoundTrip(id);
    }
  }

  /** Within one type and configuration, the AI-classified and AprilTag
      names tell the ids apart. */
  lemma {:induction false} GetNameInjective(a: int, b: int, typ: int, config: Option<string>)
    requires typ == 2 || typ == 3
    requires GetName(a, typ, config) == GetName(b, typ, config)
    ensures a == b
  {
    var c := if config.None? then MixAndMatch else config.value;
    if typ == 3 {
      Unwrap("AprilTag ", IntToString(a), IntToString(b), "");
      IntToStringInjective(a, b);
    } else if c == MixAndMatch {
      MixAndMatchNameInverse(a);
      MixAndMatchNameInverse(b);
    } else {
      ClassroomNameInverse(a);
      ClassroomNameInverse(b);
    }
  }

  // ---------------------------------------------------------------------
  // The VisionObject constructor

  /** The properties the constructor sets. The angle is the raw bits
      getFloat32 reads; `quad` is set for AprilTags only. */
  datatype VisionObject = VisionObject(
    id: int, typ: int, name: string,
    originX: int, originY: int,
    centerX: int, centerY: int,
    width: int, height: int,
    score: int,
    angleBits: int,
    quad: Option<seq<(int, int)>>,
    byteLength: nat)

  /** Consecutive values taken two at a time as (x, y) points. */
  function Pairs(vs: seq<int>): (r: seq<(int, int)>)
    ensures |r| == |vs| / 2
  {
    seq(|vs| / 2, k requires 0 <= k < |vs| / 2 => (vs[2 * k], vs[2 * k + 1]))
  }

  function Reverse<T>(s: seq<T>): seq<T>
  {
    seq(|s|, i requires 0 <= i < |s| => s[|s| - 1 - i])
  }

  /** The object the constructor builds from first byte `h`, the seven box
      varints, the angle bytes, the quad and the end of the record. */
  function Built(h: byte, box: seq<int>, angle: seq<byte>, quad: Option<seq<(int, int)>>, len: nat): VisionObject
    requires |box| == 7
  {
    var id, typ := LowSix(h) as int, TopTwo(h) as int;
    VisionObject(id, typ, GetName(id, typ, Some(MixAndMatch)),
      box[0], box[1], box[2], box[3], box[4], box[5], box[6], FromBigEndian(angle), quad, len)
  }

  /** The constructor up to the angle: the id byte, seven varints and
      four angle bytes, with the offset after them. `None` where a read
      would pass the end of `dv`. */
  function ParseHead(dv: seq<byte>): Option<(VisionObject, nat)>
  {
    if |dv| == 0 then None
    else
      match ReadVarInts(dv, 1, 7)
      case None => None
      case Some((box, i)) =>
        if i + 4 > |dv| then None
        else Some((Built(dv[0], box, dv[i..i + 4], None, i + 4), i + 4))
  }

  /** The constructor, read as a whole: the head and, for type 3, four
      varint (x, y) pairs stored last point first. */
  function ParseVisionObject(dv: seq<byte>): Option<VisionObject>
  {
    match ParseHead(dv)
    case None => None
    case Some((base, at)) => if base.typ != 3 then Some(base) else ParseQuad(dv, at, base)
  }

  /** The AprilTag tail: four (x, y) varint pairs from `at`, stored in
      `quad` last point first, and the record's end. */
  function ParseQuad(dv: seq<byte>, at: nat, base: VisionObject): Option<VisionObject>
  {
    match ReadVarInts(dv, at, 8)
    case None => None
    case Some((corners, j)) => Some(base.(quad := Some(Reverse(Pairs(corners))), byteLength := j))
  }

  /** The constructor as it runs: the offset `i` advances read by read, and
      a read past the end of `dv` (a RangeError) leaves no object. */
  method Construct(dv: seq<byte>) returns (r: Option<VisionObject>)
    ensures r == ParseVisionObject(dv)
  {
    var head := ConstructHead(dv);
    if head.None? {
      return None;
    }
    var (obj, i) := head.value;
    if obj.typ == 3 {
      var tail := ConstructQuad(dv, i);
      if tail.None? {
        return None;
      }
      obj := obj.(quad := Some(tail.value.0), byteLength := tail.value.1);
    }
    return Some(obj);
  }

  /** The constructor up to the angle: the id byte with the id, the type
      and the name, the seven box varints and the angle's four bytes. */
  method ConstructHead(dv: seq<byte>) returns (r: Option<(VisionObject, nat)>)
    ensures r == ParseHead(dv)
  {
    var i: nat := 0;
    if i >= |dv| {
      return None;
    }
    var objId := dv[i];
    i := i + 1;
    var id, typ := LowSix(objId) as int, TopTwo(objId) as int;
    var name := GetName(id, typ, Some(MixAndMatch));

    ghost var box: seq<int> := [];
    var u := UnpackVarInt(dv, i);
    ReadVarIntsExtend(dv, 1, 0, 7, box, i);
    if u.None? { return None; }
    var originX := u.value.0;
    box, i := box + [originX], u.value.1;
    u := UnpackVarInt(dv, i);
    ReadVarIntsExtend(dv, 1, 1, 7, box, i);
    if u.None? { return None; }
    var originY := u.value.0;
    box, i := box + [originY], u.value.1;
    u := UnpackVarInt(dv, i);
    ReadVarIntsExtend(dv, 1, 2, 7, box, i);
    if u.None? { return None; }
    var centerX := u.value.0;
    box, i := box + [centerX], u.value.1;
    u := UnpackVarInt(dv, i);
    ReadVarIntsExtend(dv, 1, 3, 7, box, i);
    if u.None? { return None; }
    var centerY := u.value.0;
    box, i := box + [centerY], u.value.1;
    u := UnpackVarInt(dv, i);
    ReadVarIntsExtend(dv, 1, 4, 7, box, i);
    if u.None? { return None; }
    var width := u.value.0;
    box, i := box + [width], u.value.1;
    u := UnpackVarInt(dv, i);
    ReadVarIntsExtend(dv, 1, 5, 7, box, i);
    if u.None? { return None; }
    var height := u.value.0;
    box, i := box + [height], u.value.1;
    u := UnpackVarInt(dv, i);
    ReadVarIntsExtend(dv, 1, 6, 7, box, i);
    if u.None? { return None; }
    var score := u.value.0;
    box, i := box + [score], u.value.1;

    if i + 4 > |dv| {
      return None;
    }
    var angle := FromBigEndian(dv[i..i + 4]);
    HeadParses(dv, box, i, dv[i..i + 4]);
    i := i + 4;
    return Some((VisionObject(id, typ, name, originX, originY, centerX, centerY, width, height, score,
      angle, None, i), i));
  }

  /** The AprilTag loop: four (x, y) points pushed onto `quad`, which is
      then reversed in place; with the offset after the last read. */
  method ConstructQuad(dv: seq<byte>, at: nat) returns (r: Option<(seq<(int, int)>, nat)>)
    ensures r.None? <==> ReadVarInts(dv, at, 8).None?
    ensures r.Some? ==> r.value == (Reverse(Pairs(ReadVarInts(dv, at, 8).value.0)), ReadVarInts(dv, at, 8).value.1)
  {
    var i := at;
    var quad := new (int, int)[4];
    ghost var corners: seq<int> := [];
    for j := 0 to 4
      invariant |corners| == 2 * j
      invariant ReadVarInts(dv, at, 2 * j) == Some((corners, i))
      invariant forall k :: 0 <= k < j ==> quad[k] == (corners[2 * k], corners[2 * k + 1])
    {
      var u := UnpackVarInt(dv, i);
      ReadVarIntsExtend(dv, at, 2 * j, 8, corners, i);
      if u.None? { return None; }
      var x := u.value.0;
      corners, i := corners + [x], u.value.1;
      u := UnpackVarInt(dv, i);
      ReadVarIntsExtend(dv, at, 2 * j + 1, 8, corners, i);
      if u.None? { return None; }
      var y := u.value.0;
      corners, i := corners + [y], u.value.1;
      quad[j] := (x, y);
    }
    assert quad[..] == Pairs(corners);
    ReverseInPlace(quad);
    return Some((quad[..], i));
  }

  /** After `k` successful reads, the next unpackVarInt either fails, and
      then so does the whole run of `n`, or extends the reads by one. */
  lemma {:induction false} ReadVarIntsExtend(dv: seq<byte>, offset: nat, k: nat, n: nat, vs: seq<int>, o: nat)
    requires k < n && ReadVarInts(dv, offset, k) == Some((vs, o))
    ensures UnpackVarInt(dv, o).None? ==> ReadVarInts(dv, offset, n) == None
    ensures UnpackVarInt(dv, o).Some? ==>
      ReadVarInts(dv, offset, k + 1) == Some((vs + [UnpackVarInt(dv, o).value.0], UnpackVarInt(dv, o).value.1))
  {
    if UnpackVarInt(dv, o).None? {
      assert ReadVarInts(dv, offset, k + 1) == None;
      ReadVarIntsFails(dv, offset, k + 1, n);
    }
  }

  /** `Array.prototype.reverse`: the elements of `a` in the opposite order,
      in place. */
  method ReverseInPlace<T>(a: array<T>)
    modifies a
    ensures a[..] == Reverse(old(a[..]))
  {
    var lo, hi := 0, a.Length;
    while lo + 1 < hi
      invariant 0 <= lo <= hi <= a.Length && lo + hi == a.Length
      invariant forall k :: 0 <= k < lo || hi <= k < a.Length ==> a[k] == old(a[a.Length - 1 - k])
      invariant forall k :: lo <= k < hi ==> a[k] == old(a[k])
    {
      a[lo], a[hi - 1] := a[hi - 1], a[lo];
      lo, hi := lo + 1, hi - 1;
    }
  }

  /** An object the encoder writes in full and the decoder reads back
      exactly: a supported type, every varint field within 0 to 32767 and
      the angle within 32 bits. */
  ghost predicate Encodable(obj: AiObject)
  {
    obj.objType != OtherObject
    && (forall i :: 0 <= i < |BoxFields(obj)| ==> 0 <= BoxFields(obj)[i] < 32768)
    && (obj.objType == TagObject ==> forall i :: 0 <= i < |CornerFields(obj)| ==> 0 <= CornerFields(obj)[i] < 32768)
    && 0 <= obj.angleBits < 0x1_0000_0000
  }

  /** What the browser holds after decoding the record of `obj`. */
  function Decoded(obj: AiObject): VisionObject
  {
    var id, typ := obj.id % 64, TypeNumber(obj.objType);
    VisionObject(id, typ, GetName(id, typ, Some(MixAndMatch)),
      obj.originX, obj.originY, obj.centerX, obj.centerY, obj.width, obj.height, obj.score,
      obj.angleBits,
      if obj.objType == TagObject then
        Some([(obj.tagX.3, obj.tagY.3), (obj.tagX.2, obj.tagY.2), (obj.tagX.1, obj.tagY.1), (obj.tagX.0, obj.tagY.0)])
      else None,
      |ObjectBytes(obj)|)
  }

  lemma {:induction false} AngleRoundTrip(bits: int)
    requires 0 <= bits < 0x1_0000_0000
    ensures FromBigEndian(BigEndian(bits, Size(Float32))) == bits
  {
    assert Pow256(Size(Float32)) == 0x1_0000_0000;
    UnsignedRoundTrip(bits, Size(Float32));
  }

  lemma {:induction false} CornersReversed(obj: AiObject)
    ensures Reverse(Pairs(CornerFields(obj)))
      == [(obj.tagX.3, obj.tagY.3), (obj.tagX.2, obj.tagY.2), (obj.tagX.1, obj.tagY.1), (obj.tagX.0, obj.tagY.0)]
  {
  }

  /** The first reads the constructor makes over a record laid out as the
      encoder lays it out: id byte `h`, the varints of `box`, then four angle
      bytes. */
  lemma {:induction false} HeadReads(dv: seq<byte>, h: byte, box: seq<int>, angle: seq<byte>, tail: seq<byte>)
    requires |angle| == 4
    requires forall k :: 0 <= k < |box| ==> 0 <= box[k] < 32768
    requires dv == [h] + VarInts(box) + angle + tail
    ensures |dv| > 0 && dv[0] == h
    ensures ReadVarInts(dv, 1, |box|) == Some((box, 1 + |VarInts(box)|))
    ensures 1 + |VarInts(box)| + 4 <= |dv| && dv[1 + |VarInts(box)|..1 + |VarInts(box)| + 4] == angle
  {
    var b := VarInts(box);
    ConcatAssoc([h] + b, angle, tail);
    ReadVarIntsRoundTrip([h], box, angle + tail);
    MiddleSlice([h] + b, angle, tail);
  }

  /** The parser's result for a type other than 3 once the box read
      succeeds. */
  lemma {:induction false} ParsePlain(dv: seq<byte>, box: seq<int>, i: nat, angle: seq<byte>)
    requires |box| == 7
    requires |dv| > 0 && TopTwo(dv[0]) != 3
    requires ReadVarInts(dv, 1, |box|) == Some((box, i)) && i + 4 <= |dv| && dv[i..i + 4] == angle
    ensures ParseVisionObject(dv) == Some(Built(dv[0], box, angle, None, i + 4))
  {
    HeadParses(dv, box, i, angle);
  }

  /** The parser's head once the box read succeeds and the angle bytes
      follow. */
  lemma {:induction false} HeadParses(dv: seq<byte>, box: seq<int>, i: nat, angle: seq<byte>)
    requires |box| == 7 && |dv| > 0
    requires ReadVarInts(dv, 1, |box|) == Some((box, i)) && i + 4 <= |dv| && dv[i..i + 4] == angle
    ensures ParseHead(dv) == Some((Built(dv[0], box, angle, None, i + 4), i + 4))
  {
  }

  /** The parser's result for type 3 once the box and corner reads
      succeed. */
  lemma {:induction false} ParseTag(dv: seq<byte>, h: byte, box: seq<int>, i: nat, angle: seq<byte>, corners: seq<int>, j: nat)
    requires |box| == 7 && |corners| == 8
    requires |dv| > 0 && dv[0] == h && TopTwo(h) == 3
    requires ReadVarInts(dv, 1, |box|) == Some((box, i)) && i + 4 <= |dv| && dv[i..i + 4] == angle
    requires ReadVarInts(dv, i + 4, |corners|) == Some((corners, j))
    ensures ParseVisionObject(dv) == Some(Built(h, box, angle, Some(Reverse(Pairs(corners))), j))
  {
    HeadParses(dv, box, i, angle);
  }

  /** A record without corners, its fields still abstract, parses back. */
  lemma {:induction false} PlainRecordParses(h: byte, box: seq<int>, angle: seq<byte>, rest: seq<byte>)
    requires |box| == 7 && |angle| == 4
    requires forall k :: 0 <= k < |box| ==> 0 <= box[k] < 32768
    requires TopTwo(h) != 3
    ensures ParseVisionObject([h] + VarInts(box) + angle + rest)
      == Some(Built(h, box, angle, None, |[h] + VarInts(box) + angle|))
  {
    var dv := [h] + VarInts(box) + angle + rest;
    HeadReads(dv, h, box, angle, rest);
    ParsePlain(dv, box, 1 + |VarInts(box)|, angle);
  }

  /** The reads the constructor makes over a tag record `dv` laid out as
      `head` (id byte `h`, box varints, angle) then the corner varints `c`:
      the box up to offset `i`, the angle, then the corners up to `j`. */
  lemma {:induction false} TagRecordReads(dv: seq<byte>, head: seq<byte>, c: seq<byte>, rest: seq<byte>,
                                          h: byte, box: seq<int>, angle: seq<byte>, corners: seq<int>, i: nat, j: nat)
    requires |angle| == 4
    requires forall k :: 0 <= k < |box| ==> 0 <= box[k] < 32768
    requires forall k :: 0 <= k < |corners| ==> 0 <= corners[k] < 32768
    requires head == [h] + VarInts(box) + angle && c == VarInts(corners) && dv == head + c + rest
    requires i == 1 + |VarInts(box)| && j == |head| + |c|
    ensures |dv| > 0 && dv[0] == h
    ensures ReadVarInts(dv, 1, |box|) == Some((box, i))
    ensures i + 4 <= |dv| && dv[i..i + 4] == angle
    ensures ReadVarInts(dv, i + 4, |corners|) == Some((corners, j))
  {
    assert dv == [h] + VarInts(box) + angle + (c + rest) by {
      ConcatAssoc(head, c, rest);
    }
    assert |dv| > 0 && dv[0] == h
      && ReadVarInts(dv, 1, |box|) == Some((box, 1 + |VarInts(box)|))
      && 1 + |VarInts(box)| + 4 <= |dv| && dv[1 + |VarInts(box)|..1 + |VarInts(box)| + 4] == angle by {
      HeadReads(dv, h, box, angle, c + rest);
    }
    assert |head| == i + 4;
    MiddleSliceAt(dv, head, c, rest, i + 4, j);
    ReadVarIntsAt(dv, i + 4, corners, c, j);
  }

  /** pack_vision_object's record with its parts named. */
  lemma {:induction false} ObjectBytesLayout(obj: AiObject)
    requires obj.objType != OtherObject
    ensures ObjectBytes(obj) == [IdByte(obj)] + VarInts(BoxFields(obj)) + BigEndian(obj.angleBits, Size(Float32))
      + (if obj.objType == TagObject then VarInts(CornerFields(obj)) else [])
  {
  }

  /** The type bits of the id byte are 3 exactly for an AprilTag. */
  lemma {:induction false} TagBits(obj: AiObject)
    requires obj.objType != OtherObject
    ensures (TopTwo(IdByte(obj)) == 3) == (obj.objType == TagObject)
  {
    IdByteSplits(obj);
  }

  /** The corners a decoder stores for `obj`: none unless it is a tag. */
  function QuadOf(obj: AiObject): Option<seq<(int, int)>>
  {
    if obj.objType == TagObject then Some(Reverse(Pairs(CornerFields(obj)))) else None
  }

  /** What the constructor builds from the record of an encodable object,
      before its fields are identified with the object's. */
  lemma {:induction false} RecordOfObjectParses(obj: AiObject, rest: seq<byte>)
    requires Encodable(obj)
    ensures ParseVisionObject(ObjectBytes(obj) + rest)
      == Some(Built(IdByte(obj), BoxFields(obj), BigEndian(obj.angleBits, Size(Float32)), QuadOf(obj), |ObjectBytes(obj)|))
  {
    if obj.objType == TagObject {
      TagObjectParses(obj, rest);
    } else {
      var h, box := IdByte(obj), BoxFields(obj);
      var a := BigEndian(obj.angleBits, Size(Float32));
      ObjectBytesLayout(obj);
      TagBits(obj);
      assert ObjectBytes(obj) == [h] + VarInts(box) + a;
      PlainRecordParses(h, box, a, rest);
    }
  }

  /** RecordOfObjectParses for an AprilTag. The layout of the record is
      used only to establish the reads, so that the parser is unfolded over
      an unstructured byte sequence. */
  lemma {:induction false} TagObjectParses(obj: AiObject, rest: seq<byte>)
    requires Encodable(obj) && obj.objType == TagObject
    ensures ParseVisionObject(ObjectBytes(obj) + rest)
      == Some(Built(IdByte(obj), BoxFields(obj), BigEndian(obj.angleBits, Size(Float32)), QuadOf(obj), |ObjectBytes(obj)|))
  {
    var h, box, corners := IdByte(obj), BoxFields(obj), CornerFields(obj);
    var a := BigEndian(obj.angleBits, Size(Float32));
    var dv := ObjectBytes(obj) + rest;
    var i, j := 1 + |VarInts(box)|, |ObjectBytes(obj)|;
    var head, c := [h] + VarInts(box) + a, VarInts(corners);
    assert ObjectBytes(obj) == head + c by {
      ObjectBytesLayout(obj);
    }
    TagRecordReads(dv, head, c, rest, h, box, a, corners, i, j);
    TagBits(obj);
    ParseTag(dv, h, box, i, a, corners, j);
  }


  /** The object so built is the decoded form of `obj`. */
  lemma {:induction false} BuiltIsDecoded(obj: AiObject)
    requires Encodable(obj)
    ensures Built(IdByte(obj), BoxFields(obj), BigEndian(obj.angleBits, Size(Float32)), QuadOf(obj), |ObjectBytes(obj)|)
      == Decoded(obj)
  {
    IdByteSplits(obj);
    AngleRoundTrip(obj.angleBits);
    CornersReversed(obj);
  }

  /** The decoder inverts pack_vision_object: the record of an encodable
      object, followed by anything, reads back as the object's id (low six
      bits), type number, fields, angle bits and corners (in reverse), and
      byteLength is the length of the record. */
  lemma {:induction false} DecodeRoundTrip(obj: AiObject, rest: seq<byte>)
    requires Encodable(obj)
    ensures ParseVisionObject(ObjectBytes(obj) + rest) == Some(Decoded(obj))
  {
    RecordOfObjectParses(obj, rest);
    BuiltIsDecoded(obj);
  }
}
