// The AI vision object encoder of structured_logger.h: the 2-bit type tag
// (get_vision_object_type) and the per-object record pack_vision_object
// appends to the vision buffer.

module Vision {
  import opened Bytes
  import opened StaticVectors
  import opened Packer

  /** `vex::aivision::objectType`; `OtherObject` stands for any value the
      switch does not name. */
  datatype ObjectType = ColorObject | CodeObject | ModelObject | TagObject | OtherObject

  /** The fields of a `vex::aivision::object` the encoder reads. The angle
      is given by the raw bits of its float; the AprilTag corners are
      `tag.x[0..3]` and `tag.y[0..3]`. */
  datatype AiObject = AiObject(
    present: bool,
    id: int,
    objType: ObjectType,
    originX: int, originY: int,
    centerX: int, centerY: int,
    width: int, height: int,
    score: int,
    angleBits: int,
    tagX: (int, int, int, int),
    tagY: (int, int, int, int))

  /** get_vision_object_type: the type in the top two bits, 0xFF for a type
      the encoder does not support. */
  function TypeTag(t: ObjectType): (r: byte)
    ensures r == 0xFF <==> t == OtherObject
    ensures t != OtherObject ==> r % 0x40 == 0 && TopTwo(r) as int == TypeNumber(t)
  {
    match t
    case ColorObject => 0x00
    case CodeObject => 0x40
    case ModelObject => 0x80
    case TagObject => 0xC0
    case OtherObject => 0xFF
  }

  /** The two-bit type number a decoder reads back. */
  function TypeNumber(t: ObjectType): nat
  {
    match t
    case ColorObject => 0
    case CodeObject => 1
    case ModelObject => 2
    case TagObject => 3
    case OtherObject => 4
  }

  /** `obj_type | (obj.id & 0b111111)`: the low six bits of the id (two's
      complement) under the type tag. */
  function IdByte(obj: AiObject): byte
    requires obj.objType != OtherObject
  {
    JoinTopTwo(TypeTag(obj.objType), ToByte(obj.id % 64))
  }

  /** The seven varint fields, in the order they are written. */
  function BoxFields(obj: AiObject): seq<int>
  {
    [obj.originX, obj.originY, obj.centerX, obj.centerY, obj.width, obj.height, obj.score]
  }

  /** The eight corner varints of an AprilTag, x before y, corner by corner. */
  function CornerFields(obj: AiObject): seq<int>
  {
    [obj.tagX.0, obj.tagY.0, obj.tagX.1, obj.tagY.1, obj.tagX.2, obj.tagY.2, obj.tagX.3, obj.tagY.3]
  }

  /** The varints of `ns`, one after the other. */
  function VarInts(ns: seq<int>): (r: seq<byte>)
    ensures |r| <= 2 * |ns|
  {
    if ns == [] then [] else VarInts(ns[..|ns| - 1]) + VarIntBytes(ns[|ns| - 1])
  }

  /** The bytes pack_vision_object appends for `obj`: nothing for an
      unsupported type; otherwise the id byte, the seven box varints, the four
      angle bytes and, for an AprilTag only, the eight corner varints. */
  function ObjectBytes(obj: AiObject): seq<byte>
  {
    if TypeTag(obj.objType) == 0xFF then []
    else
      [IdByte(obj)] + VarInts(BoxFields(obj)) + BigEndian(obj.angleBits, Size(Float32))
      + (if obj.objType == TagObject then VarInts(CornerFields(obj)) else [])
  }

  /** What a vision packet carries for `objs`: the records of the objects
      that exist, in order. */
  function ObjectsBytes(objs: seq<AiObject>): seq<byte>
  {
    if objs == [] then []
    else
      var last := objs[|objs| - 1];
      ObjectsBytes(objs[..|objs| - 1]) + (if last.present then ObjectBytes(last) else [])
  }

  lemma {:induction false} VarIntsSnoc(ns: seq<int>, k: nat)
    requires k < |ns|
    ensures VarInts(ns[..k + 1]) == VarInts(ns[..k]) + VarIntBytes(ns[k])
  {
    assert ns[..k + 1][..k] == ns[..k];
  }

  /** pack_vision_object. The unsupported-type message goes to the console,
      which is not modelled. There is no fit check: push_back drops what does
      not fit. */
  method PackVisionObject(buf: StaticVector<byte>, obj: AiObject)
    requires buf.Valid()
    modifies buf, buf.data
    ensures buf.Valid()
    ensures buf.Contents() == Fill(old(buf.Contents()), ObjectBytes(obj), buf.Capacity())
  {
    ghost var s0 := buf.Contents();
    ghost var cap := buf.Capacity();
    var objType := TypeTag(obj.objType);
    if objType == 0xFF {
      assert Fill(s0, [], cap) == s0;
      return;
    }
    var objId := IdByte(obj);
    buf.PushBack(objId);
    PackVarInts(buf, BoxFields(obj));
    ghost var s2 := buf.Contents();
    Pack(buf, Float32, obj.angleBits);
    ghost var s3 := buf.Contents();
    assert s3 == Fill(s2, BigEndian(obj.angleBits, Size(Float32)), cap);
    var corners: seq<int> := [];
    if obj.objType == TagObject {
      corners := CornerFields(obj);
      PackVarInts(buf, corners);
    } else {
      assert Fill(s3, VarInts(corners), cap) == s3;
    }
    assert buf.Contents() == Fill(s3, VarInts(corners), cap);
    FillFour(s0, [objId], VarInts(BoxFields(obj)), BigEndian(obj.angleBits, Size(Float32)), VarInts(corners), cap);
    assert ObjectBytes(obj) == [objId] + VarInts(BoxFields(obj)) + BigEndian(obj.angleBits, Size(Float32)) + VarInts(corners);
  }

  /** A run of consecutive `pack_var_int` calls, one per element of `ns` in
      order (the seven box fields, or the eight corner coordinates). */
  method PackVarInts(buf: StaticVector<byte>, ns: seq<int>)
    requires buf.Valid()
    modifies buf, buf.data
    ensures buf.Valid()
    ensures buf.Contents() == Fill(old(buf.Contents()), VarInts(ns), buf.Capacity())
  {
    ghost var s0, cap := buf.Contents(), buf.Capacity();
    assert Fill(s0, VarInts(ns[..0]), cap) == s0;
    for k := 0 to |ns|
      invariant buf.Valid()
      invariant buf.Contents() == Fill(s0, VarInts(ns[..k]), cap)
    {
      PackVarInt(buf, ns[k]);
      VarIntsSnoc(ns, k);
      FillFill(s0, VarInts(ns[..k]), VarIntBytes(ns[k]), cap);
    }
    assert ns[..|ns|] == ns;
  }

  // ---------------------------------------------------------------------
  // Properties of the record

  /** The id byte carries the two-bit type number in its top bits and the
      id's low six bits below them. */
  lemma {:induction false} IdByteSplits(obj: AiObject)
    requires obj.objType != OtherObject
    ensures LowSix(IdByte(obj)) as int == obj.id % 64
    ensures TopTwo(IdByte(obj)) as int == TypeNumber(obj.objType)
  {
  }

  /** An object of an unsupported type contributes nothing. */
  lemma {:induction false} UnsupportedWritesNothing(obj: AiObject)
    requires obj.objType == OtherObject
    ensures ObjectBytes(obj) == []
  {
  }

  /** One record is at most 35 bytes (1 + 7 * 2 + 4 + 8 * 2), the
      per-object share the vision buffer is sized by; a non-tag record is at
      most 19. */
  lemma {:induction false} ObjectBytesBound(obj: AiObject)
    ensures |ObjectBytes(obj)| <= 35
    ensures obj.objType != TagObject ==> |ObjectBytes(obj)| <= 19
  {
  }

  lemma {:induction false} ObjectsBytesBound(objs: seq<AiObject>)
    ensures |ObjectsBytes(objs)| <= 35 * |objs|
  {
    if objs != [] {
      ObjectsBytesBound(objs[..|objs| - 1]);
      ObjectBytesBound(objs[|objs| - 1]);
    }
  }

  /** Values from 128 up to 32767 take two varint bytes each. */
  lemma {:induction false} VarIntsTwoBytes(ns: seq<int>)
    requires forall i :: 0 <= i < |ns| ==> 128 <= ns[i] < 32768
    ensures |VarInts(ns)| == 2 * |ns|
  {
    if ns != [] {
      var n := |ns| - 1;
      assert 128 <= ns[n] < 32768;
      VarIntsTwoBytes(ns[..n]);
    }
  }
}
