// The packet frame of structured_logger.h (prepare_buffer, pack_len at
// offset 3, send_packet) and the way the send loops of send_data_format and
// send_structured_data split a sequence of entry encodings into packets.

module Framing {
  import opened Wrappers
  import opened Bytes
  import opened Packer

  /** `header_len`: two magic bytes, the command and two length bytes. */
  const HeaderLen: nat := 5

  const DataFormatCommand: byte := 0x46
  const StructuredDataCommand: byte := 0x44
  const VisionDataCommand: byte := 0x49

  /** What prepare_buffer writes: the magic `C0 DE`, the command and a
      two-byte placeholder for the length. */
  function Header(cmd: byte): seq<byte>
  {
    [0xC0, 0xDE, cmd, 0x00, 0x00]
  }

  /** The two bytes at offset 3 after pack_len: the length field when the
      payload length is representable, the untouched placeholder otherwise. */
  function LengthBytes(len: nat): seq<byte>
  {
    if len < 32768 then LengthField(len) else [0x00, 0x00]
  }

  /** The packet send_packet writes for a buffer holding the header of `cmd`
      followed by `payload`. */
  function Frame(cmd: byte, payload: seq<byte>): seq<byte>
  {
    [0xC0, 0xDE, cmd] + LengthBytes(|payload|) + payload
  }

  /** A receiver's reading of one packet: the magic, the command, a length
      field with its top bit set and exactly that many payload bytes. */
  function ParseFrame(s: seq<byte>): (r: Option<(byte, seq<byte>)>)
  {
    if |s| < HeaderLen || s[0] != 0xC0 || s[1] != 0xDE || !TopBitSet(s[3]) then None
    else
      var len := (LowSeven(s[3]) as int) * 256 + s[4] as int;
      if |s| == HeaderLen + len then Some((s[2], s[HeaderLen..])) else None
  }

  /** Every packet whose payload length fits the field is read back as the
      command and payload it was built from. */
  lemma {:induction false} FrameRoundTrip(cmd: byte, payload: seq<byte>)
    requires |payload| < 32768
    ensures |Frame(cmd, payload)| == HeaderLen + |payload|
    ensures Frame(cmd, payload)[..3] == [0xC0, 0xDE, cmd]
    ensures ParseFrame(Frame(cmd, payload)) == Some((cmd, payload))
  {
    var f := Frame(cmd, payload);
    LengthFieldDecodes(|payload|);
    assert f[3] == LengthField(|payload|)[0] && f[4] == LengthField(|payload|)[1];
    assert f[HeaderLen..] == payload;
  }

  // ---------------------------------------------------------------------
  // Splitting a sequence of entries into packets

  /** The packets the send loop fills from `items` (one encoding per
      registered entry), each given by the items it carries, when a packet
      has `room` payload bytes. An item that does not fit the open packet
      closes it and opens a new one; the item goes into the new packet if it
      fits there, and is dropped (leaving the new packet empty) otherwise.
      The last group is the packet sent after the loop. */
  function Groups(items: seq<seq<byte>>, room: nat): (r: seq<seq<seq<byte>>>)
    ensures |r| >= 1
  {
    if items == [] then [[]]
    else
      var g := Groups(items[..|items| - 1], room);
      var item := items[|items| - 1];
      var open := g[|g| - 1];
      if |Flatten(open)| + |item| <= room then g[..|g| - 1] + [open + [item]]
      else if |item| <= room then g + [[item]]
      else g + [[]]
  }

  /** The payload of the open (last) packet. */
  function Open(g: seq<seq<seq<byte>>>): seq<byte>
    requires g != []
  {
    Flatten(g[|g| - 1])
  }

  /** The packets already closed (sent) before the open one. */
  function Closed(g: seq<seq<seq<byte>>>): seq<seq<seq<byte>>>
    requires g != []
  {
    g[..|g| - 1]
  }

  /** One step of the send loop: how the packets for the first `i + 1`
      items extend those for the first `i`. */
  lemma {:induction false} GroupsStep(items: seq<seq<byte>>, i: nat, room: nat)
    requires i < |items|
    ensures |Open(Groups(items[..i], room))| + |items[i]| <= room ==>
      Closed(Groups(items[..i + 1], room)) == Closed(Groups(items[..i], room))
      && Open(Groups(items[..i + 1], room)) == Open(Groups(items[..i], room)) + items[i]
    ensures |Open(Groups(items[..i], room))| + |items[i]| > room ==>
      Closed(Groups(items[..i + 1], room)) == Groups(items[..i], room)
      && Open(Groups(items[..i + 1], room)) == if |items[i]| <= room then items[i] else []
  {
    var pre := items[..i + 1];
    assert pre[..i] == items[..i];
    var g := Groups(items[..i], room);
    var open := g[|g| - 1];
    var item := items[i];
    if |Flatten(open)| + |item| <= room {
      FlattenLast(open + [item]);
      assert (open + [item])[..|open|] == open;
    } else if |item| <= room {
      FlattenOne(item);
    } else {
      FlattenOne<byte>([]);
    }
  }

  /** Sending the open packet appends its frame. */
  lemma {:induction false} FramesSnoc(cmd: byte, g: seq<seq<seq<byte>>>)
    requires g != []
    ensures Frames(cmd, g) == Frames(cmd, Closed(g)) + [Frame(cmd, Open(g))]
  {
  }

  /** The items that fit an empty packet, in order. */
  function Kept(items: seq<seq<byte>>, room: nat): (r: seq<seq<byte>>)
    ensures |r| <= |items|
  {
    if items == [] then []
    else if |items[|items| - 1]| <= room then Kept(items[..|items| - 1], room) + [items[|items| - 1]]
    else Kept(items[..|items| - 1], room)
  }

  /** The payload of each packet. */
  function Payloads(groups: seq<seq<seq<byte>>>): (r: seq<seq<byte>>)
    ensures |r| == |groups|
  {
    seq(|groups|, j requires 0 <= j < |groups| => Flatten(groups[j]))
  }

  /** The packets, in the order they are sent. */
  function Frames(cmd: byte, groups: seq<seq<seq<byte>>>): (r: seq<seq<byte>>)
    ensures |r| == |groups|
  {
    seq(|groups|, j requires 0 <= j < |groups| => Frame(cmd, Flatten(groups[j])))
  }

  lemma {:induction false} FlattenLast<T>(ss: seq<seq<T>>)
    requires ss != []
    ensures Flatten(ss) == Flatten(ss[..|ss| - 1]) + ss[|ss| - 1]
  {
  }

  lemma {:induction false} FlattenOne<T>(s: seq<T>)
    ensures Flatten([s]) == s
  {
    assert [s][..0] == [];
  }

  /** No packet's payload passes the room. */
  lemma {:induction false} GroupsFit(items: seq<seq<byte>>, room: nat)
    ensures forall j :: 0 <= j < |Groups(items, room)| ==> |Flatten(Groups(items, room)[j])| <= room
  {
    if items != [] {
      var pre := items[..|items| - 1];
      var g := Groups(pre, room);
      var item := items[|items| - 1];
      var open := g[|g| - 1];
      GroupsFit(pre, room);
      var r := Groups(items, room);
      forall j | 0 <= j < |r|
        ensures |Flatten(r[j])| <= room
      {
        if j < |g| - 1 {
          assert r[j] == g[j];
        } else if j == |g| - 1 {
          if |Flatten(open)| + |item| <= room {
            FlattenLast(open + [item]);
            assert (open + [item])[..|open|] == open;
          } else {
            assert r[j] == g[j];
          }
        } else {
          if |item| <= room {
            FlattenOne(item);
          } else {
            assert Flatten(r[j]) == Flatten<byte>([]);
          }
        }
      }
    }
  }

  /** The packets carry exactly the items that fit an empty packet, each
      once, in registry order. */
  lemma {:induction false} GroupsKeep(items: seq<seq<byte>>, room: nat)
    ensures Flatten(Groups(items, room)) == Kept(items, room)
  {
    if items != [] {
      var pre := items[..|items| - 1];
      var g := Groups(pre, room);
      var item := items[|items| - 1];
      var open := g[|g| - 1];
      var init := g[..|g| - 1];
      GroupsKeep(pre, room);
      assert g == init + [open];
      FlattenAppend(init, [open]);
      FlattenOne(open);
      assert Flatten(g) == Flatten(init) + open;
      if |Flatten(open)| + |item| <= room {
        assert Groups(items, room) == init + [open + [item]];
        FlattenAppend(init, [open + [item]]);
        FlattenOne(open + [item]);
        ConcatAssoc(Flatten(init), open, [item]);
        assert Kept(items, room) == Kept(pre, room) + [item];
      } else if |item| <= room {
        assert Groups(items, room) == g + [[item]];
        FlattenAppend(g, [[item]]);
        FlattenOne([item]);
        assert Kept(items, room) == Kept(pre, room) + [item];
      } else {
        assert Groups(items, room) == g + [[]];
        FlattenAppend(g, [[]]);
        FlattenOne<seq<byte>>([]);
        assert Kept(items, room) == Kept(pre, room);
      }
    }
  }

  /** The concatenated payloads are the concatenated encodings of the kept
      items. */
  lemma {:induction false} PayloadsConcat(groups: seq<seq<seq<byte>>>)
    ensures Flatten(Payloads(groups)) == Flatten(Flatten(groups))
  {
    if groups != [] {
      var pre := groups[..|groups| - 1];
      PayloadsConcat(pre);
      assert Payloads(groups)[..|groups| - 1] == Payloads(pre);
      FlattenLast(groups);
      FlattenAppend(Flatten(pre), groups[|groups| - 1]);
    }
  }

  /** Each packet after the first opens with an item that did not fit
      behind the previous packet's payload. */
  ghost predicate ClosedWhenFull(g: seq<seq<seq<byte>>>, room: nat)
  {
    forall j :: 1 <= j < |g| ==> g[j] != [] && |Flatten(g[j - 1])| + |g[j][0]| > room
  }

  /** Adding an item to a non-empty open packet keeps the packets closed
      when full. */
  lemma {:induction false} ClosedWhenFullGrow(g: seq<seq<seq<byte>>>, item: seq<byte>, room: nat)
    requires g != [] && g[|g| - 1] != [] && ClosedWhenFull(g, room)
    ensures ClosedWhenFull(g[..|g| - 1] + [g[|g| - 1] + [item]], room)
  {
    var r := g[..|g| - 1] + [g[|g| - 1] + [item]];
    forall j | 1 <= j < |r|
      ensures r[j] != [] && |Flatten(r[j - 1])| + |r[j][0]| > room
    {
      assert r[j - 1] == g[j - 1];
      assert r[j][0] == g[j][0];
    }
  }

  /** Opening a packet with an item that did not fit behind the last one
      keeps the packets closed when full. */
  lemma {:induction false} ClosedWhenFullOpen(g: seq<seq<seq<byte>>>, item: seq<byte>, room: nat)
    requires g != [] && ClosedWhenFull(g, room)
    requires |Flatten(g[|g| - 1])| + |item| > room
    ensures ClosedWhenFull(g + [[item]], room)
  {
    var r := g + [[item]];
    forall j | 1 <= j < |r|
      ensures r[j] != [] && |Flatten(r[j - 1])| + |r[j][0]| > room
    {
      assert r[j - 1] == g[j - 1];
      if j < |g| {
        assert r[j] == g[j];
      }
    }
  }

  /** When every item fits an empty packet, a packet is only closed because
      the next item did not fit behind it, and no packet is empty unless
      nothing was registered. */
  lemma {:induction false} GroupsClosedWhenFull(items: seq<seq<byte>>, room: nat)
    requires forall k :: 0 <= k < |items| ==> |items[k]| <= room
    ensures ClosedWhenFull(Groups(items, room), room)
    ensures items != [] ==> Groups(items, room)[|Groups(items, room)| - 1] != []
  {
    if items != [] {
      var pre := items[..|items| - 1];
      var g := Groups(pre, room);
      var item := items[|items| - 1];
      var open := g[|g| - 1];
      GroupsClosedWhenFull(pre, room);
      if |Flatten(open)| + |item| <= room {
        if pre == [] {
          assert Groups(items, room) == [[] + [item]];
        } else {
          ClosedWhenFullGrow(g, item, room);
        }
      } else {
        ClosedWhenFullOpen(g, item, room);
      }
    }
  }

  /** Entries whose encodings fit one packet together go out as one packet
      carrying all of them. */
  lemma {:induction false} GroupsSingle(items: seq<seq<byte>>, room: nat)
    requires |Flatten(items)| <= room
    ensures Groups(items, room) == [items]
  {
    if items != [] {
      var pre := items[..|items| - 1];
      FlattenLast(items);
      GroupsSingle(pre, room);
      assert pre + [items[|items| - 1]] == items;
    }
  }

  /** Items that fill one packet up to `k` and overflow it with the last
      item go out as exactly two packets. */
  lemma {:induction false} TwoPackets(cmd: byte, items: seq<seq<byte>>, room: nat)
    requires |items| >= 1
    requires |Flatten(items[..|items| - 1])| <= room
    requires |Flatten(items[..|items| - 1])| + |items[|items| - 1]| > room
    requires |items[|items| - 1]| <= room
    ensures Frames(cmd, Groups(items, room))
      == [Frame(cmd, Flatten(items[..|items| - 1])), Frame(cmd, items[|items| - 1])]
  {
    var k := |items| - 1;
    GroupsSingle(items[..k], room);
    GroupsStep(items, k, room);
    assert items[..k + 1] == items;
    var g := Groups(items, room);
    FramesSnoc(cmd, g);
    assert Frames(cmd, [items[..k]]) == [Frame(cmd, Flatten(items[..k]))];
  }

  /** The first five bytes of a packet: magic, command and length field. */
  lemma {:induction false} FrameHead(cmd: byte, payload: seq<byte>)
    requires |payload| < 32768
    ensures Frame(cmd, payload)[..5] == [0xC0, 0xDE, cmd, LenHigh(|payload|), LenLow(|payload|)]
  {
  }

  /** Every packet is well formed: it is at most the buffer's capacity, it
      starts with the magic and the command, and its length field gives its
      payload length. */
  lemma {:induction false} FramesWellFormed(cmd: byte, items: seq<seq<byte>>, room: nat)
    requires room < 32768
    ensures forall j :: 0 <= j < |Frames(cmd, Groups(items, room))| ==>
      |Frames(cmd, Groups(items, room))[j]| <= HeaderLen + room &&
      ParseFrame(Frames(cmd, Groups(items, room))[j]) == Some((cmd, Flatten(Groups(items, room)[j])))
  {
    var g := Groups(items, room);
    GroupsFit(items, room);
    forall j | 0 <= j < |g|
      ensures |Frames(cmd, g)[j]| <= HeaderLen + room
      ensures ParseFrame(Frames(cmd, g)[j]) == Some((cmd, Flatten(g[j])))
    {
      FrameRoundTrip(cmd, Flatten(g[j]));
    }
  }
}
