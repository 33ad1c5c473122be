/** The reference codec: whole buffers stuffed, unstuffed and decoded, and what a decoded frame says of its bytes. */
module ReferenceLink {
  import opened Protocol
  import C = Crc16
  import opened Frame
  import opened FrameStream
  import Deframer

  // ---------------------------------------------------------------- stuffing

  method StuffBytes(data: seq<byte>) returns (out: seq<byte>)
    ensures out == Stuff(data)
  {
    out := [];
    var i := 0;
    while i < |data|
      invariant 0 <= i <= |data| && out == Stuff(data[..i])
    {
      StuffNext(data, i);
      if data[i] == FLAG {
        out := out + [ESC, FLAG_ESCAPED];
      } else if data[i] == ESC {
        out := out + [ESC, ESC_ESCAPED];
      } else {
        out := out + [data[i]];
      }
      i := i + 1;
    }
    assert data[..i] == data;
  }

  /** What was unstuffed before `i`, in front of what the rest will give. */
  ghost predicate Unstuffing(data: seq<byte>, out: seq<byte>, i: nat) {
    i <= |data| && Unstuff(data) == Unstuff(data[i..]).(bytes := out + Unstuff(data[i..]).bytes)
  }

  lemma UnstuffingNext(data: seq<byte>, out: seq<byte>, i: nat, b: byte, k: nat)
    requires Unstuffing(data, out, i) && i + k <= |data| && Unstuff(data[i..]) == Prepend(b, Unstuff(data[i + k..]))
    ensures Unstuffing(data, out + [b], i + k)
  {
    hide Unstuff;
    var rest := Unstuff(data[i + k..]).bytes;
    assert out + ([b] + rest) == out + [b] + rest;
  }

  /** The unstuffed bytes, or nothing if an escape is cut short or invalid. */
  method UnstuffBytes(data: seq<byte>) returns (r: Option<seq<byte>>)
    ensures r == if Unstuff(data).Clean? then Some(Unstuff(data).bytes) else None
  {
    hide Unstuff;
    var out: seq<byte> := [];
    var i := 0;
    assert data[0..] == data && out + Unstuff(data).bytes == Unstuff(data).bytes;
    while i < |data|
      invariant 0 <= i <= |data| && Unstuffing(data, out, i)
    {
      UnstuffFrom(data, i);
      if data[i] == ESC {
        if i + 1 >= |data| { return None; }
        var next := data[i + 1];
        if next != FLAG_ESCAPED && next != ESC_ESCAPED { return None; }
        var b := if next == FLAG_ESCAPED then FLAG else ESC;
        UnstuffingNext(data, out, i, b, 2);
        out := out + [b];
        i := i + 2;
      } else {
        UnstuffingNext(data, out, i, data[i], 1);
        out := out + [data[i]];
        i := i + 1;
      }
    }
    UnstuffNothing();
    assert data[i..] == [] && out + [] == out;
    return Some(out);
  }

  lemma StuffBack(data: seq<byte>)
    requires data != []
    ensures Stuff(data) == Stuff(data[..|data| - 1]) + StuffByte(data[|data| - 1])
  {
  }

  lemma {:induction false} StuffFront(b: byte, data: seq<byte>)
    ensures Stuff([b] + data) == StuffByte(b) + Stuff(data)
    decreases |data|
  {
    hide Stuff, StuffByte;
    StuffNothing();
    var all, n := [b] + data, |data|;
    StuffBack(all);
    if n == 0 {
      assert all[..0] == [] && StuffByte(b) + [] == StuffByte(b) == [] + StuffByte(b);
    } else {
      StuffFront(b, data[..n - 1]);
      StuffBack(data);
      assert all[..n] == [b] + data[..n - 1] && all[n] == data[n - 1];
    }
  }

  /** There is only one way to stuff: a clean segment is the stuffing of what it unstuffs to. */
  lemma {:induction false} UnstuffThenStuff(seg: seq<byte>)
    requires FLAG !in seg && Unstuff(seg).Clean?
    ensures Stuff(Unstuff(seg).bytes) == seg
    decreases |seg|
  {
    hide Stuff;
    if seg == [] {
      StuffNothing();
    } else {
      var k := if seg[0] == ESC then 2 else 1;
      assert forall b :: b in seg[k..] ==> b in seg;
      UnstuffThenStuff(seg[k..]);
      StuffFront(Unstuff(seg).bytes[0], Unstuff(seg[k..]).bytes);
      assert seg == seg[..k] + seg[k..];
    }
  }

  lemma StuffNothing()
    ensures Stuff([]) == []
  {
  }

  // ---------------------------------------------------------------- streams and single frames

  lemma {:induction false} CountedJoin(s: DeframerStats, a: seq<Event>, b: seq<Event>)
    ensures Counted(s, a + b) == Counted(Counted(s, a), b)
    decreases |b|
  {
    if b == [] {
      assert a + b == a;
    } else {
      var n := |b| - 1;
      assert (a + b)[..|a + b| - 1] == a + b[..n] && (a + b)[|a + b| - 1] == b[n];
      CountedJoin(s, a, b[..n]);
    }
  }

  lemma FeedsNext(s: State, data: seq<byte>, i: nat)
    requires StateOk(s) && i < |data|
    ensures var before := Feeds(s, data[..i]);
      var step := Feed(before.0, data[i]);
      Feeds(s, data[..i + 1]) == (step.0, before.1 + step.1)
  {
    hide Feed;
    assert data[..i + 1] == data[..i] + [data[i]];
    FeedsAppend(s, data[..i], [data[i]]);
    ByteFeeds(Feeds(s, data[..i]).0, data[i]);
  }

  /** Every frame a buffer completes, in order; the counters have moved by every event. */
  method FeedBytes(d: Deframer.Deframer, data: seq<byte>) returns (frames: seq<Fields>)
    requires d.Valid()
    modifies d`mode, d`len, d`stats, d.buf
    ensures d.Valid() && d.Value() == Feeds(old(d.Value()), data).0
    ensures frames == FramesOf(Feeds(old(d.Value()), data).1)
    ensures d.stats == Counted(old(d.stats), Feeds(old(d.Value()), data).1)
  {
    hide Feed, Deframer.Deframer.Valid, Deframer.Deframer.Value;
    frames := [];
    ghost var start, stats := d.Value(), d.stats;
    var i := 0;
    assert data[..0] == [];
    while i < |data|
      invariant 0 <= i <= |data| && d.Valid() && d.Value() == Feeds(start, data[..i]).0
      invariant frames == FramesOf(Feeds(start, data[..i]).1) && d.stats == Counted(stats, Feeds(start, data[..i]).1)
    {
      ghost var before, events := Feeds(start, data[..i]).1, Feed(d.Value(), data[i]).1;
      FeedsNext(start, data, i);
      FramesJoin(before, events);
      CountedJoin(stats, before, events);
      OneEvent(events);
      var got := d.Feed(data[i]);
      if got.Some? { frames := frames + [got.value]; }
      i := i + 1;
    }
    assert data[..i] == data;
  }

  /** The frame of a buffer that is exactly one clean frame, FLAGs at both ends and nowhere else. */
  function Decoded(raw: seq<byte>): Option<Fields> {
    if |raw| < 2 || raw[0] != FLAG || raw[|raw| - 1] != FLAG || FLAG in raw[1..|raw| - 1] then None
    else FrameIn(Closed(raw[1..|raw| - 1]))
  }

  /** Each segment between two FLAGs is worth one event, an empty one none. */
  lemma OneEventEach(seg: seq<byte>)
    ensures |Closed(seg)| <= 1 && (Closed(seg) == [] <==> seg == [])
  {
    if seg != [] {
      hide Check;
      LongEnough(Unstuff(seg).bytes);
    }
  }

  lemma FlagIsFirst(data: seq<byte>, i: nat)
    requires i < |data| && data[i] == FLAG && FLAG !in data[..i]
    ensures FirstFlag(data) == i
  {
    var j := FirstFlag(data);
    assert forall k :: 0 <= k < i ==> data[k] == data[..i][k];
    assert forall k :: 0 <= k < j ==> data[k] == data[..j][k];
  }

  /** Two FLAGs around a segment without one: fed from the start, what closing the segment is worth. */
  lemma FedWhole(raw: seq<byte>)
    requires |raw| >= 2 && raw[0] == FLAG && raw[|raw| - 1] == FLAG && FLAG !in raw[1..|raw| - 1]
    ensures Feeds(IDLE, raw).1 == Closed(raw[1..|raw| - 1])
  {
    hide Closed, Feeds;
    FeedingIsBatchDecoding(raw);
    FlagIsFirst(raw, 0);
    var rest, n := raw[1..], |raw| - 2;
    assert rest[..n] == raw[1..|raw| - 1] && rest[n] == FLAG && rest[n + 1..] == [];
    FlagIsFirst(rest, n);
    NoSegments();
    assert Closed(rest[..n]) + [] == Closed(rest[..n]);
  }

  lemma NoSegments()
    ensures Segments([]) == []
  {
  }

  /** One frame in, its fields out; anything else is refused. */
  method DecodeFrame(raw: seq<byte>) returns (f: Option<Fields>)
    ensures f == Decoded(raw)
  {
    if |raw| < 2 || raw[0] != FLAG || raw[|raw| - 1] != FLAG || FLAG in raw[1..|raw| - 1] { return None; }
    hide Closed, Feeds;
    var d := new Deframer.Deframer();
    FedWhole(raw);
    OneEventEach(raw[1..|raw| - 1]);
    var frames := FeedBytes(d, raw);
    var s := d.stats;
    var discards := s.badCrc + s.badLength + s.badEscape + s.tooLong + s.reserved;
    OneCounted(Closed(raw[1..|raw| - 1]));
    if |frames| != 1 || discards != 0 { return None; }
    return Some(frames[0]);
  }

  lemma OneCounted(events: seq<Event>)
    requires |events| <= 1
    ensures var s := Counted(DeframerStats(0, 0, 0, 0, 0, 0), events);
      s.badCrc + s.badLength + s.badEscape + s.tooLong + s.reserved == if events != [] && events[0].Discarded? then 1
        else 0
    ensures FramesOf(events) == if FrameIn(events).Some? then [FrameIn(events).value] else []
  {
    if events != [] { assert events[..0] == []; }
  }

  /** An encoded frame decodes to its fields. */
  lemma EncodeDecode(f: Fields)
    requires Encodable(f) && f.seqNo < 16
    ensures Decoded(Encode(f)) == Some(f)
  {
    hide Check, Unstuffed;
    var raw, body := Encode(f), Unstuffed(f);
    CheckUnstuffed(f);
    StuffRoundTrip(body);
    assert raw[1..|raw| - 1] == Stuff(body);
  }

  /** The control byte's two reserved bits. */
  function ReservedBits(raw: seq<byte>): nat
    requires |raw| >= 2
  {
    var b := Unstuff(raw[1..|raw| - 1]).bytes;
    if |b| > 2 then b[2] / 4 % 4 else 0
  }

  /** A delivered body is the one its fields would be sent as, exactly when the reserved bits are clear. */
  lemma BodyIsSent(b: seq<byte>)
    requires FrameIn(Check(b)).Some?
    ensures var f := FrameIn(Check(b)).value;
      && |b| > 2 && |f.payload| < 256 && f.seqNo < 16 && f.dst != ADDR_RESERVED
      && (Unstuffed(f) == b <==> b[2] / 4 % 4 == 0)
  {
    var f, n := FrameIn(Check(b)).value, |b|;
    BitsOfControl(b[2]);
    hide C.Crc, C.Join, C.Lo, C.Hi;
    C.SplitJoin(b[n - 2], b[n - 1]);
    assert Unstuffed(f)[2] == Ctrl(f);
    if Ctrl(f) == b[2] {
      assert Body(f) == b[..n - 2];
      assert b == b[..n - 2] + [b[n - 2], b[n - 1]];
    }
  }

  lemma BitsOfControl(c: byte)
    ensures var x: nat := (if c % 2 == 1 then 1 else 0) + (if (c / 2) % 2 == 1 then 2 else 0) + (c / 16 % 16) * 16;
      x + (c / 4 % 4) * 4 == c
  {
  }

  /** What is decoded is what would be encoded, byte for byte, exactly when the reserved bits are clear. */
  lemma DecodedIsEncoded(raw: seq<byte>)
    requires Decoded(raw).Some?
    ensures var f := Decoded(raw).value;
      Encodable(f) && f.seqNo < 16 && (Encode(f) == raw <==> ReservedBits(raw) == 0)
  {
    hide Check, Unstuffed, Unstuff, Stuff;
    var seg, f := raw[1..|raw| - 1], Decoded(raw).value;
    var b := Unstuff(seg).bytes;
    BodyIsSent(b);
    UnstuffThenStuff(seg);
    StuffRoundTrip(Unstuffed(f));
    assert raw == [FLAG] + seg + [FLAG];
    assert Encode(f) == raw <==> Stuff(Unstuffed(f)) == seg by {
      assert Encode(f)[1..|Encode(f)| - 1] == Stuff(Unstuffed(f));
    }
    PayloadFits(b);
  }

  lemma PayloadFits(b: seq<byte>)
    requires FrameIn(Check(b)).Some? && |b| <= MAX_UNSTUFFED
    ensures |FrameIn(Check(b)).value.payload| <= MAX_L3_MESSAGE
  {
    hide C.Crc, C.Join;
  }

  /** The body of a frame with some of the reserved bits set. */
  function Marked(f: Fields, bits: nat): seq<byte>
    requires |f.payload| < 256 && bits < 4
  {
    var ctrl: int := Ctrl(f);
    [f.dst, f.src, ctrl + 4 * bits, |f.payload|] + f.payload
  }

  function MarkedFrame(f: Fields, bits: nat): seq<byte>
    requires |f.payload| < 256 && bits < 4
  {
    var c := C.Crc(Marked(f, bits));
    [FLAG] + Stuff(Marked(f, bits) + [C.Lo(c), C.Hi(c)]) + [FLAG]
  }

  lemma MarkedIsDelivered(f: Fields, bits: nat)
    requires Encodable(f) && f.seqNo < 16 && bits < 4
    ensures var b := Marked(f, bits); Check(b + [C.Lo(C.Crc(b)), C.Hi(C.Crc(b))]) == [Delivered(f)]
    ensures |f.payload| + HEADER_LEN + CRC_LEN <= MAX_UNSTUFFED
  {
    hide C.Crc, C.Lo, C.Hi, C.Join;
    var body := Marked(f, bits);
    var b := body + [C.Lo(C.Crc(body)), C.Hi(C.Crc(body))];
    C.JoinSplit(C.Crc(body));
    assert b[..|b| - CRC_LEN] == body && b[HEADER_LEN..|b| - CRC_LEN] == f.payload;
  }

  /** Every frame has three others that decode to its fields: reserved bits set, CRC to match. What was set is lost. */
  lemma ReservedBitsLost(f: Fields, bits: nat)
    requires Encodable(f) && f.seqNo < 16 && 0 < bits < 4
    ensures var raw := MarkedFrame(f, bits); Decoded(raw) == Some(f) && ReservedBits(raw) == bits && Encode(f) != raw
  {
    hide Check, C.Crc, C.Lo, C.Hi, Stuff, Unstuff;
    var body, raw := Marked(f, bits), MarkedFrame(f, bits);
    var b := body + [C.Lo(C.Crc(body)), C.Hi(C.Crc(body))];
    MarkedIsDelivered(f, bits);
    StuffRoundTrip(b);
    assert raw[1..|raw| - 1] == Stuff(b) && b[2] == Marked(f, bits)[2];
    DecodedIsEncoded(raw);
  }
}
