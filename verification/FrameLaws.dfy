/** What becomes of any bytes between two FLAGs, in the numbers of the frame format. */
module FrameLaws {
  import opened Protocol
  import opened Frame
  import opened FrameStream
  import Crc16

  // ---------------------------------------------------------------- the format, in plain numbers

  /** The last two bytes are the CRC of those before, low byte first. */
  predicate Sealed(b: seq<byte>)
    requires |b| >= 2
  {
    var c := Crc16.Crc(b[..|b| - 2]);
    b[|b| - 2] == Crc16.Lo(c) && b[|b| - 1] == Crc16.Hi(c)
  }

  /** Header of four bytes, up to 64 of payload, CRC of two: what each defect is called, in this order. */
  function Fate(b: seq<byte>): seq<Event> {
    if |b| == 0 then []
    else if |b| > 70 then [Discarded(TooLong)]
    else if |b| < 6 || |b| - 6 != b[3] then [Discarded(BadLength)]
    else if !Sealed(b) then [Discarded(BadCrc)]
    else if b[0] == 0xFF then [Discarded(Reserved)]
    else [Delivered(Fields(b[0], b[1], b[2] % 2 == 1, b[2] / 2 % 2 == 1, b[2] / 16, b[4..|b| - 2]))]
  }

  lemma FateIsCheck(b: seq<byte>)
    requires |b| <= 70
    ensures Check(b) == Fate(b)
  {
    if |b| >= 6 {
      Crc16.JoinSplit(Crc16.Crc(b[..|b| - 2]));
      Crc16.SplitJoin(b[|b| - 2], b[|b| - 1]);
    }
    hide Crc16.Crc, Crc16.Join, Crc16.Lo, Crc16.Hi;
  }

  /** The bytes of any body, stuffed and framed, from whatever state. */
  lemma FramedFate(s: State, body: seq<byte>)
    requires StateOk(s)
    ensures Feeds(s, [FLAG] + Stuff(body) + [FLAG]) == (State(InFrame, []), Feed(s, FLAG).1 + Fate(body))
  {
    hide Check, Stuff, Fate, Feed, Feeds;
    StuffRoundTrip(body);
    ClosedIs(Stuff(body), body);
    SegmentFate(s, Stuff(body));
  }

  lemma ClosedIs(seg: seq<byte>, body: seq<byte>)
    requires Unstuff(seg) == FrameStream.Clean(body)
    ensures Closed(seg) == Fate(body)
  {
    if |body| <= 70 { FateIsCheck(body); }
    hide Check;
  }

  lemma SegmentFate(s: State, seg: seq<byte>)
    requires StateOk(s) && FLAG !in seg
    ensures Feeds(s, [FLAG] + seg + [FLAG]) == (State(InFrame, []), Feed(s, FLAG).1 + Closed(seg))
  {
    hide Check, Feed, Feeds, Closed;
    FlagCloses(seg);
    FlagAlways(s);
    FeedsAppend(s, [FLAG] + seg, [FLAG]);
    FeedsAppend(s, [FLAG], seg);
    ByteFeeds(s, FLAG);
    var open := State(InFrame, []);
    ByteFeeds(Feeds(open, seg).0, FLAG);
    var e0, e1, e2 := Feed(s, FLAG).1, Feeds(open, seg).1, Feed(Feeds(open, seg).0, FLAG).1;
    assert (e0 + e1) + e2 == e0 + (e1 + e2);
  }

  lemma FlagAlways(s: State)
    requires StateOk(s)
    ensures Feed(s, FLAG).0 == State(InFrame, [])
  {
  }

  /** An escape that is followed by neither of the two escaped bytes, or by nothing, spoils the frame. */
  lemma BadEscapeFate(s: State, good: seq<byte>, rest: seq<byte>)
    requires StateOk(s) && |good| <= 70 && FLAG !in rest
    requires rest == [] || (rest[0] != 0x5E && rest[0] != 0x5D)
    ensures Feeds(s, [FLAG] + (Stuff(good) + [ESC] + rest) + [FLAG]) ==
      (State(InFrame, []), Feed(s, FLAG).1 + [Discarded(BadEscape)])
  {
    hide Stuff, Feed, Feeds, Check;
    var tail := [ESC] + rest;
    StuffRoundTrip(good);
    UnstuffAppend(Stuff(good), tail);
    BrokenTail(rest);
    assert Stuff(good) + [ESC] + rest == Stuff(good) + tail;
    assert good + [] == good;
    SegmentFate(s, Stuff(good) + tail);
  }

  lemma BrokenTail(rest: seq<byte>)
    requires rest == [] || (rest[0] != 0x5E && rest[0] != 0x5D)
    ensures Unstuff([ESC] + rest).Broken? && Unstuff([ESC] + rest).bytes == []
  {
  }
}
