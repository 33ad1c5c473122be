/** The deframer against a whole-stream specification: split at FLAGs, unstuff each segment, check it. */
module FrameStream {
  import opened Protocol
  import opened Frame

  // ---------------------------------------------------------------- one segment at a time

  /** A segment's unstuffed bytes, or as many as precede its first bad escape. */
  datatype Content = Clean(bytes: seq<byte>) | Broken(bytes: seq<byte>, trailing: bool)

  function Prepend(b: byte, c: Content): Content {
    c.(bytes := [b] + c.bytes)
  }

  function Unstuff(seg: seq<byte>): Content
    decreases |seg|
  {
    if seg == [] then Clean([])
    else if seg[0] == ESC then
      if |seg| == 1 then Broken([], true)
      else if seg[1] == FLAG_ESCAPED then Prepend(FLAG, Unstuff(seg[2..]))
      else if seg[1] == ESC_ESCAPED then Prepend(ESC, Unstuff(seg[2..]))
      else Broken([], false)
    else Prepend(seg[0], Unstuff(seg[1..]))
  }

  /** What a segment is worth once a FLAG closes it. */
  function Closed(seg: seq<byte>): seq<Event> {
    var c := Unstuff(seg);
    if |c.bytes| > MAX_UNSTUFFED then [Discarded(TooLong)]
    else if c.Broken? then [Discarded(BadEscape)]
    else Check(c.bytes)
  }

  /** What an unfinished segment is already known to be worth. */
  function Unfinished(seg: seq<byte>): seq<Event> {
    var c := Unstuff(seg);
    if |c.bytes| > MAX_UNSTUFFED then [Discarded(TooLong)]
    else if c.Broken? && !c.trailing then [Discarded(BadEscape)]
    else []
  }

  /** The index of the first FLAG, or the length. */
  function FirstFlag(data: seq<byte>): (i: nat)
    ensures i <= |data| && FLAG !in data[..i] && (i < |data| ==> data[i] == FLAG)
  {
    if data == [] then 0
    else if data[0] == FLAG then 0
    else
      var j := FirstFlag(data[1..]);
      assert data[..1 + j] == [data[0]] + data[1..][..j];
      1 + j
  }

  /** A stream that starts just after a FLAG. */
  function Segments(data: seq<byte>): seq<Event>
    decreases |data|
  {
    var i := FirstFlag(data);
    if i == |data| then Unfinished(data) else Closed(data[..i]) + Segments(data[i + 1..])
  }

  /** A whole stream: everything before the first FLAG is noise. */
  function Batch(data: seq<byte>): seq<Event> {
    var i := FirstFlag(data);
    if i == |data| then [] else Segments(data[i + 1..])
  }

  // ---------------------------------------------------------------- the frames among events

  lemma {:induction false} FramesJoin(a: seq<Event>, b: seq<Event>)
    ensures FramesOf(a + b) == FramesOf(a) + FramesOf(b)
    decreases |b|
  {
    if b == [] {
      assert a + b == a;
    } else {
      var n := |b| - 1;
      assert (a + b)[..|a + b| - 1] == a + b[..n] && (a + b)[|a + b| - 1] == b[n];
      FramesJoin(a, b[..n]);
    }
  }

  lemma OneEvent(events: seq<Event>)
    requires |events| <= 1
    ensures FramesOf(events) == if FrameIn(events).Some? then [FrameIn(events).value] else []
  {
  }

  // ---------------------------------------------------------------- feeding is batch decoding

  lemma {:induction false} FeedsAppend(s: State, a: seq<byte>, b: seq<byte>)
    requires StateOk(s)
    ensures var (s1, e1) := Feeds(s, a); var (s2, e2) := Feeds(s1, b); Feeds(s, a + b) == (s2, e1 + e2)
    decreases |a|
  {
    hide Check;
    if a == [] {
      assert a + b == b;
      assert [] + Feeds(s, b).1 == Feeds(s, b).1;
    } else {
      var (s0, e0) := Feed(s, a[0]);
      var (s1, e1) := Feeds(s0, a[1..]);
      assert (a + b)[0] == a[0] && (a + b)[1..] == a[1..] + b;
      FeedsAppend(s0, a[1..], b);
      assert e0 + (e1 + Feeds(s1, b).1) == (e0 + e1) + Feeds(s1, b).1;
    }
  }

  lemma {:induction false} HuntingIgnores(data: seq<byte>)
    requires FLAG !in data
    ensures Feeds(IDLE, data) == (IDLE, [])
    decreases |data|
  {
    hide Check;
    if data != [] {
      assert data[0] in data;
      HuntingIgnores(data[1..]);
      assert Feed(IDLE, data[0]) == (IDLE, []);
      assert [] + Feeds(IDLE, data[1..]).1 == [];
    }
  }

  /** Where a flagless segment leaves a deframer that already held `buf`, and what it has counted. */
  function After(buf: seq<byte>, c: Content): (State, seq<Event>) {
    if |buf + c.bytes| > MAX_UNSTUFFED then (IDLE, [Discarded(TooLong)])
    else if c.Clean? then (State(InFrame, buf + c.bytes), [])
    else if c.trailing then (State(Escaped, buf + c.bytes), [])
    else (IDLE, [Discarded(BadEscape)])
  }

  /** One ordinary byte, or one escape pair. */
  lemma {:induction false} SegmentFeeds(buf: seq<byte>, seg: seq<byte>)
    requires |buf| <= MAX_UNSTUFFED && FLAG !in seg
    ensures Feeds(State(InFrame, buf), seg) == After(buf, Unstuff(seg))
    decreases |seg|, 0
  {
    hide Check;
    var s := State(InFrame, buf);
    if seg == [] {
      assert buf + [] == buf;
    } else if seg[0] != ESC {
      assert seg[0] in seg;
      FeedsAppend(s, [seg[0]], seg[1..]);
      assert seg == [seg[0]] + seg[1..];
      ByteFeeds(s, seg[0]);
      KeepGoing(buf, seg[0], seg[1..]);
      assert |Unstuff(seg).bytes| == 1 + |Unstuff(seg[1..]).bytes|;
    } else if |seg| == 1 {
      ByteFeeds(s, seg[0]);
      assert seg == [seg[0]] && buf + [] == buf;
    } else {
      assert seg[1] in seg;
      FeedsAppend(s, [seg[0]], seg[1..]);
      FeedsAppend(State(Escaped, buf), [seg[1]], seg[2..]);
      assert seg == [seg[0]] + seg[1..] && seg[1..] == [seg[1]] + seg[2..];
      ByteFeeds(s, seg[0]);
      ByteFeeds(State(Escaped, buf), seg[1]);
      if seg[1] == FLAG_ESCAPED || seg[1] == ESC_ESCAPED {
        var b := if seg[1] == FLAG_ESCAPED then FLAG else ESC;
        KeepGoing(buf, b, seg[2..]);
        var e := Feeds(Append(State(InFrame, buf), b).0, seg[2..]).1;
        assert [] + (Append(State(InFrame, buf), b).1 + e) == Append(State(InFrame, buf), b).1 + e;
      } else {
        assert FLAG !in seg[2..];
        HuntingIgnores(seg[2..]);
        var bad := [Discarded(BadEscape)];
        assert buf + [] == buf && [] + (bad + []) == bad;
      }
    }
  }

  lemma ByteFeeds(s: State, b: byte)
    requires StateOk(s)
    ensures Feeds(s, [b]) == Feed(s, b)
  {
    hide Check;
    assert [b][1..] == [];
    assert Feed(s, b).1 + [] == Feed(s, b).1;
  }

  /** One more unstuffed byte, and the rest of the segment. */
  lemma {:induction false} KeepGoing(buf: seq<byte>, b: byte, rest: seq<byte>)
    requires |buf| <= MAX_UNSTUFFED && FLAG !in rest
    ensures var (s1, e1) := Append(State(InFrame, buf), b);
      var (s2, e2) := Feeds(s1, rest);
      (s2, e1 + e2) == After(buf, Prepend(b, Unstuff(rest)))
    decreases |rest|, 1
  {
    hide Check;
    if |buf| == MAX_UNSTUFFED {
      HuntingIgnores(rest);
      assert [Discarded(TooLong)] + [] == [Discarded(TooLong)];
    } else {
      SegmentFeeds(buf + [b], rest);
      assert buf + [b] + Unstuff(rest).bytes == buf + ([b] + Unstuff(rest).bytes);
      var e2 := Feeds(State(InFrame, buf + [b]), rest).1;
      assert [] + e2 == e2;
    }
  }

  /** A FLAG after a flagless segment completes what Closed says. */
  lemma FlagCloses(seg: seq<byte>)
    requires FLAG !in seg
    ensures var (s1, e1) := Feeds(State(InFrame, []), seg);
      Feed(s1, FLAG) == (State(InFrame, []), Feed(s1, FLAG).1) && e1 + Feed(s1, FLAG).1 == Closed(seg)
  {
    SegmentFeeds([], seg);
    var c := Unstuff(seg);
    assert [] + c.bytes == c.bytes;
    assert Check([]) == [];
  }

  lemma UnfinishedFeeds(seg: seq<byte>)
    requires FLAG !in seg
    ensures Feeds(State(InFrame, []), seg).1 == Unfinished(seg)
  {
    SegmentFeeds([], seg);
    assert [] + Unstuff(seg).bytes == Unstuff(seg).bytes;
  }

  lemma SplitAt(data: seq<byte>, i: nat)
    requires i < |data|
    ensures data == data[..i] + ([data[i]] + data[i + 1..])
  {
  }

  /** A FLAG-free piece, a FLAG and the rest, fed in that order. */
  lemma FeedsAround(s: State, data: seq<byte>, i: nat)
    requires StateOk(s) && i < |data|
    ensures var (s1, e1) := Feeds(s, data[..i]); var (s2, e2) := Feed(s1, data[i]);
      var (s3, e3) := Feeds(s2, data[i + 1..]);
      Feeds(s, data) == (s3, e1 + (e2 + e3))
  {
    hide Feed, Feeds;
    var b, rest := [data[i]], data[i + 1..];
    SplitAt(data, i);
    FeedsAppend(s, data[..i], b + rest);
    FeedsAppend(Feeds(s, data[..i]).0, b, rest);
    ByteFeeds(Feeds(s, data[..i]).0, data[i]);
  }

  lemma {:induction false} SegmentsFeed(data: seq<byte>)
    ensures Feeds(State(InFrame, []), data).1 == Segments(data)
    decreases |data|
  {
    hide Check, Closed, Unfinished, Unstuff, Feed, Feeds;
    var s, i := State(InFrame, []), FirstFlag(data);
    if i == |data| {
      assert data[..i] == data;
      UnfinishedFeeds(data);
    } else {
      var seg, rest := data[..i], data[i + 1..];
      FlagCloses(seg);
      FeedsAround(s, data, i);
      SegmentsFeed(rest);
      var e1, e2 := Feeds(s, seg).1, Feed(Feeds(s, seg).0, FLAG).1;
      assert e1 + (e2 + Segments(rest)) == e1 + e2 + Segments(rest);
    }
  }

  /** Byte by byte or all at once: the same frames and the same discards for the same reasons, in the same order. */
  lemma FeedingIsBatchDecoding(data: seq<byte>)
    ensures Feeds(IDLE, data).1 == Batch(data)
  {
    hide Check, Closed, Unfinished, Unstuff, Feed, Segments, Feeds;
    var i := FirstFlag(data);
    HuntingIgnores(data[..i]);
    if i < |data| {
      FeedsAround(IDLE, data, i);
      FlagOpens(IDLE);
      SegmentsFeed(data[i + 1..]);
      assert [] + ([] + Segments(data[i + 1..])) == Segments(data[i + 1..]);
    } else {
      assert data[..i] == data;
    }
  }

  /** A FLAG on an empty accumulator only opens a frame. */
  lemma FlagOpens(s: State)
    requires s.buf == [] && s.mode != Escaped
    ensures Feed(s, FLAG) == (State(InFrame, []), [])
  {
  }

  // ---------------------------------------------------------------- what is encoded is delivered

  lemma UnstuffFrom(data: seq<byte>, i: nat)
    requires i < |data|
    ensures Unstuff(data[i..]) ==
      if data[i] != ESC then Prepend(data[i], Unstuff(data[i + 1..]))
      else if i + 1 == |data| then Broken([], true)
      else if data[i + 1] == FLAG_ESCAPED then Prepend(FLAG, Unstuff(data[i + 2..]))
      else if data[i + 1] == ESC_ESCAPED then Prepend(ESC, Unstuff(data[i + 2..]))
      else Broken([], false)
  {
    var rest := data[i..];
    assert rest[0] == data[i] && rest[1..] == data[i + 1..];
    if i + 1 < |data| { assert rest[1] == data[i + 1] && rest[2..] == data[i + 2..]; }
  }

  lemma UnstuffNothing()
    ensures Unstuff([]) == Clean([])
  {
  }

  lemma {:induction false} UnstuffAppend(a: seq<byte>, b: seq<byte>)
    requires Unstuff(a).Clean?
    ensures Unstuff(a + b) == Unstuff(b).(bytes := Unstuff(a).bytes + Unstuff(b).bytes)
    decreases |a|
  {
    hide Unstuff;
    UnstuffNothing();
    if a == [] {
      assert a + b == b;
      assert [] + Unstuff(b).bytes == Unstuff(b).bytes;
    } else {
      var all := a + b;
      UnstuffFrom(a, 0);
      UnstuffFrom(all, 0);
      var k := if a[0] == ESC then 2 else 1;
      assert a[0..] == a && all[0..] == all && all[k..] == a[k..] + b;
      UnstuffAppend(a[k..], b);
      var first := if k == 1 then a[0] else if a[1] == FLAG_ESCAPED then FLAG else ESC;
      var x, y := Unstuff(a[k..]).bytes, Unstuff(b).bytes;
      assert [first] + (x + y) == ([first] + x) + y;
    }
  }

  lemma UnstuffByte(b: byte)
    ensures FLAG !in StuffByte(b) && Unstuff(StuffByte(b)) == Clean([b])
  {
    var s := StuffByte(b);
    assert s[|s|..] == [] && [b] + [] == [b];
  }

  /** Stuffed bytes hold no FLAG and unstuff to what was stuffed. */
  lemma {:induction false} StuffRoundTrip(data: seq<byte>)
    ensures FLAG !in Stuff(data) && Unstuff(Stuff(data)) == Clean(data)
    decreases |data|
  {
    if data != [] {
      var n := |data| - 1;
      StuffRoundTrip(data[..n]);
      UnstuffByte(data[n]);
      UnstuffAppend(Stuff(data[..n]), StuffByte(data[n]));
      assert data == data[..n] + [data[n]];
    }
  }

  /** Frames one after another, each closed by one FLAG or several; a closing FLAG also opens the next frame. */
  function Train(frames: seq<Fields>, flags: seq<nat>): seq<byte>
    requires |frames| == |flags|
    requires forall i :: 0 <= i < |frames| ==> Encodable(frames[i])
  {
    if frames == [] then []
    else
      assert Encodable(frames[0]);
      Stuff(Unstuffed(frames[0])) + Flags(flags[0] + 1) + Train(frames[1..], flags[1..])
  }

  function Flags(n: nat): seq<byte> {
    if n == 0 then [] else [FLAG] + Flags(n - 1)
  }

  function Deliveries(frames: seq<Fields>): seq<Event> {
    seq(|frames|, i requires 0 <= i < |frames| => Delivered(frames[i]))
  }

  lemma {:induction false} ExtraFlags(n: nat)
    ensures Feeds(State(InFrame, []), Flags(n)) == (State(InFrame, []), [])
  {
    hide Check;
    if n > 0 {
      ExtraFlags(n - 1);
      FlagOpens(State(InFrame, []));
      assert Flags(n)[0] == FLAG && Flags(n)[1..] == Flags(n - 1);
      assert [] + Feeds(State(InFrame, []), Flags(n - 1)).1 == [];
    }
  }

  lemma OneFrame(f: Fields, extra: nat)
    requires Encodable(f) && f.seqNo < 16
    ensures Feeds(State(InFrame, []), Stuff(Unstuffed(f)) + Flags(extra + 1)) == (State(InFrame, []), [Delivered(f)])
  {
    hide Check, Unstuffed;
    var body := Unstuffed(f);
    var s := State(InFrame, []);
    CheckUnstuffed(f);
    StuffRoundTrip(body);
    FlagCloses(Stuff(body));
    var (s1, e1) := Feeds(s, Stuff(body));
    FeedsAppend(s, Stuff(body), [FLAG] + Flags(extra));
    FeedsAppend(s1, [FLAG], Flags(extra));
    ByteFeeds(s1, FLAG);
    ExtraFlags(extra);
    assert e1 + (Feed(s1, FLAG).1 + []) == e1 + Feed(s1, FLAG).1;
  }

  lemma {:induction false} TrainDelivered(frames: seq<Fields>, flags: seq<nat>)
    requires |frames| == |flags|
    requires forall i :: 0 <= i < |frames| ==> Encodable(frames[i]) && frames[i].seqNo < 16
    ensures Feeds(State(InFrame, []), Train(frames, flags)) == (State(InFrame, []), Deliveries(frames))
    decreases |frames|
  {
    hide Check, Unstuffed;
    if frames != [] {
      assert Encodable(frames[0]) && frames[0].seqNo < 16;
      OneFrame(frames[0], flags[0]);
      TrainDelivered(frames[1..], flags[1..]);
      FeedsAppend(State(InFrame, []), Stuff(Unstuffed(frames[0])) + Flags(flags[0] + 1),
        Train(frames[1..], flags[1..]));
      assert Deliveries(frames) == [Delivered(frames[0])] + Deliveries(frames[1..]);
    }
  }

  /** From any state at all, the opening FLAG settles what came before and then every frame is delivered in full. */
  lemma EncodedIsDelivered(s: State, frames: seq<Fields>, flags: seq<nat>)
    requires StateOk(s) && |frames| == |flags|
    requires forall i :: 0 <= i < |frames| ==> Encodable(frames[i]) && frames[i].seqNo < 16
    ensures Feeds(s, [FLAG] + Train(frames, flags)) == (State(InFrame, []), Feed(s, FLAG).1 + Deliveries(frames))
  {
    hide Check, Unstuffed;
    TrainDelivered(frames, flags);
    FeedsAppend(s, [FLAG], Train(frames, flags));
    ByteFeeds(s, FLAG);
  }

  /** One frame as the encoder writes it. */
  lemma EncodeIsDelivered(s: State, f: Fields)
    requires StateOk(s) && Encodable(f) && f.seqNo < 16
    ensures Feeds(s, Encode(f)) == (State(InFrame, []), Feed(s, FLAG).1 + [Delivered(f)])
    ensures |Encode(f)| <= MAX_WIRE
  {
    hide Check, Unstuffed;
    OneFrame(f, 0);
    assert Flags(1) == [FLAG];
    assert Encode(f) == [FLAG] + (Stuff(Unstuffed(f)) + Flags(1));
    FeedsAppend(s, [FLAG], Stuff(Unstuffed(f)) + Flags(1));
    ByteFeeds(s, FLAG);
    CheckUnstuffed(f);
    StuffLength(Unstuffed(f));
  }
}
