/** The trunk frame codec: fields to stuffed wire bytes, and the byte-at-a-time deframer. */
module Frame {
  import opened Protocol
  import opened Crc16

  datatype Fields = Fields(dst: byte, src: byte, response: bool, retry: bool, seqNo: byte, payload: seq<byte>)

  datatype Status = Ok | PayloadTooLong | ReservedAddress | BufferTooSmall | Busy

  datatype Discard = BadCrc | BadLength | BadEscape | TooLong | Reserved

  /** What one byte, or one segment, made of the stream so far. */
  datatype Event = Delivered(frame: Fields) | Discarded(reason: Discard)

  // ---------------------------------------------------------------- encoding

  function Ctrl(f: Fields): byte {
    (if f.response then 1 else 0) + (if f.retry then 2 else 0) + (f.seqNo % 16) * 16
  }

  function Body(f: Fields): seq<byte>
    requires |f.payload| < 256
  {
    [f.dst, f.src, Ctrl(f), |f.payload|] + f.payload
  }

  function Unstuffed(f: Fields): seq<byte>
    requires |f.payload| < 256
  {
    var c := Crc(Body(f));
    Body(f) + [Lo(c), Hi(c)]
  }

  function StuffByte(b: byte): seq<byte> {
    if b == FLAG then [ESC, FLAG_ESCAPED] else if b == ESC then [ESC, ESC_ESCAPED] else [b]
  }

  function Stuff(data: seq<byte>): seq<byte> {
    if data == [] then [] else Stuff(data[..|data| - 1]) + StuffByte(data[|data| - 1])
  }

  function Encode(f: Fields): seq<byte>
    requires |f.payload| < 256
  {
    [FLAG] + Stuff(Unstuffed(f)) + [FLAG]
  }

  /** A frame encode_frame accepts. */
  predicate Encodable(f: Fields) {
    |f.payload| <= MAX_L3_MESSAGE && f.dst != ADDR_RESERVED
  }

  lemma {:induction false} StuffLength(data: seq<byte>)
    ensures |data| <= |Stuff(data)| <= 2 * |data|
  {
    if data != [] { StuffLength(data[..|data| - 1]); }
  }

  method EncodeFrame(f: Fields, out: array<byte>) returns (status: Status, written: nat)
    requires |f.payload| < 256
    modifies out
    ensures |f.payload| > MAX_L3_MESSAGE ==> status == PayloadTooLong
    ensures |f.payload| <= MAX_L3_MESSAGE && f.dst == ADDR_RESERVED ==> status == ReservedAddress
    ensures Encodable(f) ==>
      (status == BufferTooSmall <==> out.Length < 2 + 2 * (HEADER_LEN + |f.payload| + CRC_LEN))
    ensures Encodable(f) && status != BufferTooSmall ==> status == Ok
    ensures status == Ok ==> written <= out.Length && out[..written] == Encode(f)
    ensures status == Ok ==> forall i :: written <= i < out.Length ==> out[i] == old(out[i])
    ensures status != Ok ==> written == 0 && out[..] == old(out[..])
  {
    written := 0;
    if |f.payload| > MAX_L3_MESSAGE { return PayloadTooLong, 0; }
    if f.dst == ADDR_RESERVED { return ReservedAddress, 0; }
    var needed := 2 + 2 * (HEADER_LEN + |f.payload| + CRC_LEN);
    if out.Length < needed { return BufferTooSmall, 0; }
    var unstuffed := FillUnstuffed(f);
    var n := HEADER_LEN + |f.payload| + CRC_LEN;
    hide Unstuffed, Stuff;
    out[0] := FLAG;
    var w := StuffInto(unstuffed, n, out);
    out[w] := FLAG;
    assert out[..w + 1] == [out[0]] + out[1..w] + [out[w]];
    return Ok, w + 1;
  }

  lemma StuffNext(data: seq<byte>, i: nat)
    requires i < |data|
    ensures Stuff(data[..i + 1]) == Stuff(data[..i]) + StuffByte(data[i])
  {
    assert data[..i + 1][..i] == data[..i];
  }

  /** One byte of the body onto the wire image, escaped if it must be. */
  method PutByte(b: byte, out: array<byte>, w: nat) returns (w': nat)
    requires 1 <= w <= out.Length - 2
    modifies out
    ensures w < w' <= w + 2 && out[1..w'] == old(out[1..w]) + StuffByte(b)
    ensures out[0] == old(out[0]) && forall k :: w' <= k < out.Length ==> out[k] == old(out[k])
  {
    w' := w;
    if b == FLAG {
      out[w'], out[w' + 1] := ESC, FLAG_ESCAPED;
      w' := w' + 2;
    } else if b == ESC {
      out[w'], out[w' + 1] := ESC, ESC_ESCAPED;
      w' := w' + 2;
    } else {
      out[w'] := b;
      w' := w' + 1;
    }
  }

  /** The stuffing loop, from index 1 on. */
  method StuffInto(unstuffed: array<byte>, n: nat, out: array<byte>) returns (w: nat)
    requires unstuffed != out && n <= unstuffed.Length && 2 + 2 * n <= out.Length
    modifies out
    ensures 1 <= w < out.Length && out[0] == old(out[0]) && out[1..w] == Stuff(unstuffed[..n])
    ensures forall k :: w <= k < out.Length ==> out[k] == old(out[k])
  {
    w := 1;
    var i := 0;
    ghost var data := unstuffed[..n];
    assert Stuff(data[..0]) == [];
    hide Stuff, StuffByte;
    while i < n
      invariant 0 <= i <= n && 1 <= w <= 1 + 2 * i
      invariant out[0] == old(out[0])
      invariant out[1..w] == Stuff(data[..i])
      invariant forall k :: w <= k < out.Length ==> out[k] == old(out[k])
    {
      StuffNext(data, i);
      w := PutByte(unstuffed[i], out, w);
      i := i + 1;
    }
    assert data[..n] == data;
  }

  /** Header and payload. */
  method FillBody(f: Fields, buf: array<byte>)
    requires |f.payload| <= MAX_L3_MESSAGE && buf.Length == MAX_UNSTUFFED
    modifies buf
    ensures buf[..HEADER_LEN + |f.payload|] == Body(f)
  {
    buf[0], buf[1], buf[2], buf[3] := f.dst, f.src, Ctrl(f), |f.payload|;
    var i := 0;
    while i < |f.payload|
      invariant 0 <= i <= |f.payload|
      invariant buf[..HEADER_LEN + i] == [f.dst, f.src, Ctrl(f), |f.payload|] + f.payload[..i]
    {
      buf[HEADER_LEN + i] := f.payload[i];
      i := i + 1;
    }
  }

  /** Header, payload and CRC, before stuffing. */
  method FillUnstuffed(f: Fields) returns (buf: array<byte>)
    requires |f.payload| <= MAX_L3_MESSAGE
    ensures fresh(buf) && buf.Length == MAX_UNSTUFFED
    ensures buf[..HEADER_LEN + |f.payload| + CRC_LEN] == Unstuffed(f)
  {
    hide Body, Lo, Hi, Crc;
    buf := new byte[MAX_UNSTUFFED];
    FillBody(f, buf);
    var n := HEADER_LEN + |f.payload|;
    var c := Crc16CcittFalse(buf[..n]);
    buf[n] := Lo(c);
    buf[n + 1] := Hi(c);
    assert buf[..n + 2] == buf[..n] + [Lo(c), Hi(c)] && buf[..n] == Body(f);
  }

  // ---------------------------------------------------------------- checking one unstuffed frame

  /** What a closing FLAG makes of the bytes before it; an empty frame is nothing at all. */
  function Check(b: seq<byte>): (events: seq<Event>)
    ensures |events| <= 1
  {
    var n := |b|;
    if n == 0 then []
    else if n < HEADER_LEN + CRC_LEN then [Discarded(BadLength)]
    else if b[3] != n - (HEADER_LEN + CRC_LEN) then [Discarded(BadLength)]
    else if Crc(b[..n - CRC_LEN]) != Join(b[n - 2], b[n - 1]) then [Discarded(BadCrc)]
    else if b[0] == ADDR_RESERVED then [Discarded(Reserved)]
    else [Delivered(Fields(b[0], b[1], b[2] % 2 == 1, (b[2] / 2) % 2 == 1, b[2] / 16, b[HEADER_LEN..n - CRC_LEN]))]
  }

  /** The receiver reads back the fields the sender wrote. */
  lemma CheckUnstuffed(f: Fields)
    requires Encodable(f) && f.seqNo < 16
    ensures Check(Unstuffed(f)) == [Delivered(f)]
    ensures |Unstuffed(f)| <= MAX_UNSTUFFED
  {
    var b := Unstuffed(f);
    var n := |b|;
    assert b[..n - CRC_LEN] == Body(f);
    assert b[HEADER_LEN..n - CRC_LEN] == f.payload;
    JoinSplit(Crc(Body(f)));
  }

  /** A delivered frame carries the CRC of its own header and payload. */
  lemma DeliveredMeansCrc(b: seq<byte>)
    ensures Check(b) != [] && Check(b)[0].Delivered? ==>
      |b| >= HEADER_LEN + CRC_LEN && Crc(b[..|b| - CRC_LEN]) == Join(b[|b| - 2], b[|b| - 1])
  {
    hide Crc, Join;
  }

  lemma DifferInPrefix(b1: seq<byte>, b2: seq<byte>, n: nat)
    requires |b1| == |b2| && n <= |b1| && b1 != b2
    requires forall k :: n <= k < |b1| ==> b1[k] == b2[k]
    ensures b1[..n] != b2[..n]
  {
    assert b1 == b1[..n] + b1[n..] && b2 == b2[..n] + b2[n..] && b1[n..] == b2[n..];
  }

  /** Altering one byte, or two adjacent ones, of a good frame's header or payload is never delivered. */
  lemma AlteredIsNotDelivered(b1: seq<byte>, b2: seq<byte>, i: nat)
    requires Check(b1) != [] && Check(b1)[0].Delivered?
    requires |b2| == |b1| && b1 != b2 && i < |b1| - CRC_LEN
    requires forall k :: 0 <= k < |b1| && k != i && !(k == i + 1 && k < |b1| - CRC_LEN) ==> b1[k] == b2[k]
    ensures Check(b2) != [] && Check(b2)[0].Discarded?
  {
    DeliveredMeansCrc(b1);
    DeliveredMeansCrc(b2);
    LongEnough(b2);
    hide Crc, Join, Check;
    var n := |b1| - CRC_LEN;
    DifferInPrefix(b1, b2, n);
    BurstDetected(b1[..n], b2[..n], i);
  }

  lemma LongEnough(b: seq<byte>)
    ensures b != [] ==> |Check(b)| == 1
  {
    hide Crc, Join;
  }

  // ---------------------------------------------------------------- the deframer, as a function of its state

  datatype Mode = Hunting | InFrame | Escaped

  datatype State = State(mode: Mode, buf: seq<byte>)

  const IDLE: State := State(Hunting, [])

  predicate StateOk(s: State) {
    |s.buf| <= MAX_UNSTUFFED && (s.mode == Hunting ==> s.buf == [])
  }

  function Append(s: State, b: byte): (State, seq<Event>) {
    if |s.buf| >= MAX_UNSTUFFED then (IDLE, [Discarded(TooLong)])
    else (State(InFrame, s.buf + [b]), [])
  }

  function Feed(s: State, b: byte): (r: (State, seq<Event>))
    requires StateOk(s)
    ensures StateOk(r.0) && |r.1| <= 1
  {
    if b == FLAG then
      (State(InFrame, []), if s.mode == Escaped then [Discarded(BadEscape)] else Check(s.buf))
    else match s.mode
      case Hunting => (s, [])
      case Escaped =>
        if b == FLAG_ESCAPED then Append(s, FLAG)
        else if b == ESC_ESCAPED then Append(s, ESC)
        else (IDLE, [Discarded(BadEscape)])
      case InFrame =>
        if b == ESC then (s.(mode := Escaped), []) else Append(s, b)
  }

  function Feeds(s: State, data: seq<byte>): (r: (State, seq<Event>))
    requires StateOk(s)
    ensures StateOk(r.0)
    decreases |data|
  {
    if data == [] then (s, [])
    else
      var (s1, e1) := Feed(s, data[0]);
      var (s2, e2) := Feeds(s1, data[1..]);
      (s2, e1 + e2)
  }

  /** The frame a byte completed, if it did. */
  function FrameIn(events: seq<Event>): Option<Fields> {
    if |events| == 1 && events[0].Delivered? then Some(events[0].frame) else None
  }

  /** The frames among these events, in order. */
  function FramesOf(events: seq<Event>): seq<Fields> {
    if events == [] then []
    else
      FramesOf(events[..|events| - 1]) +
      (if events[|events| - 1].Delivered? then [events[|events| - 1].frame] else [])
  }

  // ---------------------------------------------------------------- its counters

  datatype DeframerStats = DeframerStats(delivered: nat, badCrc: nat, badLength: nat, badEscape: nat, tooLong: nat,
    reserved: nat)

  function Counted(s: DeframerStats, events: seq<Event>): DeframerStats {
    if events == [] then s
    else
      var s1 := Counted(s, events[..|events| - 1]);
      match events[|events| - 1]
      case Delivered(_) => s1.(delivered := s1.delivered + 1)
      case Discarded(BadCrc) => s1.(badCrc := s1.badCrc + 1)
      case Discarded(BadLength) => s1.(badLength := s1.badLength + 1)
      case Discarded(BadEscape) => s1.(badEscape := s1.badEscape + 1)
      case Discarded(TooLong) => s1.(tooLong := s1.tooLong + 1)
      case Discarded(Reserved) => s1.(reserved := s1.reserved + 1)
  }
}
