/** The responder itself: timers, a replay buffer and a ring of two held requests updated in place. */
module ResponderEngine {
  import opened Protocol
  import opened Frame
  import opened Wire
  import Deframer
  import R = Responder

  /** The ring's contents, oldest first. */
  function RingContents(ring: seq<R.Request>, head: nat, count: nat): (c: seq<R.Request>)
    requires |ring| == R.HELD_REQUESTS && head < R.HELD_REQUESTS && count <= R.HELD_REQUESTS
    ensures |c| == count
  {
    seq(count, i requires 0 <= i < count => ring[(head + i) % R.HELD_REQUESTS])
  }

  lemma RingPop(ring: seq<R.Request>, head: nat, count: nat)
    requires |ring| == R.HELD_REQUESTS && head < R.HELD_REQUESTS && 0 < count <= R.HELD_REQUESTS
    ensures RingContents(ring, head, count)[0] == ring[head]
    ensures RingContents(ring, (head + 1) % R.HELD_REQUESTS, count - 1) == RingContents(ring, head, count)[1..]
  {
  }

  /** What the wire's transcript must hold for these replies. */
  ghost predicate OnWire(sent: seq<Tx>, replies: seq<R.Reply>) {
    && |sent| == |replies|
    && forall i :: 0 <= i < |sent| ==>
      |replies[i].response.payload| < 256
        && sent[i] == Tx(Encode(replies[i].response), replies[i].start, replies[i].end)
  }

  lemma OnWireNext(sent: seq<Tx>, replies: seq<R.Reply>, r: R.Reply)
    requires OnWire(sent, replies) && |r.response.payload| < 256
    ensures OnWire(sent + [Tx(Encode(r.response), r.start, r.end)], replies + [r])
  {
    hide Encode;
  }

  function Discards(c: DeframerStats): nat {
    c.badCrc + c.badLength + c.badEscape + c.tooLong + c.reserved
  }

  lemma DiscardsTell(c: DeframerStats, d: Frame.State, b: byte)
    requires StateOk(d)
    ensures var events := Frame.Feed(d, b).1;
      FrameIn(events).None? ==> (Discards(Counted(c, events)) > Discards(c) <==> events != [])
  {
    hide Frame.Feed;
    var events := Frame.Feed(d, b).1;
    if events != [] {
      assert events[..0] == [];
    }
  }

  /** The replay buffer: a response's wire image, and the two fields a replay is known by. */
  ghost predicate Holding(image: seq<byte>, len: nat, seqNo: byte, peer: byte, resp: Fields) {
    Encodable(resp) && len <= |image| && image[..len] == Encode(resp) && seqNo == resp.seqNo && peer == resp.dst
  }

  lemma IsHolding(image: seq<byte>, len: nat, resp: Fields)
    requires Encodable(resp) && len <= |image| && image[..len] == Encode(resp)
    ensures Holding(image, len, resp.seqNo, resp.dst, resp)
  {
  }

  /** The largest answer fits the buffer. */
  method EncodeAnswer(resp: Fields, buf: array<byte>) returns (written: nat)
    requires Encodable(resp) && buf.Length == MAX_WIRE
    modifies buf
    ensures written <= buf.Length && buf[..written] == Encode(resp)
  {
    hide Encode;
    var status;
    status, written := EncodeFrame(resp, buf);
  }

  class Responder {
    const my: byte
    const turnaround: nat
    const wire: ByteWire
    const handler: R.Handler
    const deframer: Deframer.Deframer
    const buf: array<byte>
    const ring: array<R.Request>

    var calls: nat // how often the handler has been invoked
    var bufValid: bool
    var bufSeq: byte
    var bufPeer: byte
    var bufLen: nat
    var phase: R.Phase
    var requestEnd: nat
    var deadline: nat
    var txUntil: nat
    var activity: Option<nat>
    var deferOrigin: Option<nat>
    var heldHead: nat
    var heldCount: nat
    var stats: R.Stats

    ghost var buffered: Fields
    ghost var hist: R.History

    ghost function Repr(): set<object>
      reads this, deframer
    {
      {this, wire, deframer, deframer.buf, buf, ring}
    }

    ghost predicate Valid()
      reads this, wire, deframer, deframer.buf, buf, ring
    {
      && deframer.Valid() && deframer.buf != buf
      && buf.Length == MAX_WIRE && ring.Length == R.HELD_REQUESTS
      && heldHead < R.HELD_REQUESTS && heldCount <= R.HELD_REQUESTS
      && (bufValid ==> Holding(buf[..], bufLen, bufSeq, bufPeer, buffered))
      && OnWire(wire.sent, hist.replies)
      && R.Shape(Value())
    }

    ghost function Value(): R.Engine
      requires deframer.Valid() && ring.Length == R.HELD_REQUESTS
      requires heldHead < R.HELD_REQUESTS && heldCount <= R.HELD_REQUESTS
      reads this, wire, deframer, deframer.buf, ring
    {
      R.Engine(my, turnaround, wire.byteTime, deframer.Value(), deframer.stats,
               if bufValid then Some(buffered) else None, phase, requestEnd, deadline, txUntil, activity, deferOrigin,
               RingContents(ring[..], heldHead, heldCount), stats, calls, wire.rx, hist)
    }

    constructor (wire: ByteWire, handler: R.Handler, my: byte, turnaround: nat)
      requires wire.rx == [] && wire.sent == []
      ensures Valid() && this.wire == wire && this.handler == handler
      ensures Value() == R.Start(my, turnaround, wire.byteTime)
      ensures fresh(Repr() - {wire})
    {
      this.my, this.wire, this.handler := my, wire, handler;
      this.turnaround := R.ClampTurnaround(turnaround);
      deframer := new Deframer.Deframer();
      buf := new byte[MAX_WIRE];
      ring := new R.Request[R.HELD_REQUESTS];
      calls, bufValid, bufSeq, bufPeer, bufLen := 0, false, 0, 0, 0;
      phase, requestEnd, deadline, txUntil := R.Listening, 0, 0, 0;
      activity, deferOrigin, heldHead, heldCount := None, None, 0, 0;
      stats := R.Stats(0, 0, 0, 0);
      hist := R.History(-1, [], [], [], []);
    }

    method Discard()
      requires Valid()
      modifies this`stats
      ensures Valid() && Value() == R.CountDiscard(old(Value()))
    {
      stats := stats.(discards := stats.discards + 1);
    }

    predicate Acceptable(f: Fields)
      reads this
    {
      f.dst == my && !f.response && f.src != my && f.src < ADDR_COUNT && my < ADDR_COUNT
    }

    /** The observer's note of one request put to this node. */
    ghost method Note(r: R.Request, v: R.Verdict)
      requires Valid()
      modifies this`hist
      ensures Valid() && Value() == R.Note(old(Value()), r, v)
    {
      hide Encode, OnWire, RingContents, Deframer.Deframer.Valid, Deframer.Deframer.Value;
      hist := hist.(served := hist.served + [R.Served(r, v)]);
    }

    method Schedule(end: nat)
      requires Valid() && bufValid && hist.served != []
      modifies this`phase, this`requestEnd, this`deadline
      ensures Valid() && Value() == R.Schedule(old(Value()), end)
    {
      hide Encode, OnWire, RingContents, Deframer.Deframer.Valid, Deframer.Deframer.Value;
      phase := R.Scheduled;
      requestEnd := end;
      deadline := end + turnaround;
    }

    /** Encodes a new answer over the replay buffer. */
    method Remember(resp: Fields)
      requires Valid() && Encodable(resp)
      modifies this`bufLen, this`bufSeq, this`bufPeer, this`bufValid, this`buffered, buf
      ensures Valid() && bufValid && Value() == old(Value()).(buffer := Some(resp))
    {
      hide Encode, OnWire, RingContents, Deframer.Deframer.Valid, Deframer.Deframer.Value, R.Shape, Holding;
      R.BufferFits(Value(), resp);
      ghost var before := Value();
      var written := EncodeAnswer(resp, buf);
      assert deframer.Valid() && before == Value();
      IsHolding(buf[..], written, resp);
      MarkBuffer(written, resp);
    }

    /** The image just written is a valid response from now on. */
    method MarkBuffer(written: nat, resp: Fields)
      requires deframer.Valid() && deframer.buf != buf && buf.Length == MAX_WIRE && ring.Length == R.HELD_REQUESTS
      requires heldHead < R.HELD_REQUESTS && heldCount <= R.HELD_REQUESTS && OnWire(wire.sent, hist.replies)
      requires Holding(buf[..], written, resp.seqNo, resp.dst, resp) && R.Shape(Value().(buffer := Some(resp)))
      modifies this`bufLen, this`bufSeq, this`bufPeer, this`bufValid, this`buffered
      ensures Valid() && bufValid && Value() == old(Value()).(buffer := Some(resp))
    {
      hide Encode, OnWire, RingContents, Deframer.Deframer.Valid, Deframer.Deframer.Value, R.Shape, Holding;
      bufLen, bufSeq, bufPeer, bufValid := written, resp.seqNo, resp.dst, true;
      buffered := resp;
    }

    /** A request that is not a replay: the handler's answer, if it is one this node can encode. */
    method ServeNew(r: R.Request) returns (ok: bool)
      requires Valid() && R.Acceptable(Value(), r.frame) && !R.IsReplay(Value(), r.frame)
      modifies this, buf
      ensures Valid() && heldHead == old(heldHead) && heldCount == old(heldCount)
      ensures ok ==> bufValid && hist.served != []
      ensures ok ==> R.Schedule(Value(), r.end) == R.OnRequest(old(Value()), r, handler)
      ensures !ok ==> Value() == R.OnRequest(old(Value()), r, handler)
    {
      hide Encode, OnWire, RingContents, Deframer.Deframer.Valid, Deframer.Deframer.Value;
      var f := r.frame;
      var payload := handler(calls, f.payload);
      CountCall();
      if |payload| > MAX_L3_MESSAGE {
        Note(r, R.Overlong);
        Discard();
        return false;
      }
      Remember(Fields(f.src, my, true, f.retry, f.seqNo, payload));
      Note(r, R.Answered);
      CountTransaction();
      return true;
    }

    method CountCall()
      requires Valid()
      modifies this`calls
      ensures Valid() && Value() == old(Value()).(calls := old(calls) + 1)
    {
      hide Encode, OnWire, RingContents, Deframer.Deframer.Valid, Deframer.Deframer.Value;
      calls := calls + 1;
    }

    method CountTransaction()
      requires Valid()
      modifies this`stats
      ensures Valid()
      ensures Value() == old(Value()).(stats := old(stats).(transactions := old(stats).transactions + 1))
    {
      hide Encode, OnWire, RingContents, Deframer.Deframer.Valid, Deframer.Deframer.Value;
      stats := stats.(transactions := stats.transactions + 1);
    }

    method OnRequest(r: R.Request)
      requires Valid()
      modifies this, buf
      ensures Valid() && Value() == R.OnRequest(old(Value()), r, handler)
      ensures heldHead == old(heldHead) && heldCount == old(heldCount)
    {
      hide Encode, OnWire, RingContents, Deframer.Deframer.Valid, Deframer.Deframer.Value;
      var f := r.frame;
      if !Acceptable(f) {
        Note(r, R.Refused);
        Discard();
        return;
      }
      var isReplay := f.retry && bufValid && f.seqNo == bufSeq && f.src == bufPeer;
      if isReplay {
        Note(r, R.Replayed);
        stats := stats.(replays := stats.replays + 1);
      } else {
        var ok := ServeNew(r);
        if !ok { return; }
      }
      Schedule(r.end);
    }

    method HoldOrDiscard(r: R.Request)
      requires Valid()
      modifies this, ring
      ensures Valid() && Value() == R.HoldOrDiscard(old(Value()), r)
    {
      if !Acceptable(r.frame) || heldCount >= R.HELD_REQUESTS {
        hist := hist.(arrived := hist.arrived + [R.Arrival(r, phase != R.Listening, |hist.served|)]);
        Discard();
        return;
      }
      ghost var before := RingContents(ring[..], heldHead, heldCount);
      ring[(heldHead + heldCount) % R.HELD_REQUESTS] := r;
      heldCount := heldCount + 1;
      assert RingContents(ring[..], heldHead, heldCount) == before + [r];
      hist := hist.(arrived := hist.arrived + [R.Arrival(r, phase != R.Listening, |hist.served|)]);
    }

    predicate PastWindow(now: nat)
      reads this
    {
      phase == R.Scheduled && now > requestEnd + T_TURN_MAX
    }

    /** The buffered bytes onto the wire. */
    method PutOnWire(now: nat)
      requires Valid() && phase == R.Scheduled
      modifies this`txUntil, this`hist, wire`sent
      ensures Valid()
      ensures Value() == old(Value()).(txUntil := R.Sent(old(Value()), now).end, hist := old(hist).(
        replies := old(hist).replies + [R.Sent(old(Value()), now)]))
    {
      hide Encode, OnWire, RingContents, Deframer.Deframer.Valid, Deframer.Deframer.Value;
      assert bufValid;
      ghost var reply := R.Sent(Value(), now);
      OnWireNext(wire.sent, hist.replies, reply);
      txUntil := wire.Transmit(buf[..bufLen], now);
      hist := hist.(replies := hist.replies + [reply]);
    }

    method Send(now: nat)
      requires Valid() && phase == R.Scheduled
      modifies this, wire
      ensures Valid() && Value() == R.Send(old(Value()), now)
      ensures heldHead == old(heldHead) && heldCount == old(heldCount)
    {
      hide Encode, OnWire, RingContents, Deframer.Deframer.Valid, Deframer.Deframer.Value;
      var late := PastWindow(now);
      PutOnWire(now);
      if late { stats := stats.(late := stats.late + 1); }
      deferOrigin := None;
      phase := R.Transmitting;
    }

    /** Whether a late response may go now: T_gap after the last byte read, or the cap. */
    method WireIsOurs(now: nat) returns (go: bool)
      requires Valid()
      modifies this`deferOrigin
      ensures Valid() && deferOrigin == Some(R.Origin(old(Value()), now))
      ensures Value() == old(Value()).(origin := deferOrigin)
      ensures go <==> now >= R.Want(old(Value()), now)
    {
      hide Encode, OnWire, RingContents, Deframer.Deframer.Valid, Deframer.Deframer.Value;
      if deferOrigin.None? { deferOrigin := Some(now); }
      var cap := deferOrigin.value + MaxFrame(wire.byteTime) + T_GAP;
      var want := if activity.Some? then activity.value + T_GAP else now;
      if want > cap { want := cap; }
      go := now >= want;
    }

    method TransmitIfDue(now: nat, drained: bool)
      requires Valid()
      modifies this, wire
      ensures Valid() && Value() == R.TransmitIfDue(old(Value()), now, drained)
      ensures heldHead == old(heldHead) && heldCount == old(heldCount)
    {
      hide Encode, OnWire, RingContents, Deframer.Deframer.Valid, Deframer.Deframer.Value;
      if phase == R.Transmitting {
        if now < txUntil { return; }
        phase := R.Listening;
      }
      if phase != R.Scheduled || now < deadline { return; }
      if PastWindow(now) {
        if !drained { return; }
        var go := WireIsOurs(now);
        if !go { return; }
      }
      Send(now);
    }

    /** One byte off the wire and into the deframer. */
    method FeedByte(b: Rx) returns (got: Option<Fields>, discarded: bool)
      requires Valid()
      modifies this`activity, this`hist, deframer, deframer.buf
      ensures Valid() && Repr() == old(Repr())
      ensures var (d, events) := Frame.Feed(old(Value()).deframer, b.value);
        && Value() == old(Value()).(activity := Some(b.start + wire.byteTime), deframer := d,
                                    counts := Counted(old(Value()).counts, events),
                                    hist := old(hist).(read := old(hist).read + [b]))
        && got == FrameIn(events) && discarded == (got.None? && events != [])
    {
      hide Encode, OnWire, RingContents, Deframer.Deframer.Valid, Deframer.Deframer.Value, Frame.Feed, Counted;
      activity := Some(b.start + wire.byteTime);
      var before := Discards(deframer.stats);
      ghost var d, c := deframer.Value(), deframer.stats;
      got := deframer.Feed(b.value);
      DiscardsTell(c, d, b.value);
      discarded := got.None? && Discards(deframer.stats) > before;
      hist := hist.(read := hist.read + [b]);
    }

    method TakeByte() returns (any: bool)
      requires Valid()
      modifies Repr()
      ensures Valid() && Repr() == old(Repr())
      ensures any <==> old(wire.rx) != []
      ensures Value() == if any then R.TakeByte(old(Value()), handler) else old(Value())
    {
      hide Encode, OnWire, RingContents, Deframer.Deframer.Valid, Deframer.Deframer.Value, Frame.Feed, Counted;
      hide R.OnRequest, R.HoldOrDiscard;
      var listening := phase == R.Listening;
      var next := wire.Receive();
      if next.None? { return false; }
      any := true;
      var b := next.value;
      var got, discarded := FeedByte(b);
      if got.Some? {
        var r := R.Request(got.value, b.start + wire.byteTime);
        if listening {
          hist := hist.(arrived := hist.arrived + [R.Arrival(r, phase != R.Listening, |hist.served|)]);
          OnRequest(r);
        } else {
          HoldOrDiscard(r);
        }
      } else if discarded {
        Discard();
      }
    }

    /** The oldest held request, off the ring. */
    method PopHeld() returns (r: R.Request)
      requires Valid() && heldCount > 0
      modifies this`heldHead, this`heldCount
      ensures Valid() && heldCount == old(heldCount) - 1
      ensures r == old(Value()).held[0] && Value() == old(Value()).(held := old(Value()).held[1..])
    {
      RingPop(ring[..], heldHead, heldCount);
      hide Encode, OnWire, RingContents, Deframer.Deframer.Valid, Deframer.Deframer.Value;
      r := ring[heldHead];
      heldHead := (heldHead + 1) % R.HELD_REQUESTS;
      heldCount := heldCount - 1;
    }

    /** One turn of the drain loop. */
    method DrainStep(now: nat) returns (more: bool)
      requires Valid()
      modifies Repr()
      ensures Valid() && Repr() == old(Repr())
      ensures more ==> R.Drain(Value(), now, handler) == R.Drain(old(Value()), now, handler)
      ensures more ==> |wire.rx| < |old(wire.rx)| || (wire.rx == old(wire.rx) && heldCount < old(heldCount))
      ensures !more ==> Value() == R.Drain(old(Value()), now, handler)
    {
      hide Encode, OnWire, RingContents, Deframer.Deframer.Valid, Deframer.Deframer.Value, R.OnRequest, R.TransmitIfDue;
      hide R.TakeByte;
      TransmitIfDue(now, false);
      if phase == R.Listening && heldCount > 0 {
        var r := PopHeld();
        OnRequest(r);
        return true;
      }
      if phase != R.Listening && !PastWindow(now) { return false; }
      more := TakeByte();
    }

    method Poll(now: nat)
      requires Valid()
      modifies Repr()
      ensures Valid() && Repr() == old(Repr())
      ensures Value() == R.Poll(old(Value()), now, handler)
    {
      hide Encode, OnWire, RingContents, Deframer.Deframer.Valid, Deframer.Deframer.Value, R.Drain, R.TransmitIfDue;
      ghost var start := Value();
      var more := true;
      while more
        invariant Valid() && Repr() == old(Repr())
        invariant more ==> R.Drain(Value(), now, handler) == R.Drain(start, now, handler)
        invariant !more ==> Value() == R.Drain(start, now, handler)
        decreases more, |wire.rx|, heldCount
      {
        more := DrainStep(now);
      }
      TransmitIfDue(now, true);
      hist := hist.(clock := now);
    }
  }
}
