/** The master itself: one open transaction, per-address tables and two buffers updated in place. */
module MasterEngine {
  import opened Protocol
  import opened Frame
  import opened Wire
  import Deframer
  import M = Master

  /** What the wire's transcript must hold for these attempts. */
  ghost predicate OnWire(sent: seq<Tx>, attempts: seq<M.Attempt>) {
    && |sent| == |attempts|
    && forall i :: 0 <= i < |sent| ==>
      |attempts[i].frame.payload| < 256 && sent[i] == Tx(Encode(attempts[i].frame), attempts[i].start, attempts[i].end)
  }

  lemma OnWireNext(sent: seq<Tx>, attempts: seq<M.Attempt>, x: M.Attempt)
    requires OnWire(sent, attempts) && |x.frame.payload| < 256
    ensures OnWire(sent + [Tx(Encode(x.frame), x.start, x.end)], attempts + [x])
  {
    hide Encode;
  }

  lemma BadCrcTells(c: DeframerStats, d: Frame.State, b: byte)
    requires StateOk(d)
    ensures var events := Frame.Feed(d, b).1;
      Counted(c, events).badCrc > c.badCrc <==> events == [Discarded(BadCrc)]
  {
    hide Frame.Feed;
    var events := Frame.Feed(d, b).1;
    if events != [] {
      assert events[..0] == [] && events == [events[0]];
    }
  }

  class Master {
    const host: byte
    const wire: ByteWire
    const deframer: Deframer.Deframer
    const nextSeq: array<byte>
    const payload: array<byte>
    const stats: array<M.AddrStats>

    var lastRx: nat
    var respOpen: nat
    var open: bool
    var phase: M.SubPhase
    var dst: byte
    var seqNo: byte
    var attempts: nat
    var len: nat
    var deadline: nat
    var deferOrigin: nat
    var windowStart: nat
    var activity: Option<nat>
    var busDiscards: nat

    ghost var hist: M.History

    ghost function Repr(): set<object>
      reads this, deframer
    {
      {this, wire, deframer, deframer.buf, nextSeq, payload, stats}
    }

    ghost predicate Valid()
      reads this, wire, deframer, deframer.buf, nextSeq, payload, stats
    {
      && deframer.Valid() && deframer.buf != nextSeq && deframer.buf != payload && nextSeq != payload
      && nextSeq.Length == ADDR_COUNT && payload.Length == MAX_L3_MESSAGE && stats.Length == ADDR_COUNT
      && len <= payload.Length
      && OnWire(wire.sent, hist.sent)
      && M.Shape(Value())
    }

    ghost function Value(): M.Engine
      requires deframer.Valid() && len <= payload.Length
      reads this, wire, deframer, deframer.buf, nextSeq, payload, stats
    {
      M.Engine(host, wire.byteTime, deframer.Value(), deframer.stats, lastRx, respOpen, nextSeq[..],
               open, phase, dst, seqNo, attempts, payload[..len], deadline, deferOrigin, windowStart, activity,
               stats[..], busDiscards, wire.rx, hist)
    }

    constructor (wire: ByteWire, host: byte)
      requires wire.rx == [] && wire.sent == []
      ensures Valid() && this.wire == wire && fresh(Repr() - {wire})
      ensures Value() == M.Start(host, wire.byteTime)
    {
      this.host, this.wire := host, wire;
      deframer := new Deframer.Deframer();
      nextSeq := new byte[ADDR_COUNT](i => 0);
      payload := new byte[MAX_L3_MESSAGE];
      stats := new M.AddrStats[ADDR_COUNT](i => M.AddrStats(0, 0, 0, 0, 0));
      lastRx, respOpen, open, phase, dst, seqNo, attempts, len := 0, 0, false, M.AwaitResponse, 0, 0, 0, 0;
      deadline, deferOrigin, windowStart, activity, busDiscards := 0, 0, 0, None, 0;
      hist := M.History(-1, -1, [], [], [], []);
      new;
      assert nextSeq[..] == M.Start(host, wire.byteTime).nextSeq;
      assert stats[..] == M.Start(host, wire.byteTime).stats;
    }

    method Charge(a: M.AddrStats)
      requires Valid()
      modifies stats
      ensures Valid() && Value() == M.Charge(old(Value()), a)
    {
      hide Encode, OnWire, Deframer.Deframer.Valid, Deframer.Deframer.Value;
      stats[dst] := a;
    }

    /** This attempt's frame onto the wire. */
    method PutOnWire(at: nat) returns (end: nat)
      requires Valid() && open
      modifies this`hist, wire`sent
      ensures Valid() && end == at + |Encode(M.Request(old(Value())))| * wire.byteTime
      ensures Value() == old(Value()).(hist := old(hist).(sent := old(hist).sent +
        [M.Attempt(|old(hist).begun| - 1, M.Request(old(Value())), at, end, deferOrigin)]))
    {
      hide Encode, OnWire, Deframer.Deframer.Valid, Deframer.Deframer.Value;
      var f := Fields(dst, host, false, attempts > 0, seqNo, payload[..len]);
      var out := new byte[MAX_WIRE];
      var status, written := EncodeFrame(f, out);
      ghost var x := M.Attempt(|hist.begun| - 1, f, at, at + |Encode(f)| * wire.byteTime, deferOrigin);
      OnWireNext(wire.sent, hist.sent, x);
      end := wire.Transmit(out[..written], at);
      hist := hist.(sent := hist.sent + [x]);
    }

    /** The attempt just sent now waits for its response. */
    method Await(end: nat)
      requires Valid()
      modifies this`attempts, this`phase, this`windowStart, this`deadline
      ensures Valid()
      ensures Value() == old(Value()).(
        attempts := old(attempts) + 1, phase := M.AwaitResponse, windowStart := end, deadline := end + T_RESP)
    {
      hide Encode, OnWire, Deframer.Deframer.Valid, Deframer.Deframer.Value;
      attempts := attempts + 1;
      phase := M.AwaitResponse;
      windowStart := end;
      deadline := end + T_RESP;
    }

    method DoTransmit(at: nat)
      requires Valid() && open
      modifies this, wire, stats
      ensures Valid() && Value() == M.DoTransmit(old(Value()), at)
    {
      hide Encode, OnWire, Deframer.Deframer.Valid, Deframer.Deframer.Value;
      var end := PutOnWire(at);
      var a := stats[dst];
      if attempts == 0 {
        Charge(a.(transactions := a.transactions + 1));
      } else {
        Charge(a.(retries := a.retries + 1));
      }
      Await(end);
    }

    method FirePending(now: nat)
      requires Valid()
      modifies this, wire, stats
      ensures Valid() && Value() == M.FirePending(old(Value()), now)
    {
      hide Encode, OnWire, Deframer.Deframer.Valid, Deframer.Deframer.Value, M.DoTransmit;
      if !(open && phase == M.PendingTransmit) { return; }
      var want := deadline;
      if activity.Some? && activity.value + T_GAP > want { want := activity.value + T_GAP; }
      var cap := deferOrigin + MaxFrame(wire.byteTime) + T_GAP;
      if want > cap { want := cap; }
      deadline := want;
      if now >= deadline { DoTransmit(now); }
    }

    method Conclude(o: M.Outcome)
      requires Valid()
      modifies this`open, this`hist
      ensures Valid() && Value() == M.Conclude(old(Value()), o)
    {
      hide Encode, OnWire, Deframer.Deframer.Valid, Deframer.Deframer.Value;
      hist := hist.(concluded := hist.concluded + [M.Conclusion(dst, o, M.Now(Value()))]);
      open := false;
    }

    method ChargeFailure(reason: M.Reason)
      requires Valid()
      modifies stats
      ensures Valid()
      ensures var a := old(stats[dst]); Value() == M.Charge(old(Value()),
        if reason == M.Timeout then a.(timeouts := a.timeouts + 1) else a.(crcFailures := a.crcFailures + 1))
    {
      hide Encode, OnWire, Deframer.Deframer.Valid, Deframer.Deframer.Value;
      var a := stats[dst];
      if reason == M.Timeout {
        Charge(a.(timeouts := a.timeouts + 1));
      } else {
        Charge(a.(crcFailures := a.crcFailures + 1));
      }
    }

    /** Activity moves forward. */
    method Stir(at: nat)
      requires Valid()
      modifies this`activity
      ensures Valid() && Value() == old(Value()).(activity := M.Later(old(activity), at))
    {
      hide Encode, OnWire, Deframer.Deframer.Valid, Deframer.Deframer.Value;
      if activity.None? || activity.value <= at { activity := Some(at); }
    }

    /** The next attempt is due at this instant, if the wire lets it. */
    method Defer(at: nat)
      requires Valid()
      modifies this`phase, this`deadline, this`deferOrigin
      ensures Valid()
      ensures Value() == old(Value()).(phase := M.PendingTransmit, deadline := at, deferOrigin := at)
    {
      hide Encode, OnWire, Deframer.Deframer.Valid, Deframer.Deframer.Value;
      phase := M.PendingTransmit;
      deadline, deferOrigin := at, at;
    }

    method EndAttempt(at: nat, reason: M.Reason) returns (ev: M.Outcome)
      requires Valid()
      modifies this, stats
      ensures Valid() && (Value(), ev) == M.EndAttempt(old(Value()), at, reason)
    {
      hide Encode, OnWire, Deframer.Deframer.Valid, Deframer.Deframer.Value;
      ChargeFailure(reason);
      Stir(at);
      if attempts < 1 + RETRIES {
        Defer(activity.value + T_GAP);
        return M.Quiet;
      }
      ev := M.Failed(reason);
      Conclude(ev);
    }

    /** One byte into the deframer. */
    method FeedByte(b: byte) returns (got: Option<Fields>, badCrc: bool)
      requires Valid()
      modifies deframer, deframer.buf
      ensures Valid() && Repr() == old(Repr())
      ensures var (d, events) := Frame.Feed(old(Value()).deframer, b);
        && Value() == old(Value()).(deframer := d, counts := Counted(old(Value()).counts, events))
        && got == FrameIn(events) && (badCrc <==> events == [Discarded(BadCrc)])
    {
      hide Encode, OnWire, Frame.Feed, Counted;
      var before := deframer.stats.badCrc;
      BadCrcTells(deframer.stats, deframer.Value(), b);
      got := deframer.Feed(b);
      badCrc := deframer.stats.badCrc > before;
    }

    /** When it was heard. */
    method NoteByte(b: Rx)
      requires Valid()
      modifies this`lastRx, this`respOpen, this`hist
      ensures Valid()
      ensures Value() == old(Value()).(lastRx := b.start + wire.byteTime,
        respOpen := if b.value == FLAG then b.start else old(respOpen),
        hist := old(hist).(read := old(hist).read + [b]))
    {
      hide Encode, OnWire, Deframer.Deframer.Valid, Deframer.Deframer.Value;
      if b.value == FLAG { respOpen := b.start; }
      lastRx := b.start + wire.byteTime;
      hist := hist.(read := hist.read + [b]);
    }

    /** One byte recorded and fed. */
    method Hear(b: Rx) returns (got: Option<Fields>, badCrc: bool)
      requires Valid()
      modifies this`lastRx, this`respOpen, this`activity, this`hist, deframer, deframer.buf
      ensures Valid() && Repr() == old(Repr()) && Value() == M.Hear(old(Value()), b)
      ensures var events := Frame.Feed(old(Value()).deframer, b.value).1;
        got == FrameIn(events) && (badCrc <==> events == [Discarded(BadCrc)])
    {
      hide Encode, OnWire, Frame.Feed, Counted, Deframer.Deframer.Valid, Deframer.Deframer.Value, M.Shape;
      got, badCrc := FeedByte(b.value);
      NoteByte(b);
      Stir(lastRx);
    }

    method Digest(ev: M.Outcome, got: Option<Fields>, badCrc: bool, openedAt: nat, ghost events: seq<Event>)
      returns (ev': M.Outcome)
      requires Valid() && got == FrameIn(events) && (badCrc <==> events == [Discarded(BadCrc)])
      modifies this, stats
      ensures Valid() && (Value(), ev') == M.Digest(old(Value()), ev, events, openedAt)
    {
      hide Encode, OnWire, Deframer.Deframer.Valid, Deframer.Deframer.Value, M.EndAttempt;
      ev' := ev;
      var awaiting := open && phase == M.AwaitResponse;
      var inWindow := windowStart <= openedAt < deadline;
      if badCrc {
        if awaiting && inWindow {
          ev' := EndAttempt(lastRx, M.CrcFailed);
        } else {
          busDiscards := busDiscards + 1;
        }
        return;
      }
      if got.None? { return; }
      var f := got.value;
      if awaiting && f.response && f.src == dst && f.dst == host && f.seqNo == seqNo && inWindow {
        ev' := M.Answer(f);
        Conclude(ev');
      } else if awaiting {
        Charge(stats[dst].(discards := stats[dst].discards + 1));
      } else {
        busDiscards := busDiscards + 1;
      }
    }

    /** The oldest byte due, and what it means. */
    method TakeByte(ev: M.Outcome) returns (ev': M.Outcome)
      requires Valid() && wire.rx != []
      modifies Repr()
      ensures Valid() && Repr() == old(Repr()) && wire.rx == old(wire.rx)[1..]
      ensures (Value(), ev') == M.TakeByte(old(Value()), ev)
    {
      hide Encode, OnWire, Deframer.Deframer.Valid, Deframer.Deframer.Value, Frame.Feed, Counted, M.Digest;
      var openedAt := respOpen;
      ghost var before := Value();
      var next := wire.Receive();
      var got, badCrc := Hear(next.value);
      ev' := Digest(ev, got, badCrc, openedAt, Frame.Feed(before.deframer, next.value.value).1);
    }

    method DrainWire(ev: M.Outcome) returns (ev': M.Outcome)
      requires Valid()
      modifies Repr()
      ensures Valid() && Repr() == old(Repr())
      ensures (Value(), ev') == M.DrainWire(old(Value()), ev)
    {
      hide Encode, OnWire, Deframer.Deframer.Valid, Deframer.Deframer.Value, M.TakeByte, M.Shape;
      ev' := ev;
      while wire.rx != []
        invariant Valid() && Repr() == old(Repr())
        invariant M.DrainWire(Value(), ev') == M.DrainWire(old(Value()), ev)
        decreases |wire.rx|
      {
        ev' := TakeByte(ev');
      }
    }

    ghost method At(now: nat)
      requires Valid()
      modifies this`hist
      ensures Valid() && Value() == M.At(old(Value()), now)
    {
      hide Encode, OnWire, Deframer.Deframer.Valid, Deframer.Deframer.Value;
      hist := hist.(clock := now, driven := now);
    }

    method Poll(now: nat) returns (ev: M.Outcome)
      requires Valid()
      modifies Repr()
      ensures Valid() && Repr() == old(Repr())
      ensures (Value(), ev) == M.Poll(old(Value()), now)
    {
      hide Encode, OnWire, Deframer.Deframer.Valid, Deframer.Deframer.Value, M.DrainWire, M.EndAttempt, M.FirePending;
      At(now);
      ev := DrainWire(M.Quiet);
      var frameArriving := FrameArriving(now);
      var pendingInWindow := frameArriving && windowStart <= respOpen < deadline;
      if open && phase == M.AwaitResponse && now >= deadline && !pendingInWindow {
        ev := EndAttempt(deadline, M.Timeout);
      }
      FirePending(now);
    }

    method FrameArriving(now: nat) returns (b: bool)
      requires Valid()
      ensures b == M.FrameArriving(Value(), now)
    {
      if deframer.mode == Hunting { return false; }
      return now <= lastRx + wire.byteTime && now <= respOpen + MaxFrame(wire.byteTime);
    }

    method StorePayload(bytes: seq<byte>)
      requires Valid() && |bytes| <= MAX_L3_MESSAGE
      modifies this`len, payload
      ensures Valid() && Value() == old(Value()).(payload := bytes)
    {
      hide Encode, OnWire, Deframer.Deframer.Valid, Deframer.Deframer.Value;
      len := |bytes|;
      forall i | 0 <= i < |bytes| { payload[i] := bytes[i]; }
      assert payload[..len] == bytes;
    }

    /** This destination's next sequence number, which then moves on. */
    method TakeSeq(dst: byte)
      requires Valid() && dst < ADDR_COUNT
      modifies this`dst, this`seqNo, nextSeq
      ensures Valid()
      ensures Value() == old(Value()).(dst := dst, seqNo := old(nextSeq[dst]),
                                       nextSeq := old(nextSeq[..])[dst := (old(nextSeq[dst]) + 1) % 16])
    {
      hide Encode, OnWire, Deframer.Deframer.Valid, Deframer.Deframer.Value;
      this.dst, seqNo := dst, nextSeq[dst];
      nextSeq[dst] := (nextSeq[dst] + 1) % 16;
    }

    method Pend(at: nat)
      requires Valid() && hist.begun != []
      modifies this`attempts, this`open, this`phase, this`deadline, this`deferOrigin
      ensures Valid()
      ensures Value() == old(Value()).(attempts := 0, open := true, phase := M.PendingTransmit, deadline := at,
        deferOrigin := at)
    {
      hide Encode, OnWire, Deframer.Deframer.Valid, Deframer.Deframer.Value;
      attempts, open := 0, true;
      Defer(at);
    }

    /** The observer's note of one accepted transaction. */
    ghost method NoteBegun(b: M.Begun)
      requires Valid()
      modifies this`hist
      ensures Valid() && Value() == old(Value()).(hist := old(hist).(begun := old(hist).begun + [b]))
    {
      hide Encode, OnWire, Deframer.Deframer.Valid, Deframer.Deframer.Value;
      hist := hist.(begun := hist.begun + [b]);
    }

    /** The new transaction's fields, and its deferred instant. */
    method Open(dst: byte, bytes: seq<byte>, now: nat)
      requires Valid() && dst < ADDR_COUNT && |bytes| <= MAX_L3_MESSAGE
      modifies this, nextSeq, payload
      ensures Valid() && Value() == M.Open(old(Value()), dst, bytes, now)
    {
      hide Encode, OnWire, Deframer.Deframer.Valid, Deframer.Deframer.Value;
      TakeSeq(dst);
      StorePayload(bytes);
      NoteBegun(M.Begun(dst, seqNo, bytes, now));
      Pend(if activity.Some? then activity.value + T_GAP else now);
    }

    method Begin(dst: byte, bytes: seq<byte>, now: nat) returns (status: Status)
      requires Valid()
      modifies Repr()
      ensures Valid() && Repr() == old(Repr())
      ensures (Value(), status) == M.Begin(old(Value()), dst, bytes, now)
    {
      hide Encode, OnWire, Deframer.Deframer.Valid, Deframer.Deframer.Value, M.DrainWire, M.FirePending, M.Open;
      hist := hist.(clock := now);
      if open { return Busy; }
      if |bytes| > MAX_L3_MESSAGE { return PayloadTooLong; }
      if dst >= ADDR_COUNT { return ReservedAddress; }
      hist := hist.(driven := now);
      var unused := DrainWire(M.Quiet);
      Open(dst, bytes, now);
      FirePending(now);
      return Ok;
    }
  }
}
