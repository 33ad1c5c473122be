/** Where every frame is booked, and that a quiet wire is used at once. */
module MasterLaws {
  import opened Protocol
  import opened Frame
  import opened Wire
  import opened Master
  import MasterTiming

  // ---------------------------------------------------------------- booking one frame

  /** The open transaction awaits a response, and this frame, opened then, is it. */
  predicate IsResponse(s: Engine, f: Fields, openedAt: nat) {
    && s.open && s.phase == AwaitResponse
    && f.response && f.src == s.dst && f.dst == s.host && f.seqNo == s.seqNo
    && s.windowStart <= openedAt && openedAt < s.deadline
  }

  /** The books of every address but one are as they were. */
  predicate OthersBooked(s: Engine, s': Engine, a: byte) {
    |s'.stats| == |s.stats| && forall b :: 0 <= b < |s.stats| && b != a ==> s'.stats[b] == s.stats[b]
  }

  predicate AllBooked(s: Engine, s': Engine) {
    s'.stats == s.stats && s'.hist.concluded == s.hist.concluded && s'.open == s.open && s'.phase == s.phase
  }

  /**
   * A frame the next byte completes is the answer, or charged to the address awaited, or to the bus if none is; a CRC
   * failure ends the attempt in whose window its frame began and is otherwise the bus's; nothing else is booked.
   */
  lemma FrameIsBooked(s: Engine)
    requires Shape(s) && s.rx != []
    ensures var s', events, from := TakeByte(s, Quiet).0, Feed(s.deframer, s.rx[0].value).1, s.respOpen;
      && (forall f :: events == [Delivered(f)] && IsResponse(s, f, from) ==>
        !s'.open && s'.stats == s.stats && s'.busDiscards == s.busDiscards)
      && (forall f :: events == [Delivered(f)] && !IsResponse(s, f, from) && Awaiting(s) ==>
        OthersBooked(s, s', s.dst) && s'.busDiscards == s.busDiscards && Awaiting(s') &&
        s'.stats[s.dst] == s.stats[s.dst].(discards := s.stats[s.dst].discards + 1))
      && (forall f :: events == [Delivered(f)] && !Awaiting(s) ==>
        AllBooked(s, s') && s'.busDiscards == s.busDiscards + 1)
      && (events == [Discarded(BadCrc)] && Awaiting(s) && s.windowStart <= from < s.deadline ==>
        OthersBooked(s, s', s.dst) && s'.busDiscards == s.busDiscards && !Awaiting(s') &&
        s'.stats[s.dst] == s.stats[s.dst].(crcFailures := s.stats[s.dst].crcFailures + 1))
      && (events == [Discarded(BadCrc)] && !(Awaiting(s) && s.windowStart <= from < s.deadline) ==>
        AllBooked(s, s') && s'.busDiscards == s.busDiscards + 1)
      && ((forall f :: events != [Delivered(f)]) && events != [Discarded(BadCrc)] ==>
        AllBooked(s, s') && s'.busDiscards == s.busDiscards)
  {
    hide Feed, Counted;
    var events := Feed(s.deframer, s.rx[0].value).1;
    if events != [] && events[0].Delivered? { assert events == [Delivered(events[0].frame)]; }
  }

  // ---------------------------------------------------------------- a quiet wire

  /** The end of some byte that has been read. */
  predicate EndOfByte(s: Engine, t: nat) {
    exists b :: b in s.hist.read && b.start + s.byteTime == t
  }

  /** A deferral is counted from the last activity there was, and pushed out by what is heard afterwards alone. */
  predicate Deferred(s: Engine) {
    s.open && s.phase == PendingTransmit ==>
      && (s.activity.Some? ==> s.activity.value + T_GAP <= s.deferOrigin || EndOfByte(s, s.activity.value))
      && (s.deadline <= s.deferOrigin || (s.activity.Some? && s.deadline <= s.activity.value + T_GAP))
  }

  lemma HearDefers(s: Engine, b: Rx, rx: seq<Rx>)
    requires Shape(s) && Deferred(s)
    ensures Deferred(Hear(s, b).(rx := rx))
  {
    hide Feed, Counted;
    var s' := Hear(s, b).(rx := rx);
    assert s'.hist.read[|s.hist.read|] == b;
    if s.activity.Some? && EndOfByte(s, s.activity.value) {
      var x :| x in s.hist.read && x.start + s.byteTime == s.activity.value;
      assert x in s'.hist.read;
    }
    assert EndOfByte(s', b.start + s.byteTime);
  }

  lemma DigestDefers(s: Engine, ev: Outcome, events: seq<Event>, openedAt: nat)
    requires Shape(s) && Deferred(s)
    ensures Deferred(Digest(s, ev, events, openedAt).0)
  {
    var s' := Digest(s, ev, events, openedAt).0;
    assert s'.hist.read == s.hist.read && s'.byteTime == s.byteTime;
    assert forall t: nat :: EndOfByte(s, t) == EndOfByte(s', t);
    hide EndOfByte;
  }

  lemma {:induction false} DrainDefers(s: Engine, ev: Outcome)
    requires Shape(s) && Deferred(s)
    ensures Deferred(DrainWire(s, ev).0)
    decreases |s.rx|
  {
    hide Deferred, Feed, Digest, Hear;
    if s.rx != [] {
      HearDefers(s, s.rx[0], s.rx[1..]);
      DigestDefers(Hear(s, s.rx[0]).(rx := s.rx[1..]), ev, Feed(s.deframer, s.rx[0].value).1, s.respOpen);
      DrainDefers(TakeByte(s, ev).0, TakeByte(s, ev).1);
    }
  }

  lemma SameDeferral(s: Engine, s': Engine)
    requires Deferred(s) && s'.open == s.open && s'.phase == s.phase && s'.activity == s.activity
    requires s'.deferOrigin == s.deferOrigin && s'.deadline == s.deadline
    requires s'.hist.read == s.hist.read && s'.byteTime == s.byteTime
    ensures Deferred(s')
  {
    assert forall t: nat :: EndOfByte(s, t) == EndOfByte(s', t);
    hide EndOfByte;
  }

  lemma FireDefers(s: Engine, now: nat)
    requires Shape(s) && Deferred(s)
    ensures Deferred(FirePending(s, now))
  {
    hide Encode;
    assert forall t: nat :: EndOfByte(s, t) == EndOfByte(FirePending(s, now), t);
    hide EndOfByte;
  }

  lemma EndDefers(s: Engine, at: nat, reason: Reason)
    requires Shape(s) && Awaiting(s)
    ensures Deferred(EndAttempt(s, at, reason).0)
  {
    hide EndOfByte;
  }

  lemma StepDefers(s: Engine, c: Call)
    requires Shape(s) && Deferred(s)
    ensures Deferred(Step(s, c))
  {
    hide Deferred, DrainWire, FirePending, EndAttempt, FrameArriving, Open;
    var s1 := s.(rx := s.rx + c.due);
    SameDeferral(s, s1);
    SameDeferral(s1, At(s1, c.now));
    SameDeferral(s1, Refused(s1, c.now));
    DrainDefers(At(s1, c.now), Quiet);
    var s2 := DrainWire(At(s1, c.now), Quiet).0;
    FireDefers(s2, c.now);
    if c.DoPoll? {
      if Awaiting(s2) {
        EndDefers(s2, s2.deadline, Timeout);
        FireDefers(EndAttempt(s2, s2.deadline, Timeout).0, c.now);
      }
    } else if c.dst < ADDR_COUNT && |c.payload| <= MAX_L3_MESSAGE {
      OpenDefers(s2, c.dst, c.payload, c.now);
      FireDefers(Open(s2, c.dst, c.payload, c.now), c.now);
    }
  }

  lemma OpenDefers(s: Engine, dst: byte, payload: seq<byte>, now: nat)
    requires Shape(s) && dst < ADDR_COUNT && |payload| <= MAX_L3_MESSAGE
    ensures Deferred(Open(s, dst, payload, now))
  {
    hide EndOfByte;
  }

  lemma {:induction false} RunDefers(host: byte, byteTime: nat, calls: seq<Call>)
    ensures Deferred(Run(Start(host, byteTime), calls))
  {
    hide Step;
    if calls != [] {
      RunDefers(host, byteTime, calls[..|calls| - 1]);
      hide Deferred;
      StepDefers(Run(Start(host, byteTime), calls[..|calls| - 1]), calls[|calls| - 1]);
    }
  }

  /**
   * After any calls, a pending attempt goes out at the first poll from the instant it was deferred to on, if that poll
   * finds nothing on the wire and every byte before it ended at least T_gap ago.
   */
  lemma QuietWireIsUsed(host: byte, byteTime: nat, calls: seq<Call>, now: nat)
    requires var s := Run(Start(host, byteTime), calls);
      && s.open && s.phase == PendingTransmit && s.rx == [] && now >= s.deferOrigin
      && forall b :: b in s.hist.read ==> b.start + s.byteTime + T_GAP <= now
    ensures var s := Run(Start(host, byteTime), calls); var s' := Poll(s, now).0;
      && Awaiting(s') && |s'.hist.sent| == |s.hist.sent| + 1 && s.hist.sent <= s'.hist.sent
      && s'.hist.sent[|s.hist.sent|].start == now && s'.hist.sent[|s.hist.sent|].frame == Request(s)
  {
    hide Run, Encode, FrameArriving;
    RunDefers(host, byteTime, calls);
  }
}
