/** When the master transmits: courtesy to frames on the wire, and a bound on every transaction. */
module MasterTiming {
  import opened Protocol
  import opened Frame
  import opened Wire
  import opened Master
  import opened MasterRuns

  /** Everything the wire has offered so far, read or not. */
  function Offered(s: Engine): seq<Rx> {
    s.hist.read + s.rx
  }

  /** Bytes are offered in order, each at its start bit, and time does not run backwards. */
  predicate Timely(s: Engine, c: Call) {
    c.now >= s.hist.clock && InOrder(c.due) && forall b :: b in c.due ==> s.hist.clock < b.start <= c.now
  }

  predicate AllTimely(s: Engine, calls: seq<Call>)
    requires Shape(s)
  {
    calls == [] ||
    (AllTimely(s, calls[..|calls| - 1]) && Timely(Run(s, calls[..|calls| - 1]), calls[|calls| - 1]))
  }

  // ---------------------------------------------------------------- the invariants

  predicate Reading(s: Engine, now: nat) {
    && InOrder(Offered(s))
    && (forall b :: b in Offered(s) ==> b.start <= now)
    && (forall b :: b in s.hist.read ==> s.activity.Some? && b.start + s.byteTime <= s.activity.value)
    && (s.activity.Some? ==> s.activity.value <= now + s.byteTime)
    && s.respOpen <= now && s.lastRx <= now + s.byteTime
    && (forall b :: b in s.rx ==> s.respOpen <= b.start)
  }

  /** Nothing that had started by `t` ended less than T_gap before it. */
  predicate Silent(t: nat, offered: seq<Rx>, byteTime: nat) {
    forall b :: b in offered && b.start <= t ==> b.start + byteTime + T_GAP <= t
  }

  predicate Courteous(s: Engine, x: Attempt) {
    x.origin <= x.start &&
    (Silent(x.start, Offered(s), s.byteTime) || x.start >= x.origin + MaxFrame(s.byteTime) + T_GAP)
  }

  predicate Spaced(sent: seq<Attempt>) {
    && (forall i :: 0 <= i < |sent| ==> sent[i].start <= sent[i].end)
    && forall i, j :: 0 <= i < j < |sent| ==> sent[i].end + T_GAP <= sent[j].start
  }

  predicate Sending(s: Engine, now: nat) {
    && (forall x :: x in s.hist.sent ==> x.start <= now && Courteous(s, x))
    && Spaced(s.hist.sent)
  }

  predicate Phases(s: Engine) {
    && (Awaiting(s) ==>
      s.hist.sent != [] && s.windowStart == s.hist.sent[|s.hist.sent| - 1].end && s.deadline == s.windowStart + T_RESP)
    && (!Awaiting(s) ==> forall x :: x in s.hist.sent ==> s.activity.Some? && x.end <= s.activity.value)
    && (s.open && s.phase == PendingTransmit ==>
      s.deferOrigin <= s.deadline && forall x :: x in s.hist.sent ==> x.end + T_GAP <= s.deferOrigin)
  }

  predicate Inv(s: Engine, now: nat) {
    Reading(s, now) && Sending(s, now) && Phases(s)
  }

  // ---------------------------------------------------------------- one byte

  lemma LastEnds(sent: seq<Attempt>)
    requires Spaced(sent) && sent != []
    ensures forall x :: x in sent ==> x.end <= sent[|sent| - 1].end
  {
    forall x | x in sent ensures x.end <= sent[|sent| - 1].end {
      var i :| 0 <= i < |sent| && sent[i] == x;
    }
  }

  lemma SameCourtesy(s: Engine, s': Engine)
    requires Offered(s') == Offered(s) && s'.byteTime == s.byteTime
    ensures forall x :: Courteous(s, x) == Courteous(s', x)
  {
  }

  lemma HearKeeps(s: Engine, now: nat)
    requires Shape(s) && Inv(s, now) && s.rx != []
    ensures var s' := Hear(s, s.rx[0]).(rx := s.rx[1..]);
      && Inv(s', now) && s.respOpen <= s'.lastRx && s'.activity.Some? && s'.lastRx <= s'.activity.value
  {
    hide Feed, Counted, Courteous, Spaced;
    var s' := Hear(s, s.rx[0]).(rx := s.rx[1..]);
    assert s.rx == [s.rx[0]] + s.rx[1..];
    assert Offered(s') == Offered(s);
    SameCourtesy(s, s');
    assert forall b :: b in s.rx[1..] ==> b in s.rx;
    assert forall b :: b in s.rx[1..] ==> s.rx[0].start <= b.start by {
      forall b | b in s.rx[1..] ensures s.rx[0].start <= b.start {
        var i :| 0 <= i < |s.rx| - 1 && s.rx[1..][i] == b;
        assert Offered(s)[|s.hist.read|] == s.rx[0] && Offered(s)[|s.hist.read| + 1 + i] == b;
      }
    }
  }

  lemma EndKeeps(s: Engine, at: nat, reason: Reason, now: nat)
    requires Shape(s) && Inv(s, now) && Awaiting(s) && s.windowStart <= at <= now + s.byteTime
    ensures Inv(EndAttempt(s, at, reason).0, now)
  {
    hide Courteous, Spaced, InOrder;
    var s' := EndAttempt(s, at, reason).0;
    assert Offered(s') == Offered(s);
    SameCourtesy(s, s');
    LastEnds(s.hist.sent);
  }

  lemma DigestKeeps(s: Engine, ev: Outcome, events: seq<Event>, openedAt: nat, now: nat)
    requires Shape(s) && Inv(s, now) && openedAt <= s.lastRx
    requires s.activity.Some? && s.lastRx <= s.activity.value
    ensures Inv(Digest(s, ev, events, openedAt).0, now)
  {
    hide Courteous, Spaced, InOrder, EndAttempt;
    var s' := Digest(s, ev, events, openedAt).0;
    if events == [Discarded(BadCrc)] && Awaiting(s) && s.windowStart <= openedAt < s.deadline {
      EndKeeps(s, s.lastRx, CrcFailed, now);
    } else {
      assert Offered(s') == Offered(s);
      SameCourtesy(s, s');
      if Awaiting(s) { LastEnds(s.hist.sent); }
    }
  }

  lemma {:induction false} DrainKeeps(s: Engine, ev: Outcome, now: nat)
    requires Shape(s) && Inv(s, now)
    ensures Inv(DrainWire(s, ev).0, now)
    decreases |s.rx|
  {
    hide Inv, Feed, Digest, Hear;
    if s.rx != [] {
      HearKeeps(s, now);
      var s1 := Hear(s, s.rx[0]).(rx := s.rx[1..]);
      DigestKeeps(s1, ev, Feed(s.deframer, s.rx[0].value).1, s.respOpen, now);
      DrainKeeps(TakeByte(s, ev).0, TakeByte(s, ev).1, now);
    }
  }

  // ---------------------------------------------------------------- the wire

  /** The one decision: the master waited out everything it heard, or reached the cap. */
  lemma FireKeeps(s: Engine, now: nat)
    requires Shape(s) && Inv(s, now) && s.rx == []
    ensures Inv(FirePending(s, now), now)
  {
    hide Encode, InOrder;
    if s.open && s.phase == PendingTransmit {
      var s' := FirePending(s, now);
      assert Offered(s') == Offered(s) == s.hist.read;
      if now >= Want(s) {
        var x := s'.hist.sent[|s.hist.sent|];
        assert s'.hist.sent == s.hist.sent + [x];
        assert Courteous(s', x);
        assert forall y :: y in s.hist.sent ==> Courteous(s', y);
      }
    }
  }

  lemma AtKeeps(s: Engine, now: nat)
    requires Inv(s, now)
    ensures Inv(At(s, now), now) && Inv(Refused(s, now), now)
  {
    hide Courteous, Spaced, InOrder;
    assert Offered(At(s, now)) == Offered(s) == Offered(Refused(s, now));
    SameCourtesy(s, At(s, now));
    SameCourtesy(s, Refused(s, now));
  }

  lemma PollKeeps(s: Engine, now: nat)
    requires Shape(s) && Inv(s, now)
    ensures Inv(Poll(s, now).0, now)
  {
    hide Inv, Reading, Sending, DrainWire, EndAttempt, FirePending, FrameArriving;
    AtKeeps(s, now);
    DrainKeeps(At(s, now), Quiet, now);
    var s1 := DrainWire(At(s, now), Quiet).0;
    FireKeeps(s1, now);
    if Awaiting(s1) && now >= s1.deadline {
      AwaitWindow(s1, now);
      EndKeeps(s1, s1.deadline, Timeout, now);
      FireKeeps(EndAttempt(s1, s1.deadline, Timeout).0, now);
    }
  }

  lemma AwaitWindow(s: Engine, now: nat)
    requires Inv(s, now) && Awaiting(s)
    ensures s.windowStart <= s.deadline
  {
    hide Reading, Sending;
  }

  lemma OpenKeeps(s: Engine, dst: byte, payload: seq<byte>, now: nat)
    requires Shape(s) && Inv(s, now) && !s.open && dst < ADDR_COUNT && |payload| <= MAX_L3_MESSAGE
    ensures Inv(Open(s, dst, payload, now), now)
  {
    hide Courteous, Spaced, InOrder;
    var s' := Open(s, dst, payload, now);
    assert Offered(s') == Offered(s);
    SameCourtesy(s, s');
  }

  lemma BeginKeeps(s: Engine, dst: byte, payload: seq<byte>, now: nat)
    requires Shape(s) && Inv(s, now)
    ensures Inv(Begin(s, dst, payload, now).0, now)
  {
    hide Inv, DrainWire, Open, FirePending;
    AtKeeps(s, now);
    if !s.open && |payload| <= MAX_L3_MESSAGE && dst < ADDR_COUNT {
      DrainKeeps(At(s, now), Quiet, now);
      IdleDrain(At(s, now));
      var s1 := DrainWire(At(s, now), Quiet).0;
      OpenKeeps(s1, dst, payload, now);
      FireKeeps(Open(s1, dst, payload, now), now);
    }
  }

  // ---------------------------------------------------------------- runs

  /** New bytes start after the last call, so no attempt made by then could have heard them. */
  lemma ArriveKeeps(s: Engine, c: Call)
    requires s.hist.clock >= 0 && Inv(s, s.hist.clock) && Timely(s, c)
    ensures Inv(s.(rx := s.rx + c.due), c.now)
  {
    hide Spaced;
    var s' := s.(rx := s.rx + c.due);
    assert Offered(s') == Offered(s) + c.due;
    forall x | x in s.hist.sent ensures Courteous(s', x) {
      assert Courteous(s, x);
    }
  }

  lemma DigestLeaves(s: Engine, ev: Outcome, events: seq<Event>, openedAt: nat)
    requires Shape(s)
    ensures var s' := Digest(s, ev, events, openedAt).0;
      && s'.hist.clock == s.hist.clock && s'.hist.driven == s.hist.driven && s'.byteTime == s.byteTime
        && s'.host == s.host
      && s'.hist.begun == s.hist.begun && s'.hist.sent == s.hist.sent
    ensures s.open && s.phase == PendingTransmit ==>
      var (s', ev') := Digest(s, ev, events, openedAt);
      && s'.open && s'.phase == PendingTransmit && s'.deferOrigin == s.deferOrigin && s'.attempts == s.attempts
      && ev' == ev && s'.hist.concluded == s.hist.concluded && s'.deadline == s.deadline
  {
  }

  /** Receiving neither transmits nor begins anything, and takes no time. */
  lemma {:induction false} DrainLeaves(s: Engine, ev: Outcome)
    requires Shape(s)
    ensures var s' := DrainWire(s, ev).0;
      && s'.hist.clock == s.hist.clock && s'.hist.driven == s.hist.driven && s'.byteTime == s.byteTime
        && s'.host == s.host
      && s'.hist.begun == s.hist.begun && s'.hist.sent == s.hist.sent
    decreases |s.rx|
  {
    hide Feed, Counted, Digest;
    if s.rx != [] {
      DigestLeaves(Hear(s, s.rx[0]).(rx := s.rx[1..]), ev, Feed(s.deframer, s.rx[0].value).1, s.respOpen);
      DrainLeaves(TakeByte(s, ev).0, TakeByte(s, ev).1);
    }
  }

  lemma StepClock(s: Engine, c: Call)
    requires Shape(s)
    ensures Step(s, c).hist.clock == c.now && Step(s, c).byteTime == s.byteTime && Step(s, c).host == s.host
  {
    hide Encode, DrainWire, FrameArriving, Want;
    DrainLeaves(At(s.(rx := s.rx + c.due), c.now), Quiet);
  }

  lemma StepKeeps(s: Engine, c: Call)
    requires Shape(s) && Inv(s.(rx := s.rx + c.due), c.now)
    ensures Inv(Step(s, c), c.now)
  {
    hide Inv, Poll, Begin;
    match c
    case DoPoll(due, now) => PollKeeps(s.(rx := s.rx + due), now);
    case DoBegin(due, now, dst, payload) => BeginKeeps(s.(rx := s.rx + due), dst, payload, now);
  }

  lemma StartKeeps(host: byte, byteTime: nat, c: Call)
    requires Timely(Start(host, byteTime), c)
    ensures Inv(Start(host, byteTime).(rx := Start(host, byteTime).rx + c.due), c.now)
  {
    assert Offered(Start(host, byteTime).(rx := [] + c.due)) == c.due;
  }

  lemma {:induction false} RunKeeps(host: byte, byteTime: nat, calls: seq<Call>)
    requires calls != [] && AllTimely(Start(host, byteTime), calls)
    ensures var s := Run(Start(host, byteTime), calls);
      s.hist.clock == calls[|calls| - 1].now && Inv(s, s.hist.clock) && s.byteTime == byteTime && s.host == host
  {
    hide Inv, Step, Timely;
    var n, start := |calls| - 1, Start(host, byteTime);
    if n == 0 {
      assert calls[..0] == [];
      StartKeeps(host, byteTime, calls[0]);
      StepKeeps(start, calls[0]);
      StepClock(start, calls[0]);
    } else {
      RunKeeps(host, byteTime, calls[..n]);
      ArriveKeeps(Run(start, calls[..n]), calls[n]);
      StepKeeps(Run(start, calls[..n]), calls[n]);
      StepClock(Run(start, calls[..n]), calls[n]);
    }
  }

  // ---------------------------------------------------------------- courtesy

  /** Bytes that follow one another without a pause, no more of them than one frame can have. */
  predicate IsBurst(burst: seq<Rx>, byteTime: nat) {
    && 0 < |burst| <= MAX_WIRE
    && forall i :: 0 <= i < |burst| ==> burst[i].start == burst[0].start + i * byteTime
  }

  function BurstEnd(burst: seq<Rx>, byteTime: nat): nat
    requires burst != []
  {
    burst[0].start + |burst| * byteTime
  }

  /** The byte on the wire at `t`. */
  lemma ByteAt(burst: seq<Rx>, byteTime: nat, t: nat)
    requires IsBurst(burst, byteTime) && burst[0].start <= t < BurstEnd(burst, byteTime)
    ensures exists b :: b in burst && b.start <= t < b.start + byteTime
  {
    var i := |burst| - 1;
    assert |burst| * byteTime == i * byteTime + byteTime;
    while burst[i].start > t
      invariant 0 <= i < |burst| && t < burst[i].start + byteTime
    {
      assert i * byteTime == (i - 1) * byteTime + byteTime;
      i := i - 1;
    }
    assert burst[i] in burst;
  }

  lemma BurstFits(burst: seq<Rx>, byteTime: nat)
    requires IsBurst(burst, byteTime)
    ensures BurstEnd(burst, byteTime) <= burst[0].start + MaxFrame(byteTime)
    ensures burst[|burst| - 1].start + byteTime == BurstEnd(burst, byteTime)
  {
    assert MAX_WIRE * byteTime == |burst| * byteTime + (MAX_WIRE - |burst|) * byteTime;
    assert |burst| * byteTime == (|burst| - 1) * byteTime + byteTime;
  }

  /** No attempt starts inside a frame that began within T_gap of the instant the attempt was deferred to. */
  lemma NotInside(s: Engine, x: Attempt, burst: seq<Rx>)
    requires Courteous(s, x) && IsBurst(burst, s.byteTime) && forall b :: b in burst ==> b in Offered(s)
    requires burst[0].start <= x.origin + T_GAP
    ensures x.start < burst[0].start || BurstEnd(burst, s.byteTime) <= x.start
  {
    BurstFits(burst, s.byteTime);
    if burst[0].start <= x.start < BurstEnd(burst, s.byteTime) {
      ByteAt(burst, s.byteTime, x.start);
    }
  }

  /** After a frame that had begun by that instant it leaves the whole T_gap. */
  lemma GapAfter(s: Engine, x: Attempt, burst: seq<Rx>)
    requires Courteous(s, x) && IsBurst(burst, s.byteTime) && forall b :: b in burst ==> b in Offered(s)
    requires burst[0].start <= x.origin
    ensures BurstEnd(burst, s.byteTime) + T_GAP <= x.start
  {
    NotInside(s, x, burst);
    BurstFits(burst, s.byteTime);
    assert burst[|burst| - 1] in burst;
  }

  /** Not into a frame that began within T_gap of the deferred instant, and T_gap after one that began by it. */
  predicate ClearOf(x: Attempt, burst: seq<Rx>, byteTime: nat)
    requires burst != []
  {
    && (burst[0].start <= x.origin + T_GAP ==> x.start < burst[0].start || BurstEnd(burst, byteTime) <= x.start)
    && (burst[0].start <= x.origin ==> BurstEnd(burst, byteTime) + T_GAP <= x.start)
  }

  /** Over every run: never into a frame, always the gap, and never two transmissions at once. */
  lemma MasterIsCourteous(host: byte, byteTime: nat, calls: seq<Call>)
    requires calls != [] && AllTimely(Start(host, byteTime), calls)
    ensures var s := Run(Start(host, byteTime), calls); var sent := s.hist.sent;
      && (forall i, j :: 0 <= i < j < |sent| ==> sent[i].end + T_GAP <= sent[j].start)
      && forall x: Attempt, burst: seq<Rx> ::
           x in sent && burst != [] && IsBurst(burst, byteTime) && (forall b :: b in burst ==> b in Offered(s)) ==>
             ClearOf(x, burst, byteTime)
  {
    hide Run, AllTimely, Reading, Phases, Courteous, IsBurst, BurstEnd;
    RunKeeps(host, byteTime, calls);
    var s := Run(Start(host, byteTime), calls);
    forall x: Attempt, burst: seq<Rx> |
      x in s.hist.sent && burst != [] && IsBurst(burst, byteTime) && (forall b :: b in burst ==> b in Offered(s))
      ensures ClearOf(x, burst, byteTime)
    {
      if burst[0].start <= x.origin + T_GAP { NotInside(s, x, burst); }
      if burst[0].start <= x.origin { GapAfter(s, x, burst); }
    }
  }

  /** Courtesy ends: whatever is on the wire, a poll at or after the cap leaves nothing pending. */
  lemma CapTransmits(s: Engine, now: nat)
    requires Shape(s) && s.open && s.phase == PendingTransmit && now >= Cap(s)
    ensures Awaiting(Poll(s, now).0) && |Poll(s, now).0.hist.sent| == |s.hist.sent| + 1
  {
    hide Encode, DrainWire, FrameArriving;
    PendingDrain(At(s, now), Quiet);
  }

  /** Nothing received can end a transaction that is not on the wire. */
  lemma {:induction false} PendingDrain(s: Engine, ev: Outcome)
    requires Shape(s) && s.open && s.phase == PendingTransmit
    ensures var (s', ev') := DrainWire(s, ev);
      && s'.open && s'.phase == PendingTransmit && s'.deferOrigin == s.deferOrigin && s'.attempts == s.attempts
        && ev' == ev
      && s'.byteTime == s.byteTime && s'.hist.sent == s.hist.sent && s'.hist.concluded == s.hist.concluded
        && s'.deadline == s.deadline
    decreases |s.rx|
  {
    hide Feed, Counted, Digest;
    if s.rx != [] {
      DigestLeaves(Hear(s, s.rx[0]).(rx := s.rx[1..]), ev, Feed(s.deframer, s.rx[0].value).1, s.respOpen);
      PendingDrain(TakeByte(s, ev).0, ev);
    }
  }
}
