/** Every accepted transaction ends, once, within a bound that no other station can stretch. */
module MasterLatency {
  import opened Protocol
  import opened Frame
  import opened Wire
  import opened Master
  import MasterRuns
  import MasterTiming

  // ---------------------------------------------------------------- the bound

  /** The stuffed length of a transaction's longer attempt: the retry bit changes what needs escaping. */
  function WireLength(host: byte, b: Begun): nat
    requires |b.payload| <= MAX_L3_MESSAGE
  {
    var first := |Encode(Fields(b.dst, host, false, false, b.seqNo, b.payload))|;
    var again := |Encode(Fields(b.dst, host, false, true, b.seqNo, b.payload))|;
    if first > again then first else again
  }

  function AirTime(host: byte, byteTime: nat, b: Begun): nat
    requires |b.payload| <= MAX_L3_MESSAGE
  {
    WireLength(host, b) * byteTime
  }

  /** Deferral, request and window of one attempt, seen at polls at most `period` apart. */
  function PerAttempt(byteTime: nat, air: nat, period: nat): nat {
    2 * MaxFrame(byteTime) + 2 * T_GAP + byteTime + air + T_RESP + 2 * period
  }

  function Times(k: nat, x: nat): nat {
    if k == 0 then 0 else Times(k - 1, x) + x
  }

  lemma ThreeTimes(x: nat)
    ensures Times(1 + RETRIES, x) == (1 + RETRIES) * x
  {
    assert Times(3, x) == Times(2, x) + x == Times(1, x) + x + x;
  }

  predicate Payloads(s: Engine) {
    forall i :: 0 <= i < |s.hist.begun| ==> |s.hist.begun[i].payload| <= MAX_L3_MESSAGE
  }

  function Budget(s: Engine, b: Begun, period: nat): nat
    requires |b.payload| <= MAX_L3_MESSAGE
  {
    PerAttempt(s.byteTime, AirTime(s.host, s.byteTime, b), period)
  }

  // ---------------------------------------------------------------- the invariant

  predicate Listed(s: Engine) {
    && Payloads(s)
    && |s.hist.begun| == |s.hist.concluded| + (if s.open then 1 else 0)
    && (s.open ==>
      var b := s.hist.begun[|s.hist.begun| - 1]; s.dst == b.dst && s.seqNo == b.seqNo && s.payload == b.payload)
  }

  predicate InTime(s: Engine, period: nat)
    requires Listed(s)
  {
    forall i :: 0 <= i < |s.hist.concluded| ==>
      s.hist.concluded[i].at <= s.hist.begun[i].at + Times(1 + RETRIES, Budget(s, s.hist.begun[i], period))
  }

  /** The open transaction, as far as its attempts so far allow. */
  predicate OnTrack(s: Engine, period: nat)
    requires Listed(s) && s.open
  {
    var b := s.hist.begun[|s.hist.begun| - 1];
    var each := Budget(s, b, period);
    if s.phase == PendingTransmit then
      s.attempts <= RETRIES && s.deferOrigin <= b.at + Times(s.attempts, each) + s.byteTime + T_GAP
    else
      1 <= s.attempts <= 1 + RETRIES &&
      s.deadline + MaxFrame(s.byteTime) + period <= b.at + Times(s.attempts, each)
  }

  /** What a poll at `now` may still find. */
  predicate Reached(s: Engine, now: nat, period: nat)
    requires Listed(s) && s.open
  {
    var b := s.hist.begun[|s.hist.begun| - 1];
    var each := Budget(s, b, period);
    if s.phase == PendingTransmit then
      now <= b.at + Times(s.attempts, each) + s.byteTime + 2 * T_GAP + MaxFrame(s.byteTime) + period
    else now <= b.at + Times(s.attempts, each)
  }

  /** Between calls: the last one that drove the engine left neither a cap nor a window behind it. */
  predicate Driven(s: Engine) {
    s.open ==>
      s.hist.driven < if s.phase == PendingTransmit then Cap(s) else s.deadline + MaxFrame(s.byteTime)
  }

  predicate Mid(s: Engine, now: nat, period: nat) {
    && Listed(s) && InTime(s, period) && Now(s) == now
    && (s.open ==> OnTrack(s, period) && Reached(s, now, period))
    && s.lastRx <= now + s.byteTime && (s.activity.Some? ==> s.activity.value <= now + s.byteTime)
    && forall b :: b in s.rx ==> b.start <= now
  }

  // ---------------------------------------------------------------- one attempt

  lemma TimesGrows(k: nat, m: nat, x: nat)
    requires k <= m
    ensures Times(k, x) <= Times(m, x)
  {
    if k < m { TimesGrows(k, m - 1, x); }
  }

  lemma EndMid(s: Engine, at: nat, reason: Reason, now: nat, period: nat)
    requires Shape(s) && Mid(s, now, period) && Awaiting(s) && at <= now + s.byteTime
    ensures Mid(EndAttempt(s, at, reason).0, now, period)
  {
    hide Budget, Times;
    var b := s.hist.begun[|s.hist.begun| - 1];
    TimesGrows(s.attempts, 1 + RETRIES, Budget(s, b, period));
    var s' := EndAttempt(s, at, reason).0;
    SameBudget(s, s', period);
    assert Listed(s') && InTime(s', period);
  }

  lemma SameBudget(s: Engine, s': Engine, period: nat)
    requires s'.byteTime == s.byteTime && s'.host == s.host
    ensures forall b: Begun :: |b.payload| <= MAX_L3_MESSAGE ==> Budget(s', b, period) == Budget(s, b, period)
  {
  }

  lemma AnswerMid(s: Engine, f: Fields, now: nat, period: nat)
    requires Shape(s) && Mid(s, now, period) && Awaiting(s)
    ensures Mid(Conclude(s, Answer(f)), now, period)
  {
    hide Budget;
    var b := s.hist.begun[|s.hist.begun| - 1];
    var s' := Conclude(s, Answer(f));
    TimesGrows(s.attempts, 1 + RETRIES, Budget(s, b, period));
    SameBudget(s, s', period);
  }

  /** Bookkeeping that neither ends nor moves the transaction. */
  predicate Alike(s: Engine, s': Engine) {
    && s'.hist == s.hist && s'.open == s.open && s'.phase == s.phase && s'.dst == s.dst && s'.seqNo == s.seqNo
    && s'.payload == s.payload && s'.attempts == s.attempts && s'.deadline == s.deadline
      && s'.deferOrigin == s.deferOrigin
    && s'.byteTime == s.byteTime && s'.host == s.host && s'.lastRx == s.lastRx && s'.activity == s.activity
      && s'.rx == s.rx
  }

  lemma AlikeMid(s: Engine, s': Engine, now: nat, period: nat)
    requires Mid(s, now, period) && Alike(s, s')
    ensures Mid(s', now, period)
  {
    hide Budget;
    SameBudget(s, s', period);
  }

  // ---------------------------------------------------------------- receiving

  lemma HearMid(s: Engine, now: nat, period: nat)
    requires Shape(s) && Mid(s, now, period) && s.rx != []
    ensures Mid(Hear(s, s.rx[0]).(rx := s.rx[1..]), now, period)
  {
    hide Budget, Feed, Counted;
    var s' := Hear(s, s.rx[0]).(rx := s.rx[1..]);
    SameBudget(s, s', period);
    assert forall b :: b in s.rx[1..] ==> b in s.rx;
  }

  lemma DigestMid(s: Engine, ev: Outcome, events: seq<Event>, openedAt: nat, now: nat, period: nat)
    requires Shape(s) && Mid(s, now, period)
    ensures Mid(Digest(s, ev, events, openedAt).0, now, period)
  {
    hide Mid, EndAttempt, Conclude;
    if events == [Discarded(BadCrc)] && Awaiting(s) && s.windowStart <= openedAt < s.deadline {
      assert s.lastRx <= now + s.byteTime by { HeardByNow(s, now, period); }
      EndMid(s, s.lastRx, CrcFailed, now, period);
    } else if events != [Discarded(BadCrc)] && FrameIn(events).Some? && Accepts(s, FrameIn(events).value, openedAt) {
      AnswerMid(s, FrameIn(events).value, now, period);
    } else {
      AlikeMid(s, Digest(s, ev, events, openedAt).0, now, period);
    }
  }

  lemma HeardByNow(s: Engine, now: nat, period: nat)
    requires Mid(s, now, period)
    ensures s.lastRx <= now + s.byteTime
  {
  }

  lemma {:induction false} DrainMid(s: Engine, ev: Outcome, now: nat, period: nat)
    requires Shape(s) && Mid(s, now, period)
    ensures Mid(DrainWire(s, ev).0, now, period)
    decreases |s.rx|
  {
    hide Mid, Feed, Digest, Hear;
    if s.rx != [] {
      HearMid(s, now, period);
      DigestMid(Hear(s, s.rx[0]).(rx := s.rx[1..]), ev, Feed(s.deframer, s.rx[0].value).1, s.respOpen, now, period);
      DrainMid(TakeByte(s, ev).0, TakeByte(s, ev).1, now, period);
    }
  }

  // ---------------------------------------------------------------- transmitting

  lemma AttemptFits(s: Engine, now: nat)
    requires Shape(s) && Listed(s) && s.open
    ensures |Encode(Request(s))| * s.byteTime <= AirTime(s.host, s.byteTime, s.hist.begun[|s.hist.begun| - 1])
  {
    hide Encode;
    var n, m := |Encode(Request(s))|, WireLength(s.host, s.hist.begun[|s.hist.begun| - 1]);
    assert n <= m;
    assert m * s.byteTime == n * s.byteTime + (m - n) * s.byteTime;
  }

  lemma FireMid(s: Engine, now: nat, period: nat)
    requires Shape(s) && Mid(s, now, period) && s.hist.driven == now
    requires Awaiting(s) ==> now < s.deadline + MaxFrame(s.byteTime)
    ensures var s' := FirePending(s, now);
      Listed(s') && InTime(s', period) && Driven(s') && (s'.open ==> OnTrack(s', period))
  {
    hide Encode, AirTime;
    var s' := FirePending(s, now);
    SameBudget(s, s', period);
    if s.open && s.phase == PendingTransmit {
      AttemptFits(s, now);
      var budget := Budget(s, s.hist.begun[|s.hist.begun| - 1], period);
      assert Times(s.attempts + 1, budget) == Times(s.attempts, budget) + budget;
    }
  }

  // ---------------------------------------------------------------- one call

  predicate Between(s: Engine, period: nat) {
    Listed(s) && InTime(s, period) && Driven(s) && (s.open ==> OnTrack(s, period))
  }

  /** A poll that keeps the cadence while a transaction is open. */
  predicate Prompt(s: Engine, c: Call, period: nat) {
    s.open && c.DoPoll? ==> c.now <= s.hist.driven + period
  }

  lemma StartMid(s: Engine, now: nat, period: nat)
    requires Shape(s) && Between(s, period) && MasterTiming.Reading(s, now)
    requires s.open ==> now <= s.hist.driven + period
    ensures Mid(At(s, now), now, period)
  {
    hide Budget;
    SameBudget(s, At(s, now), period);
    assert forall b :: b in s.rx ==> b in MasterTiming.Offered(s);
  }

  lemma PollMid(s: Engine, now: nat, period: nat)
    requires Shape(s) && Between(s, period) && MasterTiming.Reading(s, now)
    requires s.open ==> now <= s.hist.driven + period
    ensures Between(Poll(s, now).0, period)
  {
    hide Mid, InTime, OnTrack, Listed, DrainWire, FirePending, EndAttempt, MasterTiming.Reading;
    StartMid(s, now, period);
    DrainMid(At(s, now), Quiet, now, period);
    MasterTiming.DrainLeaves(At(s, now), Quiet);
    var s1 := DrainWire(At(s, now), Quiet).0;
    var pending := FrameArriving(s1, now) && s1.windowStart <= s1.respOpen < s1.deadline;
    if Awaiting(s1) && now >= s1.deadline && !pending {
      EndMid(s1, s1.deadline, Timeout, now, period);
      EndLeaves(s1, s1.deadline, Timeout);
      FireMid(EndAttempt(s1, s1.deadline, Timeout).0, now, period);
    } else {
      FireMid(s1, now, period);
    }
  }

  lemma EndLeaves(s: Engine, at: nat, reason: Reason)
    requires Shape(s) && Awaiting(s)
    ensures EndAttempt(s, at, reason).0.hist.driven == s.hist.driven && !Awaiting(EndAttempt(s, at, reason).0)
  {
  }

  lemma OpenMid(s: Engine, dst: byte, payload: seq<byte>, now: nat, period: nat)
    requires Shape(s) && Mid(s, now, period) && !s.open && dst < ADDR_COUNT && |payload| <= MAX_L3_MESSAGE
    ensures Mid(Open(s, dst, payload, now), now, period)
  {
    hide Budget;
    var s' := Open(s, dst, payload, now);
    SameBudget(s, s', period);
    assert Times(0, Budget(s', s'.hist.begun[|s.hist.begun|], period)) == 0;
  }

  lemma BeginMid(s: Engine, dst: byte, payload: seq<byte>, now: nat, period: nat)
    requires Shape(s) && Between(s, period) && MasterTiming.Reading(s, now)
    ensures Between(Begin(s, dst, payload, now).0, period)
  {
    hide Mid, DrainWire, FirePending, Open, Budget, MasterTiming.Reading;
    if !s.open && |payload| <= MAX_L3_MESSAGE && dst < ADDR_COUNT {
      StartMid(s, now, period);
      DrainMid(At(s, now), Quiet, now, period);
      MasterTiming.DrainLeaves(At(s, now), Quiet);
      MasterRuns.IdleDrain(At(s, now));
      var s1 := DrainWire(At(s, now), Quiet).0;
      OpenMid(s1, dst, payload, now, period);
      OpenLeaves(s1, dst, payload, now);
      FireMid(Open(s1, dst, payload, now), now, period);
    } else {
      SameBudget(s, Refused(s, now), period);
    }
  }

  lemma OpenLeaves(s: Engine, dst: byte, payload: seq<byte>, now: nat)
    requires Shape(s) && dst < ADDR_COUNT && |payload| <= MAX_L3_MESSAGE
    ensures var s' := Open(s, dst, payload, now); s'.hist.driven == s.hist.driven && s'.phase == PendingTransmit
  {
  }

  // ---------------------------------------------------------------- every run

  predicate AllPrompt(s: Engine, calls: seq<Call>, period: nat)
    requires Shape(s)
  {
    calls == [] ||
    (AllPrompt(s, calls[..|calls| - 1], period) && Prompt(Run(s, calls[..|calls| - 1]), calls[|calls| - 1], period))
  }

  lemma StepMid(s: Engine, c: Call, period: nat)
    requires Shape(s) && Between(s, period) && Prompt(s, c, period)
    requires MasterTiming.Reading(s.(rx := s.rx + c.due), c.now)
    ensures Between(Step(s, c), period)
  {
    hide Poll, Begin, MasterTiming.Reading, Budget;
    var s1 := s.(rx := s.rx + c.due);
    SameBudget(s, s1, period);
    assert Between(s1, period);
    match c
    case DoPoll(_, now) => PollMid(s1, now, period);
    case DoBegin(_, now, dst, payload) => BeginMid(s1, dst, payload, now, period);
  }

  lemma {:induction false} RunBetween(host: byte, byteTime: nat, calls: seq<Call>, period: nat)
    requires MasterTiming.AllTimely(Start(host, byteTime), calls) && AllPrompt(Start(host, byteTime), calls, period)
    ensures Between(Run(Start(host, byteTime), calls), period)
  {
    hide Step, MasterTiming.Timely, MasterTiming.Reading;
    var start, n := Start(host, byteTime), |calls| - 1;
    if calls != [] {
      RunBetween(host, byteTime, calls[..n], period);
      var s := Run(start, calls[..n]);
      if n == 0 {
        assert calls[..0] == [];
        MasterTiming.StartKeeps(host, byteTime, calls[0]);
      } else {
        MasterTiming.RunKeeps(host, byteTime, calls[..n]);
        MasterTiming.ArriveKeeps(s, calls[n]);
      }
      StepMid(s, calls[n], period);
    }
  }

  /**
   * With polls at most `period` apart, whatever other stations send: every outcome comes within
   * (1 + RETRIES) budgets of its begin, and no transaction outlives them.
   */
  lemma BoundedLatency(host: byte, byteTime: nat, calls: seq<Call>, period: nat)
    requires MasterTiming.AllTimely(Start(host, byteTime), calls) && AllPrompt(Start(host, byteTime), calls, period)
    ensures var s := Run(Start(host, byteTime), calls);
      && Payloads(s) && |s.hist.begun| == |s.hist.concluded| + (if s.open then 1 else 0)
      && (forall i :: 0 <= i < |s.hist.concluded| ==>
        s.hist.concluded[i].at <= s.hist.begun[i].at + (1 + RETRIES) * Budget(s, s.hist.begun[i], period))
      && (s.open ==>
        var b := s.hist.begun[|s.hist.begun| - 1];
        s.hist.driven < b.at + (1 + RETRIES) * Budget(s, b, period))
  {
    hide Run, MasterTiming.AllTimely, AllPrompt, AirTime;
    RunBetween(host, byteTime, calls, period);
    var s := Run(Start(host, byteTime), calls);
    if s.open {
      var b := s.hist.begun[|s.hist.begun| - 1];
      TimesGrows(s.attempts, if s.phase == PendingTransmit then RETRIES else 1 + RETRIES, Budget(s, b, period));
    }
    forall b: Begun | |b.payload| <= MAX_L3_MESSAGE
      ensures Times(1 + RETRIES, Budget(s, b, period)) == (1 + RETRIES) * Budget(s, b, period)
    {
      ThreeTimes(Budget(s, b, period));
    }
  }

  // ---------------------------------------------------------------- what poll reports

  /** What one step of receiving does to the open transaction and the log of outcomes. */
  predicate Reported(s: Engine, ev: Outcome, s': Engine, ev': Outcome) {
    if s.open && !s'.open then ev' != Quiet && s'.hist.concluded == s.hist.concluded + [Conclusion(s.dst, ev', Now(s))]
    else ev' == ev && s'.open == s.open && s'.dst == s.dst && Now(s') == Now(s) && s'.hist.concluded == s.hist.concluded
  }

  lemma DigestReports(s: Engine, ev: Outcome, events: seq<Event>, openedAt: nat)
    requires Shape(s) && (s.open ==> ev == Quiet)
    ensures var (s', ev') := Digest(s, ev, events, openedAt); Reported(s, ev, s', ev')
  {
  }

  lemma {:induction false} DrainReports(s: Engine, ev: Outcome)
    requires Shape(s) && (s.open ==> ev == Quiet)
    ensures var (s', ev') := DrainWire(s, ev); Reported(s, ev, s', ev')
    decreases |s.rx|
  {
    hide Feed, Counted, Digest;
    if s.rx != [] {
      DigestReports(Hear(s, s.rx[0]).(rx := s.rx[1..]), ev, Feed(s.deframer, s.rx[0].value).1, s.respOpen);
      DrainReports(TakeByte(s, ev).0, TakeByte(s, ev).1);
    }
  }

  /** A poll reports an outcome exactly when it concludes the open transaction, and then that one. */
  lemma PollReports(s: Engine, now: nat)
    requires Shape(s)
    ensures var (s', ev) := Poll(s, now);
      && s'.hist.concluded == s.hist.concluded + (if ev == Quiet then [] else [Conclusion(s.dst, ev, now)])
      && (ev != Quiet <==> s.open && !s'.open)
  {
    hide DrainWire, Encode, FrameArriving, Want;
    DrainReports(At(s, now), Quiet);
  }
}
