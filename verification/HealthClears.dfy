/** The fallback clear: when it is not a failure that ends the pass, and whom it enrols. */
module HealthClears {
  import opened Protocol
  import opened Health
  import opened HealthInvariants
  import opened HealthRuns

  /**
   * The last pass outcome clears at the fallback rate exactly when it is a failure, if and only if a success there
   * would come from an address that has not answered, and is not read, at the fallback rate.
   */
  lemma FailureClearsIff(t: Tracker, addr: byte, ok: bool, now: nat)
    requires Inv(t) && t.bus.fault && LastOfPass(t, Result(addr, ok, now))
    ensures var t' := Step(t, Result(addr, ok, now));
      ((!t'.bus.fault && t'.bus.bitRate == BIT_RATE_FALLBACK) <==> !ok) <==>
        (ok ==> addr !in t.bus.fallbackSeen && addr !in t.bus.probeFallback)
  {
    PassIsOnNode(t);
    hide OnResult, Inv;
    EpisodeEnds(t, Result(addr, ok, now));
  }

  lemma PassIsOnNode(t: Tracker)
    requires Inv(t) && t.bus.passAddr != 0
    ensures IsNode(t.bus.passAddr)
  {
  }

  // ---------------------------------------------------------------- whom it enrols

  predicate AllEnrolled(recs: seq<Record>, seen: set<byte>) {
    |recs| == ADDR_COUNT && forall a :: a in seen && IsNode(a) ==> recs[a].state == Enrolled
  }

  lemma ClearEnrols(t: Tracker, now: nat)
    requires Shape(t) && Table(t.recs) && Told(t.log, t.recs, true)
    ensures AllEnrolled(ClearFault(t, BIT_RATE_FALLBACK, now).recs, t.bus.fallbackSeen)
  {
    hide Told, Table;
    var t1 := NoteWireRate(t.(bus := t.bus.(fault := false, bitRate := BIT_RATE_FALLBACK,
                                probeAcrossClear := t.bus.probeAcrossClear + t.bus.probeLive)), BIT_RATE_FALLBACK);
    EnrolAnswerersKeeps(t1, ADDR_BACKPLANE_MIN, now, true);
  }

  lemma OutcomeEnrols(t: Tracker, addr: byte, ok: bool, now: nat)
    requires Inv(t) && t.bus.fault && !OnResult(t, addr, ok, now).bus.fault
    requires OnResult(t, addr, ok, now).bus.bitRate == BIT_RATE_FALLBACK
    ensures AllEnrolled(OnResult(t, addr, ok, now).recs, t.bus.fallbackSeen)
  {
    hide Told, Table, PassBooks, Rates, AllFailing, ApplyResult;
    var c := Result(addr, ok, now);
    EpisodeEnds(t, c);
    ReadKeeps(t, addr, ok, now);
    var t1 := Read(t, addr, ok, now);
    ClearEnrols(SpendPassProbe(t1), now);
  }

  lemma {:induction false} RotateStates(t: Tracker, n: nat, rate: nat, now: nat)
    requires Shape(t)
    ensures forall a :: 0 <= a < ADDR_COUNT ==> Rotate(t, n, rate, now).0.recs[a].state == t.recs[a].state
    decreases n
  {
    if n > 0 {
      var next := NextBackplane(t.nextProbe);
      if !Candidate(t.(nextProbe := next), next) { RotateStates(t.(nextProbe := next), n - 1, rate, now); }
    }
  }

  lemma ProbeEnrols(t: Tracker, now: nat)
    requires Inv(t) && t.bus.fault && !NextProbe(t, now).0.bus.fault
    ensures AllEnrolled(NextProbe(t, now).0.recs, t.bus.fallbackSeen)
  {
    hide Told, Table, PassBooks, Rates, AllFailing, ClearFault, Rotate;
    NextProbeAfterWriteOff(t, now);
    ClearEnrols(SpendPassProbe(t), now);
    var t1 := WriteOff(t, now);
    RotateStates(Alternate(t1).0, BACKPLANES, Alternate(t1).1, now);
  }

  /** A clear at the fallback rate enrols every address that answered there, not only the one recorded last. */
  lemma FallbackClearEnrols(t: Tracker, c: Call)
    requires Inv(t) && t.bus.fault && !Step(t, c).bus.fault && Step(t, c).bus.bitRate == BIT_RATE_FALLBACK
    ensures AllEnrolled(Step(t, c).recs, t.bus.fallbackSeen)
  {
    hide Inv, OnResult, NextProbe, AllEnrolled;
    EpisodeEnds(t, c);
    match c
    case Result(addr, ok, now) => OutcomeEnrols(t, addr, ok, now);
    case Ticked(now) =>
    case Polled(addr, now) =>
    case Probed(now) => ProbeEnrols(t, now);
    case RateSet(bps) =>
  }

  // ---------------------------------------------------------------- runs whose outcomes answer what was sent

  function Instant(c: Call): Option<nat> {
    match c
    case Result(_, _, now) => Some(now)
    case Ticked(now) => Some(now)
    case Polled(_, now) => Some(now)
    case Probed(now) => Some(now)
    case RateSet(_) => None
  }

  function Clock(calls: seq<Call>): nat {
    if calls == [] then 0
    else
      var n := |calls| - 1;
      if Instant(calls[n]).Some? then Instant(calls[n]).value else Clock(calls[..n])
  }

  /** Time does not run backwards, and an outcome is reported of an address that is owed one. */
  predicate Fits(t: Tracker, c: Call, clock: nat) {
    && (Instant(c).Some? ==> clock <= Instant(c).value)
    && (c.Result? ==> c.addr in t.bus.probeLive)
  }

  predicate Orderly(calls: seq<Call>) {
    calls == [] ||
    var n := |calls| - 1;
    Orderly(calls[..n]) && Fits(Run(calls[..n]), calls[n], Clock(calls[..n]))
  }

  lemma Then(calls: seq<Call>, c: Call)
    ensures Run(calls + [c]) == Step(Run(calls), c)
    ensures Orderly(calls + [c]) <==> Orderly(calls) && Fits(Run(calls), c, Clock(calls))
    ensures Clock(calls + [c]) == if Instant(c).Some? then Instant(c).value else Clock(calls)
  {
    assert (calls + [c])[..|calls|] == calls;
  }

  lemma NothingRun()
    ensures Run([]) == Start() && Orderly([]) && Clock([]) == 0
  {
  }

  // ---------------------------------------------------------------- a run that shows both

  /** The time from one request to the next, and from a request to its outcome. */
  const PACE: nat := 1000
  const ROUND_TRIP: nat := 600

  /** Only address 1 has ever enrolled; nothing is owed an outcome; the rate in use is the fallback rate. */
  predicate Alone(t: Tracker, state: HealthState, failures: nat)
    requires Shape(t)
  {
    && t.recs[1].state == state && t.recs[1].failures == failures && t.nextProbe == 1
    && (forall a :: 0 <= a < ADDR_COUNT && a != 1 ==> t.recs[a].state == Unenrolled)
    && t.bus.probeLive == {} && t.bus.fallbackSeen == {} && t.bus.refPassLeft == 0 && t.bus.passAddr == 0
    && t.bus.bitRate == BIT_RATE_FALLBACK && t.bus.probeAcrossClear == {}
  }

  lemma FirstProbed() returns (calls: seq<Call>)
    ensures var t := Run(calls);
      && Orderly(calls) && Clock(calls) == 0 && Alone(t.(bus := t.bus.(probeLive := {})), Unenrolled, 0)
      && t.bus.probeLive == {1} && !t.bus.fault
  {
    hide Run, Orderly, Clock;
    NothingRun();
    Then([], RateSet(BIT_RATE_FALLBACK));
    calls := [] + [RateSet(BIT_RATE_FALLBACK)];
    Then(calls, Probed(0));
    calls := calls + [Probed(0)];
  }

  lemma FirstEnrols() returns (calls: seq<Call>)
    ensures var t := Run(calls); Alone(t, Enrolled, 0) && !t.bus.fault && Orderly(calls)
  {
    hide Run, Orderly, Clock;
    calls := FirstProbed();
    Then(calls, Result(1, true, ROUND_TRIP));
    calls := calls + [Result(1, true, ROUND_TRIP)];
  }

  /** A poll that draws no answer. */
  lemma OneFailure(calls: seq<Call>, failures: nat) returns (more: seq<Call>)
    requires Alone(Run(calls), Enrolled, failures) && !Run(calls).bus.fault && failures < SUSPECT_AFTER_FAILURES
    requires Orderly(calls)
    ensures Orderly(more)
    ensures var t := Run(more);
      if failures + 1 < SUSPECT_AFTER_FAILURES then Alone(t, Enrolled, failures + 1) && !t.bus.fault
      else Alone(t, Suspect, failures + 1) && t.bus.fault && t.bus.nextProbeFallback
  {
    hide Run, Orderly, Clock;
    var now := Clock(calls) + PACE;
    Then(calls, Polled(1, now));
    more := calls + [Polled(1, now)];
    Then(more, Result(1, false, now + ROUND_TRIP));
    more := more + [Result(1, false, now + ROUND_TRIP)];
    assert Answerable(Run(calls), now + ROUND_TRIP) == {};
  }

  /** Every address up to the cursor probed, and only address 2 still owed an outcome, at the fallback rate. */
  predicate Hunting(t: Tracker, cursor: byte)
    requires Shape(t)
  {
    && t.bus.fault && t.recs[1].state == Suspect && t.nextProbe == cursor
    && (forall a :: 0 <= a < ADDR_COUNT && a != 1 ==> t.recs[a].state == Unenrolled)
    && t.bus.fallbackSeen == {} && t.bus.refPassLeft == 0 && t.bus.passAddr == 0
    && (t.bus.nextProbeFallback <==> cursor % 2 == 1)
    && 2 in t.bus.probeLive && 2 in t.bus.probeFallback
  }

  lemma SecondProbed(calls: seq<Call>) returns (more: seq<Call>)
    requires Alone(Run(calls), Suspect, 3) && Run(calls).bus.fault && Run(calls).bus.nextProbeFallback && Orderly(calls)
    ensures Hunting(Run(more), 2) && Orderly(more)
  {
    hide Run, Orderly, Clock;
    var now := Clock(calls) + PACE;
    Then(calls, Probed(now));
    more := calls + [Probed(now)];
  }

  lemma ProbeHunts(t: Tracker, cursor: byte, now: nat)
    requires Shape(t) && Hunting(t, cursor) && 2 <= cursor < ADDR_BACKPLANE_MAX
    ensures var t' := Step(t, Probed(now)); Hunting(t', cursor + 1) && cursor + 1 in t'.bus.probeLive
  {
  }

  lemma SilenceHunts(t: Tracker, cursor: byte, now: nat)
    requires Shape(t) && Hunting(t, cursor) && 2 < cursor <= ADDR_BACKPLANE_MAX
    ensures Hunting(Step(t, Result(cursor, false, now)), cursor)
  {
  }

  /** The next address probed, in vain. */
  lemma NextProbed(calls: seq<Call>, cursor: byte) returns (more: seq<Call>)
    requires Hunting(Run(calls), cursor) && 2 <= cursor < ADDR_BACKPLANE_MAX && Orderly(calls)
    ensures Hunting(Run(more), cursor + 1) && Orderly(more)
  {
    hide Run, Orderly, Clock, Hunting, Step;
    var now := Clock(calls) + PACE;
    var next: byte := cursor + 1;
    ProbeHunts(Run(calls), cursor, now);
    Then(calls, Probed(now));
    more := calls + [Probed(now)];
    SilenceHunts(Run(more), next, now + ROUND_TRIP);
    Then(more, Result(next, false, now + ROUND_TRIP));
    more := more + [Result(next, false, now + ROUND_TRIP)];
  }

  lemma {:induction false} AllProbed(calls: seq<Call>, cursor: byte) returns (more: seq<Call>)
    requires Hunting(Run(calls), cursor) && 2 <= cursor <= ADDR_BACKPLANE_MAX && Orderly(calls)
    ensures Hunting(Run(more), ADDR_BACKPLANE_MAX) && Orderly(more)
    decreases ADDR_BACKPLANE_MAX - cursor
  {
    hide Run, Orderly, Clock, Hunting;
    more := calls;
    if cursor < ADDR_BACKPLANE_MAX {
      more := NextProbed(calls, cursor);
      more := AllProbed(more, cursor + 1);
    }
  }

  lemma {:induction false} CountAlone(recs: seq<Record>, lo: nat)
    requires |recs| == ADDR_COUNT && lo <= ADDR_COUNT && forall a :: 0 <= a < ADDR_COUNT ==> (Left(recs[a]) <==> a == 1)
    ensures Count(recs, lo) == if lo <= 1 then 1 else 0
    decreases ADDR_COUNT - lo
  {
    if lo < ADDR_COUNT { CountAlone(recs, lo + 1); }
  }

  /** Addresses have answered at the fallback rate, and the pass owes one probe. */
  predicate Answered(t: Tracker, seen: set<byte>, passAddr: byte)
    requires Shape(t)
  {
    && t.bus.fault && t.bus.fallbackSeen == seen && t.bus.refPassLeft == 1 && t.bus.passAddr == passAddr
    && t.bus.passNext == (if passAddr == 0 then 1 else 2)
    && t.recs[1].state == Suspect && t.bus.fallbackAnswerer in seen
    && (forall a :: 0 <= a < ADDR_COUNT && a != 1 ==> t.recs[a].state == Unenrolled)
  }

  /** Address 1's turn comes round again, at the fallback rate, and it answers. */
  lemma FirstAnswers(calls: seq<Call>) returns (more: seq<Call>)
    requires Hunting(Run(calls), ADDR_BACKPLANE_MAX) && Orderly(calls)
    ensures var t := Run(more);
      Answered(t, {1}, 0) && 2 in t.bus.probeLive && 2 in t.bus.probeFallback && Orderly(more)
  {
    hide Run, Orderly, Clock;
    var now := Clock(calls) + PACE;
    CountAlone(Run(calls).recs, 0);
    Then(calls, Probed(now));
    more := calls + [Probed(now)];
    CountAlone(Run(more).recs, 0);
    Then(more, Result(1, true, now + ROUND_TRIP));
    more := more + [Result(1, true, now + ROUND_TRIP)];
  }

  /** Address 2's answer, still owed, comes as well; then the pass probes address 1. */
  lemma SecondAnswers(calls: seq<Call>) returns (more: seq<Call>)
    requires Answered(Run(calls), {1}, 0) && Orderly(calls)
    requires 2 in Run(calls).bus.probeLive && 2 in Run(calls).bus.probeFallback
    ensures var t := Run(more);
      Answered(t, {1, 2}, 1) && t.bus.fallbackAnswerer == 2 && 1 in t.bus.probeLive && Orderly(more)
  {
    hide Run, Orderly, Clock;
    var now := Clock(calls) + PACE;
    Then(calls, Result(2, true, now));
    more := calls + [Result(2, true, now)];
    Then(more, Probed(now));
    more := more + [Probed(now)];
  }

  /**
   * A fault that a successful last pass outcome clears at the fallback rate: the address probed had itself answered
   * there. Address 2 is the recorded answerer, and the clear enrols address 1 as well. Every outcome answers a poll or
   * a probe.
   */
  lemma SuccessClearsAtFallback() returns (calls: seq<Call>, c: Call)
    ensures Orderly(calls + [c])
    ensures var t := Run(calls); var t' := Step(t, c);
      && t.bus.fault && LastOfPass(t, c) && c.Result? && c.ok
      && !t'.bus.fault && t'.bus.bitRate == BIT_RATE_FALLBACK
      && t.bus.fallbackAnswerer == 2 && t.recs[1].state != Enrolled
      && t'.recs[1].state == Enrolled && t'.recs[2].state == Enrolled
  {
    hide Run, Alone, Hunting, OnResult, Inv, Orderly, Clock;
    calls := FirstEnrols();
    calls := OneFailure(calls, 0);
    calls := OneFailure(calls, 1);
    calls := OneFailure(calls, 2);
    calls := SecondProbed(calls);
    calls := AllProbed(calls, 2);
    calls := FirstAnswers(calls);
    calls := SecondAnswers(calls);
    c := Result(1, true, Clock(calls) + ROUND_TRIP);
    Then(calls, c);
    RunKeeps(calls);
    EpisodeEnds(Run(calls), c);
    FallbackClearEnrols(Run(calls), c);
  }
}
