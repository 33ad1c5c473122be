/** What holds of a tracker after any sequence of calls, with any time stamps in any order. */
module HealthRuns {
  import opened Protocol
  import opened Health
  import opened HealthInvariants

  datatype Call =
    | Result(addr: byte, ok: bool, now: nat)
    | Ticked(now: nat)
    | Polled(addr: byte, now: nat)
    | Probed(now: nat)
    | RateSet(bps: nat)

  function Step(t: Tracker, c: Call): (t': Tracker)
    requires Shape(t)
    ensures Shape(t')
  {
    match c
    case Result(addr, ok, now) => OnResult(t, addr, ok, now)
    case Ticked(now) => Tick(t, now)
    case Polled(addr, now) => MarkPolled(t, addr, now)
    case Probed(now) => NextProbe(t, now).0
    case RateSet(bps) => SetBitRate(t, bps)
  }

  function Run(calls: seq<Call>): (t: Tracker)
    ensures Shape(t)
  {
    if calls == [] then Start() else Step(Run(calls[..|calls| - 1]), calls[|calls| - 1])
  }

  lemma StepKeeps(t: Tracker, c: Call)
    requires Inv(t)
    ensures Inv(Step(t, c))
  {
    match c
    case Result(addr, ok, now) => OnResultKeeps(t, addr, ok, now);
    case Ticked(now) => TickKeeps(t, now);
    case Polled(addr, now) => MarkPolledKeeps(t, addr, now);
    case Probed(now) => NextProbeKeeps(t, now);
    case RateSet(bps) =>
  }

  lemma StartIsSound()
    ensures Inv(Start())
  {
    assert Replay([]) == Some(Nothing());
    assert States(Start().recs) == Nothing().states;
  }

  lemma {:induction false} RunKeeps(calls: seq<Call>)
    ensures Inv(Run(calls))
  {
    if calls == [] {
      StartIsSound();
    } else {
      RunKeeps(calls[..|calls| - 1]);
      StepKeeps(Run(calls[..|calls| - 1]), calls[|calls| - 1]);
    }
  }

  /** A fault stands exactly while some address has been enrolled and none answers. */
  lemma FaultExactlyWhenAllFail(calls: seq<Call>)
    ensures var t := Run(calls);
      t.bus.fault <==>
        && (exists a :: 0 <= a < ADDR_COUNT && t.recs[a].state != Unenrolled)
        && (forall a :: 0 <= a < ADDR_COUNT ==> t.recs[a].state != Enrolled)
  {
    RunKeeps(calls);
    var t := Run(calls);
    if t.bus.fault {
      var a :| 0 <= a < ADDR_COUNT && Left(t.recs[a]);
      assert t.recs[a].state != Unenrolled;
    } else if exists a :: 0 <= a < ADDR_COUNT && t.recs[a].state != Unenrolled {
      var a :| 0 <= a < ADDR_COUNT && t.recs[a].state != Unenrolled;
      assert Left(t.recs[a]);
    }
  }

  // ---------------------------------------------------------------- the notice log

  /** The log alone gives every state and the fault flag back. */
  lemma LogReconstructs(calls: seq<Call>)
    ensures var t := Run(calls); Replay(t.log) == Some(View(States(t.recs), t.bus.fault, false))
  {
    RunKeeps(calls);
  }

  function About(log: seq<Notice>, addr: byte): seq<NoticeKind> {
    if log == [] then []
    else
      var n := log[|log| - 1];
      About(log[..|log| - 1], addr) + (if n.addr == addr then [n.kind] else [])
  }

  function Tally(log: seq<Notice>, kind: NoticeKind): nat {
    if log == [] then 0
    else Tally(log[..|log| - 1], kind) + (if log[|log| - 1].kind == kind then 1 else 0)
  }

  /** SUSPECT, perhaps OFFLINE, then RECOVERED, over and over; the last round may be unfinished. */
  predicate Rounds(ks: seq<NoticeKind>) {
    || ks == []
    || (ks[0] == SUSPECT
        && (|ks| == 1
            || (ks[1] == RECOVERED && Rounds(ks[2..]))
            || (ks[1] == OFFLINE && (|ks| == 2 || (ks[2] == RECOVERED && Rounds(ks[3..]))))))
  }

  /** A node's whole story: ENROLLED once, then rounds. */
  predicate Lifecycle(ks: seq<NoticeKind>) {
    ks == [] || (ks[0] == ENROLLED && Rounds(ks[1..]))
  }

  function StateAfter(ks: seq<NoticeKind>): HealthState {
    if ks == [] then Unenrolled
    else match ks[|ks| - 1]
      case SUSPECT => Suspect
      case OFFLINE => Offline
      case _ => Enrolled
  }

  lemma {:induction false} RoundsExtend(ks: seq<NoticeKind>, k: NoticeKind)
    requires Rounds(ks)
    requires k == SUSPECT ==> ks == [] || ks[|ks| - 1] == RECOVERED
    requires k == OFFLINE ==> ks != [] && ks[|ks| - 1] == SUSPECT
    requires k == RECOVERED ==> ks != [] && (ks[|ks| - 1] == SUSPECT || ks[|ks| - 1] == OFFLINE)
    requires k == SUSPECT || k == OFFLINE || k == RECOVERED
    ensures Rounds(ks + [k])
  {
    var all := ks + [k];
    if |ks| <= 2 {
      assert |all| >= 2 && all[1] == RECOVERED ==>
        all[2..] == ks[if |ks| < 2 then |ks| else 2..] + (if |ks| < 2 then [] else [k]);
      assert |all| == 3 && all[1] == OFFLINE ==> all[3..] == [];
      if |ks| == 2 && ks[1] == RECOVERED { assert all[2..] == [k]; }
    } else {
      var d := if ks[1] == RECOVERED then 2 else 3;
      assert all[d..] == ks[d..] + [k];
      RoundsExtend(ks[d..], k);
    }
  }

  lemma {:induction false} RoundsLast(ks: seq<NoticeKind>)
    requires Rounds(ks) && ks != []
    ensures var k := ks[|ks| - 1]; k == SUSPECT || k == OFFLINE || k == RECOVERED
  {
    if |ks| > 2 && ks[1] == RECOVERED { RoundsLast(ks[2..]); }
    if |ks| > 3 && ks[1] == OFFLINE { RoundsLast(ks[3..]); }
  }

  /** One more legal notice extends a lifecycle. */
  lemma LifecycleExtend(ks: seq<NoticeKind>, k: NoticeKind)
    requires Lifecycle(ks) && (ks != [] ==> StateAfter(ks) != Unenrolled)
    requires Announces(k, StateAfter(ks), StateAfter(ks + [k]))
    ensures Lifecycle(ks + [k])
  {
    if ks == [] {
      assert (ks + [k])[1..] == [];
    } else {
      if |ks| >= 2 {
        assert ks[1..][|ks| - 2] == ks[|ks| - 1];
        RoundsLast(ks[1..]);
      }
      RoundsExtend(ks[1..], k);
      assert (ks + [k])[1..] == ks[1..] + [k];
    }
  }

  /** Any log a listener can replay is, address by address, a lifecycle ending in the state replayed. */
  lemma {:induction false} ReplayableIsLifecycle(log: seq<Notice>, addr: byte)
    requires Replay(log).Some? && IsNode(addr)
    ensures Lifecycle(About(log, addr)) && StateAfter(About(log, addr)) == Replay(log).value.states[addr]
    ensures About(log, addr) != [] ==> StateAfter(About(log, addr)) != Unenrolled
  {
    if log != [] {
      var before := log[..|log| - 1];
      var n := log[|log| - 1];
      ReplayableIsLifecycle(before, addr);
      if n.addr == addr {
        LifecycleExtend(About(before, addr), n.kind);
      } else {
        assert About(log, addr) == About(before, addr);
      }
    }
  }

  /** Bus notices alternate: a fault, its one alert, its one recovery. */
  lemma {:induction false} ReplayableBusNotices(log: seq<Notice>)
    requires Replay(log).Some?
    ensures var v := Replay(log).value;
      && Tally(log, BUS_FAULT) == Tally(log, BUS_RECOVERED) + (if v.fault then 1 else 0)
      && Tally(log, BUS_FAULT) == Tally(log, ALERT) + (if v.alertDue then 1 else 0)
  {
    if log != [] { ReplayableBusNotices(log[..|log| - 1]); }
  }

  /** Same count of declares in the log and in the statistics. */
  predicate FaultsCounted(t: Tracker) {
    t.stats.busFaults == Tally(t.log, BUS_FAULT)
  }

  lemma TallyTell(t: Tracker, kind: NoticeKind, addr: byte)
    ensures Tally(Tell(t, kind, addr).log, BUS_FAULT) == Tally(t.log, BUS_FAULT) + (if kind == BUS_FAULT then 1 else 0)
  {
    assert Tell(t, kind, addr).log[..|t.log|] == t.log;
  }

  lemma ApplyResultCounted(t: Tracker, addr: byte, ok: bool, now: nat)
    requires Shape(t) && addr < ADDR_COUNT && FaultsCounted(t)
    ensures FaultsCounted(ApplyResult(t, addr, ok, now))
  {
    TallyTell(t, ENROLLED, addr);
    TallyTell(t, SUSPECT, addr);
    TallyTell(t, RECOVERED, addr);
    TallyTell(t, OFFLINE, addr);
  }

  lemma {:induction false} EnrolAnswerersCounted(t: Tracker, a: nat, now: nat)
    requires Shape(t) && a <= ADDR_COUNT && FaultsCounted(t)
    ensures FaultsCounted(EnrolAnswerers(t, a, now))
    decreases ADDR_COUNT - a
  {
    if a < ADDR_COUNT {
      if a in t.bus.fallbackSeen { ApplyResultCounted(t, a, true, now); }
      EnrolAnswerersCounted(if a in t.bus.fallbackSeen then ApplyResult(t, a, true, now) else t, a + 1, now);
    }
  }

  lemma ClearFaultCounted(t: Tracker, rate: nat, now: nat)
    requires Shape(t) && FaultsCounted(t) && TrunkRate(rate)
    ensures FaultsCounted(ClearFault(t, rate, now))
  {
    var t1 := NoteWireRate(t.(bus := t.bus.(fault := false, bitRate := rate,
                                probeAcrossClear := t.bus.probeAcrossClear + t.bus.probeLive)), rate);
    EnrolAnswerersCounted(t1, ADDR_BACKPLANE_MIN, now);
    TallyTell(Cleared(t, rate, now), BUS_RECOVERED, BUS_ADDR);
  }

  lemma EvaluateDeclareCounted(t: Tracker, now: nat)
    requires Shape(t) && FaultsCounted(t)
    ensures FaultsCounted(EvaluateDeclare(t, now))
  {
    TallyTell(t, BUS_FAULT, BUS_ADDR);
    TallyTell(Tell(t, BUS_FAULT, BUS_ADDR), ALERT, BUS_ADDR);
  }

  lemma {:induction false} AgeCounted(t: Tracker, a: nat, now: nat)
    requires Shape(t) && a <= ADDR_COUNT && FaultsCounted(t)
    ensures FaultsCounted(Age(t, a, now))
    decreases ADDR_COUNT - a
  {
    if a < ADDR_COUNT {
      var r := t.recs[a];
      if r.state == Suspect && Elapsed(now, r.suspectSince) >= OFFLINE_THRESHOLD {
        TallyTell(Put(t, a, r.(state := Offline)), OFFLINE, a);
        AgeCounted(Tell(Put(t, a, r.(state := Offline)), OFFLINE, a), a + 1, now);
      } else {
        AgeCounted(t, a + 1, now);
      }
    }
  }

  lemma {:induction false} PassScanQuiet(t: Tracker, n: nat, now: nat)
    requires Shape(t)
    ensures PassScan(t, n, now).0.log == t.log && PassScan(t, n, now).0.stats.busFaults == t.stats.busFaults
    decreases n
  {
    if n > 0 && !Left(t.recs[t.bus.passNext]) {
      PassScanQuiet(t.(bus := t.bus.(passNext := NextBackplane(t.bus.passNext))), n - 1, now);
    }
  }

  lemma {:induction false} RotateQuiet(t: Tracker, n: nat, rate: nat, now: nat)
    requires Shape(t)
    ensures Rotate(t, n, rate, now).0.log == t.log && Rotate(t, n, rate, now).0.stats == t.stats
    decreases n
  {
    if n > 0 {
      var t1 := t.(nextProbe := NextBackplane(t.nextProbe));
      if !Candidate(t1, t1.nextProbe) { RotateQuiet(t1, n - 1, rate, now); }
    }
  }

  lemma SettleCounted(t: Tracker, addr: byte, referenceAnswer: bool, now: nat)
    requires Shape(t) && FaultsCounted(t)
    ensures FaultsCounted(Settle(t, addr, referenceAnswer, now))
  {
    var t1 := if t.bus.passAddr == addr then SpendPassProbe(t) else t;
    ClearFaultCounted(t1, BIT_RATE, now);
    ClearFaultCounted(t1, BIT_RATE_FALLBACK, now);
  }

  lemma OnResultCounted(t: Tracker, addr: byte, ok: bool, now: nat)
    requires Shape(t) && FaultsCounted(t)
    ensures FaultsCounted(OnResult(t, addr, ok, now))
  {
    if IsNode(addr) {
      ApplyResultCounted(t.(bus := t.bus.(probeLive := t.bus.probeLive - {addr})), addr, ok, now);
      var t2 := Read(t, addr, ok, now);
      SettleCounted(t2, addr, ReferenceAnswer(t, addr, ok), now);
      EvaluateDeclareCounted(Settle(t2, addr, ReferenceAnswer(t, addr, ok), now), now);
    }
  }

  lemma NextProbeCounted(t: Tracker, now: nat)
    requires Shape(t) && FaultsCounted(t)
    ensures FaultsCounted(NextProbe(t, now).0)
  {
    ClearFaultCounted(SpendPassProbe(t), BIT_RATE_FALLBACK, now);
    var t1 := WriteOff(t, now);
    PassScanQuiet(t1, BACKPLANES, now);
    RotateQuiet(Alternate(t1).0, BACKPLANES, Alternate(t1).1, now);
  }

  lemma StepCounted(t: Tracker, c: Call)
    requires Shape(t) && FaultsCounted(t)
    ensures FaultsCounted(Step(t, c))
  {
    match c
    case Result(addr, ok, now) => OnResultCounted(t, addr, ok, now);
    case Ticked(now) =>
      AgeCounted(t, 0, now);
      EvaluateDeclareCounted(Age(t, 0, now), now);
    case Polled(addr, now) =>
    case Probed(now) => NextProbeCounted(t, now);
    case RateSet(bps) =>
  }

  lemma {:induction false} RunCounted(calls: seq<Call>)
    ensures FaultsCounted(Run(calls))
  {
    if calls != [] {
      RunCounted(calls[..|calls| - 1]);
      StepCounted(Run(calls[..|calls| - 1]), calls[|calls| - 1]);
    }
  }

  /** Every address lives one lifecycle, every fault has one alert and one recovery, and the counter agrees. */
  lemma NoticesOfARun(calls: seq<Call>)
    ensures var t := Run(calls);
      && (forall a: byte :: IsNode(a) ==> Lifecycle(About(t.log, a)) && StateAfter(About(t.log, a)) == t.recs[a].state)
      && t.stats.busFaults == Tally(t.log, BUS_FAULT) == Tally(t.log, ALERT)
      && Tally(t.log, BUS_FAULT) == Tally(t.log, BUS_RECOVERED) + (if t.bus.fault then 1 else 0)
  {
    RunKeeps(calls);
    RunCounted(calls);
    var t := Run(calls);
    ReplayableBusNotices(t.log);
    forall a: byte | IsNode(a)
      ensures Lifecycle(About(t.log, a)) && StateAfter(About(t.log, a)) == t.recs[a].state
    {
      ReplayableIsLifecycle(t.log, a);
    }
  }

  // ---------------------------------------------------------------- how an episode ends

  /** The call that accounts for the last pass probe: its outcome, or its window running out. */
  predicate LastOfPass(t: Tracker, c: Call)
    requires Shape(t)
  {
    && t.bus.refPassLeft == 1 && t.bus.passAddr != 0
    && ((c.Result? && c.addr == t.bus.passAddr)
        || (c.Probed? && Elapsed(c.now, t.recs[t.bus.passAddr].probeIssued) > OUTCOME_WINDOW))
  }

  lemma OutcomeEnds(t: Tracker, addr: byte, ok: bool, now: nat)
    requires Inv(t) && t.bus.fault && IsNode(addr)
    ensures var t' := OnResult(t, addr, ok, now);
      && (!t'.bus.fault <==> ReferenceAnswer(t, addr, ok) || LastOfPass(t, Result(addr, ok, now)))
      && (ReferenceAnswer(t, addr, ok) ==> t'.bus.bitRate == BIT_RATE && t'.recs[addr].state == Enrolled)
      && (!ReferenceAnswer(t, addr, ok) && LastOfPass(t, Result(addr, ok, now)) ==> t'.bus.bitRate == BIT_RATE_FALLBACK)
  {
    hide Told;
    ReadKeeps(t, addr, ok, now);
    var t2 := Read(t, addr, ok, now);
    var t3 := if t2.bus.passAddr == addr then SpendPassProbe(t2) else t2;
    if ReferenceAnswer(t, addr, ok) {
      ClearFaultKeeps(t3, BIT_RATE, now);
      EvaluateDeclareKeeps(ClearFault(t3, BIT_RATE, now), now);
    } else {
      if t2.bus.passAddr == addr { SpendPassProbeKeeps(t2); }
      if t2.bus.passAddr == addr && t3.bus.refPassLeft == 0 {
        ClearFaultKeeps(t3, BIT_RATE_FALLBACK, now);
        EvaluateDeclareKeeps(ClearFault(t3, BIT_RATE_FALLBACK, now), now);
      }
    }
  }

  lemma WriteOffEnds(t: Tracker, now: nat)
    requires Inv(t) && t.bus.fault
    ensures var t' := WriteOff(t, now);
      && (!t'.bus.fault <==> LastOfPass(t, Probed(now)))
      && (LastOfPass(t, Probed(now)) ==> t'.bus.bitRate == BIT_RATE_FALLBACK)
  {
    hide Told;
    if t.bus.passAddr != 0 && Elapsed(now, t.recs[t.bus.passAddr].probeIssued) > OUTCOME_WINDOW {
      SpendPassProbeKeeps(t);
      if t.bus.refPassLeft == 1 { ClearFaultKeeps(SpendPassProbe(t), BIT_RATE_FALLBACK, now); }
    }
  }

  lemma NextProbeAfterWriteOff(t: Tracker, now: nat)
    requires Shape(t)
    ensures NextProbe(t, now).0.bus.fault == WriteOff(t, now).bus.fault
    ensures NextProbe(t, now).0.bus.bitRate == WriteOff(t, now).bus.bitRate
  {
    var t1 := WriteOff(t, now);
    PassScanBus(t1, BACKPLANES, now);
    RotateBus(Alternate(t1).0, BACKPLANES, Alternate(t1).1, now);
  }

  /**
   * An episode ends on a reference-rate answer, at that rate, or on the last pass outcome, at the fallback rate; never
   * otherwise.
   */
  lemma EpisodeEnds(t: Tracker, c: Call)
    requires Inv(t) && t.bus.fault
    ensures var t' := Step(t, c);
      var answered := c.Result? && IsNode(c.addr) && ReferenceAnswer(t, c.addr, c.ok);
      && (!t'.bus.fault <==> answered || LastOfPass(t, c))
      && (answered ==> t'.bus.bitRate == BIT_RATE && t'.recs[c.addr].state == Enrolled)
      && (!answered && LastOfPass(t, c) ==> t'.bus.bitRate == BIT_RATE_FALLBACK)
  {
    match c
    case Result(addr, ok, now) => if IsNode(addr) { OutcomeEnds(t, addr, ok, now); }
    case Ticked(now) =>
    case Polled(addr, now) =>
    case Probed(now) =>
      WriteOffEnds(t, now);
      NextProbeAfterWriteOff(t, now);
    case RateSet(bps) =>
  }

  lemma {:induction false} PassScanBus(t: Tracker, n: nat, now: nat)
    requires Shape(t)
    ensures PassScan(t, n, now).0.bus.fault == t.bus.fault && PassScan(t, n, now).0.bus.bitRate == t.bus.bitRate
    decreases n
  {
    if n > 0 && !Left(t.recs[t.bus.passNext]) {
      PassScanBus(t.(bus := t.bus.(passNext := NextBackplane(t.bus.passNext))), n - 1, now);
    }
  }

  lemma {:induction false} RotateBus(t: Tracker, n: nat, rate: nat, now: nat)
    requires Shape(t)
    ensures var (t', p) := Rotate(t, n, rate, now);
      && t'.bus.fault == t.bus.fault && t'.bus.bitRate == t.bus.bitRate
      && t'.bus.refPassLeft == t.bus.refPassLeft && t'.bus.passAddr == t.bus.passAddr
      && p.bitRate == rate
      && (p.addr == ADDR_HOST ==> t'.bus == t.bus)
      && (p.addr != ADDR_HOST ==>
        IsNode(p.addr) && Candidate(t, p.addr) && t'.bus == NoteProbe(t, p.addr, rate, now).bus)
    decreases n
  {
    if n > 0 {
      var t1 := t.(nextProbe := NextBackplane(t.nextProbe));
      if !Candidate(t1, t1.nextProbe) { RotateBus(t1, n - 1, rate, now); }
    }
  }
}
