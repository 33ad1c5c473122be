/** With nothing else to ask, every superframe asks a node for its identity, and every node comes to its turn. */
module CoreProgress {
  import opened Protocol
  import opened Core
  import opened CoreSchedule
  import opened CoreFairness
  import CoreRuns
  import H = Health

  /** No fault, no chunk waiting to be asked for, and no descriptor being read. */
  predicate Calm(e: Engine)
    requires EngineOk(e)
  {
    && !e.health.bus.fault && e.ring == [] && e.hold.None?
    && forall a: byte :: IsModule(a) ==> !(NodeOf(e.t, a).inUse && NodeOf(e.t, a).discovery == ReadingDescriptor)
  }

  lemma NobodyReads(e: Engine, a: byte)
    requires EngineOk(e) && Calm(e) && IsModule(a)
    ensures !Reading(e, a)
  {
  }

  lemma {:induction false} SweepFindsNone(e: Engine, at: nat, now: nat)
    requires EngineOk(e) && Calm(e) && ADDR_MODULE_MIN <= at <= ADDR_MODULE_MAX + 1
    ensures Sweep(e, at, now) == (e, Nothing)
    decreases ADDR_MODULE_MAX + 1 - at
  {
    hide Calm, Reading, EngineOk;
    if at <= ADDR_MODULE_MAX {
      NobodyReads(e, at);
      SweepFindsNone(e, at + 1, now);
    }
  }

  lemma {:induction false} RetryFindsNone(e: Engine, left: nat, now: nat)
    requires EngineOk(e) && Calm(e) && left <= MODULE_IDS
    ensures RetryStalled(e, left, now) == (e, Nothing)
    decreases left
  {
    hide Calm, Reading, EngineOk;
    if left > 0 {
      NobodyReads(e, AtOffset((e.retryCursor + (MODULE_IDS - left)) % MODULE_IDS));
      RetryFindsNone(e, left - 1, now);
    }
  }

  /** One IDENTIFY out: on the wire, in the transcript, and the superframe's demand begun. */
  predicate Asked(e: Engine, e': Engine)
    requires EngineOk(e) && EngineOk(e')
  {
    && e'.demandIssued && e'.tx.kind == IdentifyTx && IsModule(e'.tx.node) && Eligible(e, e'.tx.node)
    && e'.transcript == e.transcript +
      [Issue(e.superframe, IdentifyTx, NodeOf(e.t, e'.tx.node).backplane, e'.tx.node, e.health.bus.fault)]
    && e'.superframe == e.superframe && e'.superframeOpen == e.superframeOpen && e'.phase == e.phase
  }

  /** The first demand item of a superframe fits whatever it cost last time. */
  lemma {:induction false} ScanAsks(e: Engine, left: nat, now: nat, id: byte)
    requires EngineOk(e) && left <= MODULE_IDS && IsModule(id) && Eligible(e, id) && !e.demandIssued
    requires Distance(e.identifyCursor, OffsetOf(id)) >= MODULE_IDS - left
    ensures var (e', r) := ScanIdentify(e, left, now); r == Issued && Asked(e, e')
    decreases left
  {
    hide Core.Shape;
    AtDistance(e.identifyCursor, left);
    var at := (e.identifyCursor + (MODULE_IDS - left)) % MODULE_IDS;
    if Distance(e.identifyCursor, OffsetOf(id)) == MODULE_IDS - left {
      SameDistance(e.identifyCursor, at, OffsetOf(id));
    }
    if !Eligible(e, AtOffset(at)) {
      ScanAsks(e, left - 1, now, id);
    }
  }

  /** With nothing before it in the queue, the superframe's first demand is an identity. */
  lemma DemandAsks(e: Engine, now: nat, id: byte)
    requires EngineOk(e) && Calm(e) && IsModule(id) && Eligible(e, id) && !e.demandIssued
    ensures var (e', issued) := IssueDemand(e, now); issued && Asked(e, e')
  {
    hide Asked, ScanIdentify, Eligible, EngineOk;
    SweepFindsNone(e, ADDR_MODULE_MIN, now);
    RetryFindsNone(e, MODULE_IDS, now);
    ScanAsks(e, MODULE_IDS, now, id);
  }

  // ---------------------------------------------------------------- superframe by superframe

  /** A superframe still owes its identity until its first demand item is out or its demand phase is over. */
  function Owes(e: Engine): nat {
    if e.superframeOpen && (e.phase == PollPhase || e.phase == DemandPhase) && !e.demandIssued then 1 else 0
  }

  /** At least one IDENTIFY for each superframe begun, but for one still owed. */
  predicate Gains(e: Engine, e': Engine) {
    && e'.superframe >= e.superframe
    && Identifies(e'.transcript) + Owes(e') >= Identifies(e.transcript) + Owes(e) + (e'.superframe - e.superframe)
  }

  /** Neither the plan nor the transcript has moved. */
  predicate SamePlan(e: Engine, e': Engine) {
    && e'.superframe == e.superframe && e'.superframeOpen == e.superframeOpen && e'.phase == e.phase
    && e'.demandIssued == e.demandIssued && e'.transcript == e.transcript
  }

  lemma CompletePlans(e: Engine, ev: Event, now: nat)
    requires EngineOk(e)
    ensures SamePlan(e, Complete(e, ev, now))
  {
    hide EngineOk, Charge, Apply, Stall;
    ChargePlans(e, ev.Answered?, now);
    var e1 := Charge(e, ev.Answered?, now);
    if ev.Answered? { ApplyPlans(e1, e.tx.kind, e.tx.addr, e.tx.node, e.tx.offset, ev.answer); }
  }

  lemma ChargePlans(e: Engine, answered: bool, now: nat)
    requires EngineOk(e)
    ensures SamePlan(e, Charge(e, answered, now))
  {
    hide Core.Shape, H.Shape, H.OnResult;
  }

  lemma ApplyPlans(e: Engine, kind: TxKind, addr: byte, id: byte, offset: nat, answer: Answer)
    requires EngineOk(e)
    ensures SamePlan(e, Apply(e, kind, addr, id, offset, answer))
  {
    hide Core.Shape, H.Shape, OnIdentity, OnChunk, Reconcile;
  }

  /** A poll goes out, or the demand phase opens over the same tables. */
  lemma {:induction false} PollGains(e: Engine, now: nat)
    requires EngineOk(e) && e.phase == PollPhase
    ensures var (e', issued) := IssuePoll(e, now);
      && e'.superframe == e.superframe && e'.superframeOpen == e.superframeOpen && e'.demandIssued == e.demandIssued
      && Identifies(e'.transcript) == Identifies(e.transcript)
      && (issued ==> e'.phase == PollPhase)
      && (!issued ==>
        e'.phase == DemandPhase && e'.t == e.t && e'.health == e.health && e'.ring == e.ring && e'.hold == e.hold)
    decreases ADDR_BACKPLANE_MAX + 1 - e.pollCursor
  {
    hide Identifies, IdentifiesOf, Core.Shape, H.PollDue, H.MarkPolled;
    if e.pollCursor <= ADDR_BACKPLANE_MAX {
      PollGains(e.(pollCursor := e.pollCursor + 1), now);
      var addr: byte := e.pollCursor;
      OneMore(e.transcript, Issue(e.superframe, if e.superframe % 2 == 1 then SlotMapPoll else StatusPoll, addr, addr,
                                  H.MarkPolled(e.health, addr, now).bus.fault), ADDR_MODULE_MIN);
    }
  }

  lemma AskedGains(e: Engine, e': Engine)
    requires EngineOk(e) && EngineOk(e') && Asked(e, e')
    ensures Gains(e, e') && SamePhase(e, e')
  {
    hide Identifies, IdentifiesOf, EngineOk;
    OneMore(e.transcript, e'.transcript[|e.transcript|], ADDR_MODULE_MIN);
  }

  predicate SamePhase(e: Engine, e': Engine) {
    e'.superframe == e.superframe && e'.superframeOpen == e.superframeOpen && e'.phase == e.phase
  }

  // ---------------------------------------------------------------- demand once begun

  /** Demand steps keep the place in the plan, demand once begun stays begun, and what goes out is demand. */
  predicate KeepsPlace(e: Engine, e': Engine) {
    && SamePhase(e, e') && (e.demandIssued ==> e'.demandIssued)
    && e'.health == e.health && e'.probeIssued == e.probeIssued
    && (e'.tx == e.tx || e'.tx.kind == IdentifyTx || e'.tx.kind == ReadDescTx)
  }

  lemma ResumeKeepsPlace(e: Engine, at: byte, now: nat)
    requires EngineOk(e) && IsModule(at)
    ensures KeepsPlace(e, ResumeRead(e, at, now).0)
  {
    hide Admits, Find, EngineOk, MarkDiscovered;
  }

  lemma {:induction false} HeldKeepsPlace(e: Engine, now: nat)
    requires EngineOk(e) && e.hold.Some?
    ensures KeepsPlace(e, ServeHeld(e, now).0)
    decreases |e.ring|
  {
    hide Core.Shape, H.Shape, Admits, Reading;
    if e.ring != [] { HeldKeepsPlace(e.(hold := Some(e.ring[0]), ring := e.ring[1..]), now); }
  }

  lemma {:induction false} SweepKeepsPlace(e: Engine, at: nat, now: nat)
    requires EngineOk(e) && ADDR_MODULE_MIN <= at <= ADDR_MODULE_MAX + 1
    ensures KeepsPlace(e, Sweep(e, at, now).0)
    decreases ADDR_MODULE_MAX + 1 - at
  {
    hide ResumeRead, EngineOk, Reading;
    if at <= ADDR_MODULE_MAX {
      ResumeKeepsPlace(e, at, now);
      SweepKeepsPlace(e, at + 1, now);
      SweepKeepsPlace(ResumeRead(e, at, now).0, at + 1, now);
    }
  }

  lemma {:induction false} RetryKeepsPlace(e: Engine, left: nat, now: nat)
    requires EngineOk(e) && left <= MODULE_IDS
    ensures KeepsPlace(e, RetryStalled(e, left, now).0)
    decreases left
  {
    hide ResumeRead, EngineOk, RetryDue;
    if left > 0 {
      var at := AtOffset((e.retryCursor + (MODULE_IDS - left)) % MODULE_IDS);
      ResumeKeepsPlace(e, at, now);
      RetryKeepsPlace(e, left - 1, now);
      RetryKeepsPlace(ResumeRead(e, at, now).0, left - 1, now);
    }
  }

  lemma {:induction false} ScanKeepsPlace(e: Engine, left: nat, now: nat)
    requires EngineOk(e) && left <= MODULE_IDS
    ensures KeepsPlace(e, ScanIdentify(e, left, now).0)
    decreases left
  {
    hide Admits, EngineOk, Unidentified;
    if left > 0 { ScanKeepsPlace(e, left - 1, now); }
  }

  lemma FirstOfRing(e: Engine)
    requires EngineOk(e) && e.ring != []
    ensures EngineOk(e.(hold := Some(e.ring[0]), ring := e.ring[1..]))
  {
  }

  lemma DemandKeepsPlace(e: Engine, now: nat)
    requires EngineOk(e)
    ensures KeepsPlace(e, IssueDemand(e, now).0)
  {
    hide ServeHeld, Sweep, RetryStalled, ScanIdentify, EngineOk;
    if e.hold.Some? { HeldKeepsPlace(e, now); }
    else if e.ring != [] {
      FirstOfRing(e);
      HeldKeepsPlace(e.(hold := Some(e.ring[0]), ring := e.ring[1..]), now);
    }
    var e1 := ServeRing(e, now).0;
    SweepKeepsPlace(e1, ADDR_MODULE_MIN, now);
    PassesKeepPlace(Sweep(e1, ADDR_MODULE_MIN, now).0, now);
  }

  lemma PassesKeepPlace(e: Engine, now: nat)
    requires EngineOk(e)
    ensures KeepsPlace(e, TwoPasses(e, now).0)
  {
    hide RetryStalled, ScanIdentify, EngineOk;
    RetryKeepsPlace(e, MODULE_IDS, now);
    ScanKeepsPlace(e, MODULE_IDS, now);
    ScanKeepsPlace(RetryStalled(e, MODULE_IDS, now).0, MODULE_IDS, now);
    RetryKeepsPlace(ScanIdentify(e, MODULE_IDS, now).0, MODULE_IDS, now);
  }

  lemma DemandGains(e: Engine, now: nat, id: byte)
    requires EngineOk(e) && Calm(e) && IsModule(id) && Eligible(e, id) && e.phase == DemandPhase
    ensures var (e', issued) := IssueDemand(e, now);
      Gains(e, e') && SamePhase(e, e') && (!issued ==> e'.demandIssued)
  {
    hide IssueDemand, Calm, Eligible, Asked, Identifies, IdentifiesOf, EngineOk;
    if e.demandIssued {
      DemandKeepsPlace(e, now);
      DemandIsFair(e, now, id);
    } else {
      DemandAsks(e, now, id);
      AskedGains(e, IssueDemand(e, now).0);
    }
  }

  lemma ProbeGains(e: Engine, now: nat)
    requires EngineOk(e) && e.phase == ProbePhase
    ensures Gains(e, IssueProbe(e, now).0) && Owes(IssueProbe(e, now).0) == 0
    ensures IssueProbe(e, now).0.superframe == e.superframe
  {
    hide Identifies, IdentifiesOf, Core.Shape, H.NextProbe;
    ProbeIsIdle(e, now, ADDR_MODULE_MIN);
  }

  lemma GainsThen(e: Engine, e1: Engine, e2: Engine)
    requires Gains(e, e1) && Gains(e1, e2)
    ensures Gains(e, e2)
  {
    hide Identifies;
  }

  lemma SameCalm(e: Engine, e': Engine, id: byte)
    requires EngineOk(e) && EngineOk(e') && IsModule(id) && Calm(e) && Eligible(e, id)
    requires e'.t == e.t && e'.health == e.health && e'.ring == e.ring && e'.hold == e.hold
    ensures Calm(e') && Eligible(e', id)
  {
  }

  lemma NextGains(e: Engine, now: nat, id: byte)
    requires EngineOk(e) && Calm(e) && IsModule(id) && Eligible(e, id)
    ensures var (e', issued) := IssueNext(e, now);
      Gains(e, e') && e'.superframe == e.superframe && (!issued ==> Owes(e') == 0)
  {
    hide IssuePoll, IssueDemand, IssueProbe, Calm, Eligible, Identifies, EngineOk;
    if e.phase == PollPhase { PollGains(e, now); }
    var (e1, done1) := if e.phase == PollPhase then IssuePoll(e, now) else (e, false);
    assert Gains(e, e1);
    if !done1 {
      SameCalm(e, e1, id);
      if e1.phase == DemandPhase { DemandGains(e1, now, id); }
      var (e2, done2) := if e1.phase == DemandPhase then IssueDemand(e1, now) else (e1, false);
      GainsThen(e, e1, e2);
      if !done2 {
        var e3 := if e2.phase == DemandPhase then e2.(phase := ProbePhase) else e2;
        PhaseIsFree(e2, e3.phase);
        assert Gains(e2, e3);
        GainsThen(e, e2, e3);
        if e3.phase == ProbePhase {
          ProbeGains(e3, now);
          GainsThen(e, e3, IssueProbe(e3, now).0);
        }
      }
    }
  }

  lemma PhaseIsFree(e: Engine, phase: Phase)
    requires EngineOk(e)
    ensures EngineOk(e.(phase := phase))
  {
  }

  // ---------------------------------------------------------------- runs

  /** What this call makes its plan from: the event applied, and the superframe open. */
  function PlanFrom(e: Engine, ev: Event, now: nat): (e': Engine)
    requires EngineOk(e)
    ensures EngineOk(e')
  {
    var e1 := Complete(e, ev, now);
    if e1.superframeOpen then e1 else OpenSuperframe(e1, now)
  }

  predicate CalmAt(e: Engine, c: CoreRuns.Call)
    requires EngineOk(e)
  {
    c.Superframe? && PlanFrom(e, c.ev, c.now).tx.kind == NoTx ==> Calm(PlanFrom(e, c.ev, c.now))
  }

  predicate StaysCalm(e: Engine, calls: seq<CoreRuns.Call>)
    requires EngineOk(e)
  {
    calls == [] ||
    (StaysCalm(e, calls[..|calls| - 1]) && CalmAt(RunFrom(e, calls[..|calls| - 1]), calls[|calls| - 1]))
  }

  lemma OpenGains(e: Engine, now: nat)
    requires EngineOk(e) && !e.superframeOpen
    ensures Gains(e, OpenSuperframe(e, now)) && OpenSuperframe(e, now).t == e.t
      && OpenSuperframe(e, now).tx == e.tx && OpenSuperframe(e, now).superframeOpen
  {
    hide EngineOk, Identifies, H.Tick;
  }

  lemma StepGains(e: Engine, c: CoreRuns.Call, id: byte)
    requires EngineOk(e) && IsModule(id) && EligibleAt(e, c, id) && CalmAt(e, c)
    ensures Gains(e, CoreRuns.Step(e, c))
  {
    hide EngineOk, Calm, Complete, OpenSuperframe, IssueNext, Identifies, Reconcile, Core.Shape;
    if c.Superframe? {
      CompletePlans(e, c.ev, c.now);
      var e1 := Complete(e, c.ev, c.now);
      assert Gains(e, e1);
      if e1.tx.kind == NoTx {
        if !e1.superframeOpen { OpenGains(e1, c.now); }
        var e2 := PlanFrom(e, c.ev, c.now);
        GainsThen(e, e1, e2);
        assert e2.t == e1.t;
        NextGains(e2, c.now, id);
        var (e3, issued) := IssueNext(e2, c.now);
        GainsThen(e, e2, e3);
      }
    }
  }

  lemma {:induction false} RunGains(e: Engine, calls: seq<CoreRuns.Call>, id: byte)
    requires EngineOk(e) && IsModule(id) && StaysEligible(e, calls, id) && StaysCalm(e, calls)
    ensures Gains(e, RunFrom(e, calls))
  {
    hide CoreRuns.Step, EligibleAt, CalmAt, Gains;
    if calls == [] {
      GainsNothing(e);
    } else {
      var n := |calls| - 1;
      var e1 := RunFrom(e, calls[..n]);
      RunGains(e, calls[..n], id);
      StepGains(e1, calls[n], id);
      GainsThen(e, e1, CoreRuns.Step(e1, calls[n]));
    }
  }

  lemma GainsNothing(e: Engine)
    ensures Gains(e, e)
  {
  }

  /**
   * A node in a slot and neither being read nor known, in a calm core: by the time MODULE_IDS superframes have begun
   * and one more, one of them has asked it who it is.
   */
  lemma EveryNodeIsAsked(e: Engine, calls: seq<CoreRuns.Call>, id: byte)
    requires EngineOk(e) && IsModule(id) && StaysEligible(e, calls, id) && StaysCalm(e, calls)
    requires RunFrom(e, calls).superframe > e.superframe + MODULE_IDS
    ensures IdentifiesOf(RunFrom(e, calls).transcript, id) > IdentifiesOf(e.transcript, id)
  {
    hide Identifies, IdentifiesOf, RunFrom, StaysEligible, StaysCalm, EngineOk;
    RunGains(e, calls, id);
    BoundedBypass(e, calls, id);
  }
}
