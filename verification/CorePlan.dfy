/** What a superframe asks for: the polls that are due, and demand whenever there is any. */
module CorePlan {
  import opened Protocol
  import opened Core
  import opened CoreSchedule
  import opened CoreFairness
  import opened CoreProgress
  import CoreRuns
  import H = Health

  // ---------------------------------------------------------------- polls

  /** Announced as enrolled, no fault standing, and ENROLLED or SUSPECT long enough after its last poll. */
  predicate ToPoll(e: Engine, a: byte, now: nat)
    requires EngineOk(e)
  {
    && IsBackplane(a) && H.Notice(H.ENROLLED, a) in e.health.log && !e.health.bus.fault
    && var r := e.health.recs[a];
       r.state == H.Enrolled || (r.state == H.Suspect && now >= r.lastPoll + 10 * T_POLL)
  }

  lemma DueIs(e: Engine, a: byte, now: nat)
    requires EngineOk(e) && IsBackplane(a)
    ensures ToPoll(e, a, now) <==> Enrolled(e, a) && H.PollDue(e.health, a, now)
    ensures H.MarkPolled(e.health, a, now).bus.fault == e.health.bus.fault
  {
  }

  /** What a poll puts on the wire and in the transcript. */
  predicate Polls(e: Engine, e': Engine, a: byte, now: nat) {
    && e'.pollCursor == a + 1 && e'.phase == PollPhase && e'.t == e.t
    && e'.tx == Tx(if e.superframe % 2 == 1 then SlotMapPoll else StatusPoll, a, a, 0, now)
    && e'.transcript == e.transcript + [Issue(e.superframe, e'.tx.kind, a, a, false)]
  }

  predicate NoneDue(e: Engine, from: nat, to: nat, now: nat)
    requires EngineOk(e)
  {
    forall b: byte :: from <= b < to ==> !ToPoll(e, b, now)
  }

  /** One turn of the scan. */
  lemma PollStep(e: Engine, now: nat)
    requires EngineOk(e) && e.pollCursor <= ADDR_BACKPLANE_MAX && e.phase == PollPhase
    ensures EngineOk(e.(pollCursor := e.pollCursor + 1))
    ensures if ToPoll(e, e.pollCursor, now) then IssuePoll(e, now).1 && Polls(e, IssuePoll(e, now).0, e.pollCursor, now)
      else IssuePoll(e, now) == IssuePoll(e.(pollCursor := e.pollCursor + 1), now)
  {
    DueIs(e, e.pollCursor, now);
    NextPollOk(e);
    hide EngineOk, H.PollDue, H.MarkPolled, Enrolled, ToPoll;
  }

  lemma SameDue(e: Engine, e1: Engine, now: nat)
    requires EngineOk(e) && EngineOk(e1) && e1.health == e.health
    ensures forall a: byte :: ToPoll(e1, a, now) == ToPoll(e, a, now)
  {
  }

  /** The lowest address still to be polled is, by slot map in odd superframes; without one the demand phase begins. */
  lemma {:induction false} LowestDueIsPolled(e: Engine, now: nat)
    requires EngineOk(e) && e.phase == PollPhase
    ensures var (e', issued) := IssuePoll(e, now);
      if issued then
        IsBackplane(e'.tx.addr) && e.pollCursor <= e'.tx.addr && ToPoll(e, e'.tx.addr, now) &&
        NoneDue(e, e.pollCursor, e'.tx.addr, now) && Polls(e, e', e'.tx.addr, now)
      else
        NoneDue(e, e.pollCursor, ADDR_BACKPLANE_MAX + 1, now) && e'.phase == DemandPhase && e'.t == e.t &&
        e'.tx == e.tx && e'.transcript == e.transcript
    decreases ADDR_BACKPLANE_MAX + 1 - e.pollCursor
  {
    if e.pollCursor <= ADDR_BACKPLANE_MAX {
      var e1 := e.(pollCursor := e.pollCursor + 1);
      PollStep(e, now);
      PollCursorOk(e);
      if !ToPoll(e, e.pollCursor, now) {
        SameDue(e, e1, now);
        hide EngineOk, ToPoll, IssuePoll;
        LowestDueIsPolled(e1, now);
      }
    } else {
      PollCursorOk(e);
    }
  }

  lemma PollCursorOk(e: Engine)
    requires EngineOk(e)
    ensures ADDR_BACKPLANE_MIN <= e.pollCursor <= ADDR_BACKPLANE_MAX + 1
  {
  }

  // ---------------------------------------------------------------- the probe

  lemma {:induction false} PollLeavesHealth(e: Engine, now: nat)
    requires EngineOk(e) && !IssuePoll(e, now).1
    ensures IssuePoll(e, now).0.health == e.health && IssuePoll(e, now).0.phase == DemandPhase
    ensures IssuePoll(e, now).0.probeIssued == e.probeIssued
    decreases ADDR_BACKPLANE_MAX + 1 - e.pollCursor
  {
    hide Core.Shape, H.PollDue, H.MarkPolled, Enrolled;
    if e.pollCursor <= ADDR_BACKPLANE_MAX { PollLeavesHealth(e.(pollCursor := e.pollCursor + 1), now); }
  }

  /** The address the tracker would have probed next, if any. */
  function ToProbe(e: Engine, now: nat): byte
    requires EngineOk(e)
  {
    H.NextProbe(e.health, now).1.addr
  }

  /**
   * A superframe that has not had its probe comes to an end only if there is nobody to probe; a probe goes to the
   * address and at the rate the tracker chooses, and there is no second one.
   */
  lemma FrameEndsWithProbe(e: Engine, now: nat)
    requires EngineOk(e) && CoreRuns.PhaseOk(e) && e.superframeOpen && e.phase != ClosedPhase
    ensures var (e', issued) := IssueNext(e, now);
      && (!issued ==> ToProbe(e, now) == ADDR_HOST)
      && (issued && e'.tx.kind == ProbeTx && e.tx.kind == NoTx ==>
        e'.tx.addr == ToProbe(e, now) != ADDR_HOST && e'.wireRate == H.NextProbe(e.health, now).1.bitRate &&
        e'.probeIssued && e'.phase == ClosedPhase)
  {
    hide IssuePoll, IssueDemand, H.NextProbe, EngineOk;
    PhaseIsFree(e, ProbePhase);
    assert e.phase != ProbePhase && !e.probeIssued;
    hide CoreRuns.PhaseOk;
    if e.phase == PollPhase {
      LowestDueIsPolled(e, now);
      hide ToPoll, NoneDue;
      if !IssuePoll(e, now).1 { PollLeavesHealth(e, now); }
    }
    var e1 := if e.phase == PollPhase then IssuePoll(e, now).0 else e;
    if e.phase == DemandPhase || !IssuePoll(e, now).1 { DemandKeepsPlace(e1, now); }
  }

  // ---------------------------------------------------------------- what an outcome does

  function Duration(e: Engine, now: nat): nat {
    if now >= e.tx.issued then now - e.tx.issued else 0
  }

  /** The time it took is measured, for the backplane and for the node, and nothing else in the tables changes. */
  predicate Measured(e: Engine, t: Tables, now: nat)
    requires EngineOk(e) && Core.Shape(t)
  {
    && t.entries == e.t.entries && t.lifecycle == e.t.lifecycle && t.dropped == e.t.dropped
    && (forall a: byte :: IsModule(a) ==>
      NodeOf(t, a) == if a == e.tx.node then NodeOf(e.t, a).(lastDuration := Duration(e, now)) else NodeOf(e.t, a))
    && (forall a: byte :: IsBackplane(a) ==>
      BackplaneOf(t, a) ==
        if a == e.tx.addr then BackplaneOf(e.t, a).(lastDuration := Duration(e, now)) else BackplaneOf(e.t, a))
  }

  lemma ChargeMeasures(e: Engine, answered: bool, now: nat)
    requires EngineOk(e)
    ensures var e' := Charge(e, answered, now);
      && Measured(e, e'.t, now) && e'.health == H.OnResult(e.health, e.tx.addr, answered, now)
      && e'.ring == e.ring && e'.superframe == e.superframe && e'.hold == e.hold
  {
    hide H.Shape, H.OnResult;
  }

  /**
   * Every outcome is charged to the address it came from; an answer is applied to the slot or the node it was asked of,
   * and a chunk that failed is asked for again, its node put aside for this superframe.
   */
  lemma OutcomeIsApplied(e: Engine, ev: Event, now: nat) returns (t: Tables)
    requires EngineOk(e) && ev != Quiet && e.tx.kind != NoTx
    ensures Core.Shape(t) && Measured(e, t, now)
    ensures var e', kind, id := Complete(e, ev, now), e.tx.kind, e.tx.node;
      && e'.tx.kind == NoTx && e'.health == H.OnResult(e.health, e.tx.addr, ev.Answered?, now) && e'.hold == e.hold
      && (e'.t, e'.ring) ==
        if ev.Answered? && kind == SlotMapPoll && ev.answer.SlotMapAnswer? then
          (Reconcile(t, e.tx.addr, ev.answer.m), e.ring)
        else if ev.Answered? && kind == IdentifyTx && ev.answer.Identity? && IsModule(id) then
          OnIdentity(t, e.ring, id, ev.answer.key)
        else if ev.Answered? && kind == ReadDescTx && ev.answer.DescChunk? && IsModule(id) then
          OnChunk(t, e.ring, id, e.tx.offset, ev.answer.answer, e.superframe)
        else if ev == Failed && kind == ReadDescTx && IsModule(id) then
          (PutNode(t, id, NodeOf(t, id).(stalled := e.superframe)), Push(e.ring, Chunk(id, e.tx.offset)))
        else (t, e.ring)
  {
    hide Charge, Measured, H.OnResult, OnIdentity, OnChunk, Reconcile, H.Shape;
    ChargeMeasures(e, ev.Answered?, now);
    t := Charge(e, ev.Answered?, now).t;
    assert Charge(e, ev.Answered?, now).tx.kind == NoTx;
  }

  // ---------------------------------------------------------------- one call

  /**
   * A call applies its outcome; with nothing outstanding after it, it opens a superframe if none is open, ageing the
   * tracker's nodes and starting afresh, and issues the next request, or closes the superframe if there is none.
   */
  lemma CallIsPlan(e: Engine, ev: Event, now: nat)
    requires EngineOk(e)
    ensures var e1, e2, e' := Complete(e, ev, now), PlanFrom(e, ev, now), RunSuperframe(e, ev, now);
      && (e1.tx.kind != NoTx ==> e' == e1)
      && (e1.tx.kind == NoTx ==>
        if IssueNext(e2, now).1 then e' == IssueNext(e2, now).0
        else !e'.superframeOpen && e'.t == IssueNext(e2, now).0.t && e'.transcript == IssueNext(e2, now).0.transcript)
      && (if e.superframeOpen then e2 == e1
          else
            && e2.health == H.Tick(e1.health, now) && e2.superframe == e.superframe + 1 && e2.superframeOpen
            && e2.phase == PollPhase && e2.pollCursor == ADDR_BACKPLANE_MIN && e2.budget == T_POLL
            && !e2.demandIssued && !e2.probeIssued && e2.t == e1.t && e2.ring == e1.ring)
  {
    hide Complete, IssueNext, EngineOk, H.Tick;
    CompletePlans(e, ev, now);
  }
}
