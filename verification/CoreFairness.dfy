/** The rotating IDENTIFY scan passes no eligible node by for more than one turn of the id pool. */
module CoreFairness {
  import opened Protocol
  import opened Core
  import opened CoreSchedule
  import CoreRuns
  import H = Health

  /** How far the scan still is from a node, in steps of its cursor. */
  function Distance(cursor: nat, offset: nat): (d: nat)
    requires cursor < MODULE_IDS && offset < MODULE_IDS
    ensures d < MODULE_IDS
  {
    if offset >= cursor then offset - cursor else offset + MODULE_IDS - cursor
  }

  function OffsetOf(id: byte): nat
    requires IsModule(id)
  {
    id - ADDR_MODULE_MIN
  }

  function Identifies(transcript: seq<Issue>): nat {
    if transcript == [] then 0
    else Identifies(transcript[..|transcript| - 1]) + if transcript[|transcript| - 1].kind == IdentifyTx then 1 else 0
  }

  function IdentifiesOf(transcript: seq<Issue>, id: byte): nat {
    if transcript == [] then 0
    else
      var x := transcript[|transcript| - 1];
      IdentifiesOf(transcript[..|transcript| - 1], id) + if x.kind == IdentifyTx && x.node == id then 1 else 0
  }

  lemma OneMore(transcript: seq<Issue>, x: Issue, id: byte)
    ensures Identifies(transcript + [x]) == Identifies(transcript) + if x.kind == IdentifyTx then 1 else 0
    ensures IdentifiesOf(transcript + [x], id) ==
      IdentifiesOf(transcript, id) + if x.kind == IdentifyTx && x.node == id then 1 else 0
  {
    assert (transcript + [x])[..|transcript|] == transcript;
  }

  /** In a slot, and neither known nor about to be: its identity is still to be asked for. */
  predicate Eligible(e: Engine, id: byte)
    requires EngineOk(e) && IsModule(id)
  {
    var n := NodeOf(e.t, id);
    n.inUse && n.discovery != ReadingDescriptor && n.discovery != Discovered
  }

  /** No IDENTIFY issued, the cursor where it was, and the node as eligible as it was. */
  predicate Idle(e: Engine, e': Engine, id: byte)
    requires EngineOk(e) && EngineOk(e') && IsModule(id)
  {
    && e'.identifyCursor == e.identifyCursor
    && (Eligible(e, id) ==> Eligible(e', id))
    && Identifies(e'.transcript) == Identifies(e.transcript)
      && IdentifiesOf(e'.transcript, id) == IdentifiesOf(e.transcript, id)
  }

  /** One IDENTIFY issued: to this node, or to one the scan met before it. */
  predicate Turn(e: Engine, e': Engine, id: byte)
    requires EngineOk(e) && EngineOk(e') && IsModule(id)
  {
    && Identifies(e'.transcript) == Identifies(e.transcript) + 1
    && (|| IdentifiesOf(e'.transcript, id) == IdentifiesOf(e.transcript, id) + 1
        || (IdentifiesOf(e'.transcript, id) == IdentifiesOf(e.transcript, id) &&
            Distance(e'.identifyCursor, OffsetOf(id)) < Distance(e.identifyCursor, OffsetOf(id))))
  }

  predicate Fair(e: Engine, e': Engine, id: byte)
    requires EngineOk(e) && EngineOk(e') && IsModule(id)
  {
    Idle(e, e', id) || Turn(e, e', id)
  }

  lemma IdleThen(e: Engine, e1: Engine, e2: Engine, id: byte)
    requires EngineOk(e) && EngineOk(e1) && EngineOk(e2) && IsModule(id) && Idle(e, e1, id)
    ensures Idle(e1, e2, id) ==> Idle(e, e2, id)
    ensures Fair(e1, e2, id) ==> Fair(e, e2, id)
  {
  }

  // ---------------------------------------------------------------- the scan

  /** The offset the scan looks at with `left` still to go, and its distance. */
  lemma AtDistance(cursor: nat, left: nat)
    requires cursor < MODULE_IDS && 0 < left <= MODULE_IDS
    ensures var o := (cursor + (MODULE_IDS - left)) % MODULE_IDS;
      o < MODULE_IDS && Distance(cursor, o) == MODULE_IDS - left
  {
  }

  lemma DistanceAfter(cursor: nat, at: nat, offset: nat)
    requires cursor < MODULE_IDS && at < MODULE_IDS && offset < MODULE_IDS
    requires Distance(cursor, at) < Distance(cursor, offset)
    ensures Distance((at + 1) % MODULE_IDS, offset) < Distance(cursor, offset)
  {
  }

  lemma SameDistance(cursor: nat, a: nat, b: nat)
    requires cursor < MODULE_IDS && a < MODULE_IDS && b < MODULE_IDS && Distance(cursor, a) == Distance(cursor, b)
    ensures a == b
  {
  }

  /** An eligible node the scan has not passed yet is served, or another one before it. */
  lemma {:induction false} ScanIsFair(e: Engine, left: nat, now: nat, id: byte)
    requires EngineOk(e) && left <= MODULE_IDS && IsModule(id) && Eligible(e, id)
    requires Distance(e.identifyCursor, OffsetOf(id)) >= MODULE_IDS - left
    ensures var (e', r) := ScanIdentify(e, left, now); Fair(e, e', id) && r != Nothing
    decreases left
  {
    hide Core.Shape, Admits, Identifies, IdentifiesOf;
    AtDistance(e.identifyCursor, left);
    var at := (e.identifyCursor + (MODULE_IDS - left)) % MODULE_IDS;
    if Distance(e.identifyCursor, OffsetOf(id)) == MODULE_IDS - left {
      SameDistance(e.identifyCursor, at, OffsetOf(id));
    }
    if !Eligible(e, AtOffset(at)) {
      ScanIsFair(e, left - 1, now, id);
    } else if Admits(e, AtOffset(at)) {
      OneMore(e.transcript, Issue(e.superframe, IdentifyTx, NodeOf(e.t, AtOffset(at)).backplane, AtOffset(at),
        e.health.bus.fault), id);
      if at != OffsetOf(id) { DistanceAfter(e.identifyCursor, at, OffsetOf(id)); }
    }
  }

  // ---------------------------------------------------------------- the rest of the plan

  lemma ResumeIsIdle(e: Engine, at: byte, now: nat, id: byte)
    requires EngineOk(e) && IsModule(at) && IsModule(id) && Reading(e, at)
    ensures Idle(e, ResumeRead(e, at, now).0, id)
  {
    hide Identifies, IdentifiesOf, Admits, Find;
    var found := Find(e.t, NodeOf(e.t, at).key);
    if found.Some? {
      OneMore(e.transcript, Issue(e.superframe, ReadDescTx, NodeOf(e.t, at).backplane, at, e.health.bus.fault), id);
    }
  }

  lemma {:induction false} HeldIsIdle(e: Engine, now: nat, id: byte)
    requires EngineOk(e) && e.hold.Some? && IsModule(id)
    ensures Idle(e, ServeHeld(e, now).0, id)
    decreases |e.ring|
  {
    hide Identifies, IdentifiesOf, Admits;
    var c := e.hold.value;
    if e.ring != [] { HeldIsIdle(e.(hold := Some(e.ring[0]), ring := e.ring[1..]), now, id); }
    if IsModule(c.nodeId) {
      OneMore(e.transcript, Issue(e.superframe, ReadDescTx, NodeOf(e.t, c.nodeId).backplane, c.nodeId,
        e.health.bus.fault), id);
    }
  }

  lemma RingIsIdle(e: Engine, now: nat, id: byte)
    requires EngineOk(e) && IsModule(id)
    ensures Idle(e, ServeRing(e, now).0, id)
  {
    hide Identifies, IdentifiesOf, ServeHeld;
    if e.hold.Some? {
      HeldIsIdle(e, now, id);
    } else if e.ring != [] {
      HeldIsIdle(e.(hold := Some(e.ring[0]), ring := e.ring[1..]), now, id);
    }
  }

  lemma {:induction false} SweepIsIdle(e: Engine, at: nat, now: nat, id: byte)
    requires EngineOk(e) && ADDR_MODULE_MIN <= at <= ADDR_MODULE_MAX + 1 && IsModule(id)
    ensures Idle(e, Sweep(e, at, now).0, id)
    decreases ADDR_MODULE_MAX + 1 - at
  {
    hide Idle, ResumeRead;
    if at > ADDR_MODULE_MAX {
      IdleSame(e, id);
    } else if !Reading(e, at) || NodeOf(e.t, at).stalled != 0 {
      SweepIsIdle(e, at + 1, now, id);
    } else {
      ResumeIsIdle(e, at, now, id);
      var (e1, r) := ResumeRead(e, at, now);
      if r == Nothing {
        SweepIsIdle(e1, at + 1, now, id);
        IdleThen(e, e1, Sweep(e1, at + 1, now).0, id);
      }
    }
  }

  lemma IdleSame(e: Engine, id: byte)
    requires EngineOk(e) && IsModule(id)
    ensures Idle(e, e, id)
  {
  }

  lemma {:induction false} RetryIsIdle(e: Engine, left: nat, now: nat, id: byte)
    requires EngineOk(e) && left <= MODULE_IDS && IsModule(id)
    ensures Idle(e, RetryStalled(e, left, now).0, id)
    decreases left
  {
    hide Idle, ResumeRead;
    if left == 0 {
      IdleSame(e, id);
    } else {
      var offset := (e.retryCursor + (MODULE_IDS - left)) % MODULE_IDS;
      if !RetryDue(e, AtOffset(offset)) {
        RetryIsIdle(e, left - 1, now, id);
      } else {
        ResumeIsIdle(e, AtOffset(offset), now, id);
        var (e1, r) := ResumeRead(e, AtOffset(offset), now);
        if r == Nothing {
          RetryIsIdle(e1, left - 1, now, id);
          IdleThen(e, e1, RetryStalled(e1, left - 1, now).0, id);
        } else {
          IdleCursor(e, e1, (offset + 1) % MODULE_IDS, id);
        }
      }
    }
  }

  lemma IdleCursor(e: Engine, e1: Engine, cursor: nat, id: byte)
    requires EngineOk(e) && EngineOk(e1) && IsModule(id) && Idle(e, e1, id) && cursor < MODULE_IDS
    ensures Idle(e, e1.(retryCursor := cursor), id)
  {
  }

  lemma PassesAreFair(e: Engine, now: nat, id: byte)
    requires EngineOk(e) && IsModule(id) && Eligible(e, id)
    ensures Fair(e, TwoPasses(e, now).0, id)
  {
    hide Idle, Turn, RetryStalled, ScanIdentify;
    RetryIsIdle(e, MODULE_IDS, now, id);
    ScanIsFair(e, MODULE_IDS, now, id);
    if e.superframe % 2 == 1 {
      var (e1, r) := RetryStalled(e, MODULE_IDS, now);
      if r == Nothing {
        StillEligible(e, e1, id);
        ScanIsFair(e1, MODULE_IDS, now, id);
        IdleThen(e, e1, ScanIdentify(e1, MODULE_IDS, now).0, id);
      }
    }
  }

  lemma StillEligible(e: Engine, e': Engine, id: byte)
    requires EngineOk(e) && EngineOk(e') && IsModule(id) && Idle(e, e', id) && Eligible(e, id)
    ensures Eligible(e', id)
  {
  }

  lemma DemandIsFair(e: Engine, now: nat, id: byte)
    requires EngineOk(e) && IsModule(id) && Eligible(e, id)
    ensures Fair(e, IssueDemand(e, now).0, id)
  {
    hide Idle, Turn, ServeRing, Sweep, TwoPasses;
    IdleSame(e, id);
    RingIsIdle(e, now, id);
    var (e1, r1) := ServeRing(e, now);
    if r1 == Nothing {
      SweepIsIdle(e1, ADDR_MODULE_MIN, now, id);
      var (e2, r2) := Sweep(e1, ADDR_MODULE_MIN, now);
      IdleThen(e, e1, e2, id);
      if r2 == Nothing {
        StillEligible(e, e2, id);
        PassesAreFair(e2, now, id);
        IdleThen(e, e2, TwoPasses(e2, now).0, id);
      }
    }
  }

  lemma {:induction false} PollIsIdle(e: Engine, now: nat, id: byte)
    requires EngineOk(e) && IsModule(id)
    ensures Idle(e, IssuePoll(e, now).0, id)
    decreases ADDR_BACKPLANE_MAX + 1 - e.pollCursor
  {
    hide Identifies, IdentifiesOf, Core.Shape, H.PollDue, H.MarkPolled;
    if e.pollCursor <= ADDR_BACKPLANE_MAX {
      PollIsIdle(e.(pollCursor := e.pollCursor + 1), now, id);
      var addr: byte := e.pollCursor;
      OneMore(e.transcript, Issue(e.superframe, if e.superframe % 2 == 1 then SlotMapPoll else StatusPoll, addr, addr,
                                  H.MarkPolled(e.health, addr, now).bus.fault), id);
    }
  }

  lemma ProbeIsIdle(e: Engine, now: nat, id: byte)
    requires EngineOk(e) && IsModule(id)
    ensures Idle(e, IssueProbe(e, now).0, id)
  {
    hide Identifies, IdentifiesOf, Core.Shape, H.NextProbe;
    var (health, probe) := H.NextProbe(e.health, now);
    OneMore(e.transcript, Issue(e.superframe, ProbeTx, probe.addr, probe.addr, health.bus.fault), id);
  }

  /** A plan that has not issued yet has not moved the scan. */
  lemma NotIssuedIsIdle(e: Engine, now: nat, id: byte)
    requires EngineOk(e) && IsModule(id) && Eligible(e, id) && !IssueDemand(e, now).1
    ensures Idle(e, IssueDemand(e, now).0, id)
  {
    hide Idle, ServeRing, Sweep, RetryStalled, ScanIdentify;
    IdleSame(e, id);
    RingIsIdle(e, now, id);
    var (e1, r1) := ServeRing(e, now);
    if r1 == Nothing {
      SweepIsIdle(e1, ADDR_MODULE_MIN, now, id);
      var (e2, r2) := Sweep(e1, ADDR_MODULE_MIN, now);
      IdleThen(e, e1, e2, id);
      if r2 == Nothing {
        StillEligible(e, e2, id);
        RetryIsIdle(e2, MODULE_IDS, now, id);
        ScanRefused(e2, MODULE_IDS, now, id);
        var (e3, r3) := RetryStalled(e2, MODULE_IDS, now);
        StillEligible(e2, e3, id);
        ScanIsFair(e2, MODULE_IDS, now, id);
        ScanRefused(e3, MODULE_IDS, now, id);
        IdleThen(e, e2, e3, id);
        IdleThen(e, e3, ScanIdentify(e3, MODULE_IDS, now).0, id);
        IdleThen(e, e2, ScanIdentify(e2, MODULE_IDS, now).0, id);
      }
    }
  }

  lemma {:induction false} ScanRefused(e: Engine, left: nat, now: nat, id: byte)
    requires EngineOk(e) && left <= MODULE_IDS && IsModule(id)
    ensures ScanIdentify(e, left, now).1 != Issued ==> Idle(e, ScanIdentify(e, left, now).0, id)
    decreases left
  {
    hide Core.Shape, Admits;
    if left > 0 { ScanRefused(e, left - 1, now, id); }
  }

  lemma NextIsFair(e: Engine, now: nat, id: byte)
    requires EngineOk(e) && IsModule(id) && Eligible(e, id)
    ensures Fair(e, IssueNext(e, now).0, id)
  {
    hide Idle, Turn, IssuePoll, IssueDemand, IssueProbe, EngineOk;
    IdleSame(e, id);
    PollIsIdle(e, now, id);
    var (e1, done1) := if e.phase == PollPhase then IssuePoll(e, now) else (e, false);
    if !done1 {
      StillEligible(e, e1, id);
      DemandIsFair(e1, now, id);
      var (e2, done2) := if e1.phase == DemandPhase then IssueDemand(e1, now) else (e1, false);
      IdleThen(e, e1, e2, id);
      if !done2 {
        if e1.phase == DemandPhase { NotIssuedIsIdle(e1, now, id); } else { IdleSame(e1, id); }
        IdleThen(e, e1, e2, id);
        var e3 := if e2.phase == DemandPhase then e2.(phase := ProbePhase) else e2;
        PhaseOnly(e, e2, id, e3.phase);
        ProbeIsIdle(e3, now, id);
        IdleThen(e, e3, IssueProbe(e3, now).0, id);
      }
    }
  }

  lemma PhaseOnly(e: Engine, e2: Engine, id: byte, phase: Phase)
    requires EngineOk(e) && EngineOk(e2) && IsModule(id) && Idle(e, e2, id)
    ensures EngineOk(e2.(phase := phase)) && Idle(e, e2.(phase := phase), id)
  {
  }

  // ---------------------------------------------------------------- runs

  /** The node is eligible in the state this call makes its plan from. */
  predicate EligibleAt(e: Engine, c: CoreRuns.Call, id: byte)
    requires EngineOk(e) && IsModule(id)
  {
    c.Superframe? ==> Eligible(Complete(e, c.ev, c.now), id)
  }

  function RunFrom(e: Engine, calls: seq<CoreRuns.Call>): (e': Engine)
    requires EngineOk(e)
    ensures EngineOk(e')
  {
    if calls == [] then e else CoreRuns.Step(RunFrom(e, calls[..|calls| - 1]), calls[|calls| - 1])
  }

  predicate StaysEligible(e: Engine, calls: seq<CoreRuns.Call>, id: byte)
    requires EngineOk(e) && IsModule(id)
  {
    calls == [] ||
    (StaysEligible(e, calls[..|calls| - 1], id) && EligibleAt(RunFrom(e, calls[..|calls| - 1]), calls[|calls| - 1], id))
  }

  lemma CompleteIssuesNothing(e: Engine, ev: Event, now: nat)
    requires EngineOk(e)
    ensures Complete(e, ev, now).transcript == e.transcript && Complete(e, ev, now).identifyCursor == e.identifyCursor
  {
    hide Core.Shape, H.Shape, OnIdentity, OnChunk, Reconcile, Stall;
  }

  /** Cursor and counts only: what a call does to the scan. */
  predicate Advanced(e: Engine, e': Engine, id: byte)
    requires EngineOk(e) && EngineOk(e') && IsModule(id)
  {
    || Turn(e, e', id)
    || (e'.identifyCursor == e.identifyCursor && Identifies(e'.transcript) == Identifies(e.transcript) &&
        IdentifiesOf(e'.transcript, id) == IdentifiesOf(e.transcript, id))
  }

  lemma StepAdvances(e: Engine, c: CoreRuns.Call, id: byte)
    requires EngineOk(e) && IsModule(id) && EligibleAt(e, c, id)
    ensures Advanced(e, CoreRuns.Step(e, c), id)
  {
    hide Identifies, IdentifiesOf, Complete, IssueNext, Reconcile, Core.Shape, H.Shape, H.Tick;
    if c.Superframe? {
      CompleteIssuesNothing(e, c.ev, c.now);
      var e1 := Complete(e, c.ev, c.now);
      if e1.tx.kind == NoTx {
        var e2 := if e1.superframeOpen then e1 else OpenSuperframe(e1, c.now);
        NextIsFair(e2, c.now, id);
      }
    }
  }

  lemma {:induction false} RunAdvances(e: Engine, calls: seq<CoreRuns.Call>, id: byte)
    requires EngineOk(e) && IsModule(id) && StaysEligible(e, calls, id)
    requires IdentifiesOf(RunFrom(e, calls).transcript, id) == IdentifiesOf(e.transcript, id)
    ensures var e' := RunFrom(e, calls);
      Identifies(e'.transcript) - Identifies(e.transcript) + Distance(e'.identifyCursor, OffsetOf(id)) <=
      Distance(e.identifyCursor, OffsetOf(id))
  {
    hide Identifies, IdentifiesOf, CoreRuns.Step, EligibleAt;
    if calls != [] {
      var n := |calls| - 1;
      var e1 := RunFrom(e, calls[..n]);
      StepAdvances(e1, calls[n], id);
      NeverFewer(e, calls[..n], id);
      RunAdvances(e, calls[..n], id);
    }
  }

  lemma {:induction false} NeverFewer(e: Engine, calls: seq<CoreRuns.Call>, id: byte)
    requires EngineOk(e) && IsModule(id) && StaysEligible(e, calls, id)
    ensures IdentifiesOf(RunFrom(e, calls).transcript, id) >= IdentifiesOf(e.transcript, id)
  {
    hide Identifies, IdentifiesOf, CoreRuns.Step, EligibleAt;
    if calls != [] {
      NeverFewer(e, calls[..|calls| - 1], id);
      StepAdvances(RunFrom(e, calls[..|calls| - 1]), calls[|calls| - 1], id);
    }
  }

  /** While a node stays eligible and unserved, fewer IDENTIFYs go out than there are ids. */
  lemma BoundedBypass(e: Engine, calls: seq<CoreRuns.Call>, id: byte)
    requires EngineOk(e) && IsModule(id) && StaysEligible(e, calls, id)
    ensures Identifies(RunFrom(e, calls).transcript) - Identifies(e.transcript) >= MODULE_IDS ==>
      IdentifiesOf(RunFrom(e, calls).transcript, id) > IdentifiesOf(e.transcript, id)
  {
    hide Identifies, IdentifiesOf, CoreRuns.Step, RunFrom, StaysEligible;
    NeverFewer(e, calls, id);
    if IdentifiesOf(RunFrom(e, calls).transcript, id) == IdentifiesOf(e.transcript, id) { RunAdvances(e, calls, id); }
  }
}
