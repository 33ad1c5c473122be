/** What holds of the core after any run: coherent cache, id bijection, sound health, and an ordered transcript. */
module CoreRuns {
  import opened Protocol
  import opened Core
  import opened CoreSchedule
  import CoreCache
  import CoreSlots
  import H = Health
  import HI = HealthInvariants

  // ---------------------------------------------------------------- the invariants

  predicate Sound(t: Tables)
    requires Core.Shape(t)
  {
    CoreCache.Coherent(t) && CoreSlots.Bijection(t)
  }

  /** An IDENTIFY in flight is for a node that is not Discovered. */
  predicate TxOk(e: Engine)
    requires EngineOk(e)
  {
    && (e.tx.kind == IdentifyTx ==> IsModule(e.tx.node) && NodeOf(e.t, e.tx.node).discovery != Discovered)
    && (e.tx.kind == ReadDescTx ==> IsModule(e.tx.node))
  }

  predicate IsPoll(k: TxKind) {
    k == StatusPoll || k == SlotMapPoll
  }

  predicate IsDemand(k: TxKind) {
    k == IdentifyTx || k == ReadDescTx
  }

  /** Polls, then demand, then the probe. */
  function Rank(k: TxKind): nat {
    if IsPoll(k) then 0 else if IsDemand(k) then 1 else 2
  }

  /** How two requests of one superframe may follow each other. */
  predicate Follows(x: Issue, y: Issue) {
    x.superframe == y.superframe ==>
      && Rank(x.kind) <= Rank(y.kind)
      && (IsPoll(x.kind) && IsPoll(y.kind) ==> x.addr < y.addr)
      && x.kind != ProbeTx
  }

  predicate Ordered(transcript: seq<Issue>) {
    && (forall i, j :: 0 <= i < j < |transcript| ==>
      transcript[i].superframe <= transcript[j].superframe && Follows(transcript[i], transcript[j]))
    && (forall x :: x in transcript ==> x.kind != NoTx && (x.fault ==> x.kind == ProbeTx))
  }

  /** What the phase reached says of the requests already issued in this superframe. */
  predicate PhaseOk(e: Engine) {
    && (e.superframeOpen || e.phase == ClosedPhase)
    && e.phase != ProbePhase
    && (e.phase != ClosedPhase ==> !e.probeIssued)
    && (forall x :: x in e.transcript ==>
      x.superframe <= e.superframe && (x.superframe == e.superframe ==> Allowed(e, x)))
  }

  predicate Allowed(e: Engine, x: Issue) {
    match e.phase
    case PollPhase => IsPoll(x.kind) && x.addr < e.pollCursor
    case DemandPhase => IsPoll(x.kind) || IsDemand(x.kind)
    case _ => true
  }

  predicate Inv(e: Engine)
    requires EngineOk(e)
  {
    Sound(e.t) && TxOk(e) && HI.Inv(e.health) && Ordered(e.transcript) && PhaseOk(e)
  }

  // ---------------------------------------------------------------- demand

  /** A demand step leaves the plan alone, and issues one demand request or none. */
  predicate Did(e: Engine, e': Engine, r: Resume)
    requires EngineOk(e) && EngineOk(e')
  {
    && e'.health == e.health && e'.superframe == e.superframe && e'.superframeOpen == e.superframeOpen
      && e'.phase == e.phase
    && e'.pollCursor == e.pollCursor && e'.probeIssued == e.probeIssued
    && if r == Issued then
         && IsDemand(e'.tx.kind) && IsModule(e'.tx.node) && TxOk(e')
         && e'.transcript == e.transcript + [Issue(e.superframe, e'.tx.kind, e'.tx.addr, e'.tx.node,
           e.health.bus.fault)]
       else e'.tx == e.tx && e'.transcript == e.transcript
  }

  lemma DidThen(e: Engine, e1: Engine, e2: Engine, r: Resume)
    requires EngineOk(e) && EngineOk(e1) && EngineOk(e2) && Did(e, e1, Nothing) && Did(e1, e2, r)
    ensures Did(e, e2, r)
  {
  }

  lemma ResumeKeeps(e: Engine, id: byte, now: nat)
    requires EngineOk(e) && Sound(e.t) && IsModule(id) && Reading(e, id)
    ensures var (e', r) := ResumeRead(e, id, now); Sound(e'.t) && Did(e, e', r)
  {
    hide CoreCache.Coherent, CoreSlots.Bijection, MarkDiscovered, H.Shape, Admits;
    var n := NodeOf(e.t, id);
    var found := Find(e.t, n.key);
    if found.None? {
      CoreCache.Reword(e.t, id, n.(discovery := Identifying));
      CoreSlots.NodeSlots(e.t, id, n.(discovery := Identifying));
      CoreSlots.SameSlotsKeep(e.t, PutNode(e.t, id, n.(discovery := Identifying)));
    } else if e.t.entries[found.value].complete {
      CoreCache.WaiterHasNone(e.t, id);
      CoreCache.MarkKeeps(e.t, id, found.value);
      CoreSlots.MarkSlots(e.t, id, found.value);
      CoreSlots.SameSlotsKeep(e.t, MarkDiscovered(e.t, id, found.value));
    }
  }

  lemma {:induction false} HeldKeeps(e: Engine, now: nat)
    requires EngineOk(e) && e.hold.Some?
    ensures var (e', r) := ServeHeld(e, now); e'.t == e.t && Did(e, e', r)
    decreases |e.ring|
  {
    hide Core.Shape, H.Shape, Admits, Reading;
    if e.ring != [] { HeldKeeps(e.(hold := Some(e.ring[0]), ring := e.ring[1..]), now); }
  }

  lemma RingKeeps(e: Engine, now: nat)
    requires EngineOk(e)
    ensures var (e', r) := ServeRing(e, now); e'.t == e.t && Did(e, e', r)
  {
    hide ServeHeld, Core.Shape, H.Shape;
    if e.hold.Some? {
      HeldKeeps(e, now);
    } else if e.ring != [] {
      HeldKeeps(e.(hold := Some(e.ring[0]), ring := e.ring[1..]), now);
    }
  }

  lemma {:induction false} SweepKeeps(e: Engine, id: nat, now: nat)
    requires EngineOk(e) && Sound(e.t) && ADDR_MODULE_MIN <= id <= ADDR_MODULE_MAX + 1
    ensures var (e', r) := Sweep(e, id, now); Sound(e'.t) && Did(e, e', r)
    decreases ADDR_MODULE_MAX + 1 - id
  {
    hide Sound, Did, ResumeRead, Core.Shape, H.Shape;
    if id > ADDR_MODULE_MAX {
      DidNothing(e);
    } else if !Reading(e, id) || NodeOf(e.t, id).stalled != 0 {
      SweepKeeps(e, id + 1, now);
    } else {
      ResumeKeeps(e, id, now);
      var (e1, r) := ResumeRead(e, id, now);
      if r == Nothing {
        SweepKeeps(e1, id + 1, now);
        DidThen(e, e1, Sweep(e1, id + 1, now).0, Sweep(e1, id + 1, now).1);
      }
    }
  }

  lemma DidNothing(e: Engine)
    requires EngineOk(e)
    ensures Did(e, e, Nothing) && Did(e, e, Refused)
  {
  }

  lemma {:induction false} ScanKeeps(e: Engine, left: nat, now: nat)
    requires EngineOk(e) && Sound(e.t) && left <= MODULE_IDS
    ensures var (e', r) := ScanIdentify(e, left, now); Sound(e'.t) && Did(e, e', r)
    decreases left
  {
    hide CoreCache.Coherent, CoreSlots.Bijection, H.Shape, Admits;
    if left > 0 {
      var id := AtOffset((e.identifyCursor + (MODULE_IDS - left)) % MODULE_IDS);
      if !Unidentified(e, id) {
        ScanKeeps(e, left - 1, now);
      } else {
        var n := NodeOf(e.t, id).(discovery := Identifying);
        CoreCache.Reword(e.t, id, n);
        CoreSlots.NodeSlots(e.t, id, n);
        CoreSlots.SameSlotsKeep(e.t, PutNode(e.t, id, n));
      }
    }
  }

  lemma {:induction false} RetryKeeps(e: Engine, left: nat, now: nat)
    requires EngineOk(e) && Sound(e.t) && left <= MODULE_IDS
    ensures var (e', r) := RetryStalled(e, left, now); Sound(e'.t) && Did(e, e', r)
    decreases left
  {
    hide Sound, Did, ResumeRead, Core.Shape, H.Shape;
    if left == 0 {
      DidNothing(e);
    } else {
      var offset := (e.retryCursor + (MODULE_IDS - left)) % MODULE_IDS;
      var id := AtOffset(offset);
      if !RetryDue(e, id) {
        RetryKeeps(e, left - 1, now);
      } else {
        ResumeKeeps(e, id, now);
        var (e1, r) := ResumeRead(e, id, now);
        if r == Nothing {
          RetryKeeps(e1, left - 1, now);
          DidThen(e, e1, RetryStalled(e1, left - 1, now).0, RetryStalled(e1, left - 1, now).1);
        } else {
          CursorOnly(e, e1, r, (offset + 1) % MODULE_IDS);
        }
      }
    }
  }

  lemma CursorOnly(e: Engine, e1: Engine, r: Resume, cursor: nat)
    requires EngineOk(e) && EngineOk(e1) && Did(e, e1, r) && cursor < MODULE_IDS
    ensures Did(e, e1.(retryCursor := cursor), r)
  {
  }

  lemma PassesKeep(e: Engine, now: nat)
    requires EngineOk(e) && Sound(e.t)
    ensures var (e', r) := TwoPasses(e, now); Sound(e'.t) && Did(e, e', r)
  {
    hide Sound, Did, RetryStalled, ScanIdentify, Core.Shape, H.Shape;
    RetryKeeps(e, MODULE_IDS, now);
    ScanKeeps(e, MODULE_IDS, now);
    var (e1, r1) := RetryStalled(e, MODULE_IDS, now);
    var (e2, r2) := ScanIdentify(e, MODULE_IDS, now);
    if e.superframe % 2 == 1 {
      if r1 == Nothing {
        ScanKeeps(e1, MODULE_IDS, now);
        DidThen(e, e1, ScanIdentify(e1, MODULE_IDS, now).0, ScanIdentify(e1, MODULE_IDS, now).1);
      }
    } else {
      if r2 == Nothing {
        RetryKeeps(e2, MODULE_IDS, now);
        DidThen(e, e2, RetryStalled(e2, MODULE_IDS, now).0, RetryStalled(e2, MODULE_IDS, now).1);
      }
    }
  }

  lemma DemandKeeps(e: Engine, now: nat)
    requires EngineOk(e) && Sound(e.t)
    ensures var (e', issued) := IssueDemand(e, now); Sound(e'.t) && Did(e, e', if issued then Issued else Nothing)
    ensures e.health.bus.fault ==> IssueDemand(e, now) == (e, false)
  {
    hide Sound, Did, ServeRing, Sweep, TwoPasses, Core.Shape, H.Shape;
    DidNothing(e);
    if !e.health.bus.fault {
      RingKeeps(e, now);
      var (e1, r1) := ServeRing(e, now);
      RefusedIsNothing(e, e1, r1);
      if r1 == Nothing {
        SweepKeeps(e1, ADDR_MODULE_MIN, now);
        var (e2, r2) := Sweep(e1, ADDR_MODULE_MIN, now);
        DidThen(e, e1, e2, r2);
        RefusedIsNothing(e, e2, r2);
        if r2 == Nothing {
          PassesKeep(e2, now);
          var (e3, r3) := TwoPasses(e2, now);
          DidThen(e, e2, e3, r3);
          RefusedIsNothing(e, e3, r3);
        }
      }
    }
  }

  lemma RefusedIsNothing(e: Engine, e': Engine, r: Resume)
    requires EngineOk(e) && EngineOk(e') && Did(e, e', r)
    ensures r != Issued ==> Did(e, e', Nothing)
  {
  }

  // ---------------------------------------------------------------- the plan

  lemma Append(transcript: seq<Issue>, x: Issue)
    requires Ordered(transcript) && x.kind != NoTx && (x.fault ==> x.kind == ProbeTx)
    requires forall y :: y in transcript ==> y.superframe <= x.superframe && Follows(y, x)
    ensures Ordered(transcript + [x])
  {
    hide Follows;
  }

  lemma {:induction false} PollPhaseKeeps(e: Engine, now: nat)
    requires EngineOk(e) && Inv(e) && e.phase == PollPhase && e.tx.kind == NoTx
    ensures Inv(IssuePoll(e, now).0)
    ensures !IssuePoll(e, now).1 ==> IssuePoll(e, now).0.phase == DemandPhase && IssuePoll(e, now).0.tx.kind == NoTx
    decreases ADDR_BACKPLANE_MAX + 1 - e.pollCursor
  {
    hide Sound, HI.Inv, Follows, Core.Shape, H.PollDue, H.MarkPolled;
    if e.pollCursor <= ADDR_BACKPLANE_MAX {
      var addr: byte := e.pollCursor;
      var e1 := e.(pollCursor := e.pollCursor + 1);
      if !Enrolled(e, addr) || !H.PollDue(e.health, addr, now) {
        PollPhaseKeeps(e1, now);
      } else {
        DueMeansNoFault(e.health, addr, now);
        HI.MarkPolledKeeps(e.health, addr, now);
        var kind := if e.superframe % 2 == 1 then SlotMapPoll else StatusPoll;
        var x := Issue(e.superframe, kind, addr, addr, false);
        forall y | y in e.transcript ensures y.superframe <= x.superframe && Follows(y, x) {
          PollFollows(e, y, x);
        }
        Append(e.transcript, x);
      }
    }
  }

  lemma PollFollows(e: Engine, y: Issue, x: Issue)
    requires PhaseOk(e) && e.phase == PollPhase && y in e.transcript
    requires x.superframe == e.superframe && IsPoll(x.kind) && x.addr >= e.pollCursor
    ensures y.superframe <= x.superframe && Follows(y, x)
  {
  }

  lemma DueMeansNoFault(health: H.Tracker, addr: byte, now: nat)
    requires H.Shape(health) && H.PollDue(health, addr, now)
    ensures !health.bus.fault && !H.MarkPolled(health, addr, now).bus.fault && H.IsNode(addr)
  {
  }

  lemma DemandPhaseKeeps(e: Engine, now: nat)
    requires EngineOk(e) && Inv(e) && e.phase == DemandPhase && e.tx.kind == NoTx
    ensures var (e', issued) := IssueDemand(e, now);
      Inv(e') && e'.phase == DemandPhase && (!issued ==> e'.tx.kind == NoTx)
  {
    hide Sound, HI.Inv, Follows, Core.Shape, H.Shape, IssueDemand;
    DemandKeeps(e, now);
    var (e', issued) := IssueDemand(e, now);
    if issued {
      var x := Issue(e.superframe, e'.tx.kind, e'.tx.addr, e'.tx.node, e.health.bus.fault);
      forall y | y in e.transcript ensures y.superframe <= x.superframe && Follows(y, x) {
        DemandFollows(e, y, x);
      }
      Append(e.transcript, x);
    }
  }

  lemma DemandFollows(e: Engine, y: Issue, x: Issue)
    requires PhaseOk(e) && e.phase == DemandPhase && y in e.transcript
    requires x.superframe == e.superframe && IsDemand(x.kind)
    ensures y.superframe <= x.superframe && Follows(y, x)
  {
  }

  /** The end of the plan: the demand phase is over and the probe goes out, at most once. */
  lemma ProbePhaseKeeps(e: Engine, now: nat)
    requires EngineOk(e) && Inv(e) && e.phase == DemandPhase && e.tx.kind == NoTx
    ensures var (e', issued) := IssueProbe(e.(phase := ProbePhase), now);
      Inv(e') && e'.phase == ClosedPhase && (!issued ==> e'.tx.kind == NoTx)
  {
    hide Sound, HI.Inv, Follows, Core.Shape, H.Shape, H.NextProbe;
    var (health, probe) := H.NextProbe(e.health, now);
    HI.NextProbeKeeps(e.health, now);
    var x := Issue(e.superframe, ProbeTx, probe.addr, probe.addr, health.bus.fault);
    forall y | y in e.transcript ensures y.superframe <= x.superframe && Follows(y, x) {
      ProbeFollows(e, y, x);
    }
    Append(e.transcript, x);
  }

  lemma ProbeFollows(e: Engine, y: Issue, x: Issue)
    requires PhaseOk(e) && e.phase == DemandPhase && y in e.transcript
    requires x.superframe == e.superframe && x.kind == ProbeTx
    ensures y.superframe <= x.superframe && Follows(y, x)
  {
  }

  lemma NextKeeps(e: Engine, now: nat)
    requires EngineOk(e) && Inv(e) && e.superframeOpen && e.tx.kind == NoTx
    ensures var (e', issued) := IssueNext(e, now);
      Inv(e') && (!issued ==> e'.phase == ClosedPhase && e'.tx.kind == NoTx)
  {
    hide Inv, IssuePoll, IssueDemand, IssueProbe, EngineOk;
    NotProbing(e);
    if e.phase == PollPhase { PollPhaseKeeps(e, now); }
    var (e1, done1) := if e.phase == PollPhase then IssuePoll(e, now) else (e, false);
    if !done1 && e1.phase == DemandPhase {
      DemandPhaseKeeps(e1, now);
      var (e2, done2) := IssueDemand(e1, now);
      if !done2 { ProbePhaseKeeps(e2, now); }
    }
  }

  lemma NotProbing(e: Engine)
    requires EngineOk(e) && Inv(e)
    ensures e.phase != ProbePhase
  {
  }

  // ---------------------------------------------------------------- answers

  lemma ChargeKeeps(e: Engine, answered: bool, now: nat)
    requires EngineOk(e) && Inv(e)
    ensures Inv(Charge(e, answered, now))
  {
    hide CoreCache.Coherent, CoreSlots.Bijection, HI.Inv, H.OnResult, Ordered;
    HI.OnResultKeeps(e.health, e.tx.addr, answered, now);
    var d := Spend(e, now);
    var t1 := if IsBackplane(e.tx.addr) then
      PutBackplane(e.t, e.tx.addr, BackplaneOf(e.t, e.tx.addr).(lastDuration := d)) else e.t;
    CoreCache.SameCacheKeeps(e.t, t1);
    CoreSlots.SameSlotsKeep(e.t, t1);
    if IsModule(e.tx.node) {
      var n := NodeOf(t1, e.tx.node).(lastDuration := d);
      CoreCache.AnnotateKeeps(t1, e.tx.node, n);
      CoreSlots.NodeSlots(t1, e.tx.node, n);
      CoreSlots.SameSlotsKeep(t1, PutNode(t1, e.tx.node, n));
    }
  }

  lemma StallSound(t: Tables, id: byte, superframe: nat)
    requires Core.Shape(t) && Sound(t) && IsModule(id)
    ensures Sound(Stall(t, id, superframe))
  {
    hide CoreCache.Coherent, CoreSlots.Bijection;
    CoreCache.StallKeeps(t, id, superframe);
    CoreSlots.NodeSlots(t, id, NodeOf(t, id).(stalled := superframe));
    CoreSlots.SameSlotsKeep(t, Stall(t, id, superframe));
  }

  lemma IdentitySound(t: Tables, ring: seq<Chunk>, id: byte, key: Key)
    requires Core.Shape(t) && Sound(t) && IsModule(id) && |ring| <= MAX_NODES && NodeOf(t, id).discovery != Discovered
    ensures Sound(OnIdentity(t, ring, id, key).0)
  {
    hide CoreCache.Coherent, CoreSlots.Bijection, CoreSlots.SameSlots, OnIdentity;
    CoreCache.IdentityKeeps(t, ring, id, key);
    CoreSlots.IdentitySlots(t, ring, id, key);
    CoreSlots.SameSlotsKeep(t, OnIdentity(t, ring, id, key).0);
  }

  lemma ChunkSound(t: Tables, ring: seq<Chunk>, id: byte, asked: nat, answer: ChunkAnswer, superframe: nat)
    requires Core.Shape(t) && Sound(t) && IsModule(id) && |ring| <= MAX_NODES
    ensures Sound(OnChunk(t, ring, id, asked, answer, superframe).0)
  {
    hide CoreCache.Coherent, CoreSlots.Bijection, CoreSlots.SameSlots, OnChunk;
    CoreCache.ChunkKeeps(t, ring, id, asked, answer, superframe);
    CoreSlots.ChunkSlots(t, ring, id, asked, answer, superframe);
    CoreSlots.SameSlotsKeep(t, OnChunk(t, ring, id, asked, answer, superframe).0);
  }

  lemma ReconcileSound(t: Tables, addr: byte, m: SlotMap)
    requires Core.Shape(t) && Sound(t)
    ensures Sound(Reconcile(t, addr, m))
  {
    hide CoreCache.Coherent, CoreSlots.Bijection, Reconcile;
    CoreCache.ReconcileKeepsCoherence(t, addr, m);
    CoreSlots.ReconcileKeepsBijection(t, addr, m);
  }

  /** With nothing outstanding, sound tables are all that an answer has to leave. */
  lemma Retable(e: Engine, t: Tables, ring: seq<Chunk>)
    requires EngineOk(e) && Inv(e) && e.tx.kind == NoTx && Core.Shape(t) && Sound(t) && |ring| <= MAX_NODES
    ensures Inv(e.(t := t, ring := ring))
  {
    hide Sound, HI.Inv, Ordered, Core.Shape, H.Shape;
  }

  lemma CompleteKeeps(e: Engine, ev: Event, now: nat)
    requires EngineOk(e) && Inv(e)
    ensures Inv(Complete(e, ev, now))
  {
    if ev != Quiet && e.tx.kind != NoTx {
      ChargeKeeps(e, ev.Answered?, now);
      IdentifyTarget(e, ev.Answered?, now);
      var e1, id := Charge(e, ev.Answered?, now), e.tx.node;
      hide Sound, HI.Inv, Ordered, PhaseOk, Charge, OnIdentity, OnChunk, Reconcile, Stall, Push;
      if ev == Failed {
        if e.tx.kind == ReadDescTx {
          StallSound(e1.t, id, e.superframe);
          Retable(e1, Stall(e1.t, id, e.superframe), Push(e1.ring, Chunk(id, e.tx.offset)));
        }
      } else if e.tx.kind == SlotMapPoll && ev.answer.SlotMapAnswer? {
        ReconcileSound(e1.t, e.tx.addr, ev.answer.m);
        Retable(e1, Reconcile(e1.t, e.tx.addr, ev.answer.m), e1.ring);
      } else if e.tx.kind == IdentifyTx && ev.answer.Identity? {
        IdentitySound(e1.t, e1.ring, id, ev.answer.key);
        Retable(e1, OnIdentity(e1.t, e1.ring, id, ev.answer.key).0, OnIdentity(e1.t, e1.ring, id, ev.answer.key).1);
      } else if e.tx.kind == ReadDescTx && ev.answer.DescChunk? {
        var r := OnChunk(e1.t, e1.ring, id, e.tx.offset, ev.answer.answer, e.superframe);
        ChunkSound(e1.t, e1.ring, id, e.tx.offset, ev.answer.answer, e.superframe);
        Retable(e1, r.0, r.1);
      }
    }
  }

  lemma IdentifyTarget(e: Engine, answered: bool, now: nat)
    requires EngineOk(e) && TxOk(e)
    ensures e.tx.kind == IdentifyTx || e.tx.kind == ReadDescTx ==> IsModule(e.tx.node)
    ensures e.tx.kind == IdentifyTx ==> NodeOf(Charge(e, answered, now).t, e.tx.node).discovery != Discovered
    ensures Charge(e, answered, now).superframe == e.superframe
  {
  }

  lemma OpenKeeps(e: Engine, now: nat)
    requires EngineOk(e) && Inv(e) && e.tx.kind == NoTx
    ensures Inv(OpenSuperframe(e, now)) && OpenSuperframe(e, now).superframeOpen
  {
    hide Sound, HI.Inv, H.Tick, Ordered, Core.Shape;
    HI.TickKeeps(e.health, now);
  }

  lemma SuperframeKeeps(e: Engine, ev: Event, now: nat)
    requires EngineOk(e) && Inv(e)
    ensures Inv(RunSuperframe(e, ev, now))
  {
    hide Inv, EngineOk, Complete, OpenSuperframe, IssueNext;
    CompleteKeeps(e, ev, now);
    var e1 := Complete(e, ev, now);
    if e1.tx.kind == NoTx {
      OpenKeeps(e1, now);
      OpenLeavesTx(e1, now);
      var e2 := if e1.superframeOpen then e1 else OpenSuperframe(e1, now);
      NextKeeps(e2, now);
      var (e3, issued) := IssueNext(e2, now);
      if !issued { CloseKeeps(e3); }
    }
  }

  lemma OpenLeavesTx(e: Engine, now: nat)
    requires EngineOk(e)
    ensures OpenSuperframe(e, now).tx == e.tx
  {
  }

  lemma CloseKeeps(e: Engine)
    requires EngineOk(e) && Inv(e) && e.phase == ClosedPhase
    ensures Inv(e.(superframeOpen := false, phase := ClosedPhase))
  {
    hide Sound, HI.Inv, Ordered, Core.Shape, H.Shape;
  }

  // ---------------------------------------------------------------- runs

  datatype Call =
    | Superframe(ev: Event, now: nat)
    | ApplySlotMap(addr: byte, m: SlotMap)
    | DrainCallbacks(max: nat)

  function Step(e: Engine, c: Call): (e': Engine)
    requires EngineOk(e)
    ensures EngineOk(e')
  {
    match c
    case Superframe(ev, now) => RunSuperframe(e, ev, now)
    case ApplySlotMap(addr, m) => e.(t := Reconcile(e.t, addr, m))
    case DrainCallbacks(max) =>
      e.(t := e.t.(lifecycle := if max < |e.t.lifecycle| then e.t.lifecycle[max..] else []))
  }

  function Run(calls: seq<Call>): (e: Engine)
    ensures EngineOk(e)
  {
    if calls == [] then CoreSchedule.Start() else Step(Run(calls[..|calls| - 1]), calls[|calls| - 1])
  }

  lemma ApplyKeeps(e: Engine, addr: byte, m: SlotMap)
    requires EngineOk(e) && Inv(e)
    ensures Inv(e.(t := Reconcile(e.t, addr, m)))
  {
    CoreCache.ReconcileKeepsCoherence(e.t, addr, m);
    CoreSlots.ReconcileKeepsBijection(e.t, addr, m);
    if IsBackplane(addr) {
      CoreSlots.NoneDiscoveredBySlots(CoreSlots.Counted(e.t, addr, m), addr, m, MAX_SLOTS);
    }
    hide CoreCache.Coherent, CoreSlots.Bijection, HI.Inv, Ordered, Slots;
  }

  lemma DrainKeeps(e: Engine, lifecycle: seq<Lifecycle>)
    requires EngineOk(e) && Inv(e) && |lifecycle| <= MAX_NODES
    ensures Inv(e.(t := e.t.(lifecycle := lifecycle)))
  {
    var t := e.t.(lifecycle := lifecycle);
    CoreCache.SameCacheKeeps(e.t, t);
    CoreSlots.SameSlotsKeep(e.t, t);
    hide CoreCache.Coherent, CoreSlots.Bijection, HI.Inv, Ordered;
  }

  lemma StepKeeps(e: Engine, c: Call)
    requires EngineOk(e) && Inv(e)
    ensures Inv(Step(e, c))
  {
    hide Inv, RunSuperframe, Reconcile;
    match c
    case Superframe(ev, now) => SuperframeKeeps(e, ev, now);
    case ApplySlotMap(addr, m) => ApplyKeeps(e, addr, m);
    case DrainCallbacks(max) => DrainKeeps(e, if max < |e.t.lifecycle| then e.t.lifecycle[max..] else []);
  }

  lemma StartIsSound()
    ensures Inv(CoreSchedule.Start())
  {
    hide CoreCache.Coherent, CoreSlots.Bijection, HI.Inv;
    CoreCache.StartIsCoherent();
    CoreSlots.StartIsBijective();
    StartHealth();
  }

  lemma StartHealth()
    ensures HI.Inv(H.Start())
  {
    assert HI.Replay([]) == Some(HI.Nothing());
    assert HI.States(H.Start().recs) == HI.Nothing().states;
  }

  lemma {:induction false} RunKeeps(calls: seq<Call>)
    ensures Inv(Run(calls))
  {
    hide Inv, Step;
    if calls == [] {
      StartIsSound();
    } else {
      RunKeeps(calls[..|calls| - 1]);
      StepKeeps(Run(calls[..|calls| - 1]), calls[|calls| - 1]);
    }
  }

  // ---------------------------------------------------------------- what a run shows

  /** In every reachable state the cache is coherent and ids and slots are in bijection. */
  lemma TablesAlwaysSound(calls: seq<Call>)
    ensures CoreCache.Coherent(Run(calls).t) && CoreSlots.Bijection(Run(calls).t)
  {
    hide CoreCache.Coherent, CoreSlots.Bijection, TxOk, Ordered, PhaseOk, HI.Inv, Run;
    RunKeeps(calls);
  }

  /**
   * Per superframe: status polls in ascending backplane order, then demand, then at most one probe;
   * and nothing but probes while a bus fault stands.
   */
  lemma TranscriptIsOrdered(calls: seq<Call>)
    ensures var tr := Run(calls).transcript;
      && (forall i, j :: 0 <= i < j < |tr| ==> tr[i].superframe <= tr[j].superframe)
      && (forall i, j :: 0 <= i < j < |tr| && tr[i].superframe == tr[j].superframe ==>
        && Rank(tr[i].kind) <= Rank(tr[j].kind)
        && (IsPoll(tr[i].kind) && IsPoll(tr[j].kind) ==> tr[i].addr < tr[j].addr)
        && tr[i].kind != ProbeTx)
      && (forall x :: x in tr && x.fault ==> x.kind == ProbeTx)
  {
    hide Sound, TxOk, PhaseOk, HI.Inv, Run, Rank, IsPoll;
    RunKeeps(calls);
    var tr := Run(calls).transcript;
    forall i, j | 0 <= i < j < |tr| && tr[i].superframe == tr[j].superframe
      ensures Rank(tr[i].kind) <= Rank(tr[j].kind)
      ensures IsPoll(tr[i].kind) && IsPoll(tr[j].kind) ==> tr[i].addr < tr[j].addr
      ensures tr[i].kind != ProbeTx
    {
      assert Follows(tr[i], tr[j]);
    }
  }

  /** A bus fault is declared exactly when every backplane that ever enrolled is failing. */
  lemma FaultInEveryState(calls: seq<Call>)
    ensures var h := Run(calls).health; h.bus.fault <==> H.AllFailing(h.recs)
  {
    hide Sound, TxOk, PhaseOk, Ordered, Run;
    RunKeeps(calls);
  }
}
