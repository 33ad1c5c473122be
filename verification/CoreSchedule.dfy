/** The superframe scheduler over the core's tables and the health tracker, one call at a time. */
module CoreSchedule {
  import opened Protocol
  import opened Core
  import H = Health

  datatype Phase = PollPhase | DemandPhase | ProbePhase | ClosedPhase

  datatype TxKind = NoTx | StatusPoll | SlotMapPoll | ProbeTx | IdentifyTx | ReadDescTx

  /** The transaction outstanding on the trunk. */
  datatype Tx = Tx(kind: TxKind, addr: byte, node: byte, offset: nat, issued: nat)

  /** One request issued: in which superframe, what, to whom, and whether a bus fault stood. */
  datatype Issue = Issue(superframe: nat, kind: TxKind, addr: byte, node: byte, fault: bool)

  datatype Engine = Engine(
    t: Tables,
    health: H.Tracker,
    ring: seq<Chunk>,
    hold: Option<Chunk>,
    budget: nat,
    superframe: nat,
    superframeOpen: bool,
    phase: Phase,
    pollCursor: nat,
    identifyCursor: nat,
    retryCursor: nat,
    probeIssued: bool,
    demandIssued: bool,
    tx: Tx,
    wireRate: nat,
    transcript: seq<Issue>)

  /** What a terminal event carries, as the payload decoders leave it. */
  datatype Answer =
    | Other // a status block, a ping's reply, or anything this kind of request ignores
    | SlotMapAnswer(m: SlotMap)
    | Identity(key: Key)
    | DescChunk(answer: ChunkAnswer)

  datatype Event = Quiet | Failed | Answered(answer: Answer)

  const IDLE_TX: Tx := Tx(NoTx, 0, 0, 0, 0)

  function Start(): Engine {
    Engine(Core.Start(), H.Start(), [], None, 0, 0, false, ClosedPhase, ADDR_BACKPLANE_MIN, 0, 0, false, false, IDLE_TX,
      BIT_RATE, [])
  }

  predicate EngineOk(e: Engine) {
    && Core.Shape(e.t) && H.Shape(e.health)
    && |e.ring| <= MAX_NODES
    && ADDR_BACKPLANE_MIN <= e.pollCursor <= ADDR_BACKPLANE_MAX + 1
    && e.identifyCursor < MODULE_IDS && e.retryCursor < MODULE_IDS
    && H.TrunkRate(e.wireRate)
  }

  /** What EngineOk does not read may change freely. */
  lemma StaysOk(e: Engine, e': Engine)
    requires EngineOk(e) && e'.t == e.t && e'.health == e.health && e'.ring == e.ring
    requires e'.identifyCursor == e.identifyCursor && e'.retryCursor == e.retryCursor && e'.wireRate == e.wireRate
    requires ADDR_BACKPLANE_MIN <= e'.pollCursor <= ADDR_BACKPLANE_MAX + 1
    ensures EngineOk(e')
  {
  }

  lemma NextPollOk(e: Engine)
    requires EngineOk(e) && e.pollCursor <= ADDR_BACKPLANE_MAX
    ensures EngineOk(e.(pollCursor := e.pollCursor + 1))
  {
  }

  lemma ProbedOk(e: Engine, health: H.Tracker, wireRate: nat)
    requires EngineOk(e) && H.Shape(health) && H.TrunkRate(wireRate)
    ensures EngineOk(e.(health := health, wireRate := wireRate)) && EngineOk(e.(health := health))
  {
  }

  lemma CursorsOk(e: Engine)
    requires EngineOk(e)
    ensures e.identifyCursor < MODULE_IDS && e.retryCursor < MODULE_IDS && H.TrunkRate(e.wireRate)
    ensures ADDR_BACKPLANE_MIN <= e.pollCursor <= ADDR_BACKPLANE_MAX + 1
  {
  }

  lemma ScanCursorOk(e: Engine, cursor: nat)
    requires EngineOk(e) && cursor < MODULE_IDS
    ensures EngineOk(e.(identifyCursor := cursor, demandIssued := true))
  {
  }

  lemma RetryCursorOk(e: Engine, cursor: nat)
    requires EngineOk(e) && cursor < MODULE_IDS
    ensures EngineOk(e.(retryCursor := cursor))
  {
  }

  // ---------------------------------------------------------------- issuing one request

  function Begin(e: Engine, kind: TxKind, addr: byte, node: byte, offset: nat, now: nat): (e': Engine)
    ensures EngineOk(e) ==> EngineOk(e')
  {
    e.(tx := Tx(kind, addr, node, offset, now),
       transcript := e.transcript + [Issue(e.superframe, kind, addr, node, e.health.bus.fault)])
  }

  function WorstCase(rate: nat): nat
    requires rate != 0
  {
    2 * MAX_WIRE * ByteTime(rate) + T_TURN_MIN + T_GAP
  }

  function CostEstimate(e: Engine, measured: nat): nat
    requires EngineOk(e)
  {
    if measured != 0 then measured else WorstCase(e.wireRate)
  }

  /** The first demand item of a superframe always fits. */
  predicate Admits(e: Engine, id: byte)
    requires EngineOk(e) && IsModule(id)
  {
    !e.demandIssued || CostEstimate(e, NodeOf(e.t, id).lastDuration) <= e.budget
  }

  datatype Resume = Nothing | Issued | Refused

  function BeginChunk(e: Engine, id: byte, offset: nat, now: nat): (e': Engine)
    requires EngineOk(e) && IsModule(id)
    ensures EngineOk(e')
  {
    Begin(e, ReadDescTx, NodeOf(e.t, id).backplane, id, offset, now).(demandIssued := true)
  }

  // ---------------------------------------------------------------- demand

  predicate Reading(e: Engine, id: byte)
    requires EngineOk(e) && IsModule(id)
  {
    NodeOf(e.t, id).inUse && NodeOf(e.t, id).discovery == ReadingDescriptor
  }

  function ResumeRead(e: Engine, id: byte, now: nat): (r: (Engine, Resume))
    requires EngineOk(e) && IsModule(id)
    ensures EngineOk(r.0)
  {
    var n := NodeOf(e.t, id);
    var found := Find(e.t, n.key);
    if found.None? then (e.(t := PutNode(e.t, id, n.(discovery := Identifying))), Nothing)
    else if e.t.entries[found.value].complete then (e.(t := MarkDiscovered(e.t, id, found.value)), Nothing)
    else if !Admits(e, id) then (e, Refused)
    else if |e.t.entries[found.value].blob| >= MAX_DESCRIPTOR_BYTES then (e, Refused)
    else (BeginChunk(e, id, |e.t.entries[found.value].blob|, now), Issued)
  }

  /** The chunk ring, head first: stale and stalled items are dropped, the first live one is asked for. */
  function ServeRing(e: Engine, now: nat): (r: (Engine, Resume))
    requires EngineOk(e)
    ensures EngineOk(r.0)
    decreases |e.ring|, if e.hold.Some? then 1 else 0
  {
    if e.hold.None? && e.ring == [] then (e, Nothing)
    else if e.hold.None? then ServeHeld(e.(hold := Some(e.ring[0]), ring := e.ring[1..]), now)
    else ServeHeld(e, now)
  }

  function ServeHeld(e: Engine, now: nat): (r: (Engine, Resume))
    requires EngineOk(e) && e.hold.Some?
    ensures EngineOk(r.0)
    decreases |e.ring|, 0
  {
    var c := e.hold.value;
    if !IsModule(c.nodeId) || !Reading(e, c.nodeId) || NodeOf(e.t, c.nodeId).stalled != 0 then
      var e1 := e.(hold := None);
      if e1.ring == [] then (e1, Nothing)
      else ServeHeld(e1.(hold := Some(e1.ring[0]), ring := e1.ring[1..]), now)
    else if !Admits(e, c.nodeId) || c.offset >= MAX_DESCRIPTOR_BYTES then (e, Refused)
    else (BeginChunk(e, c.nodeId, c.offset, now).(hold := None), Issued)
  }

  /** Interrupted reads with nothing queued, from `id` up. */
  function Sweep(e: Engine, id: nat, now: nat): (r: (Engine, Resume))
    requires EngineOk(e) && ADDR_MODULE_MIN <= id <= ADDR_MODULE_MAX + 1
    ensures EngineOk(r.0)
    decreases ADDR_MODULE_MAX + 1 - id
  {
    if id > ADDR_MODULE_MAX then (e, Nothing)
    else if !Reading(e, id) || NodeOf(e.t, id).stalled != 0 then Sweep(e, id + 1, now)
    else
      var (e1, r) := ResumeRead(e, id, now);
      if r == Nothing then Sweep(e1, id + 1, now) else (e1, r)
  }

  function AtOffset(offset: nat): (id: byte)
    requires offset < MODULE_IDS
    ensures IsModule(id)
  {
    ADDR_MODULE_MIN + offset
  }

  predicate Unidentified(e: Engine, id: byte)
    requires EngineOk(e) && IsModule(id)
  {
    var n := NodeOf(e.t, id);
    n.inUse && (n.discovery == Undiscovered || n.discovery == Identifying)
  }

  /** The IDENTIFY scan, `left` ids from its rotating start still to look at. */
  function ScanIdentify(e: Engine, left: nat, now: nat): (r: (Engine, Resume))
    requires EngineOk(e) && left <= MODULE_IDS
    ensures EngineOk(r.0)
    decreases left
  {
    if left == 0 then (e, Nothing)
    else
      var offset := (e.identifyCursor + (MODULE_IDS - left)) % MODULE_IDS;
      var id := AtOffset(offset);
      if !Unidentified(e, id) then ScanIdentify(e, left - 1, now)
      else if !Admits(e, id) then (e, Refused)
      else
        var n := NodeOf(e.t, id);
        var e1 := Begin(e, IdentifyTx, n.backplane, id, 0, now);
        (e1.(identifyCursor := (offset + 1) % MODULE_IDS, t := PutNode(e.t, id, n.(discovery := Identifying)),
          demandIssued := true), Issued)
  }

  predicate RetryDue(e: Engine, id: byte)
    requires EngineOk(e) && IsModule(id)
  {
    Reading(e, id) && NodeOf(e.t, id).stalled != 0 && NodeOf(e.t, id).stalled != e.superframe
  }

  /** The stalled reads, from their own rotating start. */
  function RetryStalled(e: Engine, left: nat, now: nat): (r: (Engine, Resume))
    requires EngineOk(e) && left <= MODULE_IDS
    ensures EngineOk(r.0)
    decreases left
  {
    if left == 0 then (e, Nothing)
    else
      var offset := (e.retryCursor + (MODULE_IDS - left)) % MODULE_IDS;
      var id := AtOffset(offset);
      if !RetryDue(e, id) then RetryStalled(e, left - 1, now)
      else
        var (e1, r) := ResumeRead(e, id, now);
        if r == Nothing then RetryStalled(e1, left - 1, now)
        else (if r == Issued then e1.(retryCursor := (offset + 1) % MODULE_IDS) else e1, r)
  }

  /** One turn of the rotation, and its end. */
  lemma RetryTurn(e: Engine, left: nat, now: nat)
    requires EngineOk(e) && 0 < left <= MODULE_IDS
    ensures var offset := (e.retryCursor + (MODULE_IDS - left)) % MODULE_IDS;
      var id := AtOffset(offset);
      RetryStalled(e, left, now) ==
        if !RetryDue(e, id) then RetryStalled(e, left - 1, now)
        else
          var (e1, r) := ResumeRead(e, id, now);
          if r == Nothing then RetryStalled(e1, left - 1, now)
          else (if r == Issued then e1.(retryCursor := (offset + 1) % MODULE_IDS) else e1, r)
  {
    hide ResumeRead, RetryDue, EngineOk;
  }

  lemma NoneStalled(e: Engine, now: nat)
    requires EngineOk(e)
    ensures RetryStalled(e, 0, now) == (e, Nothing)
  {
    hide EngineOk;
  }

  /** Two passes, taking turns by superframe parity at being first. */
  function TwoPasses(e: Engine, now: nat): (r: (Engine, Resume))
    requires EngineOk(e)
    ensures EngineOk(r.0)
  {
    if e.superframe % 2 == 1 then
      var (e1, r) := RetryStalled(e, MODULE_IDS, now);
      if r == Nothing then ScanIdentify(e1, MODULE_IDS, now) else (e1, r)
    else
      var (e1, r) := ScanIdentify(e, MODULE_IDS, now);
      if r == Nothing then RetryStalled(e1, MODULE_IDS, now) else (e1, r)
  }

  function IssueDemand(e: Engine, now: nat): (r: (Engine, bool))
    requires EngineOk(e)
    ensures EngineOk(r.0)
  {
    if e.health.bus.fault then (e, false)
    else
      var (e1, r1) := ServeRing(e, now);
      if r1 != Nothing then (e1, r1 == Issued)
      else
        var (e2, r2) := Sweep(e1, ADDR_MODULE_MIN, now);
        if r2 != Nothing then (e2, r2 == Issued)
        else
          var (e3, r3) := TwoPasses(e2, now);
          (e3, r3 == Issued)
  }

  // ---------------------------------------------------------------- the plan

  /** The tracker has announced this backplane. */
  predicate Enrolled(e: Engine, addr: byte) {
    H.Notice(H.ENROLLED, addr) in e.health.log
  }

  /** Status polls, ascending from the cursor. */
  function IssuePoll(e: Engine, now: nat): (r: (Engine, bool))
    requires EngineOk(e)
    ensures EngineOk(r.0)
    decreases ADDR_BACKPLANE_MAX + 1 - e.pollCursor
  {
    if e.pollCursor > ADDR_BACKPLANE_MAX then (e.(phase := DemandPhase), false)
    else
      var addr: byte := e.pollCursor;
      var e1 := e.(pollCursor := e.pollCursor + 1);
      if !Enrolled(e, addr) || !H.PollDue(e.health, addr, now) then IssuePoll(e1, now)
      else
        var e2 := e1.(health := H.MarkPolled(e.health, addr, now));
        (Begin(e2, if e.superframe % 2 == 1 then SlotMapPoll else StatusPoll, addr, addr, 0, now), true)
  }

  /** The one enrolment probe. */
  function IssueProbe(e: Engine, now: nat): (r: (Engine, bool))
    requires EngineOk(e)
    ensures EngineOk(r.0)
  {
    var e1 := e.(phase := ClosedPhase, probeIssued := true);
    if e.probeIssued then (e.(phase := ClosedPhase), false)
    else
      var (health, probe) := H.NextProbe(e.health, now);
      var e2 := e1.(health := health);
      if probe.addr == ADDR_HOST then (e2, false)
      else (Begin(e2.(wireRate := probe.bitRate), ProbeTx, probe.addr, probe.addr, 0, now), true)
  }

  function IssueNext(e: Engine, now: nat): (r: (Engine, bool))
    requires EngineOk(e)
    ensures EngineOk(r.0)
  {
    var (e1, done1) := if e.phase == PollPhase then IssuePoll(e, now) else (e, false);
    if done1 then (e1, true)
    else
      var (e2, done2) := if e1.phase == DemandPhase then IssueDemand(e1, now) else (e1, false);
      if done2 then (e2, true)
      else
        var e3 := if e2.phase == DemandPhase then e2.(phase := ProbePhase) else e2;
        if e3.phase == ProbePhase then IssueProbe(e3, now) else (e3, false)
  }

  // ---------------------------------------------------------------- completing one request

  function Spend(e: Engine, now: nat): nat {
    if now >= e.tx.issued then now - e.tx.issued else 0
  }

  /** Budget, health and the two measured durations. */
  function Charge(e: Engine, answered: bool, now: nat): (e': Engine)
    requires EngineOk(e)
    ensures EngineOk(e') && e'.tx.kind == NoTx
  {
    var d := Spend(e, now);
    var t1 := if IsBackplane(e.tx.addr) then
      PutBackplane(e.t, e.tx.addr, BackplaneOf(e.t, e.tx.addr).(lastDuration := d)) else e.t;
    var t2 := if IsModule(e.tx.node) then PutNode(t1, e.tx.node, NodeOf(t1, e.tx.node).(lastDuration := d)) else t1;
    e.(tx := e.tx.(kind := NoTx), t := t2, budget := if d >= e.budget then 0 else e.budget - d,
       health := H.OnResult(e.health, e.tx.addr, answered, now))
  }

  /** What an answer of the right kind changes in the tables. */
  function Apply(e: Engine, kind: TxKind, addr: byte, id: byte, offset: nat, answer: Answer): (e': Engine)
    requires EngineOk(e)
    ensures EngineOk(e') && e'.tx == e.tx
  {
    if kind == SlotMapPoll && answer.SlotMapAnswer? then e.(t := Reconcile(e.t, addr, answer.m))
    else if kind == IdentifyTx && answer.Identity? && IsModule(id) then
      var (t, ring) := OnIdentity(e.t, e.ring, id, answer.key);
      e.(t := t, ring := ring)
    else if kind == ReadDescTx && answer.DescChunk? && IsModule(id) then
      var (t, ring) := OnChunk(e.t, e.ring, id, offset, answer.answer, e.superframe);
      e.(t := t, ring := ring)
    else e
  }

  function Complete(e: Engine, ev: Event, now: nat): (e': Engine)
    requires EngineOk(e)
    ensures EngineOk(e')
  {
    if ev == Quiet || e.tx.kind == NoTx then e
    else
      var e1 := Charge(e, ev.Answered?, now);
      var id := e.tx.node;
      if ev.Answered? then Apply(e1, e.tx.kind, e.tx.addr, id, e.tx.offset, ev.answer)
      else if e.tx.kind == ReadDescTx && IsModule(id) then
        e1.(t := Stall(e1.t, id, e.superframe), ring := Push(e1.ring, Chunk(id, e.tx.offset)))
      else e1
  }

  function OpenSuperframe(e: Engine, now: nat): (e': Engine)
    requires EngineOk(e)
    ensures EngineOk(e')
  {
    e.(superframe := e.superframe + 1, superframeOpen := true, phase := PollPhase, pollCursor := ADDR_BACKPLANE_MIN,
       probeIssued := false, demandIssued := false, budget := T_POLL, health := H.Tick(e.health, now))
  }

  /** With nothing outstanding: the next request of this superframe, or of a new one. */
  function Plan(e: Engine, now: nat): (e': Engine)
    requires EngineOk(e)
    ensures EngineOk(e')
  {
    var e1 := if e.superframeOpen then e else OpenSuperframe(e, now);
    var (e2, issued) := IssueNext(e1, now);
    if issued then e2 else e2.(superframeOpen := false, phase := ClosedPhase)
  }

  /** One call: at most one event applied, then at most one request issued. */
  function RunSuperframe(e: Engine, ev: Event, now: nat): (e': Engine)
    requires EngineOk(e)
    ensures EngineOk(e')
  {
    var e1 := Complete(e, ev, now);
    if e1.tx.kind != NoTx then e1 else Plan(e1, now)
  }
}
