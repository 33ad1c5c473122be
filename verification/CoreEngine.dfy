/**
 * The core engine itself: tables, tracker, chunk ring, cursors and budget updated in place, proved against
 * CoreSchedule.
 */
module CoreEngine {
  import opened Protocol
  import opened Ring
  import opened CoreTables
  import HealthTracker
  import H = Health
  import C = Core
  import S = CoreSchedule

  datatype Parts = Parts(t: C.Tables, health: H.Tracker, ring: seq<C.Chunk>)

  class CoreEngine {
    const tables: CoreTables
    const health: HealthTracker.HealthTracker
    const ring: Ring<C.Chunk>

    var hold: Option<C.Chunk>
    var budget: nat
    var superframe: nat
    var superframeOpen: bool
    var phase: S.Phase
    var pollCursor: nat
    var identifyCursor: nat
    var retryCursor: nat
    var probeIssued: bool
    var demandIssued: bool
    var tx: S.Tx
    var wireRate: nat
    var transcript: seq<S.Issue>

    ghost function Repr(): set<object>
      reads health
    {
      {this, health, health.records, ring, ring.storage} + tables.Repr()
    }

    ghost predicate Apart()
      reads health
    {
      && tables.Repr() !! {this, health, health.records, ring, ring.storage}
      && {ring, ring.storage} !! {this, health, health.records}
      && {health, health.records} !! {this}
    }

    /** The three collaborators, which no field of this object can disturb. */
    ghost predicate PartsValid()
      reads health, health.records, ring, ring.storage
      reads tables, tables.nodes, tables.backplanes, tables.entries, tables.lifecycle, tables.lifecycle.storage
    {
      Apart() && tables.Valid() && health.Valid() && tables.RingOk(ring)
    }

    ghost function PartsValue(): Parts
      requires PartsValid()
      reads health, health.records, ring, ring.storage
      reads tables, tables.nodes, tables.backplanes, tables.entries, tables.lifecycle, tables.lifecycle.storage
    {
      Parts(tables.Value(), health.Value(), ring.Contents())
    }

    ghost predicate Valid()
      reads this, health, health.records, ring, ring.storage
      reads tables, tables.nodes, tables.backplanes, tables.entries, tables.lifecycle, tables.lifecycle.storage
    {
      PartsValid() && S.EngineOk(Value())
    }

    ghost function Value(): S.Engine
      requires PartsValid()
      reads this, health, health.records, ring, ring.storage
      reads tables, tables.nodes, tables.backplanes, tables.entries, tables.lifecycle, tables.lifecycle.storage
    {
      var p := PartsValue();
      S.Engine(p.t, p.health, p.ring, hold, budget, superframe, superframeOpen, phase, pollCursor,
               identifyCursor, retryCursor, probeIssued, demandIssued, tx, wireRate, transcript)
    }

    constructor ()
      ensures Valid() && Value() == S.Start() && fresh(Repr())
    {
      hide C.Shape, H.Shape, C.Start, H.Start, S.EngineOk;
      hide CoreTables.Valid, CoreTables.Value, HealthTracker.HealthTracker.Valid, HealthTracker.HealthTracker.Value;
      hide Ring<C.Chunk>.Contents;
      tables := new CoreTables();
      health := new HealthTracker.HealthTracker();
      ring := new Ring<C.Chunk>(MAX_NODES);
      hold, budget, superframe, superframeOpen, phase := None, 0, 0, false, S.ClosedPhase;
      pollCursor, identifyCursor, retryCursor := ADDR_BACKPLANE_MIN, 0, 0;
      probeIssued, demandIssued, tx, wireRate, transcript := false, false, S.IDLE_TX, BIT_RATE, [];
      new;
      StartIsOk();
      assert Apart();
      assert PartsValid() && PartsValue() == Parts(C.Start(), H.Start(), []);
    }

    // The tracker's part of each step.

    method Tick(now: nat)
      requires Valid()
      modifies health, health.records
      ensures Valid() && health.records == old(health.records)
      ensures Value() == old(Value()).(health := H.Tick(old(Value()).health, now))
    {
      hide C.Shape, H.Shape, H.Tick;
      health.Tick(now);
    }

    method ReportResult(addr: byte, answered: bool, now: nat)
      requires Valid()
      modifies health, health.records
      ensures Valid() && health.records == old(health.records)
      ensures Value() == old(Value()).(health := H.OnResult(old(Value()).health, addr, answered, now))
    {
      hide C.Shape, H.Shape, H.OnResult;
      health.OnResult(addr, answered, now);
    }

    method MarkPolled(addr: byte, now: nat)
      requires Valid()
      modifies health, health.records
      ensures Valid() && health.records == old(health.records)
      ensures Value() == old(Value()).(health := H.MarkPolled(old(Value()).health, addr, now))
    {
      hide C.Shape, H.Shape, H.MarkPolled;
      health.MarkPolled(addr, now);
    }

    // One request.

    method Begin(kind: S.TxKind, addr: byte, node: byte, offset: nat, now: nat)
      requires Valid()
      modifies this`tx, this`transcript
      ensures Valid() && Value() == S.Begin(old(Value()), kind, addr, node, offset, now)
    {
      hide C.Shape, H.Shape;
      tx := S.Tx(kind, addr, node, offset, now);
      transcript := transcript + [S.Issue(superframe, kind, addr, node, health.bus.fault)];
    }

    method Admits(id: byte) returns (b: bool)
      requires Valid() && C.IsModule(id)
      ensures b <==> S.Admits(Value(), id)
    {
      if !demandIssued { return true; }
      var measured := tables.nodes[id - ADDR_MODULE_MIN].lastDuration;
      var estimate := if measured != 0 then measured else S.WorstCase(wireRate);
      return estimate <= budget;
    }

    method BeginChunk(id: byte, offset: nat, now: nat)
      requires Valid() && C.IsModule(id)
      modifies this`tx, this`transcript, this`demandIssued
      ensures Valid() && Value() == S.BeginChunk(old(Value()), id, offset, now)
    {
      Begin(S.ReadDescTx, tables.nodes[id - ADDR_MODULE_MIN].backplane, id, offset, now);
      demandIssued := true;
    }

    // Demand.

    method ResumeRead(id: byte, now: nat) returns (r: S.Resume)
      requires Valid() && C.IsModule(id)
      modifies Repr()
      ensures Valid() && Repr() == old(Repr())
      ensures (Value(), r) == S.ResumeRead(old(Value()), id, now)
    {
      hide C.Find, C.MarkDiscovered, C.Shape, H.Shape, S.Admits, S.BeginChunk, PartsValid, PartsValue, S.EngineOk;
      var n := NodeAt(id);
      var found, complete, received := HeldBytes(n.key);
      if found.None? {
        StoreNode(id, n.(discovery := C.Identifying));
        return S.Nothing;
      }
      if complete {
        Discover(id, found.value);
        return S.Nothing;
      }
      var admitted := Admits(id);
      if !admitted || received >= MAX_DESCRIPTOR_BYTES { return S.Refused; }
      BeginChunk(id, received, now);
      return S.Issued;
    }

    /** The entry kept for a key, and how far it has got. */
    method HeldBytes(key: C.Key) returns (found: Option<nat>, complete: bool, received: nat)
      requires Valid()
      ensures found == C.Find(Value().t, key)
      ensures found.Some? ==>
        && found.value < C.CACHE_ENTRIES && |Value().t.entries| == C.CACHE_ENTRIES
        && complete == Value().t.entries[found.value].complete
        && received == |Value().t.entries[found.value].blob|
    {
      hide C.Find, H.Shape;
      found := tables.Find(key);
      complete, received := false, 0;
      if found.Some? {
        FoundInRange(tables.Value(), key);
        complete, received := tables.entries[found.value].complete, |tables.entries[found.value].blob|;
      }
    }

    method Discover(id: byte, i: nat)
      requires Valid() && C.IsModule(id) && i < C.CACHE_ENTRIES
      modifies Repr()
      ensures Valid() && Repr() == old(Repr())
      ensures Value() == old(Value()).(t := C.MarkDiscovered(old(Value()).t, id, i))
    {
      hide C.MarkDiscovered, C.Shape, H.Shape;
      tables.MarkDiscovered(id, i);
    }

    /** The next queued chunk into the hold, if the hold is empty. */
    method Refill() returns (any: bool)
      requires Valid()
      modifies this`hold, ring
      ensures Valid()
      ensures var e := old(Value());
        Value() == if e.hold.None? && e.ring != [] then e.(hold := Some(e.ring[0]), ring := e.ring[1..]) else e
      ensures any <==> hold.Some?
    {
      hide C.Shape, H.Shape;
      if hold.None? { hold := ring.Pop(); }
      any := hold.Some?;
    }

    /** The held item dropped if it is stale or stalled, else asked for if the budget admits it. */
    method TryHeld(now: nat) returns (done: bool, r: S.Resume)
      requires Valid() && hold.Some?
      modifies this
      ensures Valid()
      ensures done ==> (Value(), r) == S.ServeHeld(old(Value()), now)
      ensures !done ==> Value() == old(Value()).(hold := None)
      ensures !done ==> S.ServeHeld(old(Value()), now) == S.ServeRing(Value(), now)
    {
      hide C.Shape, H.Shape, S.Admits, S.Reading, S.BeginChunk, PartsValid, PartsValue, S.EngineOk;
      var c := hold.value;
      var live := Live(c);
      if !live {
        DropHeld();
        return false, S.Nothing;
      }
      var admitted := Admits(c.nodeId);
      if !admitted || c.offset >= MAX_DESCRIPTOR_BYTES { return true, S.Refused; }
      BeginChunk(c.nodeId, c.offset, now);
      DropHeld();
      return true, S.Issued;
    }

    method DropHeld()
      requires Valid()
      modifies this`hold
      ensures Valid() && Value() == old(Value()).(hold := None)
    {
      hide C.Shape, H.Shape, PartsValid, PartsValue, S.EngineOk;
      S.CursorsOk(Value());
      hold := None;
      S.StaysOk(old(Value()), Value());
    }

    method ServeRing(now: nat) returns (r: S.Resume)
      requires Valid()
      modifies this, ring
      ensures Valid()
      ensures (Value(), r) == S.ServeRing(old(Value()), now)
    {
      hide C.Shape, H.Shape, S.Admits, S.ServeHeld, PartsValid, PartsValue, S.EngineOk;
      var any := Refill();
      while any
        invariant Valid() && (any <==> hold.Some?)
        invariant any ==> S.ServeHeld(Value(), now) == S.ServeRing(old(Value()), now)
        invariant !any ==> (Value(), S.Nothing) == S.ServeRing(old(Value()), now)
        decreases |Value().ring|, any
      {
        var done;
        done, r := TryHeld(now);
        if done { return; }
        any := Refill();
      }
      return S.Nothing;
    }

    /** The item still names a node reading its descriptor and not stalled. */
    method Live(c: C.Chunk) returns (b: bool)
      requires Valid()
      ensures b <==> C.IsModule(c.nodeId) && S.Reading(Value(), c.nodeId) && C.NodeOf(Value().t, c.nodeId).stalled == 0
    {
      if !C.IsModule(c.nodeId) { return false; }
      var n := tables.nodes[c.nodeId - ADDR_MODULE_MIN];
      return n.inUse && n.discovery == C.ReadingDescriptor && n.stalled == 0;
    }

    method Sweep(now: nat) returns (r: S.Resume)
      requires Valid()
      modifies Repr()
      ensures Valid() && Repr() == old(Repr())
      ensures (Value(), r) == S.Sweep(old(Value()), ADDR_MODULE_MIN, now)
    {
      hide C.Shape, H.Shape, S.ResumeRead, S.Reading;
      var id := ADDR_MODULE_MIN;
      while id <= ADDR_MODULE_MAX
        invariant ADDR_MODULE_MIN <= id <= ADDR_MODULE_MAX + 1 && Valid() && Repr() == old(Repr())
        invariant S.Sweep(Value(), id, now) == S.Sweep(old(Value()), ADDR_MODULE_MIN, now)
      {
        var live := Live(C.Chunk(id, 0));
        if live {
          r := ResumeRead(id, now);
          if r != S.Nothing { return r; }
        }
        id := id + 1;
      }
      return S.Nothing;
    }

    method ScanIdentify(now: nat) returns (r: S.Resume)
      requires Valid()
      modifies this, tables.nodes
      ensures Valid()
      ensures (Value(), r) == S.ScanIdentify(old(Value()), MODULE_IDS, now)
    {
      hide H.Shape, S.Admits;
      var n := 0;
      while n < MODULE_IDS
        invariant 0 <= n <= MODULE_IDS && Valid() && Value() == old(Value())
        invariant S.ScanIdentify(Value(), MODULE_IDS - n, now) == S.ScanIdentify(old(Value()), MODULE_IDS, now)
      {
        var offset := (identifyCursor + n) % MODULE_IDS;
        var id := S.AtOffset(offset);
        var node := tables.nodes[offset];
        if node.inUse && (node.discovery == C.Undiscovered || node.discovery == C.Identifying) {
          var admitted := Admits(id);
          if !admitted { return S.Refused; }
          Identify(id, offset, now);
          return S.Issued;
        }
        n := n + 1;
      }
      return S.Nothing;
    }

    method Identify(id: byte, offset: nat, now: nat)
      requires Valid() && C.IsModule(id) && offset < MODULE_IDS
      modifies this, tables.nodes
      ensures Valid()
      ensures var e := old(Value()); var n := C.NodeOf(e.t, id);
        Value() == S.Begin(e, S.IdentifyTx, n.backplane, id, 0, now).(
          identifyCursor := (offset + 1) % MODULE_IDS,
          t := C.PutNode(e.t, id, n.(discovery := C.Identifying)), demandIssued := true)
    {
      hide C.Shape, H.Shape, PartsValid, PartsValue, S.EngineOk;
      var node := NodeAt(id);
      Begin(S.IdentifyTx, node.backplane, id, 0, now);
      MoveScan((offset + 1) % MODULE_IDS);
      StoreNode(id, node.(discovery := C.Identifying));
    }

    method NodeAt(id: byte) returns (n: C.Node)
      requires Valid() && C.IsModule(id)
      ensures n == C.NodeOf(Value().t, id)
    {
      n := tables.nodes[id - ADDR_MODULE_MIN];
    }

    method StoreNode(id: byte, n: C.Node)
      requires Valid() && C.IsModule(id)
      modifies tables.nodes
      ensures Valid() && Value() == old(Value()).(t := C.PutNode(old(Value()).t, id, n))
    {
      hide C.Shape, H.Shape;
      tables.SetNode(id, n);
    }

    /** The scan starts here next time; demand has been issued. */
    method MoveScan(cursor: nat)
      requires Valid() && cursor < MODULE_IDS
      modifies this`identifyCursor, this`demandIssued
      ensures Valid() && Value() == old(Value()).(identifyCursor := cursor, demandIssued := true)
    {
      hide C.Shape, H.Shape, PartsValid, PartsValue, S.EngineOk;
      S.ScanCursorOk(Value(), cursor);
      identifyCursor, demandIssued := cursor, true;
    }

    method RetryStalled(now: nat) returns (r: S.Resume)
      requires Valid()
      modifies Repr()
      ensures Valid() && Repr() == old(Repr())
      ensures (Value(), r) == S.RetryStalled(old(Value()), MODULE_IDS, now)
    {
      hide C.Shape, H.Shape, PartsValid, PartsValue, S.EngineOk, S.RetryStalled;
      var n := 0;
      while n < MODULE_IDS
        invariant 0 <= n <= MODULE_IDS && Valid() && Repr() == old(Repr())
        invariant S.RetryStalled(Value(), MODULE_IDS - n, now) == S.RetryStalled(old(Value()), MODULE_IDS, now)
      {
        r := RetryOne(n, now);
        if r != S.Nothing { return; }
        n := n + 1;
      }
      S.NoneStalled(Value(), now);
      return S.Nothing;
    }

    /** The stalled read `n` places on, if it is due again. */
    method RetryOne(n: nat, now: nat) returns (r: S.Resume)
      requires Valid() && n < MODULE_IDS
      modifies Repr()
      ensures Valid() && Repr() == old(Repr())
      ensures r != S.Nothing ==> (Value(), r) == S.RetryStalled(old(Value()), MODULE_IDS - n, now)
      ensures r == S.Nothing ==>
        S.RetryStalled(Value(), MODULE_IDS - n - 1, now) == S.RetryStalled(old(Value()), MODULE_IDS - n, now)
    {
      hide C.Shape, H.Shape, PartsValid, PartsValue, S.EngineOk, S.RetryStalled, S.ResumeRead, S.RetryDue;
      S.RetryTurn(Value(), MODULE_IDS - n, now);
      var offset := (retryCursor + n) % MODULE_IDS;
      var id := S.AtOffset(offset);
      var due := RetryDue(id);
      if !due { return S.Nothing; }
      r := ResumeRead(id, now);
      if r == S.Issued { MoveRetry((offset + 1) % MODULE_IDS); }
    }

    method MoveRetry(cursor: nat)
      requires Valid() && cursor < MODULE_IDS
      modifies this`retryCursor
      ensures Valid() && Value() == old(Value()).(retryCursor := cursor)
    {
      hide C.Shape, H.Shape, PartsValid, PartsValue, S.EngineOk;
      S.RetryCursorOk(Value(), cursor);
      retryCursor := cursor;
    }

    method RetryDue(id: byte) returns (b: bool)
      requires Valid() && C.IsModule(id)
      ensures b <==> S.RetryDue(Value(), id)
    {
      var n := tables.nodes[id - ADDR_MODULE_MIN];
      return n.inUse && n.discovery == C.ReadingDescriptor && n.stalled != 0 && n.stalled != superframe;
    }

    method TwoPasses(now: nat) returns (r: S.Resume)
      requires Valid()
      modifies Repr()
      ensures Valid() && Repr() == old(Repr())
      ensures (Value(), r) == S.TwoPasses(old(Value()), now)
    {
      hide C.Shape, H.Shape, PartsValid, PartsValue, S.RetryStalled, S.ScanIdentify;
      if superframe % 2 == 1 {
        r := RetryStalled(now);
        if r == S.Nothing { r := ScanIdentify(now); }
      } else {
        r := ScanIdentify(now);
        if r == S.Nothing { r := RetryStalled(now); }
      }
    }

    method IssueDemand(now: nat) returns (issued: bool)
      requires Valid()
      modifies Repr()
      ensures Valid() && Repr() == old(Repr())
      ensures (Value(), issued) == S.IssueDemand(old(Value()), now)
    {
      hide C.Shape, H.Shape, S.ServeRing, S.Sweep, S.TwoPasses;
      if health.bus.fault { return false; }
      var r := ServeRing(now);
      if r != S.Nothing { return r == S.Issued; }
      r := Sweep(now);
      if r != S.Nothing { return r == S.Issued; }
      r := TwoPasses(now);
      return r == S.Issued;
    }

    // The plan.

    method Due(addr: byte, now: nat) returns (b: bool)
      requires Valid()
      ensures b <==> S.Enrolled(Value(), addr) && H.PollDue(Value().health, addr, now)
    {
      hide C.Shape, H.Shape, H.PollDue;
      if H.Notice(H.ENROLLED, addr) !in health.log { return false; }
      b := health.PollDue(addr, now);
    }

    /** The backplane at the cursor: polled if it is enrolled and due. */
    method PollOne(now: nat) returns (issued: bool)
      requires Valid() && pollCursor <= ADDR_BACKPLANE_MAX
      modifies this, health, health.records
      ensures Valid() && health.records == old(health.records)
      ensures issued ==> (Value(), true) == S.IssuePoll(old(Value()), now)
      ensures !issued ==> Value() == old(Value()).(pollCursor := old(pollCursor) + 1)
      ensures !issued ==> S.IssuePoll(Value(), now) == S.IssuePoll(old(Value()), now)
    {
      hide C.Shape, H.Shape, PartsValid, PartsValue, H.PollDue, H.MarkPolled, S.Enrolled, S.EngineOk;
      var addr: byte := pollCursor;
      var due := Due(addr, now);
      MovePoll();
      if !due { return false; }
      MarkPolled(addr, now);
      Begin(if superframe % 2 == 1 then S.SlotMapPoll else S.StatusPoll, addr, addr, 0, now);
      return true;
    }

    method MovePoll()
      requires Valid() && pollCursor <= ADDR_BACKPLANE_MAX
      modifies this`pollCursor
      ensures Valid() && Value() == old(Value()).(pollCursor := old(pollCursor) + 1)
    {
      hide C.Shape, H.Shape, PartsValid, PartsValue, S.EngineOk;
      S.NextPollOk(Value());
      pollCursor := pollCursor + 1;
    }

    method IssuePoll(now: nat) returns (issued: bool)
      requires Valid()
      modifies this, health, health.records
      ensures Valid() && health.records == old(health.records)
      ensures (Value(), issued) == S.IssuePoll(old(Value()), now)
    {
      hide C.Shape, H.Shape, PartsValid, PartsValue, H.PollDue, H.MarkPolled, S.Enrolled;
      while pollCursor <= ADDR_BACKPLANE_MAX
        invariant Valid() && health.records == old(health.records)
        invariant S.IssuePoll(Value(), now) == S.IssuePoll(old(Value()), now)
        decreases ADDR_BACKPLANE_MAX + 1 - pollCursor
      {
        issued := PollOne(now);
        if issued { return; }
      }
      phase := S.DemandPhase;
      return false;
    }

    method NextProbe(now: nat) returns (p: H.Probe)
      requires Valid()
      modifies health, health.records
      ensures Valid() && health.records == old(health.records)
      ensures var (h, probe) := H.NextProbe(old(Value()).health, now);
        p == probe && Value() == old(Value()).(health := h)
    {
      hide C.Shape, H.Shape, H.NextProbe;
      p := health.NextProbe(now);
    }

    method Retune(rate: nat)
      requires Valid() && H.TrunkRate(rate)
      modifies this`wireRate
      ensures Valid() && Value() == old(Value()).(wireRate := rate)
    {
      hide C.Shape, H.Shape, PartsValid, PartsValue;
      if rate != wireRate { wireRate := rate; }
    }

    /** No probe in this superframe but this one. */
    method ClosePlan()
      requires Valid()
      modifies this`phase, this`probeIssued
      ensures Valid() && Value() == old(Value()).(phase := S.ClosedPhase, probeIssued := true)
    {
      hide C.Shape, H.Shape, PartsValid, PartsValue, S.EngineOk;
      S.CursorsOk(Value());
      phase, probeIssued := S.ClosedPhase, true;
      S.StaysOk(old(Value()), Value());
    }

    method IssueProbe(now: nat) returns (issued: bool)
      requires Valid()
      modifies this, health, health.records
      ensures Valid() && health.records == old(health.records)
      ensures (Value(), issued) == S.IssueProbe(old(Value()), now)
    {
      hide C.Shape, H.Shape, H.NextProbe, PartsValid, PartsValue, S.EngineOk;
      var already := probeIssued;
      ClosePlan();
      if already { return false; }
      var probe := NextProbe(now);
      if probe.addr == ADDR_HOST { return false; }
      Retune(probe.bitRate);
      Begin(S.ProbeTx, probe.addr, probe.addr, 0, now);
      return true;
    }

    method IssueNext(now: nat) returns (issued: bool)
      requires Valid()
      modifies Repr()
      ensures Valid() && Repr() == old(Repr())
      ensures (Value(), issued) == S.IssueNext(old(Value()), now)
    {
      hide C.Shape, H.Shape, PartsValid, PartsValue, S.IssuePoll, S.IssueDemand, S.IssueProbe;
      if phase == S.PollPhase {
        issued := IssuePoll(now);
        if issued { return; }
      }
      if phase == S.DemandPhase {
        issued := IssueDemand(now);
        if issued { return; }
        if phase == S.DemandPhase { phase := S.ProbePhase; }
      }
      if phase == S.ProbePhase {
        issued := IssueProbe(now);
        return;
      }
      return false;
    }

    method NextSuperframe()
      requires Valid()
      modifies this`superframe, this`superframeOpen, this`phase
      ensures Valid()
      ensures Value() == old(Value()).(superframe := old(superframe) + 1, superframeOpen := true, phase := S.PollPhase)
    {
      hide C.Shape, H.Shape, PartsValid, PartsValue;
      superframe := superframe + 1;
      superframeOpen, phase := true, S.PollPhase;
    }

    method ResetCursors()
      requires Valid()
      modifies this`pollCursor, this`probeIssued, this`demandIssued, this`budget
      ensures Valid()
      ensures Value() == old(Value()).(pollCursor := ADDR_BACKPLANE_MIN, probeIssued := false, demandIssued := false,
        budget := T_POLL)
    {
      hide C.Shape, H.Shape, PartsValid, PartsValue, S.EngineOk;
      pollCursor, probeIssued, demandIssued := ADDR_BACKPLANE_MIN, false, false;
      budget := T_POLL;
      S.StaysOk(old(Value()), Value());
    }

    method OpenSuperframe(now: nat)
      requires Valid()
      modifies this, health, health.records
      ensures Valid() && health.records == old(health.records)
      ensures Value() == S.OpenSuperframe(old(Value()), now)
    {
      NextSuperframe();
      ResetCursors();
      Tick(now);
    }

    // One terminal event.

    method MeasureBackplane(d: nat)
      requires Valid()
      modifies tables.backplanes
      ensures Valid()
      ensures var t := old(Value()).t;
        Value() == old(Value()).(
          t := if C.IsBackplane(tx.addr) then C.PutBackplane(t, tx.addr, C.BackplaneOf(t, tx.addr).(lastDuration := d))
            else t)
    {
      hide H.Shape;
      if C.IsBackplane(tx.addr) { tables.SetBackplane(tx.addr, tables.backplanes[tx.addr - 1].(lastDuration := d)); }
    }

    method MeasureNode(d: nat)
      requires Valid()
      modifies tables.nodes
      ensures Valid()
      ensures var t := old(Value()).t;
        Value() == old(Value()).(
          t := if C.IsModule(tx.node) then C.PutNode(t, tx.node, C.NodeOf(t, tx.node).(lastDuration := d)) else t)
    {
      hide H.Shape;
      if C.IsModule(tx.node) { tables.SetNode(tx.node, tables.nodes[tx.node - ADDR_MODULE_MIN].(lastDuration := d)); }
    }

    method Spend(d: nat)
      requires Valid()
      modifies this`budget, this`tx
      ensures Valid()
      ensures Value() == old(Value()).(tx := old(tx).(kind := S.NoTx),
        budget := if d >= old(budget) then 0 else old(budget) - d)
    {
      hide C.Shape, H.Shape, PartsValid, PartsValue;
      budget := if d >= budget then 0 else budget - d;
      tx := tx.(kind := S.NoTx);
    }

    method Charge(answered: bool, now: nat)
      requires Valid()
      modifies Repr()
      ensures Valid() && Repr() == old(Repr())
      ensures Value() == S.Charge(old(Value()), answered, now)
    {
      hide C.Shape, H.Shape, PartsValid, PartsValue, H.OnResult;
      var d := if now >= tx.issued then now - tx.issued else 0;
      MeasureBackplane(d);
      MeasureNode(d);
      ReportResult(tx.addr, answered, now);
      Spend(d);
    }

    /** What an answer of the right kind changes in the tables. */
    method Apply(kind: S.TxKind, addr: byte, id: byte, offset: nat, answer: S.Answer)
      requires Valid()
      modifies Repr()
      ensures Valid() && Repr() == old(Repr())
      ensures Value() == S.Apply(old(Value()), kind, addr, id, offset, answer)
    {
      hide C.Shape, H.Shape, C.Reconcile, C.OnIdentity, C.OnChunk;
      if kind == S.SlotMapPoll && answer.SlotMapAnswer? {
        tables.Reconcile(addr, answer.m);
      } else if kind == S.IdentifyTx && answer.Identity? && C.IsModule(id) {
        tables.OnIdentity(ring, id, answer.key);
      } else if kind == S.ReadDescTx && answer.DescChunk? && C.IsModule(id) {
        tables.OnChunk(ring, id, offset, answer.answer, superframe);
      }
    }

    /** A chunk request that failed: the node has spent its attempt, and the item goes back. */
    method Requeue(id: byte, offset: nat)
      requires Valid() && C.IsModule(id)
      modifies Repr()
      ensures Valid() && Repr() == old(Repr())
      ensures var e := old(Value());
        Value() == e.(t := C.Stall(e.t, id, e.superframe), ring := C.Push(e.ring, C.Chunk(id, offset)))
    {
      hide C.Shape, H.Shape, C.Stall;
      tables.Stall(id, superframe);
      var ok := ring.Push(C.Chunk(id, offset));
    }

    method Complete(ev: S.Event, now: nat)
      requires Valid()
      modifies Repr()
      ensures Valid() && Repr() == old(Repr())
      ensures Value() == S.Complete(old(Value()), ev, now)
    {
      if ev == S.Quiet || tx.kind == S.NoTx { return; }
      ChargeLeaves(Value(), ev.Answered?, now);
      hide C.Shape, H.Shape, PartsValid, PartsValue, S.EngineOk, S.Charge, S.Apply, C.Stall, C.Push;
      var kind, addr, id, offset := tx.kind, tx.addr, tx.node, tx.offset;
      Charge(ev.Answered?, now);
      if ev.Answered? {
        Apply(kind, addr, id, offset, ev.answer);
      } else if kind == S.ReadDescTx && C.IsModule(id) {
        Requeue(id, offset);
      }
    }

    /** With nothing outstanding: the next request of this superframe, or of a new one. */
    method Plan(now: nat)
      requires Valid()
      modifies Repr()
      ensures Valid() && Repr() == old(Repr())
      ensures Value() == S.Plan(old(Value()), now)
    {
      hide C.Shape, H.Shape, PartsValid, PartsValue, S.EngineOk, S.IssueNext, S.OpenSuperframe;
      if !superframeOpen { OpenSuperframe(now); }
      var issued := IssueNext(now);
      if !issued { Close(); }
    }

    method Close()
      requires Valid()
      modifies this`superframeOpen, this`phase
      ensures Valid() && Value() == old(Value()).(superframeOpen := false, phase := S.ClosedPhase)
    {
      hide C.Shape, H.Shape, PartsValid, PartsValue;
      superframeOpen := false;
      phase := S.ClosedPhase;
    }

    method RunSuperframe(ev: S.Event, now: nat)
      requires Valid()
      modifies Repr()
      ensures Valid() && Repr() == old(Repr())
      ensures Value() == S.RunSuperframe(old(Value()), ev, now)
    {
      hide C.Shape, H.Shape, PartsValid, PartsValue, S.EngineOk, S.Complete, S.Plan;
      Complete(ev, now);
      if tx.kind != S.NoTx { return; }
      Plan(now);
    }
  }

  lemma ChargeLeaves(e: S.Engine, answered: bool, now: nat)
    requires S.EngineOk(e)
    ensures S.Charge(e, answered, now).superframe == e.superframe
  {
  }

  lemma StartIsOk()
    ensures S.EngineOk(S.Start()) && C.Shape(C.Start()) && H.Shape(H.Start())
  {
  }
}
