/** Over every run no chunk is asked for past the longest descriptor, so no demand is ever stuck. */
module CoreRoom {
  import opened Protocol
  import Crc16
  import opened Core
  import opened CoreSchedule
  import CoreDiscovery
  import CoreDemand
  import CoreRuns
  import H = Health

  /** An entry being read has bytes to come, and room for them. */
  predicate Partial(x: Entry) {
    x.inUse && !x.complete ==> |x.blob| < x.key.len <= MAX_DESCRIPTOR_BYTES
  }

  predicate Parts(t: Tables)
    requires Core.Shape(t)
  {
    forall i :: 0 <= i < CACHE_ENTRIES ==> Partial(t.entries[i])
  }

  /** The same bytes under the same keys; only the counts may differ. */
  predicate SameBytes(t: Tables, t': Tables)
    requires Core.Shape(t) && Core.Shape(t')
  {
    forall i :: 0 <= i < CACHE_ENTRIES ==> t'.entries[i] == t.entries[i].(refcount := t'.entries[i].refcount)
  }

  lemma SameBytesKeep(t: Tables, t': Tables)
    requires Core.Shape(t) && Core.Shape(t') && SameBytes(t, t') && Parts(t)
    ensures Parts(t')
  {
    forall i | 0 <= i < CACHE_ENTRIES ensures Partial(t'.entries[i]) {
      assert Partial(t.entries[i]);
    }
  }

  lemma MarkSame(t: Tables, id: byte, i: nat)
    requires Core.Shape(t) && IsModule(id) && i < CACHE_ENTRIES
    ensures SameBytes(t, MarkDiscovered(t, id, i))
  {
  }

  lemma AttachSame(t: Tables, i: nat)
    requires Core.Shape(t) && i < CACHE_ENTRIES
    ensures SameBytes(t, Attach(t, i, ADDR_MODULE_MIN))
  {
    hide Attach;
    CoreDiscovery.AttachLeavesOthers(t, i, ADDR_MODULE_MIN, ADDR_MODULE_MIN);
  }

  lemma EntryKeeps(t: Tables, i: nat, x: Entry)
    requires Core.Shape(t) && i < CACHE_ENTRIES && Parts(t) && Partial(x)
    ensures Parts(PutEntry(t, i, x))
  {
  }

  lemma IdentityKeepsParts(t: Tables, ring: seq<Chunk>, id: byte, key: Key)
    requires Core.Shape(t) && IsModule(id) && |ring| <= MAX_NODES && Parts(t)
    ensures Parts(OnIdentity(t, ring, id, key).0)
  {
    hide Attach, Claimable, MarkDiscovered, Parts;
    var n, found := NodeOf(t, id), Find(t, key);
    var reading, waiting := n.(key := key, discovery := ReadingDescriptor, stalled := 0),
      n.(key := key, discovery := Identifying, stalled := 0);
    var t1 := PutNode(t, id, reading);
    SameBytesKeep(t, t1);
    SameBytesKeep(t, PutNode(t, id, waiting));
    if found.Some? {
      var hit := PutNode(t, id, n.(key := key));
      MarkSame(hit, id, found.value);
      SameBytesKeep(t, MarkDiscovered(hit, id, found.value));
    } else {
      var i := Claimable(t1, key);
      if i.Some? {
        ClaimableFits(t1, key);
        EntryKeeps(t1, i.value, Claimed(key).(complete := true));
        EntryKeeps(PutNode(t, id, waiting), i.value, Claimed(key).(inUse := false));
        if key.len > 0 { EntryKeeps(t1, i.value, Claimed(key)); }
        var whole := PutEntry(t1, i.value, Claimed(key).(complete := true));
        AttachSame(whole, i.value);
        SameBytesKeep(whole, Attach(whole, i.value, ADDR_MODULE_MIN));
      }
    }
  }

  lemma ClaimableFits(t: Tables, key: Key)
    requires Core.Shape(t)
    ensures Claimable(t, key).Some? ==> key.len <= MAX_DESCRIPTOR_BYTES
  {
  }

  predicate Small(ring: seq<Chunk>) {
    forall c :: c in ring ==> c.offset < MAX_DESCRIPTOR_BYTES
  }

  lemma PushSmall(ring: seq<Chunk>, c: Chunk)
    requires |ring| <= MAX_NODES && Small(ring) && c.offset < MAX_DESCRIPTOR_BYTES
    ensures Small(Push(ring, c))
  {
  }

  lemma IdentityRingSmall(t: Tables, ring: seq<Chunk>, id: byte, key: Key)
    requires Core.Shape(t) && IsModule(id) && |ring| <= MAX_NODES && Small(ring)
    ensures Small(OnIdentity(t, ring, id, key).1)
  {
    hide Attach, Claimable, MarkDiscovered, Small, Find;
    PushSmall(ring, Chunk(id, 0));
  }

  lemma AbandonKeepsParts(t: Tables, id: byte, i: nat)
    requires Core.Shape(t) && IsModule(id) && i < CACHE_ENTRIES && Parts(t)
    ensures Parts(Abandon(t, id, i))
  {
    EntryKeeps(t, i, t.entries[i].(inUse := false));
  }

  lemma ExtendKeepsRoom(t: Tables, ring: seq<Chunk>, id: byte, i: nat, bytes: seq<byte>)
    requires Core.Shape(t) && IsModule(id) && |ring| <= MAX_NODES && i < CACHE_ENTRIES && Parts(t) && Small(ring)
    requires t.entries[i].inUse && !t.entries[i].complete
    ensures var (t', ring') := Extend(t, ring, id, i, bytes); Parts(t') && Small(ring')
  {
    hide Attach, Abandon, Crc16.Crc, Parts, Small;
    var e, e1 := t.entries[i], t.entries[i].(blob := t.entries[i].blob + bytes);
    PartialAt(t, i);
    var t0 := if bytes != [] then Stall(t, id, 0) else t;
    SameBytesKeep(t, t0);
    if |e1.blob| < e.key.len {
      EntryKeeps(t0, i, e1);
      AbandonKeepsParts(PutEntry(t0, i, e1), id, i);
      PushSmall(ring, Chunk(id, |e1.blob|));
    } else if Crc16.Crc(e1.blob) != e.key.crc {
      AbandonOver(t0, id, i, e1);
    } else {
      var whole := PutEntry(PutEntry(t0, i, e1), i, e1.(complete := true));
      EntryKeeps(t0, i, e1.(complete := true));
      assert whole == PutEntry(t0, i, e1.(complete := true));
      AttachSame(whole, i);
      SameBytesKeep(whole, Attach(whole, i, ADDR_MODULE_MIN));
    }
  }

  lemma PartialAt(t: Tables, i: nat)
    requires Core.Shape(t) && i < CACHE_ENTRIES && Parts(t) && t.entries[i].inUse && !t.entries[i].complete
    ensures |t.entries[i].blob| < t.entries[i].key.len <= MAX_DESCRIPTOR_BYTES
  {
    assert Partial(t.entries[i]);
  }

  lemma AbandonOver(t: Tables, id: byte, i: nat, x: Entry)
    requires Core.Shape(t) && IsModule(id) && i < CACHE_ENTRIES && Parts(t)
    ensures Parts(Abandon(PutEntry(t, i, x), id, i))
  {
    EntryKeeps(t, i, x.(inUse := false));
  }

  lemma ChunkKeepsRoom(t: Tables, ring: seq<Chunk>, id: byte, asked: nat, answer: ChunkAnswer, sf: nat)
    requires Core.Shape(t) && IsModule(id) && |ring| <= MAX_NODES && Parts(t) && Small(ring)
    requires asked < MAX_DESCRIPTOR_BYTES
    ensures var (t', ring') := OnChunk(t, ring, id, asked, answer, sf); Parts(t') && Small(ring')
  {
    hide Extend, Abandon, Parts, Small;
    var found := Find(t, NodeOf(t, id).key);
    if found.Some? && !t.entries[found.value].complete {
      var i := found.value;
      PartialAt(t, i);
      SameBytesKeep(t, Stall(t, id, sf));
      PushSmall(ring, Chunk(id, asked));
      PushSmall(ring, Chunk(id, |t.entries[i].blob|));
      AbandonKeepsParts(t, id, i);
      if answer.Bytes? { ExtendKeepsRoom(t, ring, id, i, answer.bytes); }
    }
  }

  // ---------------------------------------------------------------- slot maps

  lemma StepSame(t: Tables, addr: byte, slot: nat, occupied: bool)
    requires Core.Shape(t) && IsBackplane(addr) && slot < MAX_SLOTS
    ensures SameBytes(t, SlotStep(t, addr, slot, occupied))
  {
  }

  lemma {:induction false} SlotsSame(t: Tables, addr: byte, m: SlotMap, n: nat)
    requires Core.Shape(t) && IsBackplane(addr) && n <= MAX_SLOTS
    ensures SameBytes(t, Slots(t, addr, m, n))
  {
    hide SlotStep, Occupied;
    if n > 0 {
      SlotsSame(t, addr, m, n - 1);
      StepSame(Slots(t, addr, m, n - 1), addr, n - 1, Occupied(m, n - 1));
    }
  }

  lemma ReconcileKeepsParts(t: Tables, addr: byte, m: SlotMap)
    requires Core.Shape(t) && Parts(t)
    ensures Parts(Reconcile(t, addr, m))
  {
    hide Slots;
    if IsBackplane(addr) {
      SlotsSame(PutBackplane(t, addr, BackplaneOf(t, addr).(slotCount := SlotCount(m))), addr, m, MAX_SLOTS);
    }
    SameBytesKeep(t, Reconcile(t, addr, m));
  }

  // ---------------------------------------------------------------- the engine

  predicate Room(e: Engine)
    requires EngineOk(e)
  {
    && Parts(e.t) && Small(e.ring) && (e.hold.Some? ==> e.hold.value.offset < MAX_DESCRIPTOR_BYTES)
    && (e.tx.kind == ReadDescTx ==> e.tx.offset < MAX_DESCRIPTOR_BYTES)
  }

  lemma RoomIsRoomy(e: Engine)
    requires EngineOk(e) && Room(e)
    ensures CoreDemand.Roomy(e)
  {
    forall i | 0 <= i < CACHE_ENTRIES && e.t.entries[i].inUse && !e.t.entries[i].complete
      ensures |e.t.entries[i].blob| < MAX_DESCRIPTOR_BYTES
    {
      assert Partial(e.t.entries[i]);
    }
  }

  lemma ResumeKeepsRoom(e: Engine, id: byte, now: nat)
    requires EngineOk(e) && IsModule(id) && Room(e)
    ensures Room(ResumeRead(e, id, now).0)
  {
    hide Parts, MarkDiscovered, FindFrom, Admits;
    var n, found := NodeOf(e.t, id), Find(e.t, NodeOf(e.t, id).key);
    SameBytesKeep(e.t, PutNode(e.t, id, n.(discovery := Identifying)));
    if found.Some? {
      MarkSame(e.t, id, found.value);
      SameBytesKeep(e.t, MarkDiscovered(e.t, id, found.value));
    }
  }

  lemma {:induction false} HeldKeepsRoom(e: Engine, now: nat)
    requires EngineOk(e) && e.hold.Some? && Room(e)
    ensures Room(ServeHeld(e, now).0)
    decreases |e.ring|
  {
    hide Parts, Admits, Reading, H.Shape, Core.Shape;
    if e.ring != [] { HeldKeepsRoom(e.(hold := Some(e.ring[0]), ring := e.ring[1..]), now); }
  }

  lemma RingKeepsRoom(e: Engine, now: nat)
    requires EngineOk(e) && Room(e)
    ensures Room(ServeRing(e, now).0)
  {
    hide Parts, ServeHeld;
    if e.hold.Some? { HeldKeepsRoom(e, now); }
    else if e.ring != [] { HeldKeepsRoom(e.(hold := Some(e.ring[0]), ring := e.ring[1..]), now); }
  }

  lemma {:induction false} SweepKeepsRoom(e: Engine, at: nat, now: nat)
    requires EngineOk(e) && ADDR_MODULE_MIN <= at <= ADDR_MODULE_MAX + 1 && Room(e)
    ensures Room(Sweep(e, at, now).0)
    decreases ADDR_MODULE_MAX + 1 - at
  {
    hide Room, ResumeRead, Reading;
    if at <= ADDR_MODULE_MAX {
      ResumeKeepsRoom(e, at, now);
      SweepKeepsRoom(e, at + 1, now);
      SweepKeepsRoom(ResumeRead(e, at, now).0, at + 1, now);
    }
  }

  lemma {:induction false} ScanKeepsRoom(e: Engine, left: nat, now: nat)
    requires EngineOk(e) && left <= MODULE_IDS && Room(e)
    ensures Room(ScanIdentify(e, left, now).0)
    decreases left
  {
    hide Admits, H.Shape;
    if left > 0 {
      ScanKeepsRoom(e, left - 1, now);
      var id := AtOffset((e.identifyCursor + (MODULE_IDS - left)) % MODULE_IDS);
      SameBytesKeep(e.t, PutNode(e.t, id, NodeOf(e.t, id).(discovery := Identifying)));
    }
  }

  lemma {:induction false} RetryKeepsRoom(e: Engine, left: nat, now: nat)
    requires EngineOk(e) && left <= MODULE_IDS && Room(e)
    ensures Room(RetryStalled(e, left, now).0)
    decreases left
  {
    hide Room, ResumeRead, RetryDue;
    if left > 0 {
      var offset := (e.retryCursor + (MODULE_IDS - left)) % MODULE_IDS;
      var e1 := ResumeRead(e, AtOffset(offset), now).0;
      ResumeKeepsRoom(e, AtOffset(offset), now);
      RetryKeepsRoom(e, left - 1, now);
      RetryKeepsRoom(e1, left - 1, now);
      CursorIsNoRoom(e1, (offset + 1) % MODULE_IDS);
    }
  }

  lemma CursorIsNoRoom(e: Engine, cursor: nat)
    requires EngineOk(e) && Room(e) && cursor < MODULE_IDS
    ensures EngineOk(e.(retryCursor := cursor)) && Room(e.(retryCursor := cursor))
  {
  }

  lemma DemandKeepsRoom(e: Engine, now: nat)
    requires EngineOk(e) && Room(e)
    ensures Room(IssueDemand(e, now).0)
  {
    hide Room, ServeRing, Sweep, RetryStalled, ScanIdentify, EngineOk;
    RingKeepsRoom(e, now);
    var e1 := ServeRing(e, now).0;
    SweepKeepsRoom(e1, ADDR_MODULE_MIN, now);
    var e2 := Sweep(e1, ADDR_MODULE_MIN, now).0;
    RetryKeepsRoom(e2, MODULE_IDS, now);
    ScanKeepsRoom(e2, MODULE_IDS, now);
    ScanKeepsRoom(RetryStalled(e2, MODULE_IDS, now).0, MODULE_IDS, now);
    RetryKeepsRoom(ScanIdentify(e2, MODULE_IDS, now).0, MODULE_IDS, now);
  }

  /** Nothing to do with descriptors. */
  lemma SameRoom(e: Engine, e': Engine)
    requires EngineOk(e) && EngineOk(e') && Room(e) && e'.t.entries == e.t.entries
    requires e'.ring == e.ring && e'.hold == e.hold
    requires e'.tx.kind == ReadDescTx ==> e'.tx == e.tx
    ensures Room(e')
  {
  }

  lemma {:induction false} PollKeepsRoom(e: Engine, now: nat)
    requires EngineOk(e) && Room(e)
    ensures Room(IssuePoll(e, now).0)
    decreases ADDR_BACKPLANE_MAX + 1 - e.pollCursor
  {
    hide Room, Core.Shape, H.PollDue, H.MarkPolled, Enrolled;
    if e.pollCursor > ADDR_BACKPLANE_MAX {
      SameRoom(e, IssuePoll(e, now).0);
    } else {
      var e1 := e.(pollCursor := e.pollCursor + 1);
      SameRoom(e, e1);
      PollKeepsRoom(e1, now);
      if Enrolled(e, e.pollCursor) && H.PollDue(e.health, e.pollCursor, now) { SameRoom(e, IssuePoll(e, now).0); }
    }
  }

  lemma NextKeepsRoom(e: Engine, now: nat)
    requires EngineOk(e) && Room(e)
    ensures Room(IssueNext(e, now).0)
  {
    hide Room, IssuePoll, IssueDemand, IssueProbe, EngineOk;
    PollKeepsRoom(e, now);
    var (e1, done1) := if e.phase == PollPhase then IssuePoll(e, now) else (e, false);
    DemandKeepsRoom(e1, now);
    var (e2, done2) := if e1.phase == DemandPhase then IssueDemand(e1, now) else (e1, false);
    if !done1 && !done2 {
      var e3 := if e2.phase == DemandPhase then e2.(phase := ProbePhase) else e2;
      PhaseOk(e2);
      SameRoom(e2, e3);
      ProbeKeepsRoom(e3, now);
    }
  }

  lemma ProbeKeepsRoom(e: Engine, now: nat)
    requires EngineOk(e) && Room(e)
    ensures Room(IssueProbe(e, now).0)
  {
    hide Room, H.NextProbe, EngineOk;
    SameRoom(e, IssueProbe(e, now).0);
  }

  lemma PhaseOk(e: Engine)
    requires EngineOk(e)
    ensures EngineOk(e.(phase := ProbePhase))
  {
  }

  lemma ApplyKeepsRoom(e: Engine, kind: TxKind, addr: byte, id: byte, offset: nat, answer: Answer)
    requires EngineOk(e) && Room(e) && (kind == ReadDescTx ==> offset < MAX_DESCRIPTOR_BYTES)
    ensures Room(Apply(e, kind, addr, id, offset, answer))
  {
    hide Parts, Small, OnIdentity, OnChunk, Reconcile, H.Shape;
    if answer.SlotMapAnswer? { ReconcileKeepsParts(e.t, addr, answer.m); }
    if answer.Identity? && IsModule(id) {
      IdentityKeepsParts(e.t, e.ring, id, answer.key);
      IdentityRingSmall(e.t, e.ring, id, answer.key);
    }
    if kind == ReadDescTx && answer.DescChunk? && IsModule(id) {
      ChunkKeepsRoom(e.t, e.ring, id, offset, answer.answer, e.superframe);
    }
  }

  lemma CompleteKeepsRoom(e: Engine, ev: Event, now: nat)
    requires EngineOk(e) && Room(e)
    ensures Room(Complete(e, ev, now))
  {
    hide Room, Apply, Charge, Small, EngineOk;
    if ev != Quiet && e.tx.kind != NoTx {
      var e1 := Charge(e, ev.Answered?, now);
      ChargeKeepsRoom(e, ev.Answered?, now);
      TxRoom(e);
      if ev.Answered? {
        ApplyKeepsRoom(e1, e.tx.kind, e.tx.addr, e.tx.node, e.tx.offset, ev.answer);
      } else if e.tx.kind == ReadDescTx && IsModule(e.tx.node) {
        StallKeepsRoom(e1, e.tx.node, e.tx.offset);
      }
    }
  }

  lemma TxRoom(e: Engine)
    requires EngineOk(e) && Room(e)
    ensures e.tx.kind == ReadDescTx ==> e.tx.offset < MAX_DESCRIPTOR_BYTES
  {
  }

  lemma StallKeepsRoom(e: Engine, id: byte, offset: nat)
    requires EngineOk(e) && Room(e) && IsModule(id) && offset < MAX_DESCRIPTOR_BYTES
    ensures var e' := e.(t := Stall(e.t, id, e.superframe), ring := Push(e.ring, Chunk(id, offset)));
      EngineOk(e') && Room(e')
  {
    hide Parts, Small;
    SameBytesKeep(e.t, Stall(e.t, id, e.superframe));
    PushSmall(e.ring, Chunk(id, offset));
  }

  lemma ChargeKeepsRoom(e: Engine, answered: bool, now: nat)
    requires EngineOk(e) && Room(e)
    ensures Room(Charge(e, answered, now)) && Charge(e, answered, now).superframe == e.superframe
  {
    hide Parts, H.OnResult, H.Shape;
    SameBytesKeep(e.t, Charge(e, answered, now).t);
  }

  lemma StepKeepsRoom(e: Engine, c: CoreRuns.Call)
    requires EngineOk(e) && Room(e)
    ensures Room(CoreRuns.Step(e, c))
  {
    hide Room, Complete, IssueNext, Reconcile, H.Tick, Core.Shape;
    match c
    case Superframe(ev, now) =>
      CompleteKeepsRoom(e, ev, now);
      var e1 := Complete(e, ev, now);
      if e1.tx.kind == NoTx {
        var e2 := if e1.superframeOpen then e1 else OpenSuperframe(e1, now);
        SameRoom(e1, e2);
        NextKeepsRoom(e2, now);
        var (e3, issued) := IssueNext(e2, now);
        SameRoom(e3, e3.(superframeOpen := false, phase := ClosedPhase));
      }
    case ApplySlotMap(addr, m) => MapKeepsRoom(e, addr, m);
    case DrainCallbacks(_) => SameRoom(e, CoreRuns.Step(e, c));
  }

  lemma MapKeepsRoom(e: Engine, addr: byte, m: SlotMap)
    requires EngineOk(e) && Room(e)
    ensures EngineOk(e.(t := Reconcile(e.t, addr, m))) && Room(e.(t := Reconcile(e.t, addr, m)))
  {
    hide Reconcile, Parts;
    ReconcileKeepsParts(e.t, addr, m);
  }

  lemma {:induction false} RunKeepsRoom(calls: seq<CoreRuns.Call>)
    ensures Room(CoreRuns.Run(calls))
  {
    hide CoreRuns.Step, Room;
    if calls == [] {
      StartHasRoom();
    } else {
      RunKeepsRoom(calls[..|calls| - 1]);
      StepKeepsRoom(CoreRuns.Run(calls[..|calls| - 1]), calls[|calls| - 1]);
    }
  }

  lemma StartHasRoom()
    ensures Room(CoreSchedule.Start())
  {
  }

  /** In every reachable state without a fault, the superframe's first demand goes out if there is any work for it. */
  lemma WorkIsAskedFor(calls: seq<CoreRuns.Call>, now: nat, id: byte)
    requires IsModule(id)
    ensures var e := CoreRuns.Run(calls);
      !e.demandIssued && !e.health.bus.fault && CoreDemand.Work(e, id) ==> IssueDemand(e, now).1
  {
    hide CoreRuns.Run, Room, CoreDemand.Roomy, CoreDemand.Work, IssueDemand, EngineOk;
    var e := CoreRuns.Run(calls);
    RunKeepsRoom(calls);
    RoomIsRoomy(e);
    if !e.demandIssued && !e.health.bus.fault && CoreDemand.Work(e, id) { CoreDemand.DemandIsNeverIdle(e, now, id); }
  }
}
