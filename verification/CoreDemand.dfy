/** The demand phase is never idle while a node has an identity to give or a descriptor to go on with. */
module CoreDemand {
  import opened Protocol
  import opened Core
  import opened CoreSchedule
  import opened CoreFairness
  import opened CoreProgress
  import CoreDiscovery
  import H = Health

  /** A node in the middle of a descriptor that is not yet whole. */
  predicate Readable(e: Engine, id: byte)
    requires EngineOk(e) && IsModule(id)
  {
    var n := NodeOf(e.t, id);
    var found := Find(e.t, n.key);
    n.inUse && n.discovery == ReadingDescriptor && found.Some? && !e.t.entries[found.value].complete
  }

  /** Nothing is asked for past the longest descriptor. */
  predicate Roomy(e: Engine)
    requires EngineOk(e)
  {
    && (forall i :: 0 <= i < CACHE_ENTRIES && e.t.entries[i].inUse && !e.t.entries[i].complete ==>
      |e.t.entries[i].blob| < MAX_DESCRIPTOR_BYTES)
    && (forall c :: c in e.ring ==> c.offset < MAX_DESCRIPTOR_BYTES)
    && (e.hold.Some? ==> e.hold.value.offset < MAX_DESCRIPTOR_BYTES)
  }

  /** An identity to ask for, or a chunk that has not already failed in this superframe. */
  predicate Work(e: Engine, id: byte)
    requires EngineOk(e) && IsModule(id)
  {
    Eligible(e, id) || (Readable(e, id) && NodeOf(e.t, id).stalled != e.superframe)
  }

  /** A demand step that issued nothing has lost no work. */
  predicate KeepsWork(e: Engine, e': Engine, id: byte)
    requires EngineOk(e) && EngineOk(e') && IsModule(id)
  {
    && e'.superframe == e.superframe && e'.demandIssued == e.demandIssued && e'.health == e.health
    && (Roomy(e) ==> Roomy(e'))
    && (Eligible(e, id) ==> Eligible(e', id))
    && (Readable(e, id) ==> Readable(e', id) && NodeOf(e'.t, id).stalled == NodeOf(e.t, id).stalled)
  }

  lemma WorkThen(e: Engine, e1: Engine, e2: Engine, id: byte)
    requires EngineOk(e) && EngineOk(e1) && EngineOk(e2) && IsModule(id)
    requires KeepsWork(e, e1, id) && KeepsWork(e1, e2, id)
    ensures KeepsWork(e, e2, id)
  {
    hide Roomy, Eligible, Readable;
  }

  lemma WorkSame(e: Engine, id: byte)
    requires EngineOk(e) && IsModule(id)
    ensures KeepsWork(e, e, id)
  {
    hide Roomy, Eligible, Readable;
  }

  /** The queue served or used up. */
  predicate Drained(e: Engine, e': Engine) {
    && e'.t == e.t && e'.superframe == e.superframe && e'.demandIssued == e.demandIssued && e'.health == e.health
    && e'.ring == [] && e'.hold.None?
  }

  lemma {:induction false} HeldServes(e: Engine, now: nat)
    requires EngineOk(e) && e.hold.Some? && Roomy(e) && !e.demandIssued
    ensures var (e', r) := ServeHeld(e, now); r != Refused && (r == Nothing ==> Drained(e, e'))
    decreases |e.ring|
  {
    hide H.Shape, Core.Shape, Reading;
    if e.ring != [] {
      HeldServes(e.(hold := Some(e.ring[0]), ring := e.ring[1..]), now);
    }
  }

  lemma RingServes(e: Engine, now: nat, id: byte)
    requires EngineOk(e) && IsModule(id) && Roomy(e) && !e.demandIssued
    ensures var (e', r) := ServeRing(e, now); r != Refused && (r == Nothing ==> KeepsWork(e, e', id))
  {
    hide ServeHeld;
    if e.hold.Some? {
      HeldServes(e, now);
    } else if e.ring != [] {
      HeldServes(e.(hold := Some(e.ring[0]), ring := e.ring[1..]), now);
    }
  }

  lemma {:induction false} SameFind(a: seq<Entry>, b: seq<Entry>, key: Key, i: nat)
    requires i <= |a| == |b|
    requires forall j :: 0 <= j < |a| ==> b[j].inUse == a[j].inUse && b[j].key == a[j].key
    ensures FindFrom(b, key, i) == FindFrom(a, key, i)
    decreases |a| - i
  {
    if i < |a| { SameFind(a, b, key, i + 1); }
  }

  lemma MarkKeepsWork(e: Engine, at: byte, i: nat, id: byte)
    requires EngineOk(e) && IsModule(at) && IsModule(id) && Find(e.t, NodeOf(e.t, at).key) == Some(i)
    requires Reading(e, at) && e.t.entries[i].complete
    ensures KeepsWork(e, e.(t := MarkDiscovered(e.t, at, i)), id)
  {
    hide MarkDiscovered, FindFrom;
    CoreDiscovery.MarkTouches(e.t, at, i);
    SameFind(e.t.entries, MarkDiscovered(e.t, at, i).entries, NodeOf(e.t, id).key, 0);
  }

  lemma RewordKeepsWork(e: Engine, at: byte, id: byte)
    requires EngineOk(e) && IsModule(at) && IsModule(id) && Find(e.t, NodeOf(e.t, at).key).None?
    ensures KeepsWork(e, e.(t := PutNode(e.t, at, NodeOf(e.t, at).(discovery := Identifying))), id)
  {
    hide FindFrom;
  }

  /** A read resumed: the chunk is asked for, or the node had nothing left to read. */
  lemma ResumeServes(e: Engine, at: byte, now: nat, id: byte)
    requires EngineOk(e) && IsModule(at) && IsModule(id) && Roomy(e) && !e.demandIssued && Reading(e, at)
    ensures var (e', r) := ResumeRead(e, at, now);
      r != Refused && (Readable(e, at) ==> r == Issued) && (r == Nothing ==> KeepsWork(e, e', id))
  {
    hide FindFrom;
    var found := Find(e.t, NodeOf(e.t, at).key);
    if found.Some? && e.t.entries[found.value].complete {
      MarkKeepsWork(e, at, found.value, id);
    } else if found.None? {
      RewordKeepsWork(e, at, id);
    }
  }

  // ---------------------------------------------------------------- the passes

  lemma ReadableReads(e: Engine, id: byte)
    requires EngineOk(e) && IsModule(id)
    ensures Readable(e, id) ==> Reading(e, id)
  {
  }

  lemma {:induction false} SweepServes(e: Engine, at: nat, now: nat, id: byte)
    requires EngineOk(e) && ADDR_MODULE_MIN <= at <= ADDR_MODULE_MAX + 1 && IsModule(id) && Roomy(e) && !e.demandIssued
    ensures var (e', r) := Sweep(e, at, now);
      && r != Refused && (r == Nothing ==> KeepsWork(e, e', id))
      && (at <= id && Readable(e, id) && NodeOf(e.t, id).stalled == 0 ==> r == Issued)
    decreases ADDR_MODULE_MAX + 1 - at
  {
    hide Eligible, Roomy, ResumeRead, Find, Readable, Reading, H.Shape;
    ReadableReads(e, id);
    if at > ADDR_MODULE_MAX {
      WorkSame(e, id);
    } else if !Reading(e, at) || NodeOf(e.t, at).stalled != 0 {
      SweepServes(e, at + 1, now, id);
    } else {
      ResumeServes(e, at, now, id);
      var (e1, r) := ResumeRead(e, at, now);
      if r == Nothing {
        SweepServes(e1, at + 1, now, id);
        if Sweep(e1, at + 1, now).1 == Nothing { WorkThen(e, e1, Sweep(e1, at + 1, now).0, id); }
      }
    }
  }

  /** The rotation looks at `id` with this much still to go, or later. */
  predicate NotPassed(e: Engine, left: nat, id: byte)
    requires EngineOk(e) && left <= MODULE_IDS && IsModule(id)
  {
    Distance(e.retryCursor, OffsetOf(id)) >= MODULE_IDS - left
  }

  lemma AtTurn(e: Engine, left: nat, id: byte)
    requires EngineOk(e) && 0 < left <= MODULE_IDS && IsModule(id)
    ensures var at := AtOffset((e.retryCursor + (MODULE_IDS - left)) % MODULE_IDS);
      NotPassed(e, left, id) ==> at == id || NotPassed(e, left - 1, id)
  {
    CursorsOk(e);
    AtDistance(e.retryCursor, left);
    var offset := (e.retryCursor + (MODULE_IDS - left)) % MODULE_IDS;
    if Distance(e.retryCursor, OffsetOf(id)) == MODULE_IDS - left {
      SameDistance(e.retryCursor, offset, OffsetOf(id));
    }
    hide EngineOk;
  }

  lemma NonePassed(e: Engine, id: byte)
    requires EngineOk(e) && IsModule(id)
    ensures NotPassed(e, MODULE_IDS, id)
  {
  }

  lemma {:induction false} RetryServes(e: Engine, left: nat, now: nat, id: byte)
    requires EngineOk(e) && left <= MODULE_IDS && IsModule(id) && Roomy(e) && !e.demandIssued
    ensures var (e', r) := RetryStalled(e, left, now);
      && r != Refused && (r == Nothing ==> KeepsWork(e, e', id))
      && (NotPassed(e, left, id) && Readable(e, id) && RetryDue(e, id) ==> r == Issued)
    decreases left
  {
    hide Eligible, Roomy, ResumeRead, Find, Readable, RetryDue, EngineOk, NotPassed, AtOffset;
    if left == 0 {
      WorkSame(e, id);
      AllPassed(e, id);
    } else {
      AtTurn(e, left, id);
      CursorsOk(e);
      var at := AtOffset((e.retryCursor + (MODULE_IDS - left)) % MODULE_IDS);
      RetryTurn(e, left, now);
      if !RetryDue(e, at) {
        RetryServes(e, left - 1, now, id);
      } else {
        DueReads(e, at);
        ResumeServes(e, at, now, id);
        var (e1, r) := ResumeRead(e, at, now);
        if r == Nothing {
          ResumeKeepsCursor(e, at, now);
          SameTurn(e, e1, left - 1, id);
          RetryServes(e1, left - 1, now, id);
          if RetryStalled(e1, left - 1, now).1 == Nothing {
            WorkThen(e, e1, RetryStalled(e1, left - 1, now).0, id);
          }
        }
      }
    }
  }

  lemma AllPassed(e: Engine, id: byte)
    requires EngineOk(e) && IsModule(id)
    ensures !NotPassed(e, 0, id)
  {
  }

  lemma DueReads(e: Engine, at: byte)
    requires EngineOk(e) && IsModule(at) && RetryDue(e, at)
    ensures Reading(e, at)
  {
  }

  /** A step that lost no work, and left the cursor, leaves the rest of the turn as it was. */
  lemma SameTurn(e: Engine, e1: Engine, left: nat, id: byte)
    requires EngineOk(e) && EngineOk(e1) && left <= MODULE_IDS && IsModule(id)
    requires KeepsWork(e, e1, id) && e1.retryCursor == e.retryCursor
    ensures NotPassed(e1, left, id) == NotPassed(e, left, id)
    ensures Readable(e, id) && RetryDue(e, id) ==> Readable(e1, id) && RetryDue(e1, id)
  {
    hide Roomy, Eligible;
  }

  /** A chunk asked for again by the retry pass is this node's, or brings the pass nearer to it. */
  lemma {:induction false} RetryTakesTurns(e: Engine, left: nat, now: nat, id: byte)
    requires EngineOk(e) && left <= MODULE_IDS && IsModule(id) && Roomy(e) && !e.demandIssued
    requires NotPassed(e, left, id) && Readable(e, id) && RetryDue(e, id)
    ensures var (e', r) := RetryStalled(e, left, now);
      && r == Issued && e'.tx.kind == ReadDescTx
      && (e'.tx.node == id ||
          Distance(e'.retryCursor, OffsetOf(id)) < Distance(e.retryCursor, OffsetOf(id)))
    decreases left
  {
    hide Eligible, Roomy, ResumeRead, Find, Readable, RetryDue, EngineOk;
    AllPassed(e, id);
    AtTurn(e, left, id);
    CursorsOk(e);
    AtDistance(e.retryCursor, left);
    var offset := (e.retryCursor + (MODULE_IDS - left)) % MODULE_IDS;
    var at := AtOffset(offset);
    RetryTurn(e, left, now);
    if !RetryDue(e, at) {
      RetryTakesTurns(e, left - 1, now, id);
    } else {
      DueReads(e, at);
      ResumeServes(e, at, now, id);
      ResumeAsks(e, at, now);
      var (e1, r) := ResumeRead(e, at, now);
      if r == Nothing {
        ResumeKeepsCursor(e, at, now);
        SameTurn(e, e1, left - 1, id);
        RetryTakesTurns(e1, left - 1, now, id);
      } else if at != id {
        DistanceAfter(e.retryCursor, offset, OffsetOf(id));
      }
    }
  }

  /** Where the entry stands is where the next chunk is asked for. */
  lemma ResumeAsks(e: Engine, at: byte, now: nat)
    requires EngineOk(e) && IsModule(at)
    ensures var (e', r) := ResumeRead(e, at, now); var found := Find(e.t, NodeOf(e.t, at).key);
      r == Issued ==>
        found.Some? && e'.tx == Tx(ReadDescTx, NodeOf(e.t, at).backplane, at, |e.t.entries[found.value].blob|, now)
  {
    hide MarkDiscovered, Admits, FindFrom;
  }

  lemma ResumeKeepsCursor(e: Engine, at: byte, now: nat)
    requires EngineOk(e) && IsModule(at)
    ensures ResumeRead(e, at, now).1 == Nothing ==> ResumeRead(e, at, now).0.retryCursor == e.retryCursor
  {
    hide Find, MarkDiscovered, EngineOk;
  }

  lemma {:induction false} ScanServes(e: Engine, left: nat, now: nat, id: byte)
    requires EngineOk(e) && left <= MODULE_IDS && IsModule(id) && !e.demandIssued
    ensures var (e', r) := ScanIdentify(e, left, now); r != Refused && (r == Nothing ==> e' == e)
    decreases left
  {
    hide EngineOk, Unidentified;
    if left > 0 { ScanServes(e, left - 1, now, id); }
  }

  lemma PassesServe(e: Engine, now: nat, id: byte)
    requires EngineOk(e) && IsModule(id) && Roomy(e) && !e.demandIssued
    requires Eligible(e, id) || (Readable(e, id) && RetryDue(e, id))
    ensures TwoPasses(e, now).1 == Issued
  {
    CursorsOk(e);
    hide RetryStalled, ScanIdentify, Find, EngineOk, Roomy, Readable, Eligible;
    NonePassed(e, id);
    ScanServes(e, MODULE_IDS, now, id);
    if Eligible(e, id) { ScanAsks(e, MODULE_IDS, now, id); }
    RetryServes(e, MODULE_IDS, now, id);
    var (e1, r) := RetryStalled(e, MODULE_IDS, now);
    if r == Nothing && Eligible(e, id) { ScanAsks(e1, MODULE_IDS, now, id); }
  }

  /**
   * With no fault, a superframe that has asked for nothing yet asks for something, as long as some node has an identity
   * to give or a chunk that has not failed in this very superframe.
   */
  lemma DemandIsNeverIdle(e: Engine, now: nat, id: byte)
    requires EngineOk(e) && IsModule(id) && Roomy(e) && !e.demandIssued && !e.health.bus.fault && Work(e, id)
    ensures IssueDemand(e, now).1
  {
    hide ServeRing, Sweep, TwoPasses, Find, EngineOk, Roomy, Readable, Eligible;
    RingServes(e, now, id);
    var (e1, r1) := ServeRing(e, now);
    if r1 == Nothing {
      SweepServes(e1, ADDR_MODULE_MIN, now, id);
      var (e2, r2) := Sweep(e1, ADDR_MODULE_MIN, now);
      if r2 == Nothing {
        if !Eligible(e2, id) { StillDue(e2, id); }
        PassesServe(e2, now, id);
      }
    }
  }

  lemma StillDue(e: Engine, id: byte)
    requires EngineOk(e) && IsModule(id) && Readable(e, id) && NodeOf(e.t, id).stalled != e.superframe
    requires NodeOf(e.t, id).stalled != 0
    ensures RetryDue(e, id)
  {
  }

  /** The two passes take turns at being first: stalled reads in odd superframes, identities in even ones. */
  lemma PassesTakeTurns(e: Engine, now: nat, a: byte, b: byte)
    requires EngineOk(e) && IsModule(a) && IsModule(b) && Roomy(e) && !e.demandIssued
    requires Eligible(e, a) && Readable(e, b) && RetryDue(e, b)
    ensures var (e', r) := TwoPasses(e, now);
      r == Issued && e'.tx.kind == if e.superframe % 2 == 1 then ReadDescTx else IdentifyTx
  {
    NonePassed(e, b);
    CursorsOk(e);
    hide RetryStalled, ScanIdentify, Find, EngineOk, Roomy, Readable, Eligible, RetryDue, NotPassed;
    ScanAsks(e, MODULE_IDS, now, a);
    RetryTakesTurns(e, MODULE_IDS, now, b);
  }

  /** A chunk waiting to be asked for, its node still reading and not put aside. */
  predicate Live(e: Engine, c: Chunk)
    requires EngineOk(e)
  {
    && IsModule(c.nodeId) && c.offset < MAX_DESCRIPTOR_BYTES
    && var n := NodeOf(e.t, c.nodeId); n.inUse && n.discovery == ReadingDescriptor && n.stalled == 0
  }

  /** The chunk held back, or else the oldest in the queue, comes before all other demand. */
  lemma QueueComesFirst(e: Engine, now: nat)
    requires EngineOk(e) && !e.health.bus.fault && !e.demandIssued
    requires if e.hold.Some? then Live(e, e.hold.value) else e.ring != [] && Live(e, e.ring[0])
    ensures var c := if e.hold.Some? then e.hold.value else e.ring[0]; var (e', issued) := IssueDemand(e, now);
      && issued && e'.tx == Tx(ReadDescTx, NodeOf(e.t, c.nodeId).backplane, c.nodeId, c.offset, now)
      && e'.hold.None? && e'.ring == (if e.hold.Some? then e.ring else e.ring[1..]) && e'.t == e.t
  {
    hide Sweep, TwoPasses, H.Shape, Core.Shape;
  }
}
