/** The tracker itself: a fixed table and a bus record, updated in place, proved against the rules of Health. */
module HealthTracker {
  import opened Protocol
  import opened Health

  class HealthTracker {
    var records: array<Record>
    var nextProbeAddr: byte
    var bus: Bus
    var stats: Stats
    var log: seq<Notice> // the listener's side of every notify

    ghost predicate Valid()
      reads this, records
    {
      records.Length == ADDR_COUNT && Shape(Value())
    }

    ghost function Value(): Tracker
      reads this, records
    {
      Tracker(records[..], nextProbeAddr, bus, stats, log)
    }

    constructor ()
      ensures Valid() && fresh(records) && Value() == Start()
    {
      records := new Record[ADDR_COUNT](i => Record(Unenrolled, 0, 0, 0, 0));
      nextProbeAddr := ADDR_BACKPLANE_MAX;
      bus := Bus(BIT_RATE, false, false, 0, {}, 0, 0, ADDR_BACKPLANE_MIN, BIT_RATE, {}, {}, {});
      stats := Stats(0, 0);
      log := [];
      new;
      assert records[..] == Start().recs;
    }

    method Notify(kind: NoticeKind, addr: byte)
      requires Valid()
      modifies this`log
      ensures Valid() && Value() == Tell(old(Value()), kind, addr)
    {
      log := log + [Notice(kind, addr)];
    }

    /** One field-by-field update of one record. */
    method Store(addr: byte, r: Record)
      requires Valid() && addr < ADDR_COUNT
      modifies records
      ensures Valid() && Value() == Put(old(Value()), addr, r)
    {
      records[addr] := r;
    }

    method ApplyResult(addr: byte, ok: bool, now: nat)
      requires Valid() && addr < ADDR_COUNT
      modifies this`log, records
      ensures Valid() && Value() == Health.ApplyResult(old(Value()), addr, ok, now)
    {
      var r := records[addr];
      match r.state {
        case Unenrolled =>
          if ok {
            Store(addr, r.(state := Enrolled, failures := 0));
            Notify(ENROLLED, addr);
          }
        case Enrolled =>
          if ok {
            Store(addr, r.(failures := 0));
          } else {
            r := r.(failures := r.failures + 1);
            if r.failures >= SUSPECT_AFTER_FAILURES {
              Store(addr, r.(state := Suspect, suspectSince := now));
              Notify(SUSPECT, addr);
            } else {
              Store(addr, r);
            }
          }
        case Suspect =>
          if ok {
            Store(addr, r.(state := Enrolled, failures := 0));
            Notify(RECOVERED, addr);
          } else if Elapsed(now, r.suspectSince) >= OFFLINE_THRESHOLD {
            Store(addr, r.(state := Offline));
            Notify(OFFLINE, addr);
          }
        case Offline =>
          if ok {
            Store(addr, r.(state := Enrolled, failures := 0));
            Notify(RECOVERED, addr);
          }
      }
    }

    method NoteWireRate(rate: nat)
      requires Valid()
      modifies this`bus, this`stats
      ensures Valid() && Value() == Health.NoteWireRate(old(Value()), rate)
    {
      if rate == bus.wireRate { return; }
      bus := bus.(wireRate := rate);
      stats := stats.(rateChanges := stats.rateChanges + 1);
    }

    method NoteProbe(addr: byte, rate: nat, now: nat)
      requires Valid() && addr < ADDR_COUNT
      modifies this`bus, records
      ensures Valid() && Value() == Health.NoteProbe(old(Value()), addr, rate, now)
    {
      if rate == BIT_RATE_FALLBACK {
        bus := bus.(probeFallback := bus.probeFallback + {addr});
      } else {
        bus := bus.(probeFallback := bus.probeFallback - {addr});
      }
      bus := bus.(probeLive := bus.probeLive + {addr});
      bus := bus.(probeAcrossClear := bus.probeAcrossClear - {addr});
      Store(addr, records[addr].(probeIssued := now));
    }

    /** The declare rule's two tallies. */
    method CountFailing() returns (enrolled: nat, failing: nat)
      requires Valid()
      ensures enrolled == Count(records[..], 0)
      ensures failing <= enrolled
      ensures (enrolled != 0 && failing == enrolled) <==> AllFailing(records[..])
    {
      enrolled, failing := 0, 0;
      var i := 0;
      while i < ADDR_COUNT
        invariant 0 <= i <= ADDR_COUNT
        invariant enrolled + Count(records[..], i) == Count(records[..], 0) && failing <= enrolled
        invariant enrolled == 0 <==> forall a :: 0 <= a < i ==> !Left(records[..][a])
        invariant failing == enrolled <==>
          forall a :: 0 <= a < i && Left(records[..][a]) ==> records[..][a].state != Enrolled
      {
        assert records[..][i] == records[i];
        if records[i].state != Unenrolled {
          enrolled := enrolled + 1;
          if records[i].state != Enrolled { failing := failing + 1; }
        }
        i := i + 1;
      }
    }

    method EvaluateDeclare(now: nat)
      requires Valid()
      modifies this`bus, this`stats, this`log
      ensures Valid() && Value() == Health.EvaluateDeclare(old(Value()), now)
    {
      if bus.fault { return; }
      var enrolled, failing := CountFailing();
      if enrolled == 0 || failing != enrolled { return; }
      bus := bus.(fault := true, nextProbeFallback := true, fallbackAnswerer := 0, refPassLeft := 0,
        passAddr := 0, passNext := ADDR_BACKPLANE_MIN);
      ghost var live := bus.probeLive;
      ghost var want := Answerable(old(Value()), now);
      var a := ADDR_BACKPLANE_MIN;
      while a <= ADDR_BACKPLANE_MAX
        invariant ADDR_BACKPLANE_MIN <= a <= ADDR_BACKPLANE_MAX + 1
        invariant bus == old(bus).(fault := true, nextProbeFallback := true, fallbackAnswerer := 0, refPassLeft := 0,
          passAddr := 0, passNext := ADDR_BACKPLANE_MIN, probeLive := bus.probeLive)
        invariant stats == old(stats) && log == old(log)
        invariant forall b :: b in bus.probeLive <==> b in live && !(b < a && b !in want)
      {
        if a in bus.probeLive && Elapsed(now, records[a].probeIssued) > OUTCOME_WINDOW {
          bus := bus.(probeLive := bus.probeLive - {a});
        }
        a := a + 1;
      }
      assert bus.probeLive == want;
      bus := bus.(probeFallback := (bus.probeFallback * bus.probeLive) + (InUseBits(bus.bitRate) - bus.probeLive));
      stats := stats.(busFaults := stats.busFaults + 1);
      Notify(BUS_FAULT, BUS_ADDR);
      Notify(ALERT, BUS_ADDR);
    }

    /** The deferred transitions of a clear at the fallback rate. */
    method EnrolAnswerers(now: nat)
      requires Valid()
      modifies this`log, records
      ensures Valid() && Value() == Health.EnrolAnswerers(old(Value()), ADDR_BACKPLANE_MIN, now)
    {
      ghost var v := Value();
      var a := ADDR_BACKPLANE_MIN;
      while a <= ADDR_BACKPLANE_MAX
        invariant ADDR_BACKPLANE_MIN <= a <= ADDR_BACKPLANE_MAX + 1
        invariant Valid() && bus == v.bus
        invariant Health.EnrolAnswerers(Value(), a, now) == Health.EnrolAnswerers(v, ADDR_BACKPLANE_MIN, now)
      {
        if a in bus.fallbackSeen {
          ApplyResult(a, true, now);
        }
        a := a + 1;
      }
    }

    method ClearFault(rate: nat, now: nat)
      requires Valid() && TrunkRate(rate)
      modifies this`bus, this`stats, this`log, records
      ensures Valid() && Value() == Health.ClearFault(old(Value()), rate, now)
    {
      bus := bus.(fault := false);
      bus := bus.(bitRate := rate);
      bus := bus.(probeAcrossClear := bus.probeAcrossClear + bus.probeLive);
      NoteWireRate(rate);
      if rate == BIT_RATE_FALLBACK {
        EnrolAnswerers(now);
      }
      bus := bus.(fallbackSeen := {});
      bus := bus.(fallbackAnswerer := 0);
      bus := bus.(refPassLeft := 0);
      bus := bus.(passAddr := 0);
      Notify(BUS_RECOVERED, BUS_ADDR);
    }

    /** The bus-fault part of an outcome that first answers at the fallback rate. */
    method RecordAnswer(addr: byte)
      requires Valid()
      modifies this`bus
      ensures Valid() && Value() == Health.RecordAnswer(old(Value()), addr)
    {
      bus := bus.(fallbackAnswerer := addr);
      bus := bus.(fallbackSeen := bus.fallbackSeen + {addr});
      if bus.refPassLeft == 0 {
        var enrolled := 0;
        var i := 0;
        while i < ADDR_COUNT
          invariant 0 <= i <= ADDR_COUNT
          invariant enrolled + Count(records[..], i) == Count(records[..], 0)
        {
          if records[i].state != Unenrolled { enrolled := enrolled + 1; }
          i := i + 1;
        }
        bus := bus.(refPassLeft := enrolled);
        bus := bus.(passAddr := 0);
        bus := bus.(passNext := ADDR_BACKPLANE_MIN);
      }
    }

    /** The first half of OnResult: what the outcome says about the node. */
    method Read(addr: byte, ok: bool, now: nat)
      requires Valid() && IsNode(addr)
      modifies this`bus, this`log, records
      ensures Valid() && Value() == Health.Read(old(Value()), addr, ok, now)
    {
      var atReference := addr !in bus.probeFallback;
      var isAnswerer := ok && addr in bus.fallbackSeen;
      var fallbackAnswer := bus.fault && ok && !atReference && !isAnswerer;
      var lateStranded :=
        !bus.fault && addr in bus.probeLive && addr in bus.probeAcrossClear
        && Elapsed(now, records[addr].probeIssued) <= OUTCOME_WINDOW
        && atReference != (bus.bitRate == BIT_RATE);
      bus := bus.(probeLive := bus.probeLive - {addr});
      if isAnswerer || lateStranded {
      } else if fallbackAnswer {
        RecordAnswer(addr);
      } else {
        ApplyResult(addr, ok, now);
      }
    }

    /** The second half: what it says about the pass and the episode. */
    method Settle(addr: byte, referenceAnswer: bool, now: nat)
      requires Valid()
      modifies this`bus, this`stats, this`log, records
      ensures Valid() && Value() == Health.Settle(old(Value()), addr, referenceAnswer, now)
    {
      var passEnded := false;
      if bus.passAddr == addr {
        bus := bus.(passAddr := 0, refPassLeft := Dec8(bus.refPassLeft));
        passEnded := bus.refPassLeft == 0;
      }
      if referenceAnswer {
        ClearFault(BIT_RATE, now);
      } else if passEnded {
        ClearFault(BIT_RATE_FALLBACK, now);
      }
    }

    method OnResult(addr: byte, ok: bool, now: nat)
      requires Valid()
      modifies this`bus, this`stats, this`log, records
      ensures Valid() && Value() == Health.OnResult(old(Value()), addr, ok, now)
    {
      if !IsNode(addr) { return; }
      var referenceAnswer := bus.fault && ok && addr !in bus.probeFallback && addr !in bus.fallbackSeen;
      Read(addr, ok, now);
      Settle(addr, referenceAnswer, now);
      EvaluateDeclare(now);
    }

    method Tick(now: nat)
      requires Valid()
      modifies this`bus, this`stats, this`log, records
      ensures Valid() && Value() == Health.Tick(old(Value()), now)
    {
      ghost var v := Value();
      var a := 0;
      while a < ADDR_COUNT
        invariant 0 <= a <= ADDR_COUNT
        invariant Valid()
        invariant Age(Value(), a, now) == Age(v, 0, now)
      {
        AgeOne(a, now);
        a := a + 1;
      }
      EvaluateDeclare(now);
    }

    /** One turn of Tick's loop. */
    method AgeOne(a: byte, now: nat)
      requires Valid() && a < ADDR_COUNT
      modifies this`log, records
      ensures Valid() && Age(Value(), a + 1, now) == Age(old(Value()), a, now)
    {
      var r := records[a];
      if r.state == Suspect && Elapsed(now, r.suspectSince) >= OFFLINE_THRESHOLD {
        Store(a, r.(state := Offline));
        Notify(OFFLINE, a);
      }
    }

    method PollDue(addr: byte, now: nat) returns (due: bool)
      requires Valid()
      ensures due <==> Health.PollDue(Value(), addr, now)
    {
      if !IsNode(addr) { return false; }
      if bus.fault { return false; }
      var r := records[addr];
      match r.state {
        case Enrolled => return true;
        case Suspect => return Elapsed(now, r.lastPoll) >= SUSPECT_POLL_PERIOD;
        case _ => return false;
      }
    }

    method MarkPolled(addr: byte, now: nat)
      requires Valid()
      modifies this`bus, records
      ensures Valid() && Value() == Health.MarkPolled(old(Value()), addr, now)
    {
      if !IsNode(addr) { return; }
      Store(addr, records[addr].(lastPoll := now));
      NoteProbe(addr, bus.bitRate, now);
    }

    method PassProbe(now: nat) returns (p: Probe)
      requires Valid()
      modifies this`bus, this`stats, records
      ensures Valid() && (Value(), p) == Health.PassProbe(old(Value()), now)
    {
      if bus.passAddr != 0 {
        NoteWireRate(BIT_RATE);
        return Probe(bus.passAddr, BIT_RATE);
      }
      var i := 0;
      while i < BACKPLANES
        invariant 0 <= i <= BACKPLANES
        invariant Valid() && unchanged(records) && stats == old(stats)
        invariant PassScan(Value(), BACKPLANES - i, now) == PassScan(old(Value()), BACKPLANES, now)
      {
        var addr := bus.passNext;
        bus := bus.(passNext := NextBackplane(addr));
        if records[addr].state != Unenrolled {
          bus := bus.(passAddr := addr);
          NoteWireRate(BIT_RATE);
          NoteProbe(addr, BIT_RATE, now);
          return Probe(addr, BIT_RATE);
        }
        i := i + 1;
      }
      NoteWireRate(BIT_RATE);
      return Probe(ADDR_HOST, BIT_RATE);
    }

    /** The head of NextProbe: a pass probe whose window has closed is written off. */
    method WriteOff(now: nat)
      requires Valid()
      modifies this`bus, this`stats, this`log, records
      ensures Valid() && Value() == Health.WriteOff(old(Value()), now)
    {
      if bus.fault && bus.passAddr != 0 && Elapsed(now, records[bus.passAddr].probeIssued) > OUTCOME_WINDOW {
        bus := bus.(passAddr := 0, refPassLeft := Dec8(bus.refPassLeft));
        if bus.refPassLeft == 0 {
          ClearFault(BIT_RATE_FALLBACK, now);
        }
      }
    }

    /** The tail of NextProbe: round-robin over the addresses worth probing. */
    method Rotate(rate: nat, now: nat) returns (p: Probe)
      requires Valid()
      modifies this`nextProbeAddr, this`bus, records
      ensures Valid() && (Value(), p) == Health.Rotate(old(Value()), BACKPLANES, rate, now)
    {
      var i := 0;
      while i < BACKPLANES
        invariant 0 <= i <= BACKPLANES
        invariant Valid() && unchanged(records) && bus == old(bus)
        invariant Health.Rotate(Value(), BACKPLANES - i, rate, now) == Health.Rotate(old(Value()), BACKPLANES, rate,
          now)
      {
        nextProbeAddr := NextBackplane(nextProbeAddr);
        var s := records[nextProbeAddr].state;
        if s == Unenrolled || s == Offline || (bus.fault && s == Suspect) {
          NoteProbe(nextProbeAddr, rate, now);
          return Probe(nextProbeAddr, rate);
        }
        i := i + 1;
      }
      return Probe(ADDR_HOST, rate);
    }

    method NextProbe(now: nat) returns (p: Probe)
      requires Valid()
      modifies this`nextProbeAddr, this`bus, this`stats, this`log, records
      ensures Valid() && (Value(), p) == Health.NextProbe(old(Value()), now)
    {
      WriteOff(now);
      if bus.fault && bus.refPassLeft > 0 {
        p := PassProbe(now);
        return;
      }
      var rate := bus.bitRate;
      if bus.fault {
        rate := if bus.nextProbeFallback then BIT_RATE_FALLBACK else BIT_RATE;
        bus := bus.(nextProbeFallback := !bus.nextProbeFallback);
      }
      NoteWireRate(rate);
      p := Rotate(rate, now);
    }

    method SetBitRate(bps: nat)
      requires Valid()
      modifies this`bus, this`stats
      ensures Valid() && Value() == Health.SetBitRate(old(Value()), bps)
    {
      if bps != BIT_RATE && bps != BIT_RATE_FALLBACK { return; }
      var changed := bps != bus.bitRate || bps != bus.wireRate;
      bus := bus.(bitRate := bps);
      bus := bus.(wireRate := bps);
      if changed { stats := stats.(rateChanges := stats.rateChanges + 1); }
    }
  }
}
