/**
 * What every tracker operation keeps: the declare rule as an equivalence, the reference pass's books, the notice log.
 */
module HealthInvariants {
  import opened Protocol
  import opened Health

  // ---------------------------------------------------------------- the notice log alone

  /** What a listener can reconstruct: each address's state, the fault flag, and an ALERT still owed. */
  datatype View = View(states: seq<HealthState>, fault: bool, alertDue: bool)

  function Nothing(): View {
    View(seq(ADDR_COUNT, i => Unenrolled), false, false)
  }

  /** One notice, or None where no tracker may send it. */
  function Observe(v: View, n: Notice): (r: Option<View>)
    requires |v.states| == ADDR_COUNT
    ensures r.Some? ==> |r.value.states| == ADDR_COUNT
  {
    if v.alertDue then (if n == Notice(ALERT, BUS_ADDR) then Some(v.(alertDue := false)) else None)
    else if n.kind == BUS_FAULT then
      if n.addr == BUS_ADDR && !v.fault then Some(v.(fault := true, alertDue := true)) else None
    else if n.kind == BUS_RECOVERED then
      if n.addr == BUS_ADDR && v.fault then Some(v.(fault := false)) else None
    else if n.kind == ALERT || !IsNode(n.addr) then None
    else
      var s := v.states[n.addr];
      match n.kind
      case ENROLLED => if s == Unenrolled then Some(v.(states := v.states[n.addr := Enrolled])) else None
      case SUSPECT => if s == Enrolled then Some(v.(states := v.states[n.addr := Suspect])) else None
      case OFFLINE => if s == Suspect then Some(v.(states := v.states[n.addr := Offline])) else None
      case RECOVERED => if s == Suspect || s == Offline then Some(v.(states := v.states[n.addr := Enrolled])) else None
  }

  function Replay(log: seq<Notice>): (r: Option<View>)
    ensures r.Some? ==> |r.value.states| == ADDR_COUNT
  {
    if log == [] then Some(Nothing())
    else
      var before := Replay(log[..|log| - 1]);
      if before.None? then None else Observe(before.value, log[|log| - 1])
  }

  function States(recs: seq<Record>): (s: seq<HealthState>)
    ensures |s| == |recs|
  {
    seq(|recs|, i requires 0 <= i < |recs| => recs[i].state)
  }

  /** The log tells exactly this much. */
  predicate Told(log: seq<Notice>, recs: seq<Record>, fault: bool) {
    Replay(log) == Some(View(States(recs), fault, false))
  }

  lemma ReplayAppend(log: seq<Notice>, n: Notice)
    ensures Replay(log + [n]) == (if Replay(log).None? then None else Observe(Replay(log).value, n))
  {
    assert (log + [n])[..|log|] == log;
  }

  // ---------------------------------------------------------------- the invariant

  /** The pass cursor: what is still to hand out plus what is in flight is what is owed. */
  predicate PassBooks(recs: seq<Record>, bus: Bus)
    requires |recs| == ADDR_COUNT && ADDR_BACKPLANE_MIN <= bus.passNext <= ADDR_BACKPLANE_MAX
    requires bus.passAddr <= ADDR_BACKPLANE_MAX
  {
    && (bus.passAddr != 0 ==>
      bus.refPassLeft > 0 && Left(recs[bus.passAddr]) && bus.passNext == NextBackplane(bus.passAddr))
    && (bus.refPassLeft > 0 ==> bus.fault && bus.fallbackSeen != {})
    && (bus.refPassLeft > 0 ==> bus.refPassLeft == Ahead(recs, bus) + (if bus.passAddr != 0 then 1 else 0))
  }

  /** Enrolled addresses the pass has not handed out; after the last address the cursor has wrapped. */
  function Ahead(recs: seq<Record>, bus: Bus): nat
    requires |recs| == ADDR_COUNT && bus.passNext <= ADDR_BACKPLANE_MAX
  {
    if bus.passAddr == ADDR_BACKPLANE_MAX then 0 else Count(recs, bus.passNext)
  }

  predicate Rates(bus: Bus) {
    && TrunkRate(bus.bitRate)
    && (bus.wireRate == BIT_RATE || bus.wireRate == BIT_RATE_FALLBACK)
  }

  predicate Table(recs: seq<Record>)
    requires |recs| == ADDR_COUNT
  {
    && recs[ADDR_HOST].state == Unenrolled
    && forall a :: 0 <= a < ADDR_COUNT && recs[a].state == Enrolled ==> recs[a].failures < SUSPECT_AFTER_FAILURES
  }

  /** Between declares: nothing of an episode is left behind. */
  predicate Idle(bus: Bus) {
    bus.fallbackSeen == {} && bus.refPassLeft == 0 && bus.passAddr == 0
  }

  /** Everything but the meaning of the fault flag. */
  predicate Sound(t: Tracker) {
    && Shape(t) && Table(t.recs) && Rates(t.bus)
    && (forall a :: a in t.bus.fallbackSeen ==> IsNode(a))
    && (!t.bus.fault ==> Idle(t.bus))
    && PassBooks(t.recs, t.bus)
    && Told(t.log, t.recs, t.bus.fault)
  }

  predicate Inv(t: Tracker) {
    Sound(t) && (t.bus.fault <==> AllFailing(t.recs))
  }

  // ---------------------------------------------------------------- small facts

  lemma {:induction false} CountSame(r1: seq<Record>, r2: seq<Record>, lo: nat)
    requires |r1| == |r2| && lo <= |r1|
    requires forall a :: lo <= a < |r1| ==> (Left(r1[a]) <==> Left(r2[a]))
    ensures Count(r1, lo) == Count(r2, lo)
    decreases |r1| - lo
  {
    if lo < |r1| { CountSame(r1, r2, lo + 1); }
  }

  lemma {:induction false} CountPositive(recs: seq<Record>, lo: nat, a: nat)
    requires lo <= a < |recs| && Left(recs[a])
    ensures Count(recs, lo) > 0
    decreases |recs| - lo
  {
    if lo < a { CountPositive(recs, lo + 1, a); }
  }

  lemma {:induction false} CountZero(recs: seq<Record>, lo: nat)
    requires lo <= |recs| && Count(recs, lo) == 0
    ensures forall a :: lo <= a < |recs| ==> !Left(recs[a])
    decreases |recs| - lo
  {
    if lo < |recs| { CountZero(recs, lo + 1); }
  }

  /** The transitions a notice of each kind stands for. */
  predicate Announces(kind: NoticeKind, before: HealthState, after: HealthState) {
    || (kind == ENROLLED && before == Unenrolled && after == Enrolled)
    || (kind == SUSPECT && before == Enrolled && after == Suspect)
    || (kind == OFFLINE && before == Suspect && after == Offline)
    || (kind == RECOVERED && (before == Suspect || before == Offline) && after == Enrolled)
  }

  lemma ToldTransition(log: seq<Notice>, recs: seq<Record>, fault: bool, kind: NoticeKind, addr: byte, r: Record)
    requires |recs| == ADDR_COUNT && IsNode(addr) && Told(log, recs, fault)
    requires Announces(kind, recs[addr].state, r.state)
    ensures Told(log + [Notice(kind, addr)], recs[addr := r], fault)
  {
    ReplayAppend(log, Notice(kind, addr));
    assert States(recs[addr := r]) == States(recs)[addr := r.state];
  }

  lemma ToldSilent(log: seq<Notice>, recs: seq<Record>, fault: bool, addr: byte, r: Record)
    requires |recs| == ADDR_COUNT && addr < ADDR_COUNT && Told(log, recs, fault) && r.state == recs[addr].state
    ensures Told(log, recs[addr := r], fault)
  {
    assert States(recs[addr := r]) == States(recs);
  }

  /** ApplyResult tells the listener exactly the transition it makes. */
  lemma ApplyResultTold(t: Tracker, addr: byte, ok: bool, now: nat, fault: bool)
    requires Shape(t) && IsNode(addr) && Told(t.log, t.recs, fault)
    ensures var t' := ApplyResult(t, addr, ok, now); Told(t'.log, t'.recs, fault)
  {
    var t' := ApplyResult(t, addr, ok, now);
    if t'.log != t.log {
      var n := t'.log[|t.log|];
      ToldTransition(t.log, t.recs, fault, n.kind, addr, t'.recs[addr]);
    } else {
      ToldSilent(t.log, t.recs, fault, addr, t'.recs[addr]);
      assert t'.recs == t.recs[addr := t'.recs[addr]];
    }
  }

  /** An ok enrols whatever the state was; a failure changes no one's enrolment, in either direction. */
  lemma ApplyResultKeeps(t: Tracker, addr: byte, ok: bool, now: nat)
    requires Shape(t) && IsNode(addr) && Table(t.recs)
    ensures var t' := ApplyResult(t, addr, ok, now);
      && Table(t'.recs)
      && (ok ==> t'.recs[addr].state == Enrolled)
      && (forall a :: 0 <= a < ADDR_COUNT && a != addr ==> t'.recs[a] == t.recs[a])
      && (!ok ==> (Left(t'.recs[addr]) <==> Left(t.recs[addr])))
      && (!ok && t'.recs[addr].state == Enrolled ==> t.recs[addr].state == Enrolled)
  {
  }

  lemma {:induction false} EnrolAnswerersKeeps(t: Tracker, a: nat, now: nat, fault: bool)
    requires Shape(t) && ADDR_BACKPLANE_MIN <= a <= ADDR_COUNT && Table(t.recs) && Told(t.log, t.recs, fault)
    ensures var t' := EnrolAnswerers(t, a, now);
      && Table(t'.recs) && Told(t'.log, t'.recs, fault)
      && (forall b :: 0 <= b < ADDR_COUNT && b in t.bus.fallbackSeen && b >= a ==> t'.recs[b].state == Enrolled)
      && (forall b :: 0 <= b < ADDR_COUNT && (b !in t.bus.fallbackSeen || b < a) ==> t'.recs[b] == t.recs[b])
    decreases ADDR_COUNT - a
  {
    if a < ADDR_COUNT {
      if a in t.bus.fallbackSeen {
        ApplyResultTold(t, a, true, now, fault);
        ApplyResultKeeps(t, a, true, now);
      }
      EnrolAnswerersKeeps(if a in t.bus.fallbackSeen then ApplyResult(t, a, true, now) else t, a + 1, now, fault);
    }
  }

  lemma ClearedKeeps(t: Tracker, rate: nat, now: nat)
    requires Shape(t) && TrunkRate(rate) && Table(t.recs) && Told(t.log, t.recs, true)
    requires rate == BIT_RATE_FALLBACK ==> t.bus.fallbackSeen != {}
    requires forall a :: a in t.bus.fallbackSeen ==> IsNode(a)
    ensures var t' := Cleared(t, rate, now); Table(t'.recs) && Told(t'.log, t'.recs, true)
    ensures rate == BIT_RATE_FALLBACK ==>
      exists a :: 0 <= a < ADDR_COUNT && Cleared(t, rate, now).recs[a].state == Enrolled
    ensures rate != BIT_RATE_FALLBACK ==> Cleared(t, rate, now).recs == t.recs
  {
    if rate == BIT_RATE_FALLBACK {
      var t1 := NoteWireRate(t.(bus := t.bus.(fault := false, bitRate := rate,
                                  probeAcrossClear := t.bus.probeAcrossClear + t.bus.probeLive)), rate);
      EnrolAnswerersKeeps(t1, ADDR_BACKPLANE_MIN, now, true);
      var b :| b in t.bus.fallbackSeen;
      assert EnrolAnswerers(t1, ADDR_BACKPLANE_MIN, now).recs[b].state == Enrolled;
    }
  }

  lemma ToldRecovered(log: seq<Notice>, recs: seq<Record>)
    requires Told(log, recs, true)
    ensures Told(log + [Notice(BUS_RECOVERED, BUS_ADDR)], recs, false)
  {
    ReplayAppend(log, Notice(BUS_RECOVERED, BUS_ADDR));
  }

  lemma ToldFault(log: seq<Notice>, recs: seq<Record>)
    requires Told(log, recs, false)
    ensures Told(log + [Notice(BUS_FAULT, BUS_ADDR)] + [Notice(ALERT, BUS_ADDR)], recs, true)
  {
    ReplayAppend(log, Notice(BUS_FAULT, BUS_ADDR));
    ReplayAppend(log + [Notice(BUS_FAULT, BUS_ADDR)], Notice(ALERT, BUS_ADDR));
  }

  /** A clear leaves a healthy, idle tracker, provided some address is ENROLLED once the answerers are. */
  lemma ClearFaultKeeps(t: Tracker, rate: nat, now: nat)
    requires Shape(t) && Table(t.recs) && Rates(t.bus) && Told(t.log, t.recs, true)
    requires TrunkRate(rate)
    requires forall a :: a in t.bus.fallbackSeen ==> IsNode(a)
    requires rate == BIT_RATE ==> exists a :: 0 <= a < ADDR_COUNT && t.recs[a].state == Enrolled
    requires rate == BIT_RATE_FALLBACK ==> t.bus.fallbackSeen != {}
    ensures var t' := ClearFault(t, rate, now); Inv(t') && !t'.bus.fault && t'.bus.bitRate == rate
  {
    ClearedKeeps(t, rate, now);
    var c := Cleared(t, rate, now);
    ToldRecovered(c.log, c.recs);
    var a :| 0 <= a < ADDR_COUNT && c.recs[a].state == Enrolled;
    assert Left(c.recs[a]);
  }

  /** The declare rule makes the equivalence true, whatever the table did since it was last evaluated. */
  lemma EvaluateDeclareKeeps(t: Tracker, now: nat)
    requires Sound(t) && (t.bus.fault ==> AllFailing(t.recs))
    ensures Inv(EvaluateDeclare(t, now))
    ensures EvaluateDeclare(t, now).recs == t.recs
  {
    if !t.bus.fault && AllFailing(t.recs) {
      ToldFault(t.log, t.recs);
    }
  }

  // ---------------------------------------------------------------- every operation keeps it

  lemma CountAllLeft(recs: seq<Record>)
    requires |recs| == ADDR_COUNT && AllFailing(recs)
    ensures Count(recs, 0) > 0
    ensures !Left(recs[ADDR_HOST]) ==> Count(recs, ADDR_BACKPLANE_MIN) == Count(recs, 0)
  {
    var a :| 0 <= a < |recs| && Left(recs[a]);
    CountPositive(recs, 0, a);
  }

  /** A recorded answer keeps the table and starts or continues a pass whose books balance. */
  lemma RecordAnswerKeeps(t: Tracker, addr: byte)
    requires Shape(t) && IsNode(addr) && Table(t.recs) && Rates(t.bus) && PassBooks(t.recs, t.bus)
    requires t.bus.fault && AllFailing(t.recs)
    requires forall a :: a in t.bus.fallbackSeen ==> IsNode(a)
    ensures var t' := RecordAnswer(t, addr);
      && t'.recs == t.recs && t'.log == t.log && t'.bus.fault && Rates(t'.bus) && PassBooks(t'.recs, t'.bus)
      && (forall a :: a in t'.bus.fallbackSeen ==> IsNode(a))
      && addr in t'.bus.fallbackSeen && t'.bus.refPassLeft > 0
  {
    CountAllLeft(t.recs);
  }

  /** The outcome of the pass probe in flight leaves exactly the addresses ahead. */
  lemma SpendPassProbeKeeps(t: Tracker)
    requires Shape(t) && PassBooks(t.recs, t.bus) && t.bus.passAddr != 0
    ensures var t' := SpendPassProbe(t);
      && t'.bus.refPassLeft == t.bus.refPassLeft - 1
      && t'.bus.refPassLeft == Ahead(t.recs, t.bus)
      && (t'.bus.refPassLeft > 0 ==> PassBooks(t'.recs, t'.bus))
  {
  }

  lemma PassBooksSame(r1: seq<Record>, r2: seq<Record>, bus: Bus)
    requires |r1| == |r2| == ADDR_COUNT && ADDR_BACKPLANE_MIN <= bus.passNext <= ADDR_BACKPLANE_MAX
    requires bus.passAddr <= ADDR_BACKPLANE_MAX && PassBooks(r1, bus)
    requires bus.refPassLeft > 0 ==> forall a :: 0 <= a < ADDR_COUNT ==> (Left(r1[a]) <==> Left(r2[a]))
    ensures PassBooks(r2, bus)
  {
    if bus.refPassLeft > 0 { CountSame(r1, r2, bus.passNext); }
  }

  lemma ReadKeeps(t: Tracker, addr: byte, ok: bool, now: nat)
    requires Inv(t) && IsNode(addr)
    ensures var t' := Read(t, addr, ok, now);
      && Table(t'.recs) && Rates(t'.bus) && Told(t'.log, t'.recs, t.bus.fault) && t'.bus.fault == t.bus.fault
      && (forall a :: a in t'.bus.fallbackSeen ==> IsNode(a))
      && (ReferenceAnswer(t, addr, ok) ==> t'.recs[addr].state == Enrolled)
      && (!ReferenceAnswer(t, addr, ok) ==> Sound(t') && (t'.bus.fault ==> AllFailing(t'.recs)))
      && (t.bus.refPassLeft > 0 ==>
        t'.bus.fallbackSeen != {} && t'.bus.passAddr == t.bus.passAddr && t'.bus.refPassLeft == t.bus.refPassLeft)
      && (t'.bus.passAddr == addr ==> t.bus.passAddr == addr)
  {
    hide Told;
    var t1 := t.(bus := t.bus.(probeLive := t.bus.probeLive - {addr}));
    if (ok && addr in t.bus.fallbackSeen) || LateStranded(t, addr, now) {
    } else if t.bus.fault && ok && addr in t.bus.probeFallback {
      RecordAnswerKeeps(t1, addr);
    } else {
      ApplyResultTold(t1, addr, ok, now, t.bus.fault);
      ApplyResultKeeps(t1, addr, ok, now);
      if t.bus.fault && !ok {
        var t2 := ApplyResult(t1, addr, ok, now);
        PassBooksSame(t1.recs, t2.recs, t1.bus);
        var a :| 0 <= a < ADDR_COUNT && Left(t.recs[a]);
        assert Left(t2.recs[a]);
      }
    }
  }

  lemma OnResultKeeps(t: Tracker, addr: byte, ok: bool, now: nat)
    requires Inv(t)
    ensures Inv(OnResult(t, addr, ok, now))
  {
    hide Told;
    if IsNode(addr) {
      var t2 := Read(t, addr, ok, now);
      ReadKeeps(t, addr, ok, now);
      var t3 := if t2.bus.passAddr == addr then SpendPassProbe(t2) else t2;
      if ReferenceAnswer(t, addr, ok) {
        ClearFaultKeeps(t3, BIT_RATE, now);
        EvaluateDeclareKeeps(ClearFault(t3, BIT_RATE, now), now);
      } else {
        if t2.bus.passAddr == addr { SpendPassProbeKeeps(t2); }
        if t2.bus.passAddr == addr && t3.bus.refPassLeft == 0 {
          ClearFaultKeeps(t3, BIT_RATE_FALLBACK, now);
          EvaluateDeclareKeeps(ClearFault(t3, BIT_RATE_FALLBACK, now), now);
        } else {
          EvaluateDeclareKeeps(t3, now);
        }
      }
    }
  }

  lemma {:induction false} AgeKeeps(t: Tracker, a: nat, now: nat)
    requires Shape(t) && a <= ADDR_COUNT && Table(t.recs) && Told(t.log, t.recs, t.bus.fault)
    ensures var t' := Age(t, a, now);
      && Table(t'.recs) && Told(t'.log, t'.recs, t.bus.fault)
      && (forall b :: 0 <= b < ADDR_COUNT ==> (Left(t'.recs[b]) <==> Left(t.recs[b])))
      && (forall b :: 0 <= b < ADDR_COUNT ==> (t'.recs[b].state == Enrolled <==> t.recs[b].state == Enrolled))
    decreases ADDR_COUNT - a
  {
    if a < ADDR_COUNT {
      var r := t.recs[a];
      if r.state == Suspect && Elapsed(now, r.suspectSince) >= OFFLINE_THRESHOLD {
        ToldTransition(t.log, t.recs, t.bus.fault, OFFLINE, a, r.(state := Offline));
        AgeKeeps(Tell(Put(t, a, r.(state := Offline)), OFFLINE, a), a + 1, now);
      } else {
        AgeKeeps(t, a + 1, now);
      }
    }
  }

  lemma AllFailingSame(r1: seq<Record>, r2: seq<Record>)
    requires |r1| == |r2|
    requires forall b :: 0 <= b < |r1| ==> (Left(r1[b]) <==> Left(r2[b]))
    requires forall b :: 0 <= b < |r1| ==> (r1[b].state == Enrolled <==> r2[b].state == Enrolled)
    ensures AllFailing(r1) <==> AllFailing(r2)
  {
  }

  lemma TickKeeps(t: Tracker, now: nat)
    requires Inv(t)
    ensures Inv(Tick(t, now))
  {
    hide Told;
    AgeKeeps(t, 0, now);
    var t1 := Age(t, 0, now);
    PassBooksSame(t.recs, t1.recs, t.bus);
    AllFailingSame(t.recs, t1.recs);
    EvaluateDeclareKeeps(t1, now);
  }

  /** Stamps and rate bits move no state. */
  lemma NoteProbeKeeps(t: Tracker, addr: byte, rate: nat, now: nat)
    requires Sound(t) && addr < ADDR_COUNT
    ensures Sound(NoteProbe(t, addr, rate, now))
    ensures AllFailing(NoteProbe(t, addr, rate, now).recs) <==> AllFailing(t.recs)
  {
    var t' := NoteProbe(t, addr, rate, now);
    ToldSilent(t.log, t.recs, t.bus.fault, addr, t'.recs[addr]);
    PassBooksSame(t.recs, t'.recs, t.bus);
    AllFailingSame(t.recs, t'.recs);
  }

  lemma MarkPolledKeeps(t: Tracker, addr: byte, now: nat)
    requires Inv(t)
    ensures Inv(MarkPolled(t, addr, now))
  {
    if IsNode(addr) {
      var t1 := Put(t, addr, t.recs[addr].(lastPoll := now));
      ToldSilent(t.log, t.recs, t.bus.fault, addr, t1.recs[addr]);
      PassBooksSame(t.recs, t1.recs, t.bus);
      AllFailingSame(t.recs, t1.recs);
      NoteProbeKeeps(t1, addr, t.bus.bitRate, now);
    }
  }

  lemma WriteOffKeeps(t: Tracker, now: nat)
    requires Inv(t)
    ensures Inv(WriteOff(t, now))
  {
    hide Told;
    if t.bus.fault && t.bus.passAddr != 0 && Elapsed(now, t.recs[t.bus.passAddr].probeIssued) > OUTCOME_WINDOW {
      SpendPassProbeKeeps(t);
      var t1 := SpendPassProbe(t);
      if t1.bus.refPassLeft == 0 { ClearFaultKeeps(t1, BIT_RATE_FALLBACK, now); }
    }
  }

  /** The scan finds the next enrolled address at or after the cursor, before it wraps, and the books still balance. */
  lemma {:induction false} PassScanKeeps(t: Tracker, n: nat, now: nat)
    requires Inv(t) && t.bus.fault && t.bus.refPassLeft > 0 && t.bus.passAddr == 0
    requires n + t.bus.passNext > ADDR_BACKPLANE_MAX
    ensures var (t', p) := PassScan(t, n, now);
      && Inv(t') && t'.bus.fault
      && IsNode(p.addr) && p.bitRate == BIT_RATE && Left(t.recs[p.addr]) && t'.bus.passAddr == p.addr
      && t.bus.passNext <= p.addr
      && (forall a :: t.bus.passNext <= a < p.addr ==> !Left(t.recs[a]))
      && t'.bus.refPassLeft == t.bus.refPassLeft
      && p.addr !in t'.bus.probeFallback && p.addr in t'.bus.probeLive
      && t'.recs == t.recs[p.addr := t.recs[p.addr].(probeIssued := now)]
    decreases n
  {
    hide Told;
    var addr := t.bus.passNext;
    var t1 := t.(bus := t.bus.(passNext := NextBackplane(addr)));
    if Left(t.recs[addr]) {
      var t2 := NoteWireRate(t1.(bus := t1.bus.(passAddr := addr)), BIT_RATE);
      NoteProbeKeeps(t2, addr, BIT_RATE, now);
    } else {
      PassScanKeeps(t1, n - 1, now);
    }
  }

  lemma {:induction false} RotateKeeps(t: Tracker, n: nat, rate: nat, now: nat)
    requires Inv(t)
    ensures Inv(Rotate(t, n, rate, now).0)
    decreases n
  {
    hide Told;
    if n > 0 {
      var addr := NextBackplane(t.nextProbe);
      var t1 := t.(nextProbe := addr);
      if Candidate(t1, addr) { NoteProbeKeeps(t1, addr, rate, now); } else { RotateKeeps(t1, n - 1, rate, now); }
    }
  }

  lemma NextProbeKeeps(t: Tracker, now: nat)
    requires Inv(t)
    ensures Inv(NextProbe(t, now).0)
  {
    hide Told;
    WriteOffKeeps(t, now);
    var t1 := WriteOff(t, now);
    if t1.bus.fault && t1.bus.refPassLeft > 0 {
      if t1.bus.passAddr == 0 { PassScanKeeps(t1, BACKPLANES, now); }
    } else {
      RotateKeeps(Alternate(t1).0, BACKPLANES, Alternate(t1).1, now);
    }
  }
}
