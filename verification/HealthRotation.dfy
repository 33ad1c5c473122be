/** Who is probed outside a reference pass, at what rate, and how soon. */
module HealthRotation {
  import opened Protocol
  import opened Health
  import opened HealthInvariants
  import opened HealthRuns
  import opened HealthPass
  import HealthLaws

  /** Worth a probe: never heard of, gone, or silent while nobody answers. */
  predicate Waiting(t: Tracker, a: byte)
    requires Shape(t)
  {
    IsNode(a) &&
    var s := t.recs[a].state;
    s == Unenrolled || s == Offline || (s == Suspect && t.bus.fault)
  }

  /** How many places the rotation is from an address: the whole way round if it stands there. */
  function Away(cursor: byte, a: byte): (d: nat)
    requires IsNode(cursor) && IsNode(a)
    ensures 1 <= d <= BACKPLANES
  {
    if a > cursor then a - cursor else a + BACKPLANES - cursor
  }

  lemma OneStep(cursor: byte, a: byte)
    requires IsNode(cursor) && IsNode(a)
    ensures IsNode(NextBackplane(cursor))
    ensures if Away(cursor, a) == 1 then NextBackplane(cursor) == a
      else Away(NextBackplane(cursor), a) == Away(cursor, a) - 1
  {
  }

  /** The address the rotation stops at is worth a probe, and no such address was passed on the way. */
  lemma {:induction false} RotateStops(t: Tracker, n: nat, rate: nat, now: nat, a: byte)
    requires Shape(t) && n <= BACKPLANES && Waiting(t, a) && Away(t.nextProbe, a) <= n
    ensures var (t', p) := Rotate(t, n, rate, now);
      && IsNode(p.addr) && Waiting(t, p.addr) && t'.nextProbe == p.addr
      && Away(t.nextProbe, p.addr) <= Away(t.nextProbe, a)
      && (p.addr != a ==> Away(p.addr, a) < Away(t.nextProbe, a))
    decreases n
  {
    var t1 := t.(nextProbe := NextBackplane(t.nextProbe));
    OneStep(t.nextProbe, a);
    if !Candidate(t1, t1.nextProbe) {
      RotateStops(t1, n - 1, rate, now, a);
      OneStep(t.nextProbe, Rotate(t1, n - 1, rate, now).1.addr);
    }
  }

  lemma {:induction false} RotateFindsNone(t: Tracker, n: nat, rate: nat, now: nat)
    requires Shape(t) && forall a: byte :: !Waiting(t, a)
    ensures Rotate(t, n, rate, now).1.addr == ADDR_HOST
    decreases n
  {
    if n > 0 {
      var t1 := t.(nextProbe := NextBackplane(t.nextProbe));
      assert !Waiting(t, t1.nextProbe);
      assert forall a: byte :: Waiting(t1, a) ==> Waiting(t, a);
      RotateFindsNone(t1, n - 1, rate, now);
    }
  }

  lemma NoPassNoWriteOff(t: Tracker, now: nat)
    requires Inv(t) && t.bus.refPassLeft == 0
    ensures var (t1, rate) := Alternate(t);
      && NextProbe(t, now) == Rotate(t1, BACKPLANES, rate, now)
      && t1.recs == t.recs && t1.nextProbe == t.nextProbe && t1.bus.fault == t.bus.fault
  {
    hide ClearFault, Told, AllFailing, Table, Rotate;
  }

  /**
   * Outside a pass, the host's own address comes back exactly when nobody is worth a probe; else somebody who is does.
   */
  lemma ProbesTheWaiting(t: Tracker, now: nat)
    requires Inv(t) && t.bus.refPassLeft == 0
    ensures var p := NextProbe(t, now).1;
      && (p.addr == ADDR_HOST <==> forall a: byte :: !Waiting(t, a))
      && (p.addr != ADDR_HOST ==> Waiting(t, p.addr))
  {
    NoPassNoWriteOff(t, now);
    hide Inv, NextProbe, Rotate, Alternate, Candidate;
    var (t1, rate) := Alternate(t);
    assert forall a: byte :: Waiting(t1, a) <==> Waiting(t, a);
    if a: byte :| Waiting(t, a) {
      RotateStops(t1, BACKPLANES, rate, now, a);
    } else {
      RotateFindsNone(t1, BACKPLANES, rate, now);
    }
  }

  /** A request outside a pass serves a waiting address or brings the rotation nearer to it. */
  lemma ProbeComesNearer(t: Tracker, now: nat, a: byte)
    requires Inv(t) && t.bus.refPassLeft == 0 && Waiting(t, a)
    ensures var (t', p) := NextProbe(t, now); p.addr == a || Away(t'.nextProbe, a) < Away(t.nextProbe, a)
  {
    NoPassNoWriteOff(t, now);
    hide Inv, NextProbe, Rotate, Alternate, Candidate;
    var (t1, rate) := Alternate(t);
    assert Waiting(t1, a);
    RotateStops(t1, BACKPLANES, rate, now, a);
  }

  // ---------------------------------------------------------------- whatever comes in between

  /** At every probe request the address is worth a probe and no pass runs. */
  predicate KeepsWaiting(t: Tracker, calls: seq<Call>, a: byte)
    requires Shape(t)
  {
    calls == [] ||
    var n := |calls| - 1;
    && KeepsWaiting(t, calls[..n], a)
    && (calls[n].Probed? ==> Waiting(Continue(t, calls[..n]), a) && Continue(t, calls[..n]).bus.refPassLeft == 0)
  }

  function Requests(calls: seq<Call>): nat {
    if calls == [] then 0 else Requests(calls[..|calls| - 1]) + if calls[|calls| - 1].Probed? then 1 else 0
  }

  predicate Served(t: Tracker, calls: seq<Call>, a: byte)
    requires Shape(t)
  {
    calls != [] &&
    var n := |calls| - 1;
    Served(t, calls[..n], a) || (calls[n].Probed? && NextProbe(Continue(t, calls[..n]), calls[n].now).1.addr == a)
  }

  lemma {:induction false} ContinueKeeps(t: Tracker, calls: seq<Call>)
    requires Inv(t)
    ensures Inv(Continue(t, calls))
  {
    hide Step, Inv;
    assert Shape(t) by { InvIsShape(t); }
    if calls != [] {
      ContinueKeeps(t, calls[..|calls| - 1]);
      StepKeeps(Continue(t, calls[..|calls| - 1]), calls[|calls| - 1]);
    }
  }

  lemma InvIsShape(t: Tracker)
    requires Inv(t)
    ensures Shape(t)
  {
  }

  lemma {:induction false} AgeLeavesCursor(t: Tracker, a: nat, now: nat)
    requires Shape(t) && a <= ADDR_COUNT
    ensures Age(t, a, now).nextProbe == t.nextProbe
    decreases ADDR_COUNT - a
  {
    if a < ADDR_COUNT {
      var r := t.recs[a];
      AgeLeavesCursor(if r.state == Suspect && Elapsed(now, r.suspectSince) >= OFFLINE_THRESHOLD
        then Tell(Put(t, a, r.(state := Offline)), OFFLINE, a) else t, a + 1, now);
    }
  }

  lemma {:induction false} EnrolLeavesCursor(t: Tracker, a: nat, now: nat)
    requires Shape(t) && a <= ADDR_COUNT
    ensures EnrolAnswerers(t, a, now).nextProbe == t.nextProbe
    decreases ADDR_COUNT - a
  {
    if a < ADDR_COUNT {
      EnrolLeavesCursor(if a in t.bus.fallbackSeen then ApplyResult(t, a, true, now) else t, a + 1, now);
    }
  }

  lemma ClearLeavesCursor(t: Tracker, rate: nat, now: nat)
    requires Shape(t) && TrunkRate(rate)
    ensures ClearFault(t, rate, now).nextProbe == t.nextProbe
  {
    var t1 := NoteWireRate(t.(bus := t.bus.(fault := false, bitRate := rate,
                                probeAcrossClear := t.bus.probeAcrossClear + t.bus.probeLive)), rate);
    EnrolLeavesCursor(t1, ADDR_BACKPLANE_MIN, now);
    hide EnrolAnswerers;
  }

  lemma ReadLeavesCursor(t: Tracker, a: byte, ok: bool, now: nat)
    requires Shape(t) && IsNode(a)
    ensures Read(t, a, ok, now).nextProbe == t.nextProbe
  {
    hide LateStranded;
  }

  lemma OutcomeLeavesCursor(t: Tracker, a: byte, ok: bool, now: nat)
    requires Shape(t)
    ensures OnResult(t, a, ok, now).nextProbe == t.nextProbe
  {
    if IsNode(a) {
      ReadLeavesCursor(t, a, ok, now);
      var t1 := Read(t, a, ok, now);
      hide ClearFault, Read, AllFailing, Answerable, InUseBits;
      var t2 := if t1.bus.passAddr == a then SpendPassProbe(t1) else t1;
      ClearLeavesCursor(t2, BIT_RATE, now);
      ClearLeavesCursor(t2, BIT_RATE_FALLBACK, now);
    }
  }

  /** Only a probe request moves the rotation. */
  lemma OthersLeaveCursor(t: Tracker, c: Call)
    requires Shape(t) && !c.Probed?
    ensures Step(t, c).nextProbe == t.nextProbe
  {
    hide OnResult, Age;
    match c
    case Result(a, ok, now) => OutcomeLeavesCursor(t, a, ok, now);
    case Ticked(now) => AgeLeavesCursor(t, 0, now);
    case Polled(_, _) =>
    case RateSet(_) =>
  }

  lemma {:induction false} RequestsBringNearer(t: Tracker, calls: seq<Call>, a: byte)
    requires Inv(t) && IsNode(a) && KeepsWaiting(t, calls, a) && !Served(t, calls, a)
    ensures Away(Continue(t, calls).nextProbe, a) + Requests(calls) <= Away(t.nextProbe, a)
  {
    InvIsShape(t);
    hide Step, Inv, Waiting, NextProbe, Away;
    if calls != [] {
      var n := |calls| - 1;
      RequestsBringNearer(t, calls[..n], a);
      ContinueKeeps(t, calls[..n]);
      var t1 := Continue(t, calls[..n]);
      if calls[n].Probed? {
        ProbeComesNearer(t1, calls[n].now, a);
        assert Step(t1, calls[n]) == NextProbe(t1, calls[n].now).0 by { ProbedStep(t1, calls[n].now); }
      } else {
        OthersLeaveCursor(t1, calls[n]);
      }
    }
  }

  lemma ProbedStep(t: Tracker, now: nat)
    requires Shape(t)
    ensures Step(t, Probed(now)) == NextProbe(t, now).0
  {
  }

  /**
   * Whatever other calls come in between, an address that is worth a probe at each of as many probe requests as there
   * are backplanes, none of them in a pass, is handed out by one of them.
   */
  lemma RotationIsFair(t: Tracker, calls: seq<Call>, a: byte)
    requires Inv(t) && IsNode(a) && KeepsWaiting(t, calls, a) && Requests(calls) >= BACKPLANES
    ensures Served(t, calls, a)
  {
    hide Inv, KeepsWaiting, Requests, Served, Continue, Step;
    InvIsShape(t);
    if !Served(t, calls, a) { RequestsBringNearer(t, calls, a); }
  }

  // ---------------------------------------------------------------- the rate

  /**
   * Outside a fault a probe goes out at the rate in use; in one, outside the pass, the rates take turns, fallback
   * first.
   */
  lemma ProbeRates(t: Tracker, now: nat)
    requires Inv(t) && t.bus.refPassLeft == 0
    ensures var (t', p) := NextProbe(t, now);
      && t'.bus.fault == t.bus.fault
      && (if t.bus.fault then
            && p.bitRate == (if t.bus.nextProbeFallback then BIT_RATE_FALLBACK else BIT_RATE)
            && t'.bus.nextProbeFallback == !t.bus.nextProbeFallback
          else p.bitRate == t.bus.bitRate && t'.bus.nextProbeFallback == t.bus.nextProbeFallback)
  {
    NoPassNoWriteOff(t, now);
    RotateBus(Alternate(t).0, BACKPLANES, Alternate(t).1, now);
    hide Rotate, Inv;
  }

  /** How many requests of this episode have gone out on the hunt for an answer, outside any pass. */
  function Hunts(calls: seq<Call>): nat {
    if calls == [] then 0
    else
      var before := calls[..|calls| - 1];
      if !Run(before).bus.fault then 0
      else Hunts(before) + if calls[|calls| - 1].Probed? && Run(before).bus.refPassLeft == 0 then 1 else 0
  }

  /** Where a fault stands after a call, whose turn it is: as before, or the fallback rate's if it is a new one. */
  predicate TurnKept(t: Tracker, t': Tracker) {
    t'.bus.fault ==> t'.bus.nextProbeFallback == if t.bus.fault then t.bus.nextProbeFallback else true
  }

  lemma DeclareTurn(t: Tracker, now: nat)
    requires Shape(t)
    ensures TurnKept(t, EvaluateDeclare(t, now))
  {
    hide AllFailing, Answerable, InUseBits;
  }

  lemma ReadTurn(t: Tracker, a: byte, ok: bool, now: nat)
    requires Shape(t) && IsNode(a)
    ensures var t' := Read(t, a, ok, now);
      t'.bus.fault == t.bus.fault && t'.bus.nextProbeFallback == t.bus.nextProbeFallback
  {
    hide LateStranded;
  }

  lemma OutcomeTurn(t: Tracker, a: byte, ok: bool, now: nat)
    requires Inv(t)
    ensures TurnKept(t, OnResult(t, a, ok, now))
  {
    InvIsShape(t);
    if IsNode(a) {
      ReadTurn(t, a, ok, now);
      HealthLaws.EndsInFault(t, a, ok, now);
      var t1 := Read(t, a, ok, now);
      hide Inv, Read, ClearFault, EvaluateDeclare;
      DeclareTurn(Settle(t1, a, ReferenceAnswer(t, a, ok), now), now);
    }
  }

  lemma TickTurn(t: Tracker, now: nat)
    requires Shape(t)
    ensures TurnKept(t, Tick(t, now))
  {
    hide Age, EvaluateDeclare;
    DeclareTurn(Age(t, 0, now), now);
  }

  lemma PassTurn(t: Tracker, now: nat)
    requires Inv(t) && t.bus.refPassLeft > 0
    ensures TurnKept(t, NextProbe(t, now).0)
  {
    InvIsShape(t);
    hide Inv, Rotate, PassScan, ClearFault;
    var t1 := WriteOff(t, now);
    ClearEnds(SpendPassProbe(t), now);
    ScanTurn(t1, BACKPLANES, now);
    RotateBus(Alternate(t1).0, BACKPLANES, Alternate(t1).1, now);
  }

  lemma ClearEnds(t: Tracker, now: nat)
    requires Shape(t)
    ensures !ClearFault(t, BIT_RATE_FALLBACK, now).bus.fault
  {
    hide EnrolAnswerers;
  }

  lemma {:induction false} ScanTurn(t: Tracker, n: nat, now: nat)
    requires Shape(t)
    ensures var t' := PassScan(t, n, now).0;
      t'.bus.fault == t.bus.fault && t'.bus.nextProbeFallback == t.bus.nextProbeFallback
    decreases n
  {
    if n > 0 { ScanTurn(t.(bus := t.bus.(passNext := NextBackplane(t.bus.passNext))), n - 1, now); }
  }

  /** One call takes a turn if it is a request on the hunt, and otherwise leaves it whose it is. */
  lemma StepTurn(t: Tracker, c: Call)
    requires Inv(t)
    ensures if t.bus.fault && c.Probed? && t.bus.refPassLeft == 0 then
        Step(t, c).bus.nextProbeFallback == !t.bus.nextProbeFallback
      else TurnKept(t, Step(t, c))
  {
    InvIsShape(t);
    hide Inv, OnResult, Tick, NextProbe;
    match c
    case Result(a, ok, now) => OutcomeTurn(t, a, ok, now);
    case Ticked(now) => TickTurn(t, now);
    case Polled(_, _) =>
    case Probed(now) => if t.bus.refPassLeft == 0 { ProbeRates(t, now); } else { PassTurn(t, now); }
    case RateSet(_) =>
  }

  /** While a fault stands the fallback rate has the first turn, and the two rates take turns from then on. */
  lemma {:induction false} TurnsAlternate(calls: seq<Call>)
    ensures Run(calls).bus.fault ==> (Run(calls).bus.nextProbeFallback <==> Hunts(calls) % 2 == 0)
  {
    hide Step, Inv;
    if calls == [] {
      assert !Start().bus.fault;
    } else {
      var n := |calls| - 1;
      TurnsAlternate(calls[..n]);
      RunKeeps(calls[..n]);
      StepTurn(Run(calls[..n]), calls[n]);
    }
  }

  /** After any calls: the rate of a probe outside the pass. */
  lemma HuntsTakeTurns(calls: seq<Call>, now: nat)
    requires Run(calls).bus.refPassLeft == 0
    ensures NextProbe(Run(calls), now).1.bitRate ==
      if !Run(calls).bus.fault then Run(calls).bus.bitRate
      else if Hunts(calls) % 2 == 0 then BIT_RATE_FALLBACK else BIT_RATE
  {
    RunKeeps(calls);
    TurnsAlternate(calls);
    hide Run, Hunts, Inv, NextProbe;
    ProbeRates(Run(calls), now);
  }
}
