/** The reference pass as its caller sees it, and the rate each outcome is read at. */
module HealthPass {
  import opened Protocol
  import opened Health
  import opened HealthInvariants
  import opened HealthRuns

  // ---------------------------------------------------------------- the order of a pass

  /** The addresses below `hi` that have left UNENROLLED, in ascending order. */
  function EnrolledBelow(recs: seq<Record>, hi: nat): seq<byte>
    requires hi <= |recs| <= ADDR_COUNT
  {
    if hi == 0 then []
    else EnrolledBelow(recs, hi - 1) + (if Left(recs[hi - 1]) then [hi - 1] else [])
  }

  lemma {:induction false} EnrolledBelowIs(recs: seq<Record>, hi: nat)
    requires hi <= |recs| <= ADDR_COUNT
    ensures forall i, j :: 0 <= i < j < |EnrolledBelow(recs, hi)| ==>
      EnrolledBelow(recs, hi)[i] < EnrolledBelow(recs, hi)[j]
    ensures forall a :: a in EnrolledBelow(recs, hi) <==> 0 <= a < hi && Left(recs[a])
  {
    if hi > 0 {
      EnrolledBelowIs(recs, hi - 1);
      var before := EnrolledBelow(recs, hi - 1);
      assert forall i :: 0 <= i < |before| ==> before[i] in before;
    }
  }

  lemma {:induction false} EnrolledBelowSkips(recs: seq<Record>, lo: nat, hi: nat)
    requires lo <= hi <= |recs| <= ADDR_COUNT
    requires forall a :: lo <= a < hi ==> !Left(recs[a])
    ensures EnrolledBelow(recs, hi) == EnrolledBelow(recs, lo)
    decreases hi
  {
    if lo < hi { EnrolledBelowSkips(recs, lo, hi - 1); }
  }

  lemma {:induction false} EnrolledBelowSame(r1: seq<Record>, r2: seq<Record>, hi: nat)
    requires hi <= |r1| == |r2| <= ADDR_COUNT
    requires forall a :: 0 <= a < |r1| ==> (Left(r1[a]) <==> Left(r2[a]))
    ensures EnrolledBelow(r1, hi) == EnrolledBelow(r2, hi)
  {
    if hi > 0 { EnrolledBelowSame(r1, r2, hi - 1); }
  }

  /** Where the running pass's cursor stands; past the last address it has wrapped. */
  function Reached(bus: Bus): nat {
    if bus.passAddr == ADDR_BACKPLANE_MAX then ADDR_COUNT else bus.passNext
  }

  /** What the caller has been handed in the running pass, after one more call. */
  function HandedNext(handed: seq<byte>, t: Tracker, c: Call): seq<byte>
    requires Shape(t)
  {
    if Step(t, c).bus.refPassLeft == 0 || t.bus.refPassLeft == 0 then []
    else if c.Probed? && NextProbe(t, c.now).1.addr != t.bus.passAddr then handed + [NextProbe(t, c.now).1.addr]
    else handed
  }

  function Handed(calls: seq<Call>): seq<byte> {
    if calls == [] then []
    else HandedNext(Handed(calls[..|calls| - 1]), Run(calls[..|calls| - 1]), calls[|calls| - 1])
  }

  predicate InOrder(t: Tracker, handed: seq<byte>)
    requires Shape(t)
  {
    t.bus.refPassLeft > 0 ==> handed == EnrolledBelow(t.recs, Reached(t.bus))
  }

  /** Outcomes move no cursor: a pass that runs on keeps its place and its addresses. */
  lemma OutcomeKeepsPlace(t: Tracker, addr: byte, ok: bool, now: nat)
    requires Inv(t) && t.bus.refPassLeft > 0 && OnResult(t, addr, ok, now).bus.refPassLeft > 0
    ensures var t' := OnResult(t, addr, ok, now);
      && t'.bus.passNext == t.bus.passNext
      && t'.bus.passAddr == (if t.bus.passAddr == addr then 0 else t.bus.passAddr)
      && t'.bus.refPassLeft == (if t.bus.passAddr == addr && addr != 0 then t.bus.refPassLeft - 1
        else t.bus.refPassLeft)
      && (forall a :: 0 <= a < ADDR_COUNT ==> (Left(t'.recs[a]) <==> Left(t.recs[a])))
      && t'.bus.fault
  {
    hide Told;
    if IsNode(addr) {
      OutcomeEnds(t, addr, ok, now);
      OnResultKeeps(t, addr, ok, now);
      ReadKeeps(t, addr, ok, now);
      if !ok { ApplyResultKeeps(t.(bus := t.bus.(probeLive := t.bus.probeLive - {addr})), addr, ok, now); }
    }
  }

  /** In a pass with nothing in flight, the next probe is the cursor's scan and nothing else. */
  lemma PassHandsOut(t: Tracker, now: nat)
    requires Shape(t) && t.bus.fault && t.bus.refPassLeft > 0 && t.bus.passAddr == 0
    ensures NextProbe(t, now) == PassScan(t, BACKPLANES, now)
  {
    hide PassScan;
  }

  /** Handing out the next address extends the list with the least enrolled address not yet in it. */
  lemma HandOutKeepsPlace(t: Tracker, now: nat)
    requires Inv(t) && t.bus.refPassLeft > 0 && t.bus.passAddr == 0
    ensures var (t', p) := NextProbe(t, now);
      && t'.bus.refPassLeft == t.bus.refPassLeft && t'.bus.passAddr == p.addr && IsNode(p.addr)
      && p.bitRate == BIT_RATE
      && EnrolledBelow(t'.recs, Reached(t'.bus)) == EnrolledBelow(t.recs, t.bus.passNext) + [p.addr]
      && t'.bus.fault
  {
    hide NextProbe, PassScan, Told, AllFailing;
    PassHandsOut(t, now);
    PassScanKeeps(t, BACKPLANES, now);
    var (t', p) := PassScan(t, BACKPLANES, now);
    EnrolledBelowSkips(t.recs, t.bus.passNext, p.addr);
    EnrolledBelowSame(t.recs, t'.recs, p.addr + 1);
    assert Reached(t'.bus) == p.addr + 1;
  }

  /** When the pass still owes something after an outcome at the last address, nothing is owed at all. */
  lemma LastAddressIsLast(t: Tracker)
    requires Inv(t) && t.bus.refPassLeft > 0 && t.bus.passAddr == ADDR_BACKPLANE_MAX
    ensures t.bus.refPassLeft == 1
  {
  }

  lemma PassStartsAtTheBeginning(t: Tracker, c: Call)
    requires Inv(t) && t.bus.refPassLeft == 0 && Step(t, c).bus.refPassLeft > 0
    ensures Step(t, c).bus.passAddr == 0 && EnrolledBelow(Step(t, c).recs, Reached(Step(t, c).bus)) == []
  {
    hide Told;
    StepKeeps(t, c);
    assert EnrolledBelow(Step(t, c).recs, 0) == [];
    match c
    case Result(addr, ok, now) =>
      if IsNode(addr) { ReadKeeps(t, addr, ok, now); }
    case Ticked(now) =>
    case Polled(addr, now) =>
    case Probed(now) =>
      RotateBus(Alternate(t).0, BACKPLANES, Alternate(t).1, now);
    case RateSet(bps) =>
  }

  /**
   * The write-off is the first thing a later probe request does, so a lost round's two halves are consecutive calls.
   */
  lemma WriteOffFirst(t: Tracker, now: nat)
    requires Inv(t)
    ensures NextProbe(t, now) == NextProbe(WriteOff(t, now), now)
  {
    WriteOffKeeps(t, now);
  }

  /** A write-off frees the cursor and moves nothing. */
  lemma WriteOffKeepsPlace(t: Tracker, now: nat)
    requires Inv(t) && t.bus.refPassLeft > 0 && WriteOff(t, now).bus.fault
    ensures var t1 := WriteOff(t, now);
      && t1.recs == t.recs && t1.bus.refPassLeft > 0 && Reached(t1.bus) == Reached(t.bus)
      && (t1.bus.passAddr == t.bus.passAddr || t1.bus.passAddr == 0)
  {
    hide Told;
    WriteOffEnds(t, now);
    if WriteOff(t, now) != t {
      SpendPassProbeKeeps(t);
      if t.bus.passAddr == ADDR_BACKPLANE_MAX { LastAddressIsLast(t); }
    }
  }

  lemma ProbeInOrder(t: Tracker, now: nat, handed: seq<byte>)
    requires Inv(t) && InOrder(t, handed) && t.bus.refPassLeft > 0
    ensures InOrder(NextProbe(t, now).0, HandedNext(handed, t, Probed(now)))
  {
    hide Told;
    WriteOffKeeps(t, now);
    WriteOffFirst(t, now);
    var t1 := WriteOff(t, now);
    if t1.bus.fault {
      WriteOffKeepsPlace(t, now);
      if t1.bus.passAddr == 0 {
        HandOutKeepsPlace(t1, now);
        HandedIsNew(t, now);
      }
    } else {
      RotateBus(Alternate(t1).0, BACKPLANES, Alternate(t1).1, now);
    }
  }

  /** What is handed out after a write-off is not what was written off. */
  lemma HandedIsNew(t: Tracker, now: nat)
    requires Inv(t) && t.bus.refPassLeft > 0 && WriteOff(t, now).bus.fault && WriteOff(t, now).bus.passAddr == 0
    ensures NextProbe(t, now).1.addr != t.bus.passAddr
  {
    WriteOffKeeps(t, now);
    WriteOffFirst(t, now);
    var t1 := WriteOff(t, now);
    FreeCursorPassesOn(t, t1, now);
    PassScanKeeps(t1, BACKPLANES, now);
  }

  lemma FreeCursorPassesOn(t: Tracker, t1: Tracker, now: nat)
    requires Inv(t) && t1 == WriteOff(t, now) && t1.bus.fault && t1.bus.passAddr == 0 && t.bus.refPassLeft > 0
    ensures t1.bus.refPassLeft > 0 && t.bus.passAddr < t1.bus.passNext
  {
    WriteOffKeepsPlace(t, now);
    if t.bus.passAddr == ADDR_BACKPLANE_MAX { LastAddressIsLast(t); }
  }

  lemma OutcomeInOrder(t: Tracker, addr: byte, ok: bool, now: nat, handed: seq<byte>)
    requires Inv(t) && InOrder(t, handed) && t.bus.refPassLeft > 0
    ensures InOrder(OnResult(t, addr, ok, now), handed)
  {
    hide Told, OnResult;
    var t' := OnResult(t, addr, ok, now);
    if t'.bus.refPassLeft > 0 {
      OutcomeKeepsPlace(t, addr, ok, now);
      if t.bus.passAddr == ADDR_BACKPLANE_MAX == addr { LastAddressIsLast(t); }
      EnrolledBelowSame(t.recs, t'.recs, Reached(t.bus));
    }
  }

  lemma TickInOrder(t: Tracker, now: nat, handed: seq<byte>)
    requires Inv(t) && InOrder(t, handed) && t.bus.refPassLeft > 0
    ensures InOrder(Tick(t, now), handed)
  {
    hide Told;
    AgeKeeps(t, 0, now);
    EnrolledBelowSame(t.recs, Tick(t, now).recs, Reached(t.bus));
  }

  lemma PolledInOrder(t: Tracker, addr: byte, now: nat, handed: seq<byte>)
    requires Inv(t) && InOrder(t, handed) && t.bus.refPassLeft > 0
    ensures InOrder(MarkPolled(t, addr, now), handed)
  {
    hide Told;
    EnrolledBelowSame(t.recs, MarkPolled(t, addr, now).recs, Reached(t.bus));
  }

  lemma StepInOrder(t: Tracker, c: Call, handed: seq<byte>)
    requires Inv(t) && InOrder(t, handed)
    ensures InOrder(Step(t, c), HandedNext(handed, t, c))
  {
    hide Told, OnResult, Tick, MarkPolled, NextProbe, EnrolledBelow;
    if Step(t, c).bus.refPassLeft > 0 {
      if t.bus.refPassLeft == 0 {
        PassStartsAtTheBeginning(t, c);
      } else {
        match c
        case Result(addr, ok, now) => OutcomeInOrder(t, addr, ok, now, handed);
        case Ticked(now) => TickInOrder(t, now, handed);
        case Polled(addr, now) => PolledInOrder(t, addr, now, handed);
        case Probed(now) => ProbeInOrder(t, now, handed);
        case RateSet(bps) =>
      }
    }
  }

  lemma {:induction false} RunInOrder(calls: seq<Call>)
    ensures InOrder(Run(calls), Handed(calls))
  {
    if calls != [] {
      var before := calls[..|calls| - 1];
      RunInOrder(before);
      RunKeeps(before);
      StepInOrder(Run(before), calls[|calls| - 1], Handed(before));
    }
  }

  /** A running pass has handed out, in ascending order and once each, exactly the enrolled addresses up to its cursor;
      the number still owed is the number not handed out plus the one in flight. */
  lemma PassHandsOutInOrder(calls: seq<Call>)
    requires Run(calls).bus.refPassLeft > 0
    ensures var t := Run(calls); var handed := Handed(calls);
      && (forall i, j :: 0 <= i < j < |handed| ==> handed[i] < handed[j])
      && (forall a: byte :: a in handed <==> a < Reached(t.bus) && Left(t.recs[a]))
      && t.bus.refPassLeft == Ahead(t.recs, t.bus) + (if t.bus.passAddr != 0 then 1 else 0)
  {
    RunInOrder(calls);
    RunKeeps(calls);
    EnrolledBelowIs(Run(calls).recs, Reached(Run(calls).bus));
  }

  /** The fallback rate is taken only once every enrolled address has been handed out and the last one accounted for. */
  lemma FallbackOnlyAfterFullPass(calls: seq<Call>, c: Call)
    requires var t := Run(calls); t.bus.fault && !Step(t, c).bus.fault && Step(t, c).bus.bitRate == BIT_RATE_FALLBACK
    ensures var t := Run(calls);
      && LastOfPass(t, c)
      && (forall a: byte :: a in Handed(calls) <==> a < ADDR_COUNT && Left(t.recs[a]))
      && !(c.Result? && ReferenceAnswer(t, c.addr, c.ok))
  {
    var t := Run(calls);
    RunKeeps(calls);
    EpisodeEnds(t, c);
    PassHandsOutInOrder(calls);
    CountZero(t.recs, Reached(t.bus));
  }

  // ---------------------------------------------------------------- a pass ends

  /** One probe and what becomes of it: an outcome, or a window that runs out. */
  datatype Round = Answered(issue: nat, ok: bool, at: nat) | Lost(issue: nat, noticed: nat)

  predicate Timely(r: Round) {
    r.Lost? ==> r.noticed > r.issue + OUTCOME_WINDOW
  }

  /** A write-off happens at the start of the next call that asks for a probe. */
  function PlayRound(t: Tracker, r: Round): (t': Tracker)
    requires Shape(t)
    ensures Shape(t')
  {
    var (t1, p) := NextProbe(t, r.issue);
    match r
    case Answered(_, ok, at) => OnResult(t1, p.addr, ok, at)
    case Lost(_, noticed) => WriteOff(t1, noticed)
  }

  function Play(t: Tracker, rounds: seq<Round>): (t': Tracker)
    requires Shape(t)
    ensures Shape(t')
  {
    if rounds == [] then t else PlayRound(Play(t, rounds[..|rounds| - 1]), rounds[|rounds| - 1])
  }

  lemma RoundSpendsOne(t: Tracker, r: Round)
    requires Inv(t) && t.bus.refPassLeft > 0 && t.bus.passAddr == 0 && Timely(r)
    ensures var t' := PlayRound(t, r);
      && Inv(t')
      && (t'.bus.fault ==> t'.bus.refPassLeft == t.bus.refPassLeft - 1 > 0 && t'.bus.passAddr == 0)
  {
    hide Told;
    HandOutKeepsPlace(t, r.issue);
    NextProbeKeeps(t, r.issue);
    PassScanKeeps(t, BACKPLANES, r.issue);
    var (t1, p) := NextProbe(t, r.issue);
    match r
    case Answered(_, ok, at) =>
      OnResultKeeps(t1, p.addr, ok, at);
      OutcomeEnds(t1, p.addr, ok, at);
      var t' := OnResult(t1, p.addr, ok, at);
      if t'.bus.fault {
        ReadKeeps(t1, p.addr, ok, at);
        SpendPassProbeKeeps(Read(t1, p.addr, ok, at));
      }
    case Lost(_, noticed) =>
      WriteOffKeeps(t1, noticed);
      SpendPassProbeKeeps(t1);
      WriteOffEnds(t1, noticed);
  }

  /** From k probes owed, k rounds end the episode, whatever their outcomes. */
  lemma {:induction false} EpisodeEndsWithinThePass(t: Tracker, rounds: seq<Round>)
    requires Inv(t) && t.bus.refPassLeft > 0 && t.bus.passAddr == 0
    requires |rounds| == t.bus.refPassLeft
    requires forall i :: 0 <= i < |rounds| ==> Timely(rounds[i])
    ensures exists k :: 0 <= k <= |rounds| && !Play(t, rounds[..k]).bus.fault
  {
    var k := 0;
    assert rounds[..0] == [];
    while k < |rounds| && Play(t, rounds[..k]).bus.fault
      invariant 0 <= k <= |rounds|
      invariant var s := Play(t, rounds[..k]);
        s.bus.fault ==> Inv(s) && s.bus.refPassLeft == |rounds| - k > 0 && s.bus.passAddr == 0
    {
      assert rounds[..k + 1][..k] == rounds[..k];
      RoundSpendsOne(Play(t, rounds[..k]), rounds[k]);
      k := k + 1;
    }
  }

  // ---------------------------------------------------------------- the same, whatever happens in between

  /** The call that accounts for the pass probe in flight: its outcome, or a request for a probe past its window. */
  predicate Accounts(t: Tracker, c: Call)
    requires Shape(t)
  {
    && t.bus.refPassLeft > 0 && t.bus.passAddr != 0
    && ((c.Result? && c.addr == t.bus.passAddr)
        || (c.Probed? && Elapsed(c.now, t.recs[t.bus.passAddr].probeIssued) > OUTCOME_WINDOW))
  }

  function Continue(t: Tracker, calls: seq<Call>): (t': Tracker)
    requires Shape(t)
    ensures Shape(t')
  {
    if calls == [] then t else Step(Continue(t, calls[..|calls| - 1]), calls[|calls| - 1])
  }

  /** How many pass probes the calls account for. */
  function Accounted(t: Tracker, calls: seq<Call>): nat
    requires Shape(t)
  {
    if calls == [] then 0
    else
      var n := |calls| - 1;
      Accounted(t, calls[..n]) + if Accounts(Continue(t, calls[..n]), calls[n]) then 1 else 0
  }

  lemma OutcomeSpends(t: Tracker, addr: byte, ok: bool, now: nat)
    requires Inv(t) && t.bus.refPassLeft > 0 && OnResult(t, addr, ok, now).bus.fault
    ensures var left := OnResult(t, addr, ok, now).bus.refPassLeft;
      left > 0 && left == t.bus.refPassLeft - if Accounts(t, Result(addr, ok, now)) then 1 else 0
  {
    hide Told, Table, Rates, AllFailing, ClearFault;
    EpisodeEnds(t, Result(addr, ok, now));
    if IsNode(addr) { ReadKeeps(t, addr, ok, now); }
  }

  lemma ProbeSpends(t: Tracker, now: nat)
    requires Inv(t) && t.bus.refPassLeft > 0 && NextProbe(t, now).0.bus.fault
    ensures var left := NextProbe(t, now).0.bus.refPassLeft;
      left > 0 && left == t.bus.refPassLeft - if Accounts(t, Probed(now)) then 1 else 0
  {
    hide Told, Table, Rates, AllFailing, ClearFault;
    EpisodeEnds(t, Probed(now));
    NextProbeAfterWriteOff(t, now);
    PassScanLeaves(WriteOff(t, now), BACKPLANES, now);
  }

  lemma {:induction false} PassScanLeaves(t: Tracker, n: nat, now: nat)
    requires Shape(t)
    ensures PassScan(t, n, now).0.bus.refPassLeft == t.bus.refPassLeft
    decreases n
  {
    if n > 0 && !Left(t.recs[t.bus.passNext]) {
      PassScanLeaves(t.(bus := t.bus.(passNext := NextBackplane(t.bus.passNext))), n - 1, now);
    }
  }

  /** A call that leaves the fault standing takes from the pass exactly the probe it accounts for. */
  lemma CallSpends(t: Tracker, c: Call)
    requires Inv(t) && t.bus.refPassLeft > 0 && Step(t, c).bus.fault
    ensures Inv(Step(t, c))
    ensures var left := Step(t, c).bus.refPassLeft;
      left > 0 && left == t.bus.refPassLeft - if Accounts(t, c) then 1 else 0
  {
    StepKeeps(t, c);
    hide OnResult, NextProbe, Inv;
    match c
    case Result(addr, ok, now) => OutcomeSpends(t, addr, ok, now);
    case Ticked(now) => assert t.bus.fault by { PassMeansFault(t); }
    case Polled(addr, now) =>
    case Probed(now) => ProbeSpends(t, now);
    case RateSet(bps) =>
  }

  lemma PassMeansFault(t: Tracker)
    requires Inv(t) && t.bus.refPassLeft > 0
    ensures t.bus.fault && Shape(t)
  {
  }

  lemma {:induction false} PassIsSpent(t: Tracker, calls: seq<Call>)
    requires Inv(t) && t.bus.refPassLeft > 0
    requires forall k :: 0 <= k <= |calls| ==> Continue(t, calls[..k]).bus.fault
    ensures var t' := Continue(t, calls);
      Inv(t') && t'.bus.refPassLeft > 0 && t'.bus.refPassLeft + Accounted(t, calls) == t.bus.refPassLeft
  {
    PassMeansFault(t);
    hide Step, Inv, Accounts;
    if calls != [] {
      var n := |calls| - 1;
      var before := calls[..n];
      assert forall k :: 0 <= k <= n ==> before[..k] == calls[..k];
      assert calls[..|calls|] == calls;
      PassIsSpent(t, before);
      CallSpends(Continue(t, before), calls[n]);
    }
  }

  /**
   * From k probes owed, whatever calls come in between, ticks, other outcomes, polls, rate selections and probes handed
   * back: by the time k pass probes have been accounted for the fault has ended.
   */
  lemma EpisodeEndsOnceAccounted(t: Tracker, calls: seq<Call>)
    requires Inv(t) && t.bus.refPassLeft > 0 && Accounted(t, calls) >= t.bus.refPassLeft
    ensures exists k :: 0 <= k <= |calls| && !Continue(t, calls[..k]).bus.fault
  {
    PassMeansFault(t);
    hide Inv, Accounted, Continue;
    if forall k :: 0 <= k <= |calls| ==> Continue(t, calls[..k]).bus.fault {
      PassIsSpent(t, calls);
    }
  }

  // ---------------------------------------------------------------- the rate an outcome is read at

  /** The probe in flight of a running pass is handed back: the same probe, not a new one. */
  predicate HandedBack(t: Tracker, now: nat)
    requires Shape(t)
  {
    var t1 := WriteOff(t, now);
    t1.bus.fault && t1.bus.refPassLeft > 0 && t1.bus.passAddr != 0
  }

  /** The rate the last probe or poll to each address was issued at, as the caller saw it. */
  function RatesNext(rates: map<byte, nat>, t: Tracker, c: Call): map<byte, nat>
    requires Shape(t)
  {
    match c
    case Polled(addr, now) => if IsNode(addr) then rates[addr := t.bus.bitRate] else rates
    case Probed(now) =>
      var p := NextProbe(t, now).1;
      if p.addr != ADDR_HOST && !HandedBack(t, now) then rates[p.addr := p.bitRate] else rates
    case _ => rates
  }

  function LastRates(calls: seq<Call>): map<byte, nat> {
    if calls == [] then map[]
    else RatesNext(LastRates(calls[..|calls| - 1]), Run(calls[..|calls| - 1]), calls[|calls| - 1])
  }

  /** No status poll goes out while a fault stands. */
  predicate NoPollInFault(calls: seq<Call>) {
    forall i :: 0 <= i < |calls| && calls[i].Polled? ==> !Run(calls[..i]).bus.fault
  }

  predicate BitsTrue(bus: Bus, rates: map<byte, nat>, quiet: bool) {
    && (forall a :: a in bus.probeLive ==> a in rates && (a in bus.probeFallback <==> rates[a] == BIT_RATE_FALLBACK))
    && (quiet && bus.passAddr != 0 ==> bus.passAddr !in bus.probeFallback)
  }

  lemma DeclareBits(t: Tracker, now: nat, rates: map<byte, nat>, quiet: bool)
    requires Shape(t) && BitsTrue(t.bus, rates, quiet)
    ensures BitsTrue(EvaluateDeclare(t, now).bus, rates, quiet)
  {
  }

  lemma ClearBits(t: Tracker, rate: nat, now: nat, rates: map<byte, nat>, quiet: bool)
    requires Shape(t) && TrunkRate(rate) && BitsTrue(t.bus, rates, quiet)
    ensures BitsTrue(ClearFault(t, rate, now).bus, rates, quiet)
  {
  }

  lemma ReadBits(t: Tracker, addr: byte, ok: bool, now: nat, rates: map<byte, nat>, quiet: bool)
    requires Shape(t) && IsNode(addr) && BitsTrue(t.bus, rates, quiet)
    ensures BitsTrue(Read(t, addr, ok, now).bus, rates, quiet)
  {
    hide ApplyResult;
  }

  lemma SettleBits(t: Tracker, addr: byte, referenceAnswer: bool, now: nat, rates: map<byte, nat>, quiet: bool)
    requires Shape(t) && BitsTrue(t.bus, rates, quiet)
    ensures BitsTrue(Settle(t, addr, referenceAnswer, now).bus, rates, quiet)
  {
    hide ClearFault;
    var t1 := if t.bus.passAddr == addr then SpendPassProbe(t) else t;
    ClearBits(t1, BIT_RATE, now, rates, quiet);
    ClearBits(t1, BIT_RATE_FALLBACK, now, rates, quiet);
  }

  lemma OutcomeBits(t: Tracker, addr: byte, ok: bool, now: nat, rates: map<byte, nat>, quiet: bool)
    requires Shape(t) && BitsTrue(t.bus, rates, quiet)
    ensures BitsTrue(OnResult(t, addr, ok, now).bus, rates, quiet)
  {
    hide Read, Settle, EvaluateDeclare, BitsTrue;
    if IsNode(addr) {
      var t2 := Read(t, addr, ok, now);
      ReadBits(t, addr, ok, now, rates, quiet);
      SettleBits(t2, addr, ReferenceAnswer(t, addr, ok), now, rates, quiet);
      DeclareBits(Settle(t2, addr, ReferenceAnswer(t, addr, ok), now), now, rates, quiet);
    }
  }

  lemma {:induction false} PassScanBits(t: Tracker, n: nat, now: nat, rates: map<byte, nat>, quiet: bool)
    requires Shape(t) && t.bus.passAddr == 0 && BitsTrue(t.bus, rates, quiet)
    ensures var (t', p) := PassScan(t, n, now);
      BitsTrue(t'.bus, if p.addr != ADDR_HOST then rates[p.addr := p.bitRate] else rates, quiet)
    decreases n
  {
    if n > 0 && !Left(t.recs[t.bus.passNext]) {
      PassScanBits(t.(bus := t.bus.(passNext := NextBackplane(t.bus.passNext))), n - 1, now, rates, quiet);
    }
  }

  lemma WriteOffBits(t: Tracker, now: nat, rates: map<byte, nat>, quiet: bool)
    requires Shape(t) && BitsTrue(t.bus, rates, quiet)
    ensures BitsTrue(WriteOff(t, now).bus, rates, quiet)
  {
    hide ClearFault;
    ClearBits(SpendPassProbe(t), BIT_RATE_FALLBACK, now, rates, quiet);
  }

  lemma ProbeBits(t: Tracker, now: nat, rates: map<byte, nat>, quiet: bool)
    requires Inv(t) && BitsTrue(t.bus, rates, quiet)
    ensures BitsTrue(NextProbe(t, now).0.bus, RatesNext(rates, t, Probed(now)), quiet)
  {
    hide WriteOff, PassScan, Rotate, Told, AllFailing;
    var t1 := WriteOff(t, now);
    WriteOffBits(t, now, rates, quiet);
    WriteOffKeeps(t, now);
    if t1.bus.fault && t1.bus.refPassLeft > 0 {
      if t1.bus.passAddr == 0 { PassScanBits(t1, BACKPLANES, now, rates, quiet); }
    } else {
      RotateBits(Alternate(t1).0, Alternate(t1).1, now, rates, quiet);
    }
  }

  lemma RotateBits(t: Tracker, rate: nat, now: nat, rates: map<byte, nat>, quiet: bool)
    requires Shape(t) && BitsTrue(t.bus, rates, quiet) && t.bus.passAddr == 0
    ensures var (t', p) := Rotate(t, BACKPLANES, rate, now);
      BitsTrue(t'.bus, if p.addr != ADDR_HOST then rates[p.addr := p.bitRate] else rates, quiet)
  {
    RotateBus(t, BACKPLANES, rate, now);
  }

  lemma StepBits(t: Tracker, c: Call, rates: map<byte, nat>, quiet: bool)
    requires Inv(t) && BitsTrue(t.bus, rates, quiet) && (quiet && c.Polled? ==> !t.bus.fault)
    ensures BitsTrue(Step(t, c).bus, RatesNext(rates, t, c), quiet)
  {
    hide OnResult, NextProbe, EvaluateDeclare, Age;
    match c
    case Result(addr, ok, now) => OutcomeBits(t, addr, ok, now, rates, quiet);
    case Ticked(now) => DeclareBits(Age(t, 0, now), now, rates, quiet);
    case Polled(addr, now) =>
    case Probed(now) => ProbeBits(t, now, rates, quiet);
    case RateSet(bps) =>
  }

  /**
   * For every address still owed an outcome, the stored bit is the rate its last probe or poll was issued at.
   * If no poll goes out during a fault, a probe handed back carries that rate too.
   */
  lemma {:induction false} RateBitsAreTrue(calls: seq<Call>)
    ensures BitsTrue(Run(calls).bus, LastRates(calls), NoPollInFault(calls))
  {
    if calls != [] {
      var before := calls[..|calls| - 1];
      var c := calls[|calls| - 1];
      RateBitsAreTrue(before);
      RunKeeps(before);
      if NoPollInFault(calls) { QuietBefore(calls); }
      StepBits(Run(before), c, LastRates(before), NoPollInFault(calls));
    }
  }

  lemma QuietBefore(calls: seq<Call>)
    requires calls != [] && NoPollInFault(calls)
    ensures var n := |calls| - 1; NoPollInFault(calls[..n]) && (calls[n].Polled? ==> !Run(calls[..n]).bus.fault)
  {
    var before := calls[..|calls| - 1];
    assert forall i :: 0 <= i <= |before| ==> before[..i] == calls[..i];
  }
}
