/** What each outcome means for an address, told from the calls alone. */
module HealthLaws {
  import opened Protocol
  import opened Health
  import opened HealthInvariants
  import opened HealthRuns

  // ---------------------------------------------------------------- what was sent

  /**
   * The last probe or poll to an address: the rate its outcome is read at, when it went out, whether its outcome is
   * still owed, and whether a fault has been cleared since.
   */
  datatype Sent = Sent(rate: nat, at: nat, owed: bool, overtaken: bool)

  function NothingSent(): seq<Sent> {
    seq(ADDR_COUNT, i => Sent(BIT_RATE, 0, false, false))
  }

  /**
   * A fault is declared: outcomes past their window are owed no more, and what is not owed is read at the rate in use.
   */
  function Declared(h: seq<Sent>, bitRate: nat, now: nat): seq<Sent>
    requires |h| == ADDR_COUNT
  {
    seq(ADDR_COUNT, i requires 0 <= i < ADDR_COUNT =>
      if h[i].owed && Elapsed(now, h[i].at) <= OUTCOME_WINDOW then h[i] else h[i].(rate := bitRate, owed := false))
  }

  function Overtaken(h: seq<Sent>): seq<Sent>
    requires |h| == ADDR_COUNT
  {
    seq(ADDR_COUNT, i requires 0 <= i < ADDR_COUNT => if h[i].owed then h[i].(overtaken := true) else h[i])
  }

  /** The pass probe in flight is handed back: the same probe, not a new one. */
  predicate SameProbe(t: Tracker, now: nat)
    requires Shape(t)
  {
    t.bus.fault && t.bus.passAddr != 0 && Elapsed(now, t.recs[t.bus.passAddr].probeIssued) <= OUTCOME_WINDOW
  }

  function Turned(h: seq<Sent>, t: Tracker, t': Tracker, now: nat): seq<Sent>
    requires |h| == ADDR_COUNT
  {
    if t.bus.fault && !t'.bus.fault then Overtaken(h)
    else if !t.bus.fault && t'.bus.fault then Declared(h, t.bus.bitRate, now)
    else h
  }

  function SentNext(h: seq<Sent>, t: Tracker, c: Call): (h': seq<Sent>)
    requires |h| == ADDR_COUNT && Shape(t)
    ensures |h'| == ADDR_COUNT
  {
    match c
    case Result(a, _, now) => if IsNode(a) then Turned(h[a := h[a].(owed := false)], t, Step(t, c), now) else h
    case Ticked(now) => Turned(h, t, Step(t, c), now)
    case Polled(a, now) => if IsNode(a) then h[a := Sent(t.bus.bitRate, now, true, false)] else h
    case Probed(now) =>
      var p, h1 := NextProbe(t, now).1, Turned(h, t, Step(t, c), now);
      if p.addr < ADDR_COUNT && p.addr != ADDR_HOST && !SameProbe(t, now) then
        h1[p.addr := Sent(p.bitRate, now, true, false)]
      else h1
    case RateSet(_) => h
  }

  function LastSent(calls: seq<Call>): (h: seq<Sent>)
    ensures |h| == ADDR_COUNT
  {
    if calls == [] then NothingSent()
    else SentNext(LastSent(calls[..|calls| - 1]), Run(calls[..|calls| - 1]), calls[|calls| - 1])
  }

  /** The tracker's bitmaps say of every address what was sent to it. */
  predicate Matches(t: Tracker, h: seq<Sent>)
    requires Shape(t) && |h| == ADDR_COUNT
  {
    && (forall a :: a in t.bus.probeLive ==> IsNode(a))
    && forall a: byte :: a < ADDR_COUNT ==>
      && (a in t.bus.probeFallback <==> h[a].rate == BIT_RATE_FALLBACK)
      && (a in t.bus.probeLive <==> h[a].owed)
      && (a in t.bus.probeAcrossClear <==> h[a].overtaken)
      && (h[a].owed ==> h[a].at == t.recs[a].probeIssued)
      && TrunkRate(h[a].rate)
  }

  lemma DeclareMatches(t: Tracker, h: seq<Sent>, now: nat)
    requires Shape(t) && |h| == ADDR_COUNT && Matches(t, h)
    ensures var t' := EvaluateDeclare(t, now);
      Matches(t', if !t.bus.fault && t'.bus.fault then Declared(h, t.bus.bitRate, now) else h)
  {
    assert forall a: byte :: a < ADDR_COUNT ==> InTable(a);
  }

  lemma {:induction false} EnrolLeavesStamps(t: Tracker, a: nat, now: nat)
    requires Shape(t) && a <= ADDR_COUNT
    ensures forall b :: 0 <= b < ADDR_COUNT ==> EnrolAnswerers(t, a, now).recs[b].probeIssued == t.recs[b].probeIssued
    decreases ADDR_COUNT - a
  {
    if a < ADDR_COUNT {
      EnrolLeavesStamps(if a in t.bus.fallbackSeen then ApplyResult(t, a, true, now) else t, a + 1, now);
    }
  }

  lemma ClearMatches(t: Tracker, h: seq<Sent>, rate: nat, now: nat)
    requires Shape(t) && |h| == ADDR_COUNT && Matches(t, h) && TrunkRate(rate)
    ensures Matches(ClearFault(t, rate, now), Overtaken(h))
  {
    var t1 := NoteWireRate(t.(bus := t.bus.(fault := false, bitRate := rate,
                                probeAcrossClear := t.bus.probeAcrossClear + t.bus.probeLive)), rate);
    EnrolLeavesStamps(t1, ADDR_BACKPLANE_MIN, now);
    hide EnrolAnswerers;
  }

  lemma ReadMatches(t: Tracker, h: seq<Sent>, a: byte, ok: bool, now: nat)
    requires Shape(t) && |h| == ADDR_COUNT && Matches(t, h) && IsNode(a)
    ensures Matches(Read(t, a, ok, now), h[a := h[a].(owed := false)])
    ensures Read(t, a, ok, now).bus.fault == t.bus.fault && Read(t, a, ok, now).bus.bitRate == t.bus.bitRate
  {
  }

  /** The outcome that ends the episode, as Settle sees it. */
  predicate Ends(t: Tracker, a: byte, referenceAnswer: bool) {
    referenceAnswer || (t.bus.passAddr == a && Dec8(t.bus.refPassLeft) == 0)
  }

  lemma SettleMatches(t: Tracker, h: seq<Sent>, a: byte, referenceAnswer: bool, now: nat)
    requires Shape(t) && |h| == ADDR_COUNT && Matches(t, h)
    ensures var t' := Settle(t, a, referenceAnswer, now);
      if Ends(t, a, referenceAnswer) then Matches(t', Overtaken(h)) && !t'.bus.fault
      else Matches(t', h) && t'.bus.fault == t.bus.fault && t'.bus.bitRate == t.bus.bitRate
  {
    var t1 := if t.bus.passAddr == a then SpendPassProbe(t) else t;
    ClearMatches(t1, h, BIT_RATE, now);
    ClearMatches(t1, h, BIT_RATE_FALLBACK, now);
    hide Cleared;
  }

  lemma EndsInFault(t: Tracker, a: byte, ok: bool, now: nat)
    requires Inv(t) && IsNode(a)
    ensures var ends := Ends(Read(t, a, ok, now), a, ReferenceAnswer(t, a, ok));
      && (ends ==> t.bus.fault && !OnResult(t, a, ok, now).bus.fault)
      && (t.bus.fault && !ends ==> OnResult(t, a, ok, now).bus.fault)
  {
    ReadKeeps(t, a, ok, now);
    if t.bus.fault { EpisodeEnds(t, Result(a, ok, now)); }
    hide Read, Told, Table, Settle, EvaluateDeclare;
  }

  lemma OutcomeMatches(t: Tracker, h: seq<Sent>, a: byte, ok: bool, now: nat)
    requires Inv(t) && |h| == ADDR_COUNT && Matches(t, h) && IsNode(a)
    ensures Matches(OnResult(t, a, ok, now), SentNext(h, t, Result(a, ok, now)))
  {
    ReadMatches(t, h, a, ok, now);
    EndsInFault(t, a, ok, now);
    hide Read, Settle, EvaluateDeclare, Inv, Matches, ReferenceAnswer, Ends, Declared, Overtaken;
    var h1, t1 := h[a := h[a].(owed := false)], Read(t, a, ok, now);
    var t2 := Settle(t1, a, ReferenceAnswer(t, a, ok), now);
    SettleMatches(t1, h1, a, ReferenceAnswer(t, a, ok), now);
    DeclareMatches(t2, if Ends(t1, a, ReferenceAnswer(t, a, ok)) then Overtaken(h1) else h1, now);
    NoSecondTurn(t2, now);
  }

  lemma NoSecondTurn(t: Tracker, now: nat)
    requires Shape(t)
    ensures t.bus.fault ==> EvaluateDeclare(t, now).bus.fault
  {
  }

  lemma {:induction false} AgeLeavesStamps(t: Tracker, a: nat, now: nat)
    requires Shape(t) && a <= ADDR_COUNT
    ensures forall b :: 0 <= b < ADDR_COUNT ==> Age(t, a, now).recs[b].probeIssued == t.recs[b].probeIssued
    decreases ADDR_COUNT - a
  {
    if a < ADDR_COUNT {
      var r := t.recs[a];
      AgeLeavesStamps(if r.state == Suspect && Elapsed(now, r.suspectSince) >= OFFLINE_THRESHOLD
        then Tell(Put(t, a, r.(state := Offline)), OFFLINE, a) else t, a + 1, now);
    }
  }

  lemma SameStamps(t: Tracker, t': Tracker, h: seq<Sent>)
    requires Shape(t) && Shape(t') && |h| == ADDR_COUNT && Matches(t, h) && t'.bus == t.bus
    requires forall b :: 0 <= b < ADDR_COUNT ==> t'.recs[b].probeIssued == t.recs[b].probeIssued
    ensures Matches(t', h)
  {
  }

  lemma AgeMatches(t: Tracker, h: seq<Sent>, now: nat)
    requires Shape(t) && |h| == ADDR_COUNT && Matches(t, h)
    ensures Matches(Age(t, 0, now), h)
  {
    hide Age, Matches;
    AgeLeavesStamps(t, 0, now);
    SameStamps(t, Age(t, 0, now), h);
  }

  lemma TickMatches(t: Tracker, h: seq<Sent>, now: nat)
    requires Shape(t) && |h| == ADDR_COUNT && Matches(t, h)
    ensures Matches(Tick(t, now), SentNext(h, t, Ticked(now)))
  {
    hide Age, Matches, EvaluateDeclare, Declared, Overtaken;
    AgeMatches(t, h, now);
    DeclareMatches(Age(t, 0, now), h, now);
    NoSecondTurn(Age(t, 0, now), now);
  }

  lemma IssueMatches(t: Tracker, h: seq<Sent>, a: byte, rate: nat, now: nat)
    requires Shape(t) && |h| == ADDR_COUNT && Matches(t, h) && IsNode(a) && TrunkRate(rate)
    ensures Matches(NoteProbe(t, a, rate, now), h[a := Sent(rate, now, true, false)])
  {
  }

  lemma {:induction false} PassScanMatches(t: Tracker, n: nat, h: seq<Sent>, now: nat)
    requires Shape(t) && |h| == ADDR_COUNT && Matches(t, h)
    ensures var (t', p) := PassScan(t, n, now);
      p.addr < ADDR_COUNT && Matches(t', if p.addr == ADDR_HOST then h
        else h[p.addr := Sent(p.bitRate, now, true, false)])
    decreases n
  {
    if n > 0 {
      var addr, t1 := t.bus.passNext, t.(bus := t.bus.(passNext := NextBackplane(t.bus.passNext)));
      if Left(t.recs[addr]) {
        IssueMatches(NoteWireRate(t1.(bus := t1.bus.(passAddr := addr)), BIT_RATE), h, addr, BIT_RATE, now);
      } else {
        PassScanMatches(t1, n - 1, h, now);
      }
    }
  }

  lemma {:induction false} RotateMatches(t: Tracker, n: nat, rate: nat, h: seq<Sent>, now: nat)
    requires Shape(t) && |h| == ADDR_COUNT && Matches(t, h) && TrunkRate(rate)
    ensures var (t', p) := Rotate(t, n, rate, now);
      p.addr < ADDR_COUNT && Matches(t', if p.addr == ADDR_HOST then h
        else h[p.addr := Sent(p.bitRate, now, true, false)])
    decreases n
  {
    if n > 0 {
      var t1 := t.(nextProbe := NextBackplane(t.nextProbe));
      if Candidate(t1, t1.nextProbe) {
        IssueMatches(t1, h, t1.nextProbe, rate, now);
      } else {
        RotateMatches(t1, n - 1, rate, h, now);
      }
    }
  }

  lemma WriteOffMatches(t: Tracker, h: seq<Sent>, now: nat)
    requires Shape(t) && |h| == ADDR_COUNT && Matches(t, h)
    ensures Matches(WriteOff(t, now), if t.bus.fault && !WriteOff(t, now).bus.fault then Overtaken(h) else h)
  {
    ClearMatches(SpendPassProbe(t), h, BIT_RATE_FALLBACK, now);
    hide Cleared;
  }

  lemma ProbeMatches(t: Tracker, h: seq<Sent>, now: nat)
    requires Inv(t) && |h| == ADDR_COUNT && Matches(t, h)
    ensures Matches(NextProbe(t, now).0, SentNext(h, t, Probed(now)))
  {
    WriteOffMatches(t, h, now);
    WriteOffKeeps(t, now);
    NextProbeAfterWriteOff(t, now);
    SameProbeIs(t, now);
    hide WriteOff, PassScan, Rotate, Told, AllFailing, Table;
    var t1 := WriteOff(t, now);
    var h1 := if t.bus.fault && !t1.bus.fault then Overtaken(h) else h;
    if t1.bus.fault && t1.bus.refPassLeft > 0 {
      PassScanMatches(t1, BACKPLANES, h1, now);
    } else {
      RotateMatches(Alternate(t1).0, BACKPLANES, Alternate(t1).1, h1, now);
    }
  }

  lemma SameProbeIs(t: Tracker, now: nat)
    requires Inv(t)
    ensures var t1 := WriteOff(t, now);
      && (SameProbe(t, now) <==> t1.bus.fault && t1.bus.refPassLeft > 0 && t1.bus.passAddr != 0)
      && (t1.bus.fault ==> t.bus.fault)
  {
    hide ClearFault, Told, AllFailing;
    WriteOffEndsFault(t, now);
  }

  lemma WriteOffEndsFault(t: Tracker, now: nat)
    requires Shape(t)
    ensures !ClearFault(t, BIT_RATE_FALLBACK, now).bus.fault
    ensures !ClearFault(SpendPassProbe(t), BIT_RATE_FALLBACK, now).bus.fault
  {
  }

  lemma CallMatches(t: Tracker, h: seq<Sent>, c: Call)
    requires Inv(t) && |h| == ADDR_COUNT && Matches(t, h)
    ensures Matches(Step(t, c), SentNext(h, t, c))
  {
    hide OnResult, Tick, NextProbe;
    match c
    case Result(a, ok, now) => if IsNode(a) { OutcomeMatches(t, h, a, ok, now); } else { NoNode(t, a, ok, now); }
    case Ticked(now) => TickMatches(t, h, now);
    case Polled(a, now) =>
    case Probed(now) => ProbeMatches(t, h, now);
    case RateSet(_) =>
  }

  lemma NoNode(t: Tracker, a: byte, ok: bool, now: nat)
    requires Shape(t) && !IsNode(a)
    ensures OnResult(t, a, ok, now) == t
  {
  }

  /**
   * In every run the four bitmaps and stamps are exactly what the calls say was sent, owed, overtaken and at what rate.
   */
  lemma {:induction false} SentIsRecorded(calls: seq<Call>)
    ensures Matches(Run(calls), LastSent(calls))
  {
    hide Step, Matches, SentNext;
    if calls == [] {
      NothingMatches();
    } else {
      var before := calls[..|calls| - 1];
      SentIsRecorded(before);
      RunKeeps(before);
      CallMatches(Run(before), LastSent(before), calls[|calls| - 1]);
    }
  }

  lemma NothingMatches()
    ensures Matches(Start(), NothingSent())
  {
  }
}
