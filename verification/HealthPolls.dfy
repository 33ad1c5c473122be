/** When an address is due for a status poll, told from its state and the polls it has had. */
module HealthPolls {
  import opened Protocol
  import opened Health
  import opened HealthRuns

  /** The instant of the last poll to this address, 0 if there was none. */
  function LastPolled(calls: seq<Call>, a: byte): nat {
    if calls == [] then 0
    else
      var c := calls[|calls| - 1];
      if c.Polled? && c.addr == a then c.now else LastPolled(calls[..|calls| - 1], a)
  }

  /** The poll instants are as they were. */
  predicate SamePolls(t: Tracker, t': Tracker)
    requires Shape(t) && Shape(t')
  {
    forall a :: 0 <= a < ADDR_COUNT ==> t'.recs[a].lastPoll == t.recs[a].lastPoll
  }

  lemma {:induction false} AgeLeavesPolls(t: Tracker, a: nat, now: nat)
    requires Shape(t) && a <= ADDR_COUNT
    ensures SamePolls(t, Age(t, a, now))
    decreases ADDR_COUNT - a
  {
    if a < ADDR_COUNT {
      var r := t.recs[a];
      AgeLeavesPolls(if r.state == Suspect && Elapsed(now, r.suspectSince) >= OFFLINE_THRESHOLD
        then Tell(Put(t, a, r.(state := Offline)), OFFLINE, a) else t, a + 1, now);
    }
  }

  lemma {:induction false} EnrolLeavesPolls(t: Tracker, a: nat, now: nat)
    requires Shape(t) && a <= ADDR_COUNT
    ensures SamePolls(t, EnrolAnswerers(t, a, now))
    decreases ADDR_COUNT - a
  {
    if a < ADDR_COUNT {
      EnrolLeavesPolls(if a in t.bus.fallbackSeen then ApplyResult(t, a, true, now) else t, a + 1, now);
    }
  }

  lemma ClearLeavesPolls(t: Tracker, rate: nat, now: nat)
    requires Shape(t) && TrunkRate(rate)
    ensures SamePolls(t, ClearFault(t, rate, now))
  {
    var t1 := NoteWireRate(t.(bus := t.bus.(fault := false, bitRate := rate,
                                probeAcrossClear := t.bus.probeAcrossClear + t.bus.probeLive)), rate);
    EnrolLeavesPolls(t1, ADDR_BACKPLANE_MIN, now);
    hide EnrolAnswerers;
  }

  lemma ReadLeavesPolls(t: Tracker, a: byte, ok: bool, now: nat)
    requires Shape(t) && IsNode(a)
    ensures SamePolls(t, Read(t, a, ok, now))
  {
    hide LateStranded;
  }

  lemma OutcomeLeavesPolls(t: Tracker, a: byte, ok: bool, now: nat)
    requires Shape(t)
    ensures SamePolls(t, OnResult(t, a, ok, now))
  {
    if IsNode(a) {
      ReadLeavesPolls(t, a, ok, now);
      var t1 := Read(t, a, ok, now);
      var t2 := if t1.bus.passAddr == a then SpendPassProbe(t1) else t1;
      ClearLeavesPolls(t2, BIT_RATE, now);
      ClearLeavesPolls(t2, BIT_RATE_FALLBACK, now);
      hide ClearFault, Read, AllFailing, Answerable, InUseBits;
    }
  }

  lemma {:induction false} RotateLeavesPolls(t: Tracker, n: nat, rate: nat, now: nat)
    requires Shape(t)
    ensures SamePolls(t, Rotate(t, n, rate, now).0)
    decreases n
  {
    if n > 0 { RotateLeavesPolls(t.(nextProbe := NextBackplane(t.nextProbe)), n - 1, rate, now); }
  }

  lemma {:induction false} PassLeavesPolls(t: Tracker, n: nat, now: nat)
    requires Shape(t)
    ensures SamePolls(t, PassScan(t, n, now).0)
    decreases n
  {
    if n > 0 { PassLeavesPolls(t.(bus := t.bus.(passNext := NextBackplane(t.bus.passNext))), n - 1, now); }
  }

  lemma ProbeLeavesPolls(t: Tracker, now: nat)
    requires Shape(t)
    ensures SamePolls(t, NextProbe(t, now).0)
  {
    ClearLeavesPolls(SpendPassProbe(t), BIT_RATE_FALLBACK, now);
    var t1 := WriteOff(t, now);
    assert SamePolls(t, t1) by { hide ClearFault; }
    PassLeavesPolls(t1, BACKPLANES, now);
    RotateLeavesPolls(Alternate(t1).0, BACKPLANES, Alternate(t1).1, now);
    hide ClearFault, PassScan, Rotate, WriteOff;
  }

  lemma {:induction false} PollsAreRecorded(calls: seq<Call>, a: byte)
    requires IsNode(a)
    ensures Run(calls).recs[a].lastPoll == LastPolled(calls, a)
  {
    if calls != [] {
      var n := |calls| - 1;
      var t := Run(calls[..n]);
      PollsAreRecorded(calls[..n], a);
      hide OnResult, Age, NextProbe, EvaluateDeclare;
      match calls[n]
      case Result(b, ok, now) => OutcomeLeavesPolls(t, b, ok, now);
      case Ticked(now) => TickLeavesPolls(t, now);
      case Polled(_, _) =>
      case Probed(now) => ProbeLeavesPolls(t, now);
      case RateSet(_) =>
    }
  }

  lemma TickLeavesPolls(t: Tracker, now: nat)
    requires Shape(t)
    ensures SamePolls(t, Tick(t, now))
  {
    AgeLeavesPolls(t, 0, now);
    hide Age, AllFailing, Answerable, InUseBits;
  }

  /**
   * After any calls, an address is due exactly when no fault stands and it is ENROLLED, or SUSPECT and last polled at
   * least ten polling intervals ago.
   */
  lemma PollsAreDue(calls: seq<Call>, a: byte, now: nat)
    requires IsNode(a)
    ensures var t := Run(calls); var s := t.recs[a].state;
      PollDue(t, a, now) <==>
        !t.bus.fault && (s == Enrolled || (s == Suspect && now >= LastPolled(calls, a) + 10 * T_POLL))
  {
    PollsAreRecorded(calls, a);
    hide Run, LastPolled;
  }
}
