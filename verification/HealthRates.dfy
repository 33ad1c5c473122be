/** Which rate is in use, which is on the wire, and how often it has changed. */
module HealthRates {
  import opened Protocol
  import opened Health
  import opened HealthInvariants
  import opened HealthRuns
  import HealthLaws
  import HealthRotation

  /** The counter has moved once if the rate on the wire has, and not otherwise. */
  predicate Noted(t: Tracker, t': Tracker) {
    t'.stats.rateChanges == t.stats.rateChanges + if t'.bus.wireRate != t.bus.wireRate then 1 else 0
  }

  /** Neither rate has moved. */
  predicate SameRates(t: Tracker, t': Tracker) {
    && t'.bus.bitRate == t.bus.bitRate && t'.bus.wireRate == t.bus.wireRate
    && t'.stats.rateChanges == t.stats.rateChanges
  }

  lemma ReadRates(t: Tracker, a: byte, ok: bool, now: nat)
    requires Shape(t) && IsNode(a)
    ensures SameRates(t, Read(t, a, ok, now))
  {
    hide LateStranded;
  }

  lemma DeclareRates(t: Tracker, now: nat)
    requires Shape(t)
    ensures SameRates(t, EvaluateDeclare(t, now))
  {
    hide AllFailing, Answerable, InUseBits;
  }

  lemma ClearRates(t: Tracker, rate: nat, now: nat)
    requires Shape(t) && TrunkRate(rate)
    ensures var t' := ClearFault(t, rate, now);
      Noted(t, t') && t'.bus.bitRate == rate && t'.bus.wireRate == rate && !t'.bus.fault
  {
    hide EnrolAnswerers;
  }

  lemma SettleRates(t: Tracker, a: byte, referenceAnswer: bool, now: nat)
    requires Shape(t)
    ensures var t' := Settle(t, a, referenceAnswer, now);
      if HealthLaws.Ends(t, a, referenceAnswer) then Noted(t, t') && t'.bus.wireRate == t'.bus.bitRate
      else SameRates(t, t')
  {
    hide ClearFault;
    var t1 := if t.bus.passAddr == a then SpendPassProbe(t) else t;
    ClearRates(t1, BIT_RATE, now);
    ClearRates(t1, BIT_RATE_FALLBACK, now);
  }

  lemma OutcomeRates(t: Tracker, a: byte, ok: bool, now: nat)
    requires Inv(t)
    ensures var t' := OnResult(t, a, ok, now);
      Noted(t, t') && (SameRates(t, t') || (t.bus.fault && !t'.bus.fault && t'.bus.wireRate == t'.bus.bitRate))
  {
    HealthRotation.InvIsShape(t);
    if IsNode(a) {
      ReadRates(t, a, ok, now);
      HealthLaws.EndsInFault(t, a, ok, now);
      hide Inv, Read, Settle, EvaluateDeclare, HealthLaws.Ends;
      SettleRates(Read(t, a, ok, now), a, ReferenceAnswer(t, a, ok), now);
      DeclareRates(Settle(Read(t, a, ok, now), a, ReferenceAnswer(t, a, ok), now), now);
    }
  }

  lemma {:induction false} ScanRates(t: Tracker, n: nat, now: nat)
    requires Shape(t)
    ensures var t' := PassScan(t, n, now).0;
      Noted(t, t') && t'.bus.bitRate == t.bus.bitRate && t'.bus.wireRate == BIT_RATE && t'.bus.fault == t.bus.fault
    decreases n
  {
    if n > 0 { ScanRates(t.(bus := t.bus.(passNext := NextBackplane(t.bus.passNext))), n - 1, now); }
  }

  lemma {:induction false} RotateRates(t: Tracker, n: nat, rate: nat, now: nat)
    requires Shape(t)
    ensures SameRates(t, Rotate(t, n, rate, now).0) && Rotate(t, n, rate, now).0.bus.fault == t.bus.fault
    decreases n
  {
    if n > 0 { RotateRates(t.(nextProbe := NextBackplane(t.nextProbe)), n - 1, rate, now); }
  }

  /** A request puts its probe's rate on the wire; it moves the rate in use only by ending a fault. */
  lemma ProbeRates(t: Tracker, now: nat)
    requires Shape(t)
    ensures var (t', p) := NextProbe(t, now);
      && Noted(t, t') && t'.bus.wireRate == p.bitRate
      && (t'.bus.bitRate == t.bus.bitRate || (t.bus.fault && !t'.bus.fault && p.bitRate == t'.bus.bitRate))
  {
    ClearRates(SpendPassProbe(t), BIT_RATE_FALLBACK, now);
    var t1 := WriteOff(t, now);
    ScanRates(t1, BACKPLANES, now);
    RotateRates(Alternate(t1).0, BACKPLANES, Alternate(t1).1, now);
    hide ClearFault, PassScan, Rotate;
  }

  /**
   * Every call: a selection of one of the two rates sets both rates to it, counting one change if either was another;
   * any other call counts one change exactly if the rate on the wire has moved, and moves the rate in use only by
   * ending a fault, to the rate on the wire; a request leaves its probe's rate on the wire.
   */
  lemma RatesFollowCalls(t: Tracker, c: Call)
    requires Inv(t)
    ensures var t' := Step(t, c);
      if c.RateSet? then
        if c.bps == BIT_RATE || c.bps == BIT_RATE_FALLBACK then
          && t'.bus.bitRate == c.bps && t'.bus.wireRate == c.bps
          && t'.stats.rateChanges ==
            t.stats.rateChanges + if t.bus.bitRate == t.bus.wireRate == c.bps then 0 else 1
        else t' == t
      else
        && Noted(t, t') && (c.Probed? ==> t'.bus.wireRate == NextProbe(t, c.now).1.bitRate)
        && (t'.bus.bitRate != t.bus.bitRate ==> t.bus.fault && !t'.bus.fault && t'.bus.wireRate == t'.bus.bitRate)
  {
    HealthRotation.InvIsShape(t);
    hide Inv, OnResult, NextProbe, Age, EvaluateDeclare;
    match c
    case Result(a, ok, now) => OutcomeRates(t, a, ok, now);
    case Ticked(now) => DeclareRates(Age(t, 0, now), now);
    case Polled(_, _) =>
    case Probed(now) => ProbeRates(t, now);
    case RateSet(_) =>
  }
}
