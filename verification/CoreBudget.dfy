/** How a superframe spends its time: measured, estimated before it is spent, and never more than is left. */
module CoreBudget {
  import opened Protocol
  import opened Core
  import opened CoreSchedule
  import CoreFairness
  import CoreRuns
  import CoreDemand
  import H = Health

  // ---------------------------------------------------------------- what is left

  /** How long the request outstanding has taken, if this call ends it. */
  function Takes(e: Engine, c: CoreRuns.Call): nat {
    if c.Superframe? && c.ev != Quiet && e.tx.kind != NoTx && c.now > e.tx.issued then c.now - e.tx.issued else 0
  }

  /** The time these calls have spent since the superframe they end in began. */
  function Spent(e: Engine, calls: seq<CoreRuns.Call>): nat
    requires EngineOk(e)
  {
    if calls == [] then 0
    else
      var e1 := CoreFairness.RunFrom(e, calls[..|calls| - 1]);
      var c := calls[|calls| - 1];
      if CoreRuns.Step(e1, c).superframe != e1.superframe then 0 else Spent(e, calls[..|calls| - 1]) + Takes(e1, c)
  }

  function Less(budget: nat, spent: nat): nat {
    if spent >= budget then 0 else budget - spent
  }

  /** The parts of the plan that only a new superframe changes. */
  predicate SameFrame(e: Engine, e': Engine) {
    e'.superframe == e.superframe && e'.budget == e.budget
  }

  lemma CompleteSpends(e: Engine, ev: Event, now: nat)
    requires EngineOk(e)
    ensures var e' := Complete(e, ev, now);
      && e'.superframe == e.superframe && e'.superframeOpen == e.superframeOpen
      && e'.budget == Less(e.budget, Takes(e, CoreRuns.Superframe(ev, now)))
  {
    hide EngineOk, Charge, Apply, Stall;
    ChargeSpends(e, ev.Answered?, now);
    ApplySpendsNothing(Charge(e, ev.Answered?, now), e.tx.kind, e.tx.addr, e.tx.node, e.tx.offset,
      if ev.Answered? then ev.answer else Other);
  }

  lemma ChargeSpends(e: Engine, answered: bool, now: nat)
    requires EngineOk(e)
    ensures var e' := Charge(e, answered, now);
      && e'.superframe == e.superframe && e'.superframeOpen == e.superframeOpen
      && e'.budget == Less(e.budget, if now > e.tx.issued then now - e.tx.issued else 0)
  {
    hide Core.Shape, H.Shape, H.OnResult;
  }

  lemma ApplySpendsNothing(e: Engine, kind: TxKind, addr: byte, id: byte, offset: nat, answer: Answer)
    requires EngineOk(e)
    ensures var e' := Apply(e, kind, addr, id, offset, answer);
      SameFrame(e, e') && e'.superframeOpen == e.superframeOpen
  {
    hide Core.Shape, H.Shape, OnIdentity, OnChunk, Reconcile;
  }

  // ---------------------------------------------------------------- what a demand may cost

  /** What its last transaction took, or the longest any can take at the rate in use. */
  function Cost(e: Engine, id: byte): nat
    requires EngineOk(e) && IsModule(id)
  {
    var last := NodeOf(e.t, id).lastDuration;
    if last != 0 then last else 2 * MAX_WIRE * ByteTime(e.wireRate) + T_TURN_MIN + T_GAP
  }

  /** Nothing an estimate is made from has moved. */
  predicate SameCosts(e: Engine, e': Engine)
    requires EngineOk(e) && EngineOk(e')
  {
    && SameFrame(e, e') && e'.wireRate == e.wireRate && e'.demandIssued == e.demandIssued
    && forall a: byte :: IsModule(a) ==> NodeOf(e'.t, a).lastDuration == NodeOf(e.t, a).lastDuration
  }

  /** What was issued fits, unless it is the superframe's first demand. */
  predicate Fits(e: Engine, e': Engine, r: Resume)
    requires EngineOk(e) && EngineOk(e')
  {
    && SameFrame(e, e')
    && if r == Issued then IsModule(e'.tx.node) && (e.demandIssued ==> Cost(e, e'.tx.node) <= e.budget)
       else SameCosts(e, e')
  }

  lemma FitsThen(e: Engine, e1: Engine, e2: Engine, r: Resume)
    requires EngineOk(e) && EngineOk(e1) && EngineOk(e2) && SameCosts(e, e1) && Fits(e1, e2, r)
    ensures Fits(e, e2, r)
  {
  }

  lemma CostsSame(e: Engine)
    requires EngineOk(e)
    ensures SameCosts(e, e)
  {
  }

  lemma ResumeFits(e: Engine, id: byte, now: nat)
    requires EngineOk(e) && IsModule(id)
    ensures var (e', r) := ResumeRead(e, id, now); Fits(e, e', r)
  {
    hide FindFrom, H.Shape;
  }

  lemma {:induction false} HeldFits(e: Engine, now: nat)
    requires EngineOk(e) && e.hold.Some?
    ensures var (e', r) := ServeHeld(e, now); Fits(e, e', r)
    decreases |e.ring|
  {
    hide Reading, H.Shape, Core.Shape;
    if e.ring != [] {
      var e1 := e.(hold := Some(e.ring[0]), ring := e.ring[1..]);
      HeldFits(e1, now);
      FitsThen(e, e1, ServeHeld(e1, now).0, ServeHeld(e1, now).1);
    }
  }

  lemma RingFits(e: Engine, now: nat)
    requires EngineOk(e)
    ensures var (e', r) := ServeRing(e, now); Fits(e, e', r)
  {
    hide ServeHeld;
    if e.hold.Some? {
      HeldFits(e, now);
    } else if e.ring != [] {
      var e1 := e.(hold := Some(e.ring[0]), ring := e.ring[1..]);
      HeldFits(e1, now);
      FitsThen(e, e1, ServeHeld(e1, now).0, ServeHeld(e1, now).1);
    }
  }

  lemma {:induction false} SweepFits(e: Engine, at: nat, now: nat)
    requires EngineOk(e) && ADDR_MODULE_MIN <= at <= ADDR_MODULE_MAX + 1
    ensures var (e', r) := Sweep(e, at, now); Fits(e, e', r)
    decreases ADDR_MODULE_MAX + 1 - at
  {
    hide Fits, SameCosts, ResumeRead, Reading;
    if at > ADDR_MODULE_MAX {
      FitsNothing(e);
    } else {
      ResumeFits(e, at, now);
      var (e1, r) := ResumeRead(e, at, now);
      SweepFits(e, at + 1, now);
      SweepFits(e1, at + 1, now);
      NothingFits(e, e1, r);
      if r == Nothing { FitsThen(e, e1, Sweep(e1, at + 1, now).0, Sweep(e1, at + 1, now).1); }
    }
  }

  lemma FitsNothing(e: Engine)
    requires EngineOk(e)
    ensures Fits(e, e, Nothing) && Fits(e, e, Refused)
  {
  }

  lemma NothingFits(e: Engine, e1: Engine, r: Resume)
    requires EngineOk(e) && EngineOk(e1) && Fits(e, e1, r)
    ensures r != Issued ==> SameCosts(e, e1)
  {
  }

  lemma {:induction false} ScanFits(e: Engine, left: nat, now: nat)
    requires EngineOk(e) && left <= MODULE_IDS
    ensures var (e', r) := ScanIdentify(e, left, now); Fits(e, e', r)
    decreases left
  {
    hide H.Shape, Core.Shape, Unidentified;
    if left > 0 { ScanFits(e, left - 1, now); }
  }

  lemma {:induction false} RetryFits(e: Engine, left: nat, now: nat)
    requires EngineOk(e) && left <= MODULE_IDS
    ensures var (e', r) := RetryStalled(e, left, now); Fits(e, e', r)
    decreases left
  {
    hide Fits, SameCosts, ResumeRead, RetryDue, EngineOk;
    CursorsOk(e);
    if left == 0 {
      NoneStalled(e, now);
      FitsNothing(e);
    } else {
      var offset := (e.retryCursor + (MODULE_IDS - left)) % MODULE_IDS;
      RetryTurn(e, left, now);
      ResumeFits(e, AtOffset(offset), now);
      var (e1, r) := ResumeRead(e, AtOffset(offset), now);
      RetryFits(e, left - 1, now);
      NothingFits(e, e1, r);
      if r == Nothing {
        RetryFits(e1, left - 1, now);
        FitsThen(e, e1, RetryStalled(e1, left - 1, now).0, RetryStalled(e1, left - 1, now).1);
      } else {
        CursorFits(e, e1, r, (offset + 1) % MODULE_IDS);
      }
    }
  }

  lemma CursorFits(e: Engine, e1: Engine, r: Resume, cursor: nat)
    requires EngineOk(e) && EngineOk(e1) && Fits(e, e1, r) && cursor < MODULE_IDS
    ensures EngineOk(e1.(retryCursor := cursor)) && Fits(e, e1.(retryCursor := cursor), r)
  {
  }

  lemma PassesFit(e: Engine, now: nat)
    requires EngineOk(e)
    ensures var (e', r) := TwoPasses(e, now); Fits(e, e', r)
  {
    hide Fits, SameCosts, RetryStalled, ScanIdentify, EngineOk;
    RetryFits(e, MODULE_IDS, now);
    ScanFits(e, MODULE_IDS, now);
    var (e1, r1) := RetryStalled(e, MODULE_IDS, now);
    var (e2, r2) := ScanIdentify(e, MODULE_IDS, now);
    NothingFits(e, e1, r1);
    NothingFits(e, e2, r2);
    ScanFits(e1, MODULE_IDS, now);
    RetryFits(e2, MODULE_IDS, now);
    if r1 == Nothing { FitsThen(e, e1, ScanIdentify(e1, MODULE_IDS, now).0, ScanIdentify(e1, MODULE_IDS, now).1); }
    if r2 == Nothing { FitsThen(e, e2, RetryStalled(e2, MODULE_IDS, now).0, RetryStalled(e2, MODULE_IDS, now).1); }
  }

  /** Every demand but a superframe's first goes out only if what it is expected to take is left. */
  lemma DemandFits(e: Engine, now: nat)
    requires EngineOk(e)
    ensures var (e', issued) := IssueDemand(e, now);
      && e'.superframe == e.superframe && e'.budget == e.budget
      && (issued && e.demandIssued ==> IsModule(e'.tx.node) && Cost(e, e'.tx.node) <= e.budget)
  {
    hide SameCosts, ServeRing, Sweep, TwoPasses, EngineOk;
    RingFits(e, now);
    var (e1, r1) := ServeRing(e, now);
    NothingFits(e, e1, r1);
    if r1 == Nothing {
      SweepFits(e1, ADDR_MODULE_MIN, now);
      var (e2, r2) := Sweep(e1, ADDR_MODULE_MIN, now);
      FitsThen(e, e1, e2, r2);
      NothingFits(e, e2, r2);
      if r2 == Nothing {
        PassesFit(e2, now);
        FitsThen(e, e2, TwoPasses(e2, now).0, TwoPasses(e2, now).1);
      }
    }
  }

  // ---------------------------------------------------------------- over a superframe

  lemma {:induction false} PollSpendsNothing(e: Engine, now: nat)
    requires EngineOk(e)
    ensures SameFrame(e, IssuePoll(e, now).0)
    decreases ADDR_BACKPLANE_MAX + 1 - e.pollCursor
  {
    hide Core.Shape, H.PollDue, H.MarkPolled, Enrolled;
    if e.pollCursor <= ADDR_BACKPLANE_MAX { PollSpendsNothing(e.(pollCursor := e.pollCursor + 1), now); }
  }

  lemma NextSpendsNothing(e: Engine, now: nat)
    requires EngineOk(e)
    ensures SameFrame(e, IssueNext(e, now).0)
  {
    hide IssuePoll, IssueDemand, H.NextProbe, EngineOk;
    PollSpendsNothing(e, now);
    var e1 := if e.phase == PollPhase then IssuePoll(e, now).0 else e;
    DemandFits(e1, now);
  }

  lemma StepSpends(e: Engine, c: CoreRuns.Call)
    requires EngineOk(e)
    ensures var e' := CoreRuns.Step(e, c);
      e'.budget == if e'.superframe == e.superframe then Less(e.budget, Takes(e, c)) else T_POLL
  {
    hide Complete, IssueNext, EngineOk, Reconcile, H.Tick;
    if c.Superframe? {
      CompleteSpends(e, c.ev, c.now);
      var e1 := Complete(e, c.ev, c.now);
      if e1.tx.kind == NoTx {
        var e2 := if e1.superframeOpen then e1 else OpenSuperframe(e1, c.now);
        NextSpendsNothing(e2, c.now);
      }
    }
  }

  /** What is left is what was there at first, or a whole polling interval since, less what has been measured. */
  lemma {:induction false} BudgetIsWhatIsLeft(e: Engine, calls: seq<CoreRuns.Call>)
    requires EngineOk(e)
    ensures var e' := CoreFairness.RunFrom(e, calls);
      e'.budget == Less(if e'.superframe == e.superframe then e.budget else T_POLL, Spent(e, calls))
    ensures CoreFairness.RunFrom(e, calls).superframe >= e.superframe
  {
    hide CoreRuns.Step, EngineOk;
    if calls != [] {
      var n := |calls| - 1;
      BudgetIsWhatIsLeft(e, calls[..n]);
      var e1 := CoreFairness.RunFrom(e, calls[..n]);
      StepSpends(e1, calls[n]);
      NeverBack(e1, calls[n]);
    }
  }

  lemma NeverBack(e: Engine, c: CoreRuns.Call)
    requires EngineOk(e)
    ensures CoreRuns.Step(e, c).superframe >= e.superframe
  {
    hide Complete, IssueNext, EngineOk, Reconcile, H.Tick;
    if c.Superframe? {
      CompleteSpends(e, c.ev, c.now);
      var e1 := Complete(e, c.ev, c.now);
      NextSpendsNothing(if e1.superframeOpen then e1 else OpenSuperframe(e1, c.now), c.now);
    }
  }
}
