/** When each notice about an address is sent, told from the calls alone. */
module HealthNotices {
  import opened Protocol
  import opened Health
  import opened HealthInvariants
  import opened HealthRuns
  import opened HealthLaws

  // ---------------------------------------------------------------- what the calls say

  /**
   * An outcome of a probe that a cleared fault overtook, at a rate no longer in use, and within its window: set aside.
   */
  predicate Late(calls: seq<Call>, a: byte, now: nat)
    requires a < ADDR_COUNT
  {
    var t, x := Run(calls), LastSent(calls)[a];
    !t.bus.fault && x.owed && x.overtaken && Elapsed(now, x.at) <= OUTCOME_WINDOW && x.rate != t.bus.bitRate
  }

  /** The addresses that have answered at the fallback rate since the fault was declared. */
  function Answerers(calls: seq<Call>): set<byte>
    decreases |calls|, 0
  {
    if calls == [] then {}
    else
      var n := |calls| - 1;
      if Run(calls).bus.fault then AnswerersWith(calls[..n], calls[n]) else {}
  }

  /** The same with this call's own answer, whether or not it ends the fault. */
  function AnswerersWith(calls: seq<Call>, c: Call): set<byte>
    decreases |calls|, 1
  {
    Answerers(calls) +
    if c.Result? && c.ok && IsNode(c.addr) && Run(calls).bus.fault && LastSent(calls)[c.addr].rate == BIT_RATE_FALLBACK
    then {c.addr} else {}
  }

  /**
   * A success of this address is applied: its own at once, or one recorded at the fallback rate when that rate is
   * taken.
   */
  predicate Succeeds(calls: seq<Call>, c: Call, a: byte)
    requires IsNode(a)
  {
    var t, t' := Run(calls), Step(Run(calls), c);
    || (c.Result? && c.addr == a && c.ok && !Late(calls, a, c.now)
        && (t.bus.fault ==> a !in Answerers(calls) && LastSent(calls)[a].rate != BIT_RATE_FALLBACK))
    || (t.bus.fault && !t'.bus.fault && t'.bus.bitRate == BIT_RATE_FALLBACK && a in AnswerersWith(calls, c))
  }

  /** A failure of this address that is not set aside. */
  predicate Fails(calls: seq<Call>, c: Call, a: byte)
    requires IsNode(a)
  {
    c.Result? && c.addr == a && !c.ok && !Late(calls, a, c.now)
  }

  /** Its failures since its last success. */
  function InARow(calls: seq<Call>, a: byte): nat
    requires IsNode(a)
  {
    if calls == [] then 0
    else
      var n := |calls| - 1;
      if Succeeds(calls[..n], calls[n], a) then 0
      else InARow(calls[..n], a) + if Fails(calls[..n], calls[n], a) then 1 else 0
  }

  /** When it last became SUSPECT: the instant of the failure that made it so. */
  function SuspectSince(calls: seq<Call>, a: byte): nat
    requires IsNode(a)
  {
    if calls == [] then 0
    else
      var n := |calls| - 1;
      if Fails(calls[..n], calls[n], a) && Run(calls[..n]).recs[a].state == Enrolled
        && InARow(calls[..n], a) + 1 == SUSPECT_AFTER_FAILURES
      then calls[n].now else SuspectSince(calls[..n], a)
  }

  // ---------------------------------------------------------------- what a step adds to the log

  predicate Adds(t: Tracker, t': Tracker, n: Notice) {
    t.log <= t'.log && n in t'.log[|t.log|..]
  }

  lemma AddsChain(t: Tracker, t1: Tracker, t2: Tracker)
    requires t.log <= t1.log <= t2.log
    ensures t.log <= t2.log && forall n :: Adds(t, t2, n) <==> Adds(t, t1, n) || Adds(t1, t2, n)
  {
    assert t2.log[|t.log|..] == t1.log[|t.log|..] + t2.log[|t1.log|..];
  }

  predicate AboutNode(n: Notice) {
    n.kind == ENROLLED || n.kind == SUSPECT || n.kind == OFFLINE || n.kind == RECOVERED
  }

  /** What an applied outcome tells. */
  predicate Tells(r: Record, ok: bool, now: nat, kind: NoticeKind) {
    match kind
    case ENROLLED => ok && r.state == Unenrolled
    case RECOVERED => ok && (r.state == Suspect || r.state == Offline)
    case SUSPECT => !ok && r.state == Enrolled && r.failures + 1 >= SUSPECT_AFTER_FAILURES
    case OFFLINE => !ok && r.state == Suspect && Elapsed(now, r.suspectSince) >= OFFLINE_THRESHOLD
    case _ => false
  }

  lemma ApplyAdds(t: Tracker, a: byte, ok: bool, now: nat)
    requires Shape(t) && a < ADDR_COUNT
    ensures var t' := ApplyResult(t, a, ok, now);
      t.log <= t'.log && forall n :: AboutNode(n) ==>
        (Adds(t, t', n) <==> n.addr == a && Tells(t.recs[a], ok, now, n.kind))
  {
  }

  lemma DeclareAdds(t: Tracker, now: nat)
    requires Shape(t)
    ensures var t' := EvaluateDeclare(t, now);
      t.log <= t'.log && t'.recs == t.recs && forall n :: AboutNode(n) ==> !Adds(t, t', n)
  {
  }

  lemma {:induction false} EnrolAdds(t: Tracker, a: nat, now: nat)
    requires Shape(t) && a <= ADDR_COUNT
    ensures var t' := EnrolAnswerers(t, a, now);
      && t.log <= t'.log
      && (forall n :: AboutNode(n) ==>
           (Adds(t, t', n) <==>
             a <= n.addr < ADDR_COUNT && n.addr in t.bus.fallbackSeen && Tells(t.recs[n.addr], true, now, n.kind)))
      && (forall b :: 0 <= b < ADDR_COUNT ==>
           t'.recs[b] == if a <= b && b in t.bus.fallbackSeen then t.recs[b].(state := Enrolled, failures := 0)
             else t.recs[b])
    decreases ADDR_COUNT - a
  {
    hide EnrolAnswerers, Adds, Tells;
    if a == ADDR_COUNT {
      EnrolNobody(t, now);
    } else {
      var t1 := if a in t.bus.fallbackSeen then ApplyResult(t, a, true, now) else t;
      EnrolTurn(t, a, now);
      EnrolAdds(t1, a + 1, now);
      ApplyAdds(t, a, true, now);
      NoneAdded(t);
      AddsChain(t, t1, EnrolAnswerers(t1, a + 1, now));
    }
  }

  lemma EnrolNobody(t: Tracker, now: nat)
    requires Shape(t)
    ensures EnrolAnswerers(t, ADDR_COUNT, now) == t && forall n :: !Adds(t, t, n)
  {
  }

  lemma NoneAdded(t: Tracker)
    ensures t.log <= t.log && forall n :: !Adds(t, t, n)
  {
  }

  lemma EnrolTurn(t: Tracker, a: nat, now: nat)
    requires Shape(t) && a < ADDR_COUNT
    ensures EnrolAnswerers(t, a, now) ==
      EnrolAnswerers(if a in t.bus.fallbackSeen then ApplyResult(t, a, true, now) else t, a + 1, now)
  {
  }

  lemma ClearAdds(t: Tracker, rate: nat, now: nat)
    requires Shape(t) && TrunkRate(rate) && ADDR_HOST !in t.bus.fallbackSeen
    ensures var t' := ClearFault(t, rate, now);
      && t.log <= t'.log
      && (forall n :: AboutNode(n) ==>
           (Adds(t, t', n) <==> rate == BIT_RATE_FALLBACK && n.addr < ADDR_COUNT && n.addr in t.bus.fallbackSeen
                                && Tells(t.recs[n.addr], true, now, n.kind)))
      && (forall b :: 0 <= b < ADDR_COUNT ==>
           t'.recs[b] == if rate == BIT_RATE_FALLBACK && b in t.bus.fallbackSeen
                         then t.recs[b].(state := Enrolled, failures := 0) else t.recs[b])
      && t'.bus.fallbackSeen == {} && !t'.bus.fault && t'.bus.bitRate == rate
  {
    hide EnrolAnswerers, Tells;
    var t1 := NoteWireRate(t.(bus := t.bus.(fault := false, bitRate := rate,
                                probeAcrossClear := t.bus.probeAcrossClear + t.bus.probeLive)), rate);
    EnrolAdds(t1, ADDR_BACKPLANE_MIN, now);
    AddsChain(t, Cleared(t, rate, now), ClearFault(t, rate, now));
  }

  lemma {:induction false} AgeAdds(t: Tracker, a: nat, now: nat)
    requires Shape(t) && a <= ADDR_COUNT
    ensures var t' := Age(t, a, now);
      && t.log <= t'.log
      && (forall n :: AboutNode(n) ==>
           (Adds(t, t', n) <==> n.kind == OFFLINE && a <= n.addr < ADDR_COUNT && t.recs[n.addr].state == Suspect
                                && Elapsed(now, t.recs[n.addr].suspectSince) >= OFFLINE_THRESHOLD))
      && (forall b :: 0 <= b < ADDR_COUNT ==>
           t'.recs[b] == if a <= b && t.recs[b].state == Suspect
             && Elapsed(now, t.recs[b].suspectSince) >= OFFLINE_THRESHOLD
                         then t.recs[b].(state := Offline) else t.recs[b])
    decreases ADDR_COUNT - a
  {
    if a == ADDR_COUNT {
      NoneAdded(t);
    } else {
      var r := t.recs[a];
      var t1 := if r.state == Suspect && Elapsed(now, r.suspectSince) >= OFFLINE_THRESHOLD
                then Tell(Put(t, a, r.(state := Offline)), OFFLINE, a) else t;
      NoneAdded(t);
      OneAdded(t, t1, Notice(OFFLINE, a));
      AgeAdds(t1, a + 1, now);
      AddsChain(t, t1, Age(t1, a + 1, now));
      hide Adds;
    }
  }

  lemma OneAdded(t: Tracker, t1: Tracker, x: Notice)
    ensures t1.log == t.log + [x] ==> t.log <= t1.log && forall n :: Adds(t, t1, n) <==> n == x
  {
  }

  // ---------------------------------------------------------------- the tracker's fields in the calls' terms

  /** The failures of an ENROLLED address and a SUSPECT's instant are what the calls say. */
  predicate AgreesAt(r: Record, calls: seq<Call>, a: byte)
    requires IsNode(a)
  {
    && (r.state == Enrolled ==> r.failures == InARow(calls, a) < SUSPECT_AFTER_FAILURES)
    && (r.state == Suspect ==> r.suspectSince == SuspectSince(calls, a))
  }

  predicate Agrees(t: Tracker, calls: seq<Call>)
    requires Shape(t)
  {
    t.bus.fallbackSeen == Answerers(calls) && forall a: byte :: IsNode(a) ==> AgreesAt(t.recs[a], calls, a)
  }

  // ---------------------------------------------------------------- one outcome

  /** Neither dropped nor only recorded. */
  predicate Applied(t: Tracker, a: byte, ok: bool, now: nat)
    requires Shape(t) && IsNode(a)
  {
    && !(ok && a in t.bus.fallbackSeen) && !LateStranded(t, a, now)
    && !(t.bus.fault && ok && a in t.bus.probeFallback)
  }

  function Seen(t: Tracker, a: byte, ok: bool): set<byte> {
    t.bus.fallbackSeen + if t.bus.fault && ok && a in t.bus.probeFallback then {a} else {}
  }

  function Outcome(t: Tracker, a: byte, ok: bool, now: nat): seq<Record>
    requires Shape(t) && IsNode(a)
  {
    if Applied(t, a, ok, now) then ApplyResult(t, a, ok, now).recs else t.recs
  }

  predicate FallbackClear(t: Tracker, t': Tracker) {
    t.bus.fault && !t'.bus.fault && t'.bus.bitRate == BIT_RATE_FALLBACK
  }

  lemma ReadIs(t: Tracker, a: byte, ok: bool, now: nat)
    requires Inv(t) && IsNode(a)
    ensures var t', t1 := Read(t, a, ok, now), ApplyResult(t, a, ok, now);
      && t'.recs == Outcome(t, a, ok, now) && t'.log == (if Applied(t, a, ok, now) then t1.log else t.log)
      && t'.bus.fault == t.bus.fault && t'.bus.fallbackSeen == Seen(t, a, ok)
  {
    assert a in t.bus.fallbackSeen ==> t.bus.fallbackSeen + {a} == t.bus.fallbackSeen;
    assert t.bus.fallbackSeen + {} == t.bus.fallbackSeen;
    hide Inv, LateStranded;
  }

  lemma SameAdds(t: Tracker, t1: Tracker, t': Tracker)
    requires t'.log == t1.log
    ensures forall n :: Adds(t, t', n) == Adds(t, t1, n)
  {
  }

  lemma ReadAdds(t: Tracker, a: byte, ok: bool, now: nat)
    requires Inv(t) && IsNode(a)
    ensures var t' := Read(t, a, ok, now);
      && t.log <= t'.log && t'.recs == Outcome(t, a, ok, now)
      && (forall n :: AboutNode(n) ==>
           (Adds(t, t', n) <==> Applied(t, a, ok, now) && n.addr == a && Tells(t.recs[a], ok, now, n.kind)))
      && t'.bus.fault == t.bus.fault && t'.bus.fallbackSeen == Seen(t, a, ok)
  {
    hide Tells, Adds, ApplyResult, Applied, Read, Seen, Outcome;
    assert Shape(t);
    hide Inv, Shape;
    ApplyAdds(t, a, ok, now);
    NoneAdded(t);
    ReadIs(t, a, ok, now);
    SameAdds(t, if Applied(t, a, ok, now) then ApplyResult(t, a, ok, now) else t, Read(t, a, ok, now));
  }

  /** One outcome's whole effect on the records and the log. */
  lemma OutcomeAdds(t: Tracker, a: byte, ok: bool, now: nat)
    requires Inv(t) && IsNode(a)
    ensures var t', seen, recs := OnResult(t, a, ok, now), Seen(t, a, ok), Outcome(t, a, ok, now);
      && t.log <= t'.log
      && (forall n :: AboutNode(n) ==>
           (Adds(t, t', n) <==>
             (Applied(t, a, ok, now) && n.addr == a && Tells(t.recs[a], ok, now, n.kind)) ||
             (FallbackClear(t, t') && n.addr < ADDR_COUNT && n.addr in seen && Tells(recs[n.addr], true, now, n.kind))))
      && (forall b :: 0 <= b < ADDR_COUNT ==>
           t'.recs[b] == if FallbackClear(t, t') && b in seen then recs[b].(state := Enrolled, failures := 0)
             else recs[b])
      && t'.bus.fallbackSeen == if t'.bus.fault then seen else {}
  {
    ReadAdds(t, a, ok, now);
    ReadKeeps(t, a, ok, now);
    EndsInFault(t, a, ok, now);
    OnResultKeeps(t, a, ok, now);
    var t1 := Read(t, a, ok, now);
    var t2 := Settle(t1, a, ReferenceAnswer(t, a, ok), now);
    SettleAdds(t1, a, ReferenceAnswer(t, a, ok), now);
    DeclareAdds(t2, now);
    hide Read, Settle, EvaluateDeclare, Tells, Adds, Told, Table, AllFailing, PassBooks, Outcome, Applied;
    AddsChain(t, t1, t2);
    AddsChain(t, t2, EvaluateDeclare(t2, now));
    DeclareLeaves(t2, now);
  }

  lemma DeclareLeaves(t: Tracker, now: nat)
    requires Shape(t)
    ensures var t' := EvaluateDeclare(t, now);
      t'.bus.fallbackSeen == t.bus.fallbackSeen && t'.bus.bitRate == t.bus.bitRate
    ensures t.bus.fault ==> EvaluateDeclare(t, now) == t
  {
  }

  lemma SettleAdds(t: Tracker, a: byte, referenceAnswer: bool, now: nat)
    requires Shape(t) && ADDR_HOST !in t.bus.fallbackSeen
    ensures var t' := Settle(t, a, referenceAnswer, now);
      var fallback := Ends(t, a, referenceAnswer) && !referenceAnswer;
      && t.log <= t'.log
      && (forall n :: AboutNode(n) ==>
           (Adds(t, t', n) <==>
             fallback && n.addr < ADDR_COUNT && n.addr in t.bus.fallbackSeen
               && Tells(t.recs[n.addr], true, now, n.kind)))
      && (forall b :: 0 <= b < ADDR_COUNT ==>
           t'.recs[b] == if fallback && b in t.bus.fallbackSeen then t.recs[b].(state := Enrolled, failures := 0)
             else t.recs[b])
      && (if Ends(t, a, referenceAnswer)
          then t'.bus.fallbackSeen == {} && !t'.bus.fault && t'.bus.bitRate == if referenceAnswer then BIT_RATE
            else BIT_RATE_FALLBACK
          else t'.bus.fallbackSeen == t.bus.fallbackSeen && t'.bus.fault == t.bus.fault)
  {
    var t1 := if t.bus.passAddr == a then SpendPassProbe(t) else t;
    ClearAdds(t1, BIT_RATE, now);
    ClearAdds(t1, BIT_RATE_FALLBACK, now);
    hide ClearFault, Tells;
  }

  // ---------------------------------------------------------------- the law, call by call

  /** When the calls so far and the next one make a notice of this kind about this address due. */
  predicate Due(calls: seq<Call>, c: Call, a: byte, kind: NoticeKind)
    requires IsNode(a)
  {
    var state := Run(calls).recs[a].state;
    match kind
    case ENROLLED => Succeeds(calls, c, a) && state == Unenrolled
    case RECOVERED => Succeeds(calls, c, a) && (state == Suspect || state == Offline)
    case SUSPECT => Fails(calls, c, a) && state == Enrolled && InARow(calls, a) + 1 == SUSPECT_AFTER_FAILURES
    case OFFLINE =>
      && state == Suspect && (c.Ticked? || Fails(calls, c, a))
      && Elapsed(c.now, SuspectSince(calls, a)) >= OFFLINE_AFTER_SUSPECT_MS * 1000
    case _ => false
  }

  ghost predicate TellsWhatIsDue(calls: seq<Call>, c: Call) {
    var t, t' := Run(calls), Step(Run(calls), c);
    && t.log <= t'.log
    && forall n :: AboutNode(n) && IsNode(n.addr) ==> (Adds(t, t', n) <==> Due(calls, c, n.addr, n.kind))
  }

  lemma LateIs(calls: seq<Call>, a: byte, now: nat)
    requires a < ADDR_COUNT
    ensures LateStranded(Run(calls), a, now) <==> Late(calls, a, now)
  {
    hide Run, LastSent;
    SentIsRecorded(calls);
  }

  lemma RateIs(calls: seq<Call>, a: byte)
    requires a < ADDR_COUNT
    ensures a in Run(calls).bus.probeFallback <==> LastSent(calls)[a].rate == BIT_RATE_FALLBACK
  {
    hide Run, LastSent;
    SentIsRecorded(calls);
  }

  lemma Last(calls: seq<Call>, c: Call)
    ensures var all := calls + [c]; all[..|all| - 1] == calls && all[|all| - 1] == c && Run(all) == Step(Run(calls), c)
  {
    assert (calls + [c])[..|calls|] == calls;
  }

  /** What one more call does to the three histories. */
  lemma HistoriesNext(calls: seq<Call>, c: Call, a: byte)
    requires IsNode(a)
    ensures InARow(calls + [c], a) ==
      if Succeeds(calls, c, a) then 0 else InARow(calls, a) + if Fails(calls, c, a) then 1 else 0
    ensures SuspectSince(calls + [c], a) == if Due(calls, c, a, SUSPECT) then c.now else SuspectSince(calls, a)
    ensures Answerers(calls + [c]) == if Step(Run(calls), c).bus.fault then AnswerersWith(calls, c) else {}
  {
    Last(calls, c);
    hide Run, Succeeds, AnswerersWith, Late;
  }

  lemma HealthyHasNoAnswerers(t: Tracker)
    requires Inv(t)
    ensures !t.bus.fault ==> t.bus.fallbackSeen == {}
    ensures forall a :: 0 <= a < ADDR_COUNT && t.recs[a].state == Enrolled ==> !t.bus.fault
  {
  }

  /** Read's three ways in the calls' terms. */
  lemma OutcomeMeans(calls: seq<Call>, a: byte, ok: bool, now: nat)
    requires IsNode(a) && Agrees(Run(calls), calls)
    ensures var t, c := Run(calls), Result(a, ok, now); var t' := OnResult(t, a, ok, now);
      && Seen(t, a, ok) == AnswerersWith(calls, c)
      && (Fails(calls, c, a) <==> !ok && Applied(t, a, ok, now))
      && (Succeeds(calls, c, a) <==> (ok && Applied(t, a, ok, now)) || (FallbackClear(t, t') && a in Seen(t, a, ok)))
      && forall b: byte :: IsNode(b) && b != a ==>
           (Succeeds(calls, c, b) <==> FallbackClear(t, t') && b in Seen(t, a, ok)) && !Fails(calls, c, b)
  {
    LateIs(calls, a, now);
    RateIs(calls, a);
    RunKeeps(calls);
    HealthyHasNoAnswerers(Run(calls));
    hide Run, LastSent, Late, LateStranded, OnResult, Inv, InARow, SuspectSince, Answerers;
  }

  /** How one record may move under one call. */
  predicate Moves(calls: seq<Call>, c: Call, a: byte, r: Record)
    requires IsNode(a)
  {
    var failures := if Succeeds(calls, c, a) then 0 else InARow(calls, a) + if Fails(calls, c, a) then 1 else 0;
    && (r.state == Enrolled ==> r.failures == failures < SUSPECT_AFTER_FAILURES)
    && (r.state == Suspect ==> r.suspectSince == if Due(calls, c, a, SUSPECT) then c.now else SuspectSince(calls, a))
  }

  lemma MovesAgrees(calls: seq<Call>, c: Call, a: byte, r: Record)
    requires IsNode(a) && Moves(calls, c, a, r)
    ensures AgreesAt(r, calls + [c], a)
  {
    HistoriesNext(calls, c, a);
    hide Run, InARow, SuspectSince, Succeeds, Fails, Due;
  }

  /** What an outcome does to one record, and what it tells of it. */
  predicate Effect(calls: seq<Call>, a: byte, ok: bool, now: nat, b: byte, r: Record)
    requires IsNode(a) && IsNode(b)
  {
    var t := Run(calls); var recs := Outcome(t, a, ok, now); var t' := OnResult(t, a, ok, now);
    r == if FallbackClear(t, t') && b in Seen(t, a, ok) then recs[b].(state := Enrolled, failures := 0) else recs[b]
  }

  lemma OutcomeRecord(calls: seq<Call>, a: byte, ok: bool, now: nat, b: byte, r: Record)
    requires IsNode(a) && IsNode(b) && Agrees(Run(calls), calls) && Effect(calls, a, ok, now, b, r)
    ensures Moves(calls, Result(a, ok, now), b, r)
  {
    hide Run, OnResult, InARow, SuspectSince, Answerers, AnswerersWith, Succeeds, Fails, Applied;
    RunKeeps(calls);
    HealthyHasNoAnswerers(Run(calls));
    OutcomeMeans(calls, a, ok, now);
    assert AgreesAt(Run(calls).recs[b], calls, b);
    hide Inv, Agrees;
  }

  lemma OutcomeTold(calls: seq<Call>, a: byte, ok: bool, now: nat)
    requires IsNode(a) && Agrees(Run(calls), calls)
    ensures TellsWhatIsDue(calls, Result(a, ok, now))
  {
    var t, c := Run(calls), Result(a, ok, now);
    var t' := OnResult(t, a, ok, now);
    RunKeeps(calls);
    OutcomeAdds(t, a, ok, now);
    hide OnResult, Adds, Tells, Outcome, Applied, Due, FallbackClear, Seen, Run, Agrees, Inv;
    forall n | AboutNode(n) && IsNode(n.addr) ensures Adds(t, t', n) <==> Due(calls, c, n.addr, n.kind) {
      OutcomeDue(calls, a, ok, now, n.addr, n.kind);
    }
  }

  lemma OutcomeDue(calls: seq<Call>, a: byte, ok: bool, now: nat, b: byte, kind: NoticeKind)
    requires IsNode(a) && IsNode(b) && Agrees(Run(calls), calls)
    ensures var t := Run(calls); var t' := OnResult(t, a, ok, now);
      Due(calls, Result(a, ok, now), b, kind) <==>
        || (Applied(t, a, ok, now) && b == a && Tells(t.recs[a], ok, now, kind))
        || (FallbackClear(t, t') && b in Seen(t, a, ok) && Tells(Outcome(t, a, ok, now)[b], true, now, kind))
  {
    hide Run, OnResult, InARow, SuspectSince, Answerers, AnswerersWith, Succeeds, Fails, Applied;
    RunKeeps(calls);
    HealthyHasNoAnswerers(Run(calls));
    OutcomeMeans(calls, a, ok, now);
    assert AgreesAt(Run(calls).recs[b], calls, b);
    hide Inv, Agrees;
  }

  lemma OutcomeAgrees(calls: seq<Call>, a: byte, ok: bool, now: nat)
    requires IsNode(a) && Agrees(Run(calls), calls)
    ensures Agrees(Step(Run(calls), Result(a, ok, now)), calls + [Result(a, ok, now)])
  {
    var c, t' := Result(a, ok, now), OnResult(Run(calls), a, ok, now);
    RunKeeps(calls);
    OutcomeMeans(calls, a, ok, now);
    OutcomeAdds(Run(calls), a, ok, now);
    HistoriesNext(calls, c, a);
    hide Run, OnResult, Inv, AgreesAt, Answerers, AnswerersWith, Succeeds, Fails, Applied, Adds, Due, Tells, Outcome;
    hide Moves;
    forall b: byte | IsNode(b) ensures AgreesAt(t'.recs[b], calls + [c], b) {
      OutcomeRecord(calls, a, ok, now, b, t'.recs[b]);
      MovesAgrees(calls, c, b, t'.recs[b]);
    }
  }

  // ---------------------------------------------------------------- the other calls

  /** A call that is no outcome and ends no fault: nobody fails or succeeds. */
  lemma NoOutcome(calls: seq<Call>, c: Call, a: byte)
    requires IsNode(a) && !(c.Result? && IsNode(c.addr)) && (Run(calls).bus.fault ==> Step(Run(calls), c).bus.fault)
    ensures !Succeeds(calls, c, a) && !Fails(calls, c, a) && AnswerersWith(calls, c) == Answerers(calls)
  {
    hide Run, Step, Late, LastSent, Answerers;
  }

  /** The same state, failures and instant. */
  predicate SameStory(r: Record, r': Record) {
    r'.state == r.state && r'.failures == r.failures && r'.suspectSince == r.suspectSince
  }

  lemma SameAgrees(calls: seq<Call>, c: Call, a: byte, r: Record, r': Record)
    requires IsNode(a) && AgreesAt(r, calls, a) && !Succeeds(calls, c, a) && !Fails(calls, c, a)
    requires SameStory(r, r') || r'.state == Offline
    ensures AgreesAt(r', calls + [c], a)
  {
    HistoriesNext(calls, c, a);
    hide Run, InARow, SuspectSince, Succeeds, Fails;
  }

  /** Nothing told, nobody enrolled or failed, the fault as it was. */
  predicate Quiet(t: Tracker, t': Tracker)
    requires Shape(t) && Shape(t')
  {
    && t'.log == t.log && t'.bus.fault == t.bus.fault && t'.bus.fallbackSeen == t.bus.fallbackSeen
    && forall a :: 0 <= a < ADDR_COUNT ==> SameStory(t.recs[a], t'.recs[a])
  }

  lemma QuietAgrees(calls: seq<Call>, c: Call)
    requires Agrees(Run(calls), calls) && Quiet(Run(calls), Step(Run(calls), c)) && !(c.Result? && IsNode(c.addr))
    ensures Agrees(Step(Run(calls), c), calls + [c])
  {
    var t, t' := Run(calls), Step(Run(calls), c);
    RunKeeps(calls);
    HealthyHasNoAnswerers(t);
    NoOutcome(calls, c, 1);
    HistoriesNext(calls, c, 1);
    hide Run, Step, Inv, AgreesAt, Answerers, AnswerersWith, Succeeds, Fails, SameStory, Due;
    forall b: byte | IsNode(b) ensures AgreesAt(t'.recs[b], calls + [c], b) {
      NoOutcome(calls, c, b);
      SameAgrees(calls, c, b, t.recs[b], t'.recs[b]);
    }
  }

  lemma QuietTold(calls: seq<Call>, c: Call)
    requires Agrees(Run(calls), calls) && Quiet(Run(calls), Step(Run(calls), c)) && !c.Ticked?
    requires !(c.Result? && IsNode(c.addr))
    ensures TellsWhatIsDue(calls, c)
  {
    var t, t' := Run(calls), Step(Run(calls), c);
    hide Run, Step, AgreesAt, Answerers, Succeeds, Fails, SuspectSince, InARow;
    forall n | AboutNode(n) && IsNode(n.addr) ensures !Due(calls, c, n.addr, n.kind) {
      NoOutcome(calls, c, n.addr);
    }
  }

  /** What ageing makes of a record. */
  predicate Ages(r: Record, now: nat) {
    r.state == Suspect && Elapsed(now, r.suspectSince) >= OFFLINE_THRESHOLD
  }

  lemma TickAdds(t: Tracker, now: nat)
    requires Shape(t)
    ensures var t' := Tick(t, now);
      && t.log <= t'.log && t'.bus.fallbackSeen == t.bus.fallbackSeen && (t.bus.fault ==> t'.bus.fault)
      && (forall n :: AboutNode(n) && IsNode(n.addr) ==>
        (Adds(t, t', n) <==> n.kind == OFFLINE && Ages(t.recs[n.addr], now)))
      && (forall b :: 0 <= b < ADDR_COUNT ==>
           t'.recs[b] == if Ages(t.recs[b], now) then t.recs[b].(state := Offline) else t.recs[b])
  {
    var t1 := Age(t, 0, now);
    AgeAdds(t, 0, now);
    DeclareAdds(t1, now);
    DeclareLeaves(t1, now);
    AddsChain(t, t1, Tick(t, now));
    hide Age, EvaluateDeclare, Adds;
  }

  lemma TickAgreesAt(calls: seq<Call>, now: nat, b: byte)
    requires IsNode(b) && AgreesAt(Run(calls).recs[b], calls, b)
    ensures AgreesAt(Tick(Run(calls), now).recs[b], calls + [Ticked(now)], b)
  {
    hide Run, AgreesAt, Answerers, AnswerersWith, Succeeds, Fails, Tick, Adds, Due;
    var c, t := Ticked(now), Run(calls);
    TickAdds(t, now);
    NoOutcome(calls, c, b);
    SameAgrees(calls, c, b, t.recs[b], Tick(t, now).recs[b]);
  }

  lemma TickAgrees(calls: seq<Call>, now: nat)
    requires Agrees(Run(calls), calls)
    ensures Agrees(Step(Run(calls), Ticked(now)), calls + [Ticked(now)])
  {
    hide AgreesAt, Answerers, AnswerersWith, Succeeds, Fails, Tick, Adds, Due, Ages;
    var c, t := Ticked(now), Run(calls);
    RunKeeps(calls);
    HealthyHasNoAnswerers(t);
    TickAdds(t, now);
    NoOutcome(calls, c, 1);
    HistoriesNext(calls, c, 1);
    hide Run, Inv;
    forall b: byte | IsNode(b) ensures AgreesAt(Tick(t, now).recs[b], calls + [c], b) {
      TickAgreesAt(calls, now, b);
    }
  }

  lemma TickTold(calls: seq<Call>, now: nat)
    requires Agrees(Run(calls), calls)
    ensures TellsWhatIsDue(calls, Ticked(now))
  {
    var c, t := Ticked(now), Run(calls);
    TickAdds(t, now);
    hide Run, Answerers, Tick, Adds, Due, AgreesAt, Ages;
    forall n | AboutNode(n) && IsNode(n.addr)
      ensures Due(calls, c, n.addr, n.kind) <==> n.kind == OFFLINE && Ages(t.recs[n.addr], now)
    {
      TickDue(calls, now, n.addr, n.kind);
    }
  }

  lemma TickDue(calls: seq<Call>, now: nat, b: byte, kind: NoticeKind)
    requires IsNode(b) && AgreesAt(Run(calls).recs[b], calls, b)
    ensures Due(calls, Ticked(now), b, kind) <==> kind == OFFLINE && Ages(Run(calls).recs[b], now)
  {
    TickKeepsFault(Run(calls), now);
    NoOutcome(calls, Ticked(now), b);
    hide Run, Succeeds, Fails, InARow, SuspectSince, Tick;
  }

  lemma TickKeepsFault(t: Tracker, now: nat)
    requires Shape(t)
    ensures t.bus.fault ==> Tick(t, now).bus.fault
  {
  }

  // ---------------------------------------------------------------- probes

  lemma {:induction false} PassScanQuiets(t: Tracker, n: nat, now: nat)
    requires Shape(t)
    ensures Quiet(t, PassScan(t, n, now).0)
    decreases n
  {
    if n > 0 && !Left(t.recs[t.bus.passNext]) {
      PassScanQuiets(t.(bus := t.bus.(passNext := NextBackplane(t.bus.passNext))), n - 1, now);
    }
  }

  lemma {:induction false} RotateQuiets(t: Tracker, n: nat, rate: nat, now: nat)
    requires Shape(t)
    ensures Quiet(t, Rotate(t, n, rate, now).0)
    decreases n
  {
    if n > 0 {
      var t1 := t.(nextProbe := NextBackplane(t.nextProbe));
      if !Candidate(t1, t1.nextProbe) { RotateQuiets(t1, n - 1, rate, now); }
    }
  }

  /** After the write-off a probe request is quiet. */
  lemma ProbeQuiets(t: Tracker, now: nat)
    requires Shape(t)
    ensures Quiet(WriteOff(t, now), NextProbe(t, now).0)
  {
    var t1 := WriteOff(t, now);
    hide WriteOff, PassScan, Rotate;
    PassScanQuiets(t1, BACKPLANES, now);
    RotateQuiets(Alternate(t1).0, BACKPLANES, Alternate(t1).1, now);
  }

  /** A probe request that ends the fault: every recorded answerer is enrolled. */
  lemma ProbeAdds(t: Tracker, now: nat)
    requires Inv(t) && t.bus.fault && !NextProbe(t, now).0.bus.fault
    ensures var t' := NextProbe(t, now).0;
      && t.log <= t'.log && t'.bus.fallbackSeen == {} && FallbackClear(t, t')
      && (forall n :: AboutNode(n) && IsNode(n.addr) ==>
           (Adds(t, t', n) <==> n.addr in t.bus.fallbackSeen && Tells(t.recs[n.addr], true, now, n.kind)))
      && (forall b: byte :: IsNode(b) ==>
           SameStory(if b in t.bus.fallbackSeen then t.recs[b].(state := Enrolled, failures := 0)
             else t.recs[b], t'.recs[b]))
  {
    ProbeQuiets(t, now);
    NextProbeAfterWriteOff(t, now);
    ClearAdds(SpendPassProbe(t), BIT_RATE_FALLBACK, now);
    SeenAreNodes(t);
    assert WriteOff(t, now) == ClearFault(SpendPassProbe(t), BIT_RATE_FALLBACK, now) by { hide ClearFault, Inv; }
    hide NextProbe, WriteOff, ClearFault, Tells, Inv;
  }

  lemma SeenAreNodes(t: Tracker)
    requires Inv(t)
    ensures forall a :: a in t.bus.fallbackSeen ==> IsNode(a)
  {
  }

  lemma ProbeAgrees(calls: seq<Call>, now: nat)
    requires Agrees(Run(calls), calls)
    ensures Agrees(Step(Run(calls), Probed(now)), calls + [Probed(now)]) && TellsWhatIsDue(calls, Probed(now))
  {
    var c, t := Probed(now), Run(calls);
    RunKeeps(calls);
    if t.bus.fault && !NextProbe(t, now).0.bus.fault {
      ClearProbeAgrees(calls, now);
      ClearProbeTold(calls, now);
    } else {
      ProbeQuiets(t, now);
      NextProbeAfterWriteOff(t, now);
      assert Quiet(t, NextProbe(t, now).0) by { QuietWriteOff(t, now); }
      QuietAgrees(calls, c);
      QuietTold(calls, c);
    }
  }

  lemma QuietWriteOff(t: Tracker, now: nat)
    requires Shape(t) && !(t.bus.fault && !WriteOff(t, now).bus.fault) && Quiet(WriteOff(t, now), NextProbe(t, now).0)
    ensures Quiet(t, NextProbe(t, now).0)
  {
    hide NextProbe;
    WriteOffEndsFault(t, now);
    hide ClearFault;
  }

  /** What a probe request that ends the fault makes of the histories. */
  lemma ClearProbeMeans(calls: seq<Call>, now: nat, b: byte)
    requires IsNode(b) && Agrees(Run(calls), calls) && FallbackClear(Run(calls), Step(Run(calls), Probed(now)))
    ensures var c := Probed(now);
      && !Fails(calls, c, b) && (Succeeds(calls, c, b) <==> b in Run(calls).bus.fallbackSeen)
  {
    hide Run, Step, Late, LastSent, AgreesAt;
  }

  lemma ClearProbeAgrees(calls: seq<Call>, now: nat)
    requires Agrees(Run(calls), calls) && Run(calls).bus.fault && !NextProbe(Run(calls), now).0.bus.fault
    ensures Agrees(Step(Run(calls), Probed(now)), calls + [Probed(now)])
  {
    var c, t := Probed(now), Run(calls);
    var t' := NextProbe(t, now).0;
    RunKeeps(calls);
    HealthyHasNoAnswerers(t);
    ProbeAdds(t, now);
    HistoriesNext(calls, c, 1);
    hide Run, NextProbe, Inv, AgreesAt, Answerers, AnswerersWith, Succeeds, Fails, Adds, Due, Tells;
    forall b: byte | IsNode(b) ensures AgreesAt(t'.recs[b], calls + [c], b) {
      ClearProbeMeans(calls, now, b);
      ClearProbeMoves(calls, now, b, t'.recs[b]);
      MovesAgrees(calls, c, b, t'.recs[b]);
    }
  }

  lemma ClearProbeMoves(calls: seq<Call>, now: nat, b: byte, r: Record)
    requires IsNode(b) && AgreesAt(Run(calls).recs[b], calls, b) && Run(calls).recs[b].state != Enrolled
    requires !Fails(calls, Probed(now), b) && (Succeeds(calls, Probed(now), b) <==> b in Run(calls).bus.fallbackSeen)
    requires var r0 := Run(calls).recs[b];
      SameStory(if b in Run(calls).bus.fallbackSeen then r0.(state := Enrolled, failures := 0) else r0, r)
    ensures Moves(calls, Probed(now), b, r)
  {
    hide Run, Succeeds, Fails, InARow, SuspectSince;
  }

  lemma ClearProbeTold(calls: seq<Call>, now: nat)
    requires Agrees(Run(calls), calls) && Run(calls).bus.fault && !NextProbe(Run(calls), now).0.bus.fault
    ensures TellsWhatIsDue(calls, Probed(now))
  {
    hide Run, NextProbe, AgreesAt, Answerers, AnswerersWith, Succeeds, Fails, Adds, Due, Tells, Agrees;
    var c, t := Probed(now), Run(calls);
    RunKeeps(calls);
    ProbeAdds(t, now);
    hide Inv;
    forall n | AboutNode(n) && IsNode(n.addr)
      ensures Due(calls, c, n.addr, n.kind) <==>
        n.addr in t.bus.fallbackSeen && Tells(t.recs[n.addr], true, now, n.kind)
    {
      ClearProbeMeans(calls, now, n.addr);
      ClearProbeDue(calls, now, n.addr, n.kind);
    }
  }

  lemma ClearProbeDue(calls: seq<Call>, now: nat, b: byte, kind: NoticeKind)
    requires IsNode(b) && !Fails(calls, Probed(now), b)
    requires Succeeds(calls, Probed(now), b) <==> b in Run(calls).bus.fallbackSeen
    ensures Due(calls, Probed(now), b, kind) <==>
      b in Run(calls).bus.fallbackSeen && Tells(Run(calls).recs[b], true, now, kind)
  {
    hide Run, Succeeds, Fails, InARow, SuspectSince;
  }

  // ---------------------------------------------------------------- every run

  lemma CallAgrees(calls: seq<Call>, c: Call)
    requires Agrees(Run(calls), calls)
    ensures Agrees(Step(Run(calls), c), calls + [c]) && TellsWhatIsDue(calls, c)
  {
    hide Run, OnResult, Tick, NextProbe, Agrees, TellsWhatIsDue;
    match c
    case Result(a, ok, now) =>
      if IsNode(a) {
        OutcomeAgrees(calls, a, ok, now);
        OutcomeTold(calls, a, ok, now);
      } else {
        NoNode(Run(calls), a, ok, now);
        QuietAgrees(calls, c);
        QuietTold(calls, c);
      }
    case Ticked(now) =>
      TickAgrees(calls, now);
      TickTold(calls, now);
    case Polled(_, _) =>
      QuietAgrees(calls, c);
      QuietTold(calls, c);
    case Probed(now) => ProbeAgrees(calls, now);
    case RateSet(_) =>
      QuietAgrees(calls, c);
      QuietTold(calls, c);
  }

  lemma {:induction false} RunAgrees(calls: seq<Call>)
    ensures Agrees(Run(calls), calls)
  {
    hide Step, Agrees;
    if calls == [] {
      NothingAgrees();
    } else {
      var n := |calls| - 1;
      assert calls[..n] + [calls[n]] == calls;
      RunAgrees(calls[..n]);
      CallAgrees(calls[..n], calls[n]);
    }
  }

  lemma NothingAgrees()
    ensures Agrees(Run([]), [])
  {
  }

  /** An ENROLLED address has as many consecutive failures as the calls say, and never as many as make it SUSPECT. */
  lemma FailuresAreInARow(calls: seq<Call>, a: byte)
    requires IsNode(a) && Run(calls).recs[a].state == Enrolled
    ensures Run(calls).recs[a].failures == InARow(calls, a) < SUSPECT_AFTER_FAILURES
  {
    hide Run, InARow;
    RunAgrees(calls);
  }

  /** Each call sends exactly the notices about addresses that the calls so far make due, no more and no fewer. */
  lemma NoticesAreDue(calls: seq<Call>, c: Call)
    ensures TellsWhatIsDue(calls, c)
  {
    hide Agrees, TellsWhatIsDue;
    RunAgrees(calls);
    CallAgrees(calls, c);
  }
}
