/**
 * The sixteen-transaction window is exact: with it open every answer is its own, and closed some run proves otherwise.
 */
module LinkWindow {
  import opened Protocol
  import opened Frame
  import M = Master
  import R = Responder
  import MasterRuns
  import opened LinkSystem
  import opened LinkTime

  // ---------------------------------------------------------------- states a run can continue from

  /** Reachable, and the node done with every frame it has put on the wire. */
  ghost predicate Live(s: System, h: R.Handler)
    requires Shape(s)
  {
    Inv(s, h) && s.r.phase != R.Transmitting
  }

  lemma LiveStep(s: System, a: Act, h: R.Handler)
    requires Shape(s) && Live(s, h) && Honest(h)
    ensures Live(Step(s, a, h), h)
  {
    StepKeeps(s, a, h);
    hide Inv, Encode, M.Digest, M.EndAttempt;
  }

  lemma {:induction false} LiveRun(s: System, acts: seq<Act>, h: R.Handler)
    requires Shape(s) && Live(s, h) && Honest(h)
    ensures Live(Run(s, acts, h), h)
  {
    hide Step, Live;
    if acts != [] {
      LiveRun(s, acts[..|acts| - 1], h);
      LiveStep(Run(s, acts[..|acts| - 1], h), acts[|acts| - 1], h);
    }
  }

  // ---------------------------------------------------------------- clearing the channel

  predicate NoBegin(acts: seq<Act>) {
    forall a :: a in acts ==> !a.Begin?
  }

  lemma {:induction false} LoseRequests(s: System, n: nat, since: nat, h: R.Handler) returns (acts: seq<Act>)
    requires Shape(s) && n <= |s.toNode|
    ensures Run(s, acts, h) == s.(toNode := s.toNode[n..]) && NoBegin(acts)
    ensures InTime(s, acts, since, h) && Clock(s, acts, since, h) == since
    decreases n
  {
    if n == 0 {
      acts := [];
      assert s.toNode[0..] == s.toNode;
    } else {
      hide Run, Clock, InTime;
      acts := LoseRequests(s, n - 1, since, h);
      Then(s, acts, LoseRequest(0), since, h);
      acts := acts + [LoseRequest(0)];
      assert Without(s.toNode[n - 1..], 0) == s.toNode[n..];
    }
  }

  lemma {:induction false} LoseResponses(s: System, n: nat, since: nat, h: R.Handler) returns (acts: seq<Act>)
    requires Shape(s) && n <= |s.toHost|
    ensures Run(s, acts, h) == s.(toHost := s.toHost[n..]) && NoBegin(acts)
    ensures InTime(s, acts, since, h) && Clock(s, acts, since, h) == since
    decreases n
  {
    if n == 0 {
      acts := [];
      assert s.toHost[0..] == s.toHost;
    } else {
      hide Run, Clock, InTime;
      acts := LoseResponses(s, n - 1, since, h);
      Then(s, acts, LoseResponse(0), since, h);
      acts := acts + [LoseResponse(0)];
      assert Without(s.toHost[n - 1..], 0) == s.toHost[n..];
    }
  }

  /** The same transactions, calls and requests; the node listens. */
  predicate Settled(s: System, s': System)
    requires Shape(s) && Shape(s')
  {
    && s'.r.phase == R.Listening && s'.m == s.m && s'.toNode == s.toNode && s'.handled == s.handled
    && s'.accepted == s.accepted && s'.r.buffer == s.r.buffer && s'.r.my == s.r.my && s'.r.calls == s.r.calls
  }

  lemma Settle(s: System, since: nat, h: R.Handler) returns (acts: seq<Act>)
    requires Shape(s) && s.r.phase != R.Transmitting
    ensures Settled(s, Run(s, acts, h)) && NoBegin(acts) && InTime(s, acts, since, h)
  {
    hide Encode, Run, Clock, InTime;
    if s.r.phase == R.Listening {
      acts := [];
      Nothing(s, since, h);
    } else {
      acts := [Respond(Latest(since, s.r.deadline))];
      Once(s, acts[0], since, h);
    }
  }

  /** An empty channel and a listening node, the host as it was. */
  lemma Clear(s: System, since: nat, h: R.Handler) returns (acts: seq<Act>)
    requires Shape(s) && s.r.phase != R.Transmitting
    ensures var s' := Run(s, acts, h);
      Settled(s.(toNode := [], toHost := []), s') && s'.toHost == [] && NoBegin(acts) && InTime(s, acts, since, h)
  {
    hide Run, Clock, InTime, Shape;
    acts := Settle(s, since, h);
    var s1, clock := Run(s, acts, h), Clock(s, acts, since, h);
    var more := LoseRequests(s1, |s1.toNode|, clock, h);
    Join(s, acts, more, since, h);
    acts := acts + more;
    var s2 := Run(s, acts, h);
    more := LoseResponses(s2, |s2.toHost|, clock, h);
    Join(s, acts, more, since, h);
    acts := acts + more;
  }

  // ---------------------------------------------------------------- an answer that is not its own

  /** The host waits, and the next frame it will hear passes for its answer but reports an older transaction's call. */
  predicate Poised(s: System)
    requires Shape(s)
  {
    && M.Awaiting(s.m) && s.m.windowStart < s.m.deadline
    && s.toHost != [] && Passes(s, s.toHost[0])
  }

  predicate Passes(s: System, p: Packet)
    requires Shape(s)
  {
    && p.frame.response && p.frame.src == s.m.dst && p.frame.dst == s.m.host && p.frame.seqNo == s.m.seqNo
    && p.id < |s.handled| && s.handled[p.id].txn + 1 < |s.m.hist.begun|
  }

  /** It opens now, within the window. */
  predicate Ready(s: System, clock: nat, p: Packet)
    requires Shape(s)
  {
    Poised(s) && s.toHost[0] == p && s.m.windowStart <= clock < s.m.deadline
  }

  lemma HearStale(s: System, clock: nat, p: Packet, h: R.Handler)
    requires Shape(s) && Ready(s, clock, p)
    ensures var s' := Step(s, Hear(clock), h);
      && Allowed(s, Hear(clock), clock) && !AllOwn(s') && s'.handled == s.handled && s'.m.hist.begun == s.m.hist.begun
      && Accepted(|s.m.hist.begun| - 1, p.id, p.frame.payload) in s'.accepted
  {
    var s' := Step(s, Hear(clock), h);
    assert Accepted(|s.m.hist.begun| - 1, p.id, p.frame.payload) in s'.accepted;
  }

  /** A transaction just begun that carries the same number as an earlier one. */
  predicate Asking(s: System, txn: nat)
    requires Shape(s)
  {
    var b := s.m.hist.begun;
    && s.m.open && s.m.phase == M.PendingTransmit && s.m.attempts == 0 && s.m.dst == s.r.my
    && txn + 1 < |b| && b[txn].dst == s.r.my && b[txn].seqNo == s.m.seqNo
  }

  lemma SentAhead(s: System, txn: nat, since: nat, h: R.Handler)
    requires Shape(s) && Live(s, h) && Asking(s, txn) && s.toHost != []
    requires s.toHost[0].id < |s.handled| && s.handled[s.toHost[0].id].txn == txn
    ensures var a := Transmit(Free(s, since)); var s' := Step(s, a, h);
      Allowed(s, a, since) && Ready(s', After(s, a, since, h), s.toHost[0])
  {
    hide Log, Requests, Calls, NoneAgain, Buffer, Answers, Encode, M.Want;
    var p := s.toHost[0];
    assert IsResponse(s.m.hist.begun, s.handled, s.r.my, s.m.host, p.id, p.frame);
  }

  /** A response to the earlier one is in flight: everything ahead of it is lost, and it is heard. */
  lemma FromResponse(s: System, i: nat, txn: nat, since: nat, h: R.Handler) returns (acts: seq<Act>)
    requires Shape(s) && Live(s, h) && Honest(h) && Asking(s, txn) && i < |s.toHost|
    requires s.toHost[i].id < |s.handled| && s.handled[s.toHost[i].id].txn == txn
    ensures !AllOwn(Run(s, acts, h)) && NoBegin(acts) && InTime(s, acts, since, h)
  {
    hide Run, Clock, InTime, Live, AllOwn, Step, Allowed, After, Ready, Free;
    acts := LoseResponses(s, i, since, h);
    LiveRun(s, acts, h);
    var s1 := Run(s, acts, h);
    var a := Transmit(Free(s1, since));
    SentAhead(s1, txn, since, h);
    Then(s, acts, a, since, h);
    acts := acts + [a];
    var s2, clock := Run(s, acts, h), Clock(s, acts, since, h);
    HearStale(s2, clock, s1.toHost[0], h);
    Then(s, acts, Hear(clock), since, h);
    acts := acts + [Hear(clock)];
  }

  // ---------------------------------------------------------------- the last one handled

  /** Nothing in flight, the node listening, its buffer holding what the earlier transaction was answered. */
  predicate Buffered(s: System, txn: nat)
    requires Shape(s)
  {
    && s.toNode == [] && s.toHost == [] && s.r.phase == R.Listening
    && s.handled != [] && Last(s.handled).txn == txn
    && s.m.host < ADDR_COUNT && s.r.my < ADDR_COUNT && s.m.host != s.r.my && s.r.calls == |s.handled|
    && s.r.buffer.Some? && var f := s.r.buffer.value;
      f.response && f.src == s.r.my && f.dst == s.m.host && f.seqNo == s.m.seqNo
  }

  /** The first attempt lost, the second just sent. */
  predicate Retried(s: System, txn: nat, clock: nat)
    requires Shape(s)
  {
    && M.Awaiting(s.m) && s.m.windowStart + T_RESP == s.m.deadline && s.m.dst == s.r.my && txn + 1 < |s.m.hist.begun|
    && |s.toNode| == 1 && s.toNode[0].frame == Fields(s.m.dst, s.m.host, false, true, s.m.seqNo, s.m.payload)
    && clock == s.m.windowStart && s.r.txUntil <= clock
    && Buffered(s.(toNode := []), txn)
  }

  /** What stays as it was while the answer is fetched. */
  predicate SameStory(s: System, s': System) {
    && s'.handled == s.handled && s'.m.hist.begun == s.m.hist.begun
    && (s.r.buffer.Some? ==> s'.r.buffer == s.r.buffer)
  }

  /** The first attempt lost, the second deferred. */
  predicate Deferred(s: System, txn: nat)
    requires Shape(s)
  {
    && s.m.open && s.m.phase == M.PendingTransmit && s.m.attempts == 1 && s.m.dst == s.r.my
    && txn + 1 < |s.m.hist.begun| && Buffered(s, txn)
  }

  /** Sent, lost, timed out at its deadline. */
  lemma FirstLost(s: System, txn: nat, since: nat, h: R.Handler) returns (acts: seq<Act>)
    requires Shape(s) && Asking(s, txn) && Buffered(s, txn)
    ensures var s' := Run(s, acts, h);
      Deferred(s', txn) && NoBegin(acts) && InTime(s, acts, since, h) && SameStory(s, s')
  {
    hide Run, Clock, InTime, Encode, M.Want;
    var now := Free(s, since);
    acts := [Transmit(now)];
    Once(s, Transmit(now), since, h);
    var s1 := Run(s, acts, h);
    Then(s, acts, LoseRequest(0), since, h);
    acts := acts + [LoseRequest(0)];
    assert Without(s1.toNode, 0) == [];
    Then(s, acts, Expire(s1.m.deadline, M.Timeout), since, h);
    acts := acts + [Expire(s1.m.deadline, M.Timeout)];
  }

  lemma SecondSent(s: System, txn: nat, since: nat, h: R.Handler)
    requires Shape(s) && Deferred(s, txn)
    ensures var a := Transmit(Free(s, since)); var s' := Step(s, a, h);
      Allowed(s, a, since) && Retried(s', txn, After(s, a, since, h)) && SameStory(s, s')
  {
    hide Encode, M.Want;
  }

  lemma RetryOut(s: System, txn: nat, since: nat, h: R.Handler) returns (acts: seq<Act>)
    requires Shape(s) && Asking(s, txn) && Buffered(s, txn)
    ensures var s' := Run(s, acts, h);
      Retried(s', txn, Clock(s, acts, since, h)) && NoBegin(acts) && InTime(s, acts, since, h) && SameStory(s, s')
  {
    hide Run, Clock, InTime, Asking, Buffered, Deferred, Retried, Step, Allowed, After, Free;
    acts := FirstLost(s, txn, since, h);
    var s1, clock := Run(s, acts, h), Clock(s, acts, since, h);
    var a := Transmit(Free(s1, clock));
    SecondSent(s1, txn, clock, h);
    Then(s, acts, a, since, h);
    acts := acts + [a];
  }

  /** Delivered when it ends, answered from the buffer at the turnaround, which is within the response window. */
  lemma ReplayBack(s: System, txn: nat, since: nat, h: R.Handler) returns (acts: seq<Act>)
    requires Shape(s) && Retried(s, txn, since)
    ensures var s' := Run(s, acts, h);
      && Ready(s', Clock(s, acts, since, h), Packet(s.r.buffer.value, |s.handled| - 1))
      && NoBegin(acts) && InTime(s, acts, since, h) && SameStory(s, s')
  {
    hide Run, Clock, InTime, Encode, M.Want;
    acts := [Deliver(since)];
    Once(s, Deliver(since), since, h);
    var due := Run(s, acts, h).r.deadline;
    Then(s, acts, Respond(due), since, h);
    acts := acts + [Respond(due)];
  }

  lemma AskedAgain(s: System, txn: nat, since: nat, h: R.Handler) returns (acts: seq<Act>)
    requires Shape(s) && Asking(s, txn) && Buffered(s, txn)
    ensures var s' := Run(s, acts, h);
      && s.handled != [] && s.r.buffer.Some?
      && Ready(s', Clock(s, acts, since, h), Packet(s.r.buffer.value, |s.handled| - 1))
      && NoBegin(acts) && InTime(s, acts, since, h) && SameStory(s, s')
  {
    HasBuffer(s, txn);
    hide Run, Clock, InTime, Asking, Buffered, Retried, Ready, Step, Allowed, After;
    acts := RetryOut(s, txn, since, h);
    var s1, clock := Run(s, acts, h), Clock(s, acts, since, h);
    var more := ReplayBack(s1, txn, clock, h);
    Join(s, acts, more, since, h);
    acts := acts + more;
  }

  lemma HasBuffer(s: System, txn: nat)
    requires Shape(s) && Buffered(s, txn)
    ensures s.r.buffer.Some? && s.handled != []
  {
  }

  /** With nothing else in flight the retry is answered from the buffer. */
  lemma FromBuffer(s: System, txn: nat, since: nat, h: R.Handler) returns (acts: seq<Act>)
    requires Shape(s) && Asking(s, txn) && Buffered(s, txn)
    ensures var s' := Run(s, acts, h);
      && !AllOwn(s') && NoBegin(acts) && InTime(s, acts, since, h) && s.r.buffer.Some? && s.handled != []
      && s'.handled == s.handled && s'.m.hist.begun == s.m.hist.begun
      && Accepted(|s.m.hist.begun| - 1, |s.handled| - 1, s.r.buffer.value.payload) in s'.accepted
  {
    hide Run, Clock, InTime, Asking, Buffered, Ready, AllOwn, Step, Allowed, After;
    acts := AskedAgain(s, txn, since, h);
    var s1, clock := Run(s, acts, h), Clock(s, acts, since, h);
    Then(s, acts, Hear(clock), since, h);
    HearStale(s1, clock, Packet(s.r.buffer.value, |s.handled| - 1), h);
    acts := acts + [Hear(clock)];
  }

  /** The last call was the earlier transaction's: the channel is cleared and the new one's retry replayed. */
  lemma FromHandled(s: System, txn: nat, since: nat, h: R.Handler) returns (acts: seq<Act>)
    requires Shape(s) && Live(s, h) && Asking(s, txn) && s.handled != [] && Last(s.handled).txn == txn
    ensures !AllOwn(Run(s, acts, h)) && NoBegin(acts) && InTime(s, acts, since, h)
  {
    hide Run, Clock, InTime, Log, Requests, Calls, NoneAgain, Responses, Answers, AllOwn;
    acts := Clear(s, since, h);
    var s1 := Run(s, acts, h);
    assert Buffered(s1, txn);
    var more := FromBuffer(s1, txn, Clock(s, acts, since, h), h);
    Join(s, acts, more, since, h);
    acts := acts + more;
  }

  /**
   * Nothing handled yet and the earlier transaction's request in flight: delivered, it becomes the last one handled.
   */
  lemma FromRequest(s: System, i: nat, txn: nat, since: nat, h: R.Handler) returns (acts: seq<Act>)
    requires Shape(s) && Live(s, h) && Honest(h) && Asking(s, txn) && s.handled == []
    requires i < |s.toNode| && s.toNode[i].id == txn
    ensures !AllOwn(Run(s, acts, h)) && NoBegin(acts) && InTime(s, acts, since, h)
  {
    hide Run, Clock, InTime, AllOwn, Step, Inv;
    acts := Settle(s, since, h);
    hide Live;
    var more := LoseRequests(Run(s, acts, h), i, Clock(s, acts, since, h), h);
    Join(s, acts, more, since, h);
    acts := acts + more;
    LiveRun(s, acts, h);
    var s2 := Run(s, acts, h);
    var end := Latest(Clock(s, acts, since, h), s2.r.txUntil);
    DeliverFirst(s2, txn, end, h);
    Then(s, acts, Deliver(end), since, h);
    acts := acts + [Deliver(end)];
    LiveRun(s, acts, h);
    more := FromHandled(Run(s, acts, h), txn, Clock(s, acts, since, h), h);
    Join(s, acts, more, since, h);
    acts := acts + more;
  }

  lemma DeliverFirst(s: System, txn: nat, end: nat, h: R.Handler)
    requires Shape(s) && Live(s, h) && Honest(h) && Asking(s, txn) && s.handled == [] && s.r.phase == R.Listening
    requires s.toNode != [] && s.toNode[0].id == txn
    ensures var s' := Step(s, Deliver(end), h); Asking(s', txn) && s'.handled != [] && Last(s'.handled).txn == txn
  {
    hide Encode, Log, Calls, NoneAgain, Responses, Answers;
    assert RequestOk(s.m.hist.begun, s.m.host, Limit(s.m), s.toNode[0]);
  }

  // ---------------------------------------------------------------- closed

  /** Exactly sixteen behind: what a closed window holds and an open one does not. */
  predicate Sixteenth(s: System, txn: nat)
    requires Shape(s)
  {
    var b, my := s.m.hist.begun, s.r.my;
    txn < |b| && b[txn].dst == my && MasterRuns.BegunTo(b, my) - Ordinal(b, my, txn) == 16
  }

  /** The transaction begun next carries the number of one sixteen behind. */
  lemma BeginAsks(s: System, txn: nat, now: nat, h: R.Handler)
    requires Shape(s) && Live(s, h) && !s.m.open && Sixteenth(s, txn)
    ensures var s' := Step(s, Begin(s.r.my, [], now), h);
      && Asking(s', txn) && s'.toNode == s.toNode && s'.toHost == s.toHost && s'.handled == s.handled && s'.r == s.r
  {
    hide Requests, Calls, NoneAgain, Buffer, Responses, Answers, MasterRuns.BegunTo;
  }

  lemma HandledIsOurs(s: System, i: nat, h: R.Handler)
    requires Shape(s) && Inv(s, h) && i < |s.handled|
    ensures s.handled[i].txn < |s.m.hist.begun| && s.m.hist.begun[s.handled[i].txn].dst == s.r.my
  {
    hide Log, Requests, NoneAgain, Buffer, Responses, Answers;
    assert HandledOk(s.m.hist.begun, s.r.my, Limit(s.m), h, i, s.handled[i]);
  }

  /** What holds the window closed: the last one handled, a request in flight, or a response in flight. */
  datatype Holder = LastHandled | RequestAt(i: nat) | ResponseAt(i: nat)

  predicate Holds(s: System, x: Holder, txn: nat) {
    match x
    case LastHandled => s.handled != [] && Last(s.handled).txn == txn
    case RequestAt(i) => i < |s.toNode| && s.toNode[i].id == txn && s.handled == []
    case ResponseAt(i) => i < |s.toHost| && s.toHost[i].id < |s.handled| && s.handled[s.toHost[i].id].txn == txn
  }

  lemma Closed(s: System, h: R.Handler) returns (x: Holder, txn: nat)
    requires Shape(s) && Inv(s, h) && Young(s, 16) && !WindowOpen(s)
    ensures Sixteenth(s, txn) && Holds(s, x, txn)
  {
    hide Log, Requests, Calls, NoneAgain, Buffer, Responses, Answers, Ordinal, MasterRuns.BegunTo;
    var b, my := s.m.hist.begun, s.r.my;
    if s.handled != [] && !Recent(b, my, Last(s.handled).txn, 15) {
      HandledIsOurs(s, |s.handled| - 1, h);
      x, txn := LastHandled, Last(s.handled).txn;
    } else if p :| p in s.toHost && !(p.id < |s.handled| && Recent(b, my, s.handled[p.id].txn, 15)) {
      HandledIsOurs(s, p.id, h);
      var i :| 0 <= i < |s.toHost| && s.toHost[i] == p;
      x, txn := ResponseAt(i), s.handled[p.id].txn;
    } else {
      var p :| p in s.toNode && p.frame.dst == my && !Recent(b, my, p.id, 15);
      var i :| 0 <= i < |s.toNode| && s.toNode[i] == p;
      OldRequest(s, i, h);
      x, txn := RequestAt(i), p.id;
    }
  }

  /** A request in flight sixteen behind has no call before it. */
  lemma OldRequest(s: System, i: nat, h: R.Handler)
    requires Shape(s) && Inv(s, h) && i < |s.toNode| && s.toNode[i].frame.dst == s.r.my
    requires Young(s, 16) && (s.handled != [] ==> Recent(s.m.hist.begun, s.r.my, Last(s.handled).txn, 15))
    requires !Recent(s.m.hist.begun, s.r.my, s.toNode[i].id, 15)
    ensures s.handled == [] && Sixteenth(s, s.toNode[i].id)
  {
    hide Log, Calls, Buffer, Responses, Answers, Ordinal, MasterRuns.BegunTo;
    var b, p := s.m.hist.begun, s.toNode[i];
    assert p in s.toNode && RequestOk(b, s.m.host, Limit(s.m), p);
    if s.handled != [] { OrdinalGrows(b, s.r.my, Last(s.handled).txn, p.id); }
  }

  /** With the window closed, beginning one more transaction can end in an answer that is not its own. */
  lemma ClosedIsStale(s: System, since: nat, h: R.Handler) returns (more: seq<Act>)
    requires Shape(s) && Live(s, h) && Honest(h) && Young(s, 16) && !s.m.open && !WindowOpen(s)
    ensures OneBegin(more, s.r.my) && !AllOwn(Run(s, more, h)) && InTime(s, more, since, h)
  {
    hide Run, Clock, InTime, Live, Young, AllOwn, Asking, Sixteenth, Step;
    assert Inv(s, h) by { LiveIsInv(s, h); }
    var x, txn := Closed(s, h);
    var a := Begin(s.r.my, [], since);
    BeginAsks(s, txn, since, h);
    LiveStep(s, a, h);
    Once(s, a, since, h);
    var s1 := Step(s, a, h);
    match x {
      case LastHandled => more := FromHandled(s1, txn, since, h);
      case RequestAt(i) => more := FromRequest(s1, i, txn, since, h);
      case ResponseAt(i) => more := FromResponse(s1, i, txn, since, h);
    }
    Join(s, [a], more, since, h);
    more := [a] + more;
  }

  lemma LiveIsInv(s: System, h: R.Handler)
    requires Shape(s) && Live(s, h)
    ensures Inv(s, h)
  {
  }

  // ---------------------------------------------------------------- exactly

  /** A transaction to the node begun now, and then everything but another begin. */
  predicate OneBegin(acts: seq<Act>, my: byte) {
    acts != [] && acts[0].Begin? && acts[0].dst == my && NoBegin(acts[1..])
  }

  lemma StartIsLive(start: System, acts: seq<Act>, h: R.Handler)
    requires Shape(start) && Configured(start) && Honest(h)
    ensures Live(Run(start, acts, h), h)
  {
    hide Run, Inv;
    RunKeeps(start, [], h);
    Nothing(start, 0, h);
    LiveRun(start, acts, h);
  }

  lemma {:induction false} StaysCareful(start: System, acts: seq<Act>, more: seq<Act>, h: R.Handler)
    requires Shape(start) && Careful(start, acts, h) && !Run(start, acts, h).m.open && WindowOpen(Run(start, acts, h))
    requires more == [] || OneBegin(more, start.r.my)
    ensures Careful(start, acts + more, h)
    decreases |more|
  {
    hide Step, WindowOpen;
    if more == [] {
      assert acts + more == acts;
    } else {
      var n := |more| - 1;
      assert (acts + more)[..|acts + more| - 1] == acts + more[..n] && (acts + more)[|acts + more| - 1] == more[n];
      if n == 0 {
        assert acts + more[..0] == acts;
      } else {
        assert more[..n][1..] == more[1..][..n - 1] && more[n] == more[1..][n - 1];
        StaysCareful(start, acts, more[..n], h);
      }
    }
  }

  /**
   * The window is the exact condition for beginning a transaction: while it is open, whatever is lost, delayed or
   * retried next leaves every answer its own; once it is closed, some continuation the stations' own clocks allow does
   * not.
   */
  lemma WindowIsExact(start: System, acts: seq<Act>, since: nat, h: R.Handler)
    requires Shape(start) && Configured(start) && Honest(h) && Careful(start, acts, h) && !Run(start, acts, h).m.open
    ensures var s := Run(start, acts, h);
      WindowOpen(s) <==>
        forall more :: OneBegin(more, start.r.my) && InTime(s, more, since, h) ==> AllOwn(Run(start, acts + more, h))
    ensures WindowOpen(Run(start, acts, h)) ==>
      forall more :: OneBegin(more, start.r.my) ==> AllOwn(Run(start, acts + more, h))
  {
    hide Run, Careful, AllOwn, OneBegin, WindowOpen, Young, Step, InTime;
    var s := Run(start, acts, h);
    if WindowOpen(s) {
      forall more | OneBegin(more, start.r.my) ensures AllOwn(Run(start, acts + more, h)) {
        StaysCareful(start, acts, more, h);
        RunOwn(start, acts + more, h);
      }
    } else {
      var more := StaleContinuation(start, acts, since, h);
    }
  }

  /** The continuation itself, from any careful run that leaves the window closed, at any later instant. */
  lemma StaleContinuation(start: System, acts: seq<Act>, since: nat, h: R.Handler) returns (more: seq<Act>)
    requires Shape(start) && Configured(start) && Honest(h) && Careful(start, acts, h)
    requires !Run(start, acts, h).m.open && !WindowOpen(Run(start, acts, h))
    ensures OneBegin(more, start.r.my) && InTime(Run(start, acts, h), more, since, h)
    ensures !AllOwn(Run(start, acts + more, h))
  {
    hide Run, Careful, AllOwn, OneBegin, WindowOpen, Young, Step, Live, Inv, InTime, Clock;
    StartIsLive(start, acts, h);
    RunOwn(start, acts, h);
    SameNode(start, acts, h);
    more := ClosedIsStale(Run(start, acts, h), since, h);
    Join(start, acts, more, since, h);
  }

  lemma {:induction false} SameNode(s: System, acts: seq<Act>, h: R.Handler)
    requires Shape(s)
    ensures Run(s, acts, h).r.my == s.r.my
  {
    if acts != [] {
      SameNode(s, acts[..|acts| - 1], h);
      NodeStep(Run(s, acts[..|acts| - 1], h), acts[|acts| - 1], h);
    }
  }

  lemma NodeStep(s: System, a: Act, h: R.Handler)
    requires Shape(s)
    ensures Step(s, a, h).r.my == s.r.my
  {
    hide Encode, M.Digest, M.EndAttempt;
  }
}
