/**
 * Outside the sixteen-transaction window an answer can be another transaction's: a run from the start that shows it.
 */
module LinkStale {
  import opened Protocol
  import opened Frame
  import M = Master
  import R = Responder
  import opened LinkSystem
  import opened LinkTime
  import LinkWindow

  /** The node sends back what it was asked. */
  function Echo(n: nat, request: seq<byte>): seq<byte> {
    if |request| <= MAX_L3_MESSAGE then request else []
  }

  const FIRST: seq<byte> := [1]
  const LATER: seq<byte> := [2]

  /** Nothing on the wire, the first transaction handled and answered, `n` transactions begun. */
  predicate Stuck(s: System, n: nat)
    requires Shape(s)
  {
    && s.m.host == 0 && s.r.my == 1 && s.toNode == [] && s.toHost == [] && s.r.phase == R.Listening
    && |s.m.hist.begun| == n > 0 && s.m.nextSeq[1] == n % 16
    && s.m.hist.begun[0].dst == 1 && s.m.hist.begun[0].seqNo == 0
    && s.r.buffer == Some(Fields(0, 1, true, false, 0, FIRST)) && s.handled == [Handled(0, FIRST)] && s.r.calls == 1
  }

  /** A later transaction pending, `attempts` of it made. */
  predicate Trying(s: System, n: nat, attempts: nat)
    requires Shape(s)
  {
    && Stuck(s, n) && n > 1 && s.m.open && s.m.phase == M.PendingTransmit && s.m.attempts == attempts && s.m.dst == 1
    && s.m.seqNo == (n - 1) % 16 && s.m.hist.begun[n - 1].payload == LATER
  }

  /** One attempt made, lost, and given up at its deadline. */
  lemma LoseAttempt(s: System, n: nat, attempts: nat, since: nat) returns (acts: seq<Act>)
    requires Shape(s) && Trying(s, n, attempts) && attempts <= RETRIES
    ensures var s' := Run(s, acts, Echo);
      if attempts < RETRIES then Trying(s', n, attempts + 1) else Stuck(s', n) && !s'.m.open
    ensures InTime(s, acts, since, Echo)
  {
    hide Encode, Run, Clock, InTime, M.Want;
    var now := Free(s, since);
    acts := [Transmit(now)];
    Once(s, Transmit(now), since, Echo);
    var s1 := Run(s, acts, Echo);
    Then(s, acts, LoseRequest(0), since, Echo);
    acts := acts + [LoseRequest(0)];
    assert Without(s1.toNode, 0) == [];
    Then(s, acts, Expire(s1.m.deadline, M.Timeout), since, Echo);
    acts := acts + [Expire(s1.m.deadline, M.Timeout)];
  }

  lemma BeginLater(s: System, n: nat, since: nat) returns (acts: seq<Act>)
    requires Shape(s) && Stuck(s, n) && !s.m.open
    ensures Trying(Run(s, acts, Echo), n + 1, 0) && InTime(s, acts, since, Echo)
  {
    hide Run, Clock, InTime;
    Once(s, Begin(1, LATER, since), since, Echo);
    acts := [Begin(1, LATER, since)];
  }

  /** A whole transaction lost. */
  lemma LoseTransaction(s: System, n: nat, since: nat) returns (acts: seq<Act>)
    requires Shape(s) && Stuck(s, n) && !s.m.open
    ensures Stuck(Run(s, acts, Echo), n + 1) && !Run(s, acts, Echo).m.open && InTime(s, acts, since, Echo)
  {
    hide Run, Clock, InTime, Stuck, Trying;
    acts := BeginLater(s, n, since);
    var attempts := 0;
    while attempts <= RETRIES
      invariant attempts <= 1 + RETRIES && InTime(s, acts, since, Echo)
      invariant attempts <= RETRIES ==> Trying(Run(s, acts, Echo), n + 1, attempts)
      invariant attempts > RETRIES ==> Stuck(Run(s, acts, Echo), n + 1) && !Run(s, acts, Echo).m.open
    {
      var more := LoseAttempt(Run(s, acts, Echo), n + 1, attempts, Clock(s, acts, since, Echo));
      Join(s, acts, more, since, Echo);
      acts := acts + more;
      attempts := attempts + 1;
    }
  }

  lemma {:induction false} LoseMany(s: System, n: nat, count: nat, since: nat) returns (acts: seq<Act>)
    requires Shape(s) && Stuck(s, n) && !s.m.open
    ensures Stuck(Run(s, acts, Echo), n + count) && !Run(s, acts, Echo).m.open && InTime(s, acts, since, Echo)
    decreases count
  {
    hide Run, Clock, InTime, Stuck, Step, Allowed, After, Shape;
    if count == 0 {
      acts := [];
      Nothing(s, since, Echo);
    } else {
      acts := LoseTransaction(s, n, since);
      var more := LoseMany(Run(s, acts, Echo), n + 1, count - 1, Clock(s, acts, since, Echo));
      Join(s, acts, more, since, Echo);
      acts := acts + more;
    }
  }

  /** The first request just sent to a listening node. */
  predicate Asked(s: System, clock: nat)
    requires Shape(s)
  {
    && s.m.host == 0 && s.r.my == 1 && s.toHost == [] && s.r.phase == R.Listening
    && s.toNode == [Packet(Fields(1, 0, false, false, 0, FIRST), 0)]
    && M.Awaiting(s.m) && s.m.dst == 1 && s.m.seqNo == 0 && s.m.windowStart + T_RESP == s.m.deadline
    && |s.m.hist.begun| == 1 && s.m.hist.begun[0].dst == 1 && s.m.hist.begun[0].seqNo == 0 && s.m.nextSeq[1] == 1
    && s.handled == [] && s.r.calls == 0 && s.r.buffer == None
    && clock == s.m.windowStart && s.r.txUntil <= clock
  }

  lemma FirstAsked(start: System) returns (acts: seq<Act>)
    requires Shape(start) && Configured(start) && start.m.host == 0 && start.r.my == 1
    ensures Asked(Run(start, acts, Echo), Clock(start, acts, 0, Echo)) && InTime(start, acts, 0, Echo)
  {
    hide Encode, Run, Clock, InTime, M.Want;
    Once(start, Begin(1, FIRST, 0), 0, Echo);
    acts := [Begin(1, FIRST, 0)];
    var now := Free(Run(start, acts, Echo), 0);
    Then(start, acts, Transmit(now), 0, Echo);
    acts := acts + [Transmit(now)];
  }

  /** Delivered when it ends, answered at the turnaround, heard within the window. */
  lemma FirstHeard(s: System, since: nat) returns (acts: seq<Act>)
    requires Shape(s) && Asked(s, since)
    ensures Stuck(Run(s, acts, Echo), 1) && !Run(s, acts, Echo).m.open && InTime(s, acts, since, Echo)
  {
    hide Encode, Run, Clock, InTime, M.Want;
    Once(s, Deliver(since), since, Echo);
    acts := [Deliver(since)];
    var due := Run(s, acts, Echo).r.deadline;
    Then(s, acts, Respond(due), since, Echo);
    acts := acts + [Respond(due)];
    Then(s, acts, Hear(due), since, Echo);
    acts := acts + [Hear(due)];
  }

  lemma IsAsking(s: System)
    requires Shape(s) && Trying(s, 17, 0)
    ensures LinkWindow.Asking(s, 0) && LinkWindow.Buffered(s, 0)
    ensures |s.handled| == 1 && s.handled[0].txn == 0 && |s.m.hist.begun| == 17 && s.m.hist.begun[16].payload == LATER
    ensures s.r.buffer.Some? && s.r.buffer.value.payload == FIRST
  {
  }

  /** Transaction 16's retry is answered from what transaction 0 left in the buffer, and the master accepts it. */
  lemma StaleAnswer(start: System) returns (acts: seq<Act>)
    requires Shape(start) && Configured(start) && start.m.host == 0 && start.r.my == 1
    ensures InTime(start, acts, 0, Echo)
    ensures var s := Run(start, acts, Echo);
      exists x :: x in s.accepted && x.txn == 16 && |s.m.hist.begun| == 17
        && x.call < |s.handled| && s.handled[x.call].txn == 0
        && x.payload != Echo(x.call, s.m.hist.begun[x.txn].payload)
  {
    hide Run, Clock, InTime, Step, Stuck, Trying, Asked, LinkWindow.Asking, LinkWindow.Buffered;
    acts := FirstAsked(start);
    var more := FirstHeard(Run(start, acts, Echo), Clock(start, acts, 0, Echo));
    Join(start, acts, more, 0, Echo);
    acts := acts + more;
    more := LoseMany(Run(start, acts, Echo), 1, 15, Clock(start, acts, 0, Echo));
    Join(start, acts, more, 0, Echo);
    acts := acts + more;
    more := BeginLater(Run(start, acts, Echo), 16, Clock(start, acts, 0, Echo));
    Join(start, acts, more, 0, Echo);
    acts := acts + more;
    IsAsking(Run(start, acts, Echo));
    more := LinkWindow.FromBuffer(Run(start, acts, Echo), 0, Clock(start, acts, 0, Echo), Echo);
    Join(start, acts, more, 0, Echo);
    acts := acts + more;
    assert Accepted(16, 0, FIRST) in Run(start, acts, Echo).accepted;
  }
}
