/** The master's books and sequence numbers, after any calls over any bytes. */
module MasterRuns {
  import opened Protocol
  import opened Frame
  import opened Wire
  import opened Master

  // ---------------------------------------------------------------- counting

  function AnswersFrom(concluded: seq<Conclusion>, a: byte): nat {
    if concluded == [] then 0
    else
      var c := concluded[|concluded| - 1];
      AnswersFrom(concluded[..|concluded| - 1], a) + if c.outcome.Answer? && c.dst == a then 1 else 0
  }

  function Answered(concluded: seq<Conclusion>): nat {
    if concluded == [] then 0
    else Answered(concluded[..|concluded| - 1]) + if concluded[|concluded| - 1].outcome.Answer? then 1 else 0
  }

  function BegunTo(begun: seq<Begun>, a: byte): nat {
    if begun == [] then 0
    else BegunTo(begun[..|begun| - 1], a) + if begun[|begun| - 1].dst == a then 1 else 0
  }

  function AttemptsAt(sent: seq<Attempt>, txn: nat): nat {
    if sent == [] then 0
    else AttemptsAt(sent[..|sent| - 1], txn) + if sent[|sent| - 1].txn == txn then 1 else 0
  }

  /** Everything charged to an address for a frame that was not its answer. */
  function Charged(stats: seq<AddrStats>): nat {
    if stats == [] then 0
    else Charged(stats[..|stats| - 1]) + stats[|stats| - 1].discards + stats[|stats| - 1].crcFailures
  }

  lemma {:induction false} ChargedUpdate(stats: seq<AddrStats>, i: nat, a: AddrStats)
    requires i < |stats|
    ensures Charged(stats[i := a]) ==
      Charged(stats) - stats[i].discards - stats[i].crcFailures + a.discards + a.crcFailures
  {
    var n := |stats| - 1;
    if i == n {
      assert stats[i := a][..n] == stats[..n];
    } else {
      assert stats[i := a][..n] == stats[..n][i := a];
      ChargedUpdate(stats[..n], i, a);
    }
  }

  // ---------------------------------------------------------------- the invariants

  /** Per address: attempts made are answers, timeouts, CRC failures and at most the one awaited. */
  predicate AddressBooks(s: Engine)
    requires Shape(s)
  {
    forall a: byte :: a < ADDR_COUNT ==>
      s.stats[a].transactions + s.stats[a].retries ==
        AnswersFrom(s.hist.concluded, a) + s.stats[a].timeouts + s.stats[a].crcFailures +
        (if Awaiting(s) && s.dst == a then 1 else 0)
  }

  /** Overall: intact frames and CRC failures are answers, charges and bus discards; `owed` are still to be booked. */
  predicate FrameBooks(s: Engine, owed: nat) {
    s.counts.delivered + s.counts.badCrc == Answered(s.hist.concluded) + Charged(s.stats) + s.busDiscards + owed
  }

  /** Each accepted transaction concludes once, in order, with an answer that is its own. */
  predicate OneOutcomeEach(s: Engine)
    requires Shape(s)
  {
    var b, c := s.hist.begun, s.hist.concluded;
    && |b| == |c| + (if s.open then 1 else 0)
    && (forall i :: 0 <= i < |c| ==> c[i].dst == b[i].dst && c[i].outcome != Quiet)
    && (forall i :: 0 <= i < |c| && c[i].outcome.Answer? ==> IsAnswer(s.host, b[i], c[i].outcome.response))
    && (s.open ==> s.dst == b[|b| - 1].dst && s.seqNo == b[|b| - 1].seqNo && s.payload == b[|b| - 1].payload)
  }

  predicate IsAnswer(host: byte, b: Begun, f: Fields) {
    f.response && f.src == b.dst && f.dst == host && f.seqNo == b.seqNo
  }

  /** Numbers given out so far, on the log alone. */
  predicate Numbered(b: seq<Begun>) {
    forall i :: 0 <= i < |b| ==>
      b[i].dst < ADDR_COUNT && |b[i].payload| <= MAX_L3_MESSAGE && b[i].seqNo == BegunTo(b[..i], b[i].dst) % 16
  }

  /** The k-th transaction to a node uses k mod 16; every attempt repeats it, the first alone without the retry bit. */
  predicate Sequenced(s: Engine)
    requires Shape(s)
  {
    var b, sent := s.hist.begun, s.hist.sent;
    && (forall a: byte :: a < ADDR_COUNT ==> s.nextSeq[a] == BegunTo(b, a) % 16)
    && Numbered(b)
    && (forall j :: 0 <= j < |sent| ==> sent[j].txn < |b| && GoodAttempt(s, j))
  }

  predicate GoodAttempt(s: Engine, j: nat)
    requires j < |s.hist.sent| && s.hist.sent[j].txn < |s.hist.begun|
  {
    var x := s.hist.sent[j];
    var b := s.hist.begun[x.txn];
    x.frame == Fields(b.dst, s.host, false, AttemptsAt(s.hist.sent[..j], x.txn) > 0, b.seqNo, b.payload)
  }

  /** One first attempt and at most RETRIES more; failure only after all of them. */
  ghost predicate Tried(s: Engine)
    requires Shape(s)
  {
    && (forall i :: 0 <= i < |s.hist.begun| ==> AttemptsAt(s.hist.sent, i) <= 1 + RETRIES)
    && (forall i: nat :: |s.hist.begun| <= i ==> AttemptsAt(s.hist.sent, i) == 0)
    && (s.open ==> s.attempts == AttemptsAt(s.hist.sent, |s.hist.begun| - 1))
    && (s.open && s.phase == PendingTransmit ==> s.attempts <= RETRIES)
    && (forall i :: 0 <= i < |s.hist.concluded| && i < |s.hist.begun| && s.hist.concluded[i].outcome.Failed? ==>
      AttemptsAt(s.hist.sent, i) == 1 + RETRIES)
  }

  ghost predicate Inv(s: Engine, owed: nat)
    requires Shape(s)
  {
    AddressBooks(s) && FrameBooks(s, owed) && OneOutcomeEach(s) && Sequenced(s) && Tried(s)
  }

  // ---------------------------------------------------------------- one attempt

  lemma SentNext(sent: seq<Attempt>, x: Attempt)
    ensures forall i: nat :: AttemptsAt(sent + [x], i) == AttemptsAt(sent, i) + if x.txn == i then 1 else 0
  {
    assert (sent + [x])[..|sent|] == sent;
  }

  lemma TransmitSequenced(s: Engine, now: nat)
    requires Shape(s) && s.open && Sequenced(s) && OneOutcomeEach(s) && Tried(s) && s.phase == PendingTransmit
    ensures Sequenced(DoTransmit(s, now)) && Tried(DoTransmit(s, now))
  {
    hide Encode, BegunTo, AttemptsAt;
    var s' := DoTransmit(s, now);
    var sent, sent' := s.hist.sent, s'.hist.sent;
    var x := sent'[|sent|];
    assert sent' == sent + [x] && sent'[..|sent|] == sent;
    SentNext(sent, x);
    forall j | 0 <= j < |sent'| ensures sent'[j].txn < |s.hist.begun| && GoodAttempt(s', j) {
      if j < |sent| {
        assert sent'[..j] == sent[..j];
        assert GoodAttempt(s, j);
      }
    }
  }

  lemma TransmitBooks(s: Engine, now: nat, owed: nat)
    requires Shape(s) && s.open && s.phase == PendingTransmit && AddressBooks(s) && FrameBooks(s, owed)
    ensures AddressBooks(DoTransmit(s, now)) && FrameBooks(DoTransmit(s, now), owed)
  {
    hide Encode, AnswersFrom, Answered, Charged;
    var s' := DoTransmit(s, now);
    ChargedUpdate(s.stats, s.dst, s'.stats[s.dst]);
  }

  /** What the sequence numbers and the attempts read. */
  predicate SameAttempts(s: Engine, s': Engine) {
    s'.host == s.host && s'.nextSeq == s.nextSeq && s'.hist.begun == s.hist.begun && s'.hist.sent == s.hist.sent
  }

  lemma SameAttemptsKeep(s: Engine, s': Engine)
    requires Shape(s) && Shape(s') && Sequenced(s) && SameAttempts(s, s')
    ensures Sequenced(s')
  {
    hide BegunTo, AttemptsAt;
    assert forall j :: 0 <= j < |s.hist.sent| ==> s.hist.sent[j].txn < |s.hist.begun| && GoodAttempt(s, j) ==>
      GoodAttempt(s', j);
  }

  lemma FireKeeps(s: Engine, now: nat, owed: nat)
    requires Shape(s) && Inv(s, owed)
    ensures Inv(FirePending(s, now), owed)
  {
    hide DoTransmit, AnswersFrom, Answered, Charged, BegunTo, AttemptsAt;
    if s.open && s.phase == PendingTransmit {
      var s1 := s.(deadline := Want(s));
      assert forall j :: 0 <= j < |s.hist.sent| ==> GoodAttempt(s, j) == GoodAttempt(s1, j);
      assert Inv(s1, owed);
      if now >= s1.deadline {
        TransmitSequenced(s1, now);
        TransmitBooks(s1, now, owed);
        TransmitOutcomes(s1, now);
      }
    }
  }

  lemma TransmitOutcomes(s: Engine, now: nat)
    requires Shape(s) && s.open && OneOutcomeEach(s)
    ensures OneOutcomeEach(DoTransmit(s, now))
  {
    hide Encode;
  }

  /** Only the awaited attempt's own books move; a CRC failure books the frame that was owed. */
  lemma EndKeeps(s: Engine, at: nat, reason: Reason, owed: nat)
    requires Shape(s) && Awaiting(s) && Inv(s, owed) && (reason == CrcFailed ==> owed >= 1)
    ensures Inv(EndAttempt(s, at, reason).0, if reason == CrcFailed then owed - 1 else owed)
  {
    hide AnswersFrom, Answered, Charged, Sequenced, AttemptsAt;
    var s' := EndAttempt(s, at, reason).0;
    ChargedUpdate(s.stats, s.dst, s'.stats[s.dst]);
    LastConclusion(s.hist.concluded, Conclusion(s.dst, Failed(reason), Now(s)));
    SameAttemptsKeep(s, s');
  }

  lemma LastConclusion(concluded: seq<Conclusion>, c: Conclusion)
    ensures forall a: byte :: AnswersFrom(concluded + [c], a) ==
                              AnswersFrom(concluded, a) + if c.outcome.Answer? && c.dst == a then 1 else 0
    ensures Answered(concluded + [c]) == Answered(concluded) + if c.outcome.Answer? then 1 else 0
  {
    assert (concluded + [c])[..|concluded|] == concluded;
  }

  // ---------------------------------------------------------------- one byte

  lemma AnswerKeeps(s: Engine, f: Fields, openedAt: nat, owed: nat)
    requires Shape(s) && Inv(s, owed + 1) && Accepts(s, f, openedAt)
    ensures Inv(Conclude(s, Answer(f)), owed)
  {
    hide AnswersFrom, Answered, Charged, Sequenced, AttemptsAt;
    LastConclusion(s.hist.concluded, Conclusion(s.dst, Answer(f), Now(s)));
    SameAttemptsKeep(s, Conclude(s, Answer(f)));
  }

  lemma DiscardKeeps(s: Engine, owed: nat)
    requires Shape(s) && Inv(s, owed + 1)
    ensures Inv(CountBus(s), owed)
    ensures Awaiting(s) ==> Inv(Charge(s, s.stats[s.dst].(discards := s.stats[s.dst].discards + 1)), owed)
  {
    hide AnswersFrom, Answered, Charged, Sequenced, AttemptsAt;
    var a := s.stats[s.dst].(discards := s.stats[s.dst].discards + 1);
    ChargedUpdate(s.stats, s.dst, a);
    SameAttemptsKeep(s, CountBus(s));
    SameAttemptsKeep(s, Charge(s, a));
  }

  /** How much one byte leaves to be booked. */
  function Owed(events: seq<Event>): nat {
    if events == [Discarded(BadCrc)] || FrameIn(events).Some? then 1 else 0
  }

  lemma CountedOwes(c: DeframerStats, d: Frame.State, b: byte)
    requires StateOk(d)
    ensures var c' := Counted(c, Feed(d, b).1);
      c'.delivered + c'.badCrc == c.delivered + c.badCrc + Owed(Feed(d, b).1)
  {
    hide Check, Feed;
    var events := Feed(d, b).1;
    if events != [] {
      assert events[..0] == [];
      assert events == [events[0]];
    }
  }

  lemma HearKeeps(s: Engine, b: Rx)
    requires Shape(s) && Inv(s, 0)
    ensures Inv(Hear(s, b), Owed(Feed(s.deframer, b.value).1))
  {
    hide AnswersFrom, Answered, Charged, Sequenced, AttemptsAt, Counted, Feed, Owed;
    CountedOwes(s.counts, s.deframer, b.value);
    SameAttemptsKeep(s, Hear(s, b));
  }

  lemma DigestKeeps(s: Engine, ev: Outcome, events: seq<Event>, openedAt: nat)
    requires Shape(s) && Inv(s, Owed(events)) && |events| <= 1
    ensures Inv(Digest(s, ev, events, openedAt).0, 0)
  {
    hide Inv, EndAttempt, Charge, CountBus, Conclude;
    if events == [Discarded(BadCrc)] {
      if Awaiting(s) && s.windowStart <= openedAt < s.deadline {
        EndKeeps(s, s.lastRx, CrcFailed, 1);
      } else {
        DiscardKeeps(s, 0);
      }
    } else if FrameIn(events).Some? {
      var f := FrameIn(events).value;
      if Accepts(s, f, openedAt) {
        AnswerKeeps(s, f, openedAt, 0);
      } else {
        DiscardKeeps(s, 0);
      }
    }
  }

  /** What the books read. */
  predicate SameLedger(s: Engine, s': Engine) {
    && s'.host == s.host && s'.counts == s.counts && s'.nextSeq == s.nextSeq && s'.open == s.open && s'.phase == s.phase
    && s'.dst == s.dst && s'.seqNo == s.seqNo && s'.attempts == s.attempts && s'.payload == s.payload
    && s'.stats == s.stats && s'.busDiscards == s.busDiscards
    && s'.hist.begun == s.hist.begun && s'.hist.concluded == s.hist.concluded && s'.hist.sent == s.hist.sent
  }

  lemma SameLedgerKeeps(s: Engine, s': Engine, owed: nat)
    requires Shape(s) && Shape(s') && Inv(s, owed) && SameLedger(s, s')
    ensures Inv(s', owed)
  {
    hide AnswersFrom, Answered, Charged, BegunTo, AttemptsAt;
    assert forall j :: 0 <= j < |s.hist.sent| ==> GoodAttempt(s, j) ==> GoodAttempt(s', j);
  }

  /** Neither the unread bytes nor the clock is in the books. */
  lemma SameBooks(s: Engine, rx: seq<Rx>, now: nat, owed: nat)
    requires Shape(s) && Inv(s, owed)
    ensures Inv(s.(rx := rx), owed) && Inv(At(s, now), owed) && Inv(Refused(s, now), owed)
  {
    hide Inv;
    SameLedgerKeeps(s, s.(rx := rx), owed);
    SameLedgerKeeps(s, At(s, now), owed);
    SameLedgerKeeps(s, Refused(s, now), owed);
  }

  lemma TakeKeeps(s: Engine, ev: Outcome)
    requires Shape(s) && Inv(s, 0) && s.rx != []
    ensures Inv(TakeByte(s, ev).0, 0)
  {
    hide Inv, Feed, Digest, Hear;
    var events := Feed(s.deframer, s.rx[0].value).1;
    HearKeeps(s, s.rx[0]);
    SameBooks(Hear(s, s.rx[0]), s.rx[1..], 0, Owed(events));
    DigestKeeps(Hear(s, s.rx[0]).(rx := s.rx[1..]), ev, events, s.respOpen);
  }

  lemma {:induction false} DrainKeeps(s: Engine, ev: Outcome)
    requires Shape(s) && Inv(s, 0)
    ensures Inv(DrainWire(s, ev).0, 0)
    decreases |s.rx|
  {
    hide Inv, TakeByte;
    if s.rx != [] {
      TakeKeeps(s, ev);
      DrainKeeps(TakeByte(s, ev).0, TakeByte(s, ev).1);
    }
  }

  // ---------------------------------------------------------------- one call, and every run

  lemma PollKeeps(s: Engine, now: nat)
    requires Shape(s) && Inv(s, 0)
    ensures Inv(Poll(s, now).0, 0)
  {
    hide Inv, DrainWire, EndAttempt, FirePending, FrameArriving;
    SameBooks(s, s.rx, now, 0);
    DrainKeeps(At(s, now), Quiet);
    var s1 := DrainWire(At(s, now), Quiet).0;
    FireKeeps(s1, now, 0);
    if Awaiting(s1) {
      EndKeeps(s1, s1.deadline, Timeout, 0);
      FireKeeps(EndAttempt(s1, s1.deadline, Timeout).0, now, 0);
    }
  }

  lemma NumberedNext(b: seq<Begun>, x: Begun)
    requires Numbered(b) && x.dst < ADDR_COUNT && |x.payload| <= MAX_L3_MESSAGE && x.seqNo == BegunTo(b, x.dst) % 16
    ensures Numbered(b + [x])
  {
    hide BegunTo;
    var b' := b + [x];
    assert b'[..|b|] == b;
    forall i | 0 <= i < |b| ensures b'[i].seqNo == BegunTo(b'[..i], b'[i].dst) % 16 {
      assert b'[..i] == b[..i];
    }
  }

  lemma NextNumbers(next: seq<byte>, b: seq<Begun>, x: Begun)
    requires |next| == ADDR_COUNT && x.dst < ADDR_COUNT
    requires forall a: byte :: a < ADDR_COUNT ==> next[a] == BegunTo(b, a) % 16
    ensures forall a: byte :: a < ADDR_COUNT ==> next[x.dst := (next[x.dst] + 1) % 16][a] == BegunTo(b + [x], a) % 16
  {
    BegunNext(b, x);
    hide BegunTo;
    var n := BegunTo(b, x.dst);
    assert (n % 16 + 1) % 16 == (n + 1) % 16;
  }

  lemma OpenSequenced(s: Engine, dst: byte, payload: seq<byte>, now: nat)
    requires Shape(s) && Sequenced(s) && dst < ADDR_COUNT && |payload| <= MAX_L3_MESSAGE
    ensures Sequenced(Open(s, dst, payload, now))
  {
    hide BegunTo, AttemptsAt, Numbered;
    var s' := Open(s, dst, payload, now);
    var x := Begun(dst, s.nextSeq[dst], payload, now);
    NextNumbers(s.nextSeq, s.hist.begun, x);
    NumberedNext(s.hist.begun, x);
    forall j | 0 <= j < |s.hist.sent| ensures s.hist.sent[j].txn < |s.hist.begun| && GoodAttempt(s', j) {
      assert GoodAttempt(s, j);
    }
  }

  lemma OpenKeeps(s: Engine, dst: byte, payload: seq<byte>, now: nat)
    requires Shape(s) && Inv(s, 0) && !s.open && dst < ADDR_COUNT && |payload| <= MAX_L3_MESSAGE
    ensures Inv(Open(s, dst, payload, now), 0)
  {
    hide AnswersFrom, Answered, Charged, Sequenced, AttemptsAt;
    OpenSequenced(s, dst, payload, now);
  }

  lemma BegunNext(begun: seq<Begun>, x: Begun)
    ensures forall a: byte :: BegunTo(begun + [x], a) == BegunTo(begun, a) + if x.dst == a then 1 else 0
  {
    assert (begun + [x])[..|begun|] == begun;
  }

  /** With nothing open, a drain opens nothing and has no outcome to report. */
  lemma {:induction false} IdleDrain(s: Engine)
    requires Shape(s) && !s.open
    ensures !DrainWire(s, Quiet).0.open && DrainWire(s, Quiet).1 == Quiet
    decreases |s.rx|
  {
    hide Feed, Counted;
    if s.rx != [] {
      IdleDrain(TakeByte(s, Quiet).0);
    }
  }

  lemma StepKeeps(s: Engine, c: Call)
    requires Shape(s) && Inv(s, 0)
    ensures Inv(Step(s, c), 0)
  {
    hide Inv, Poll, DrainWire, Open, FirePending;
    SameBooks(s, s.rx + c.due, 0, 0);
    var s1 := s.(rx := s.rx + c.due);
    match c
    case DoPoll(_, now) => PollKeeps(s1, now);
    case DoBegin(_, now, dst, payload) =>
      if !s.open && |payload| <= MAX_L3_MESSAGE && dst < ADDR_COUNT {
        SameBooks(s1, s1.rx, now, 0);
        DrainKeeps(At(s1, now), Quiet);
        IdleDrain(At(s1, now));
        var s2 := DrainWire(At(s1, now), Quiet).0;
        OpenKeeps(s2, dst, payload, now);
        FireKeeps(Open(s2, dst, payload, now), now, 0);
      } else {
        SameBooks(s1, s1.rx, now, 0);
      }
  }

  lemma {:induction false} ChargedNothing(n: nat)
    ensures Charged(seq(n, i => AddrStats(0, 0, 0, 0, 0))) == 0
  {
    if n > 0 {
      assert seq(n, i => AddrStats(0, 0, 0, 0, 0))[..n - 1] == seq(n - 1, i => AddrStats(0, 0, 0, 0, 0));
      ChargedNothing(n - 1);
    }
  }

  lemma {:induction false} RunKeeps(host: byte, byteTime: nat, calls: seq<Call>)
    ensures Inv(Run(Start(host, byteTime), calls), 0)
  {
    hide Step, Charged;
    if calls == [] {
      ChargedNothing(ADDR_COUNT);
    } else {
      RunKeeps(host, byteTime, calls[..|calls| - 1]);
      StepKeeps(Run(Start(host, byteTime), calls[..|calls| - 1]), calls[|calls| - 1]);
    }
  }

  // ---------------------------------------------------------------- what a run shows

  /** Every attempt and every frame is in the books, per address and overall. */
  lemma BooksBalance(host: byte, byteTime: nat, calls: seq<Call>)
    ensures var s := Run(Start(host, byteTime), calls);
      && (forall a: byte :: a < ADDR_COUNT ==>
        s.stats[a].transactions + s.stats[a].retries ==
          AnswersFrom(s.hist.concluded, a) + s.stats[a].timeouts + s.stats[a].crcFailures +
          (if Awaiting(s) && s.dst == a then 1 else 0))
      && s.counts.delivered + s.counts.badCrc == Answered(s.hist.concluded) + Charged(s.stats) + s.busDiscards
  {
    hide Run, AnswersFrom, Answered, Charged, OneOutcomeEach, Sequenced, Tried;
    RunKeeps(host, byteTime, calls);
  }

  /** Each accepted transaction but an open last one has exactly one outcome, and an answer is one to it. */
  lemma ConcludedInOrder(host: byte, byteTime: nat, calls: seq<Call>)
    ensures var s := Run(Start(host, byteTime), calls); var b, c := s.hist.begun, s.hist.concluded;
      && |b| == |c| + (if s.open then 1 else 0)
      && forall i :: 0 <= i < |c| ==>
        && c[i].dst == b[i].dst && c[i].outcome != Quiet
        && (c[i].outcome.Answer? ==> IsAnswer(s.host, b[i], c[i].outcome.response))
        && (c[i].outcome.Failed? ==> AttemptsAt(s.hist.sent, i) == 1 + RETRIES)
  {
    hide Run, AnswersFrom, Answered, Charged, Sequenced, AddressBooks, FrameBooks, AttemptsAt;
    RunKeeps(host, byteTime, calls);
  }

  /**
   * The k-th transaction to a node uses k mod 16 on each of at most three attempts, the first alone without the retry
   * bit.
   */
  lemma SequenceNumbers(host: byte, byteTime: nat, calls: seq<Call>)
    ensures var s := Run(Start(host, byteTime), calls); var b, sent := s.hist.begun, s.hist.sent;
      && (forall i :: 0 <= i < |b| ==>
        b[i].seqNo == BegunTo(b[..i], b[i].dst) % 16 && AttemptsAt(sent, i) <= 1 + RETRIES)
      && forall j :: 0 <= j < |sent| ==>
        && sent[j].txn < |b|
        && sent[j].frame.dst == b[sent[j].txn].dst && sent[j].frame.seqNo == b[sent[j].txn].seqNo
        && sent[j].frame.payload == b[sent[j].txn].payload
        && (sent[j].frame.retry <==> AttemptsAt(sent[..j], sent[j].txn) > 0)
  {
    hide Run, AnswersFrom, Answered, Charged, AddressBooks, FrameBooks, OneOutcomeEach, AttemptsAt, BegunTo;
    RunKeeps(host, byteTime, calls);
    var s := Run(Start(host, byteTime), calls);
    assert forall j :: 0 <= j < |s.hist.sent| ==> s.hist.sent[j].txn < |s.hist.begun| && GoodAttempt(s, j);
  }
}
