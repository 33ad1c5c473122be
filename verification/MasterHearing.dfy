/** What a response on the wire does to the attempt that waits for it, byte by byte and poll by poll. */
module MasterHearing {
  import opened Protocol
  import opened Frame
  import opened Wire
  import opened Master
  import MasterTiming
  import FrameStream

  // ---------------------------------------------------------------- one frame, seen from inside

  /** The deframer once the opening FLAG and `seg` have gone by. */
  function Inside(seg: seq<byte>): Frame.State {
    Feeds(Frame.State(InFrame, []), seg).0
  }

  /** A frame that closes intact, or with a bad CRC only, tells nobody anything until its closing FLAG. */
  predicate ClosesWhole(seg: seq<byte>) {
    var e := FrameStream.Closed(seg);
    FLAG !in seg && |e| == 1 && (e[0].Delivered? || e[0] == Discarded(BadCrc))
  }

  lemma QuietUntilClosed(seg: seq<byte>, j: nat)
    requires ClosesWhole(seg) && j <= |seg|
    ensures Inside(seg[..j]).mode != Hunting && Feeds(Frame.State(InFrame, []), seg[..j]).1 == []
    ensures Feed(Inside(seg), FLAG) == (Frame.State(InFrame, []), FrameStream.Closed(seg))
  {
    hide Check, Feed, Feeds, FrameStream.Unstuff;
    var open := Frame.State(InFrame, []);
    FrameStream.FlagCloses(seg);
    FrameStream.UnfinishedFeeds(seg);
    assert Feeds(open, seg).1 == [];
    assert [] + Feed(Inside(seg), FLAG).1 == Feed(Inside(seg), FLAG).1;
    assert seg == seg[..j] + seg[j..];
    FrameStream.FeedsAppend(open, seg[..j], seg[j..]);
    assert FLAG !in seg[..j] && FLAG !in seg[j..];
    FrameStream.SegmentFeeds([], seg[..j]);
    if Inside(seg[..j]).mode == Hunting {
      FrameStream.HuntingIgnores(seg[j..]);
      IdleClosesNothing();
      assert false;
    }
  }

  lemma IdleClosesNothing()
    ensures Feed(IDLE, FLAG).1 == []
  {
  }

  /** One more byte of it. */
  lemma InsideNext(seg: seq<byte>, j: nat)
    requires ClosesWhole(seg) && j < |seg|
    ensures Feed(Inside(seg[..j]), seg[j]) == (Inside(seg[..j + 1]), [])
  {
    QuietUntilClosed(seg, j);
    QuietUntilClosed(seg, j + 1);
    hide Feed, ClosesWhole;
    var open := Frame.State(InFrame, []);
    assert seg[..j + 1] == seg[..j] + [seg[j]];
    FrameStream.FeedsAppend(open, seg[..j], [seg[j]]);
    FrameStream.ByteFeeds(Inside(seg[..j]), seg[j]);
    assert [] + Feed(Inside(seg[..j]), seg[j]).1 == Feed(Inside(seg[..j]), seg[j]).1;
  }

  // ---------------------------------------------------------------- the response on the wire

  /** A frame sent without a pause: its FLAGs and what is between them. */
  predicate OnWire(burst: seq<Rx>, seg: seq<byte>, byteTime: nat) {
    MasterTiming.IsBurst(burst, byteTime) && Values(burst) == [FLAG] + seg + [FLAG]
  }

  /** Nothing heard so far can belong to this attempt's window. */
  predicate Fresh(s: Engine) {
    Awaiting(s) && s.rx == [] && (s.deframer == IDLE || s.respOpen < s.windowStart)
  }

  predicate Opens(s: Engine, burst: seq<Rx>) {
    burst != [] && s.windowStart <= burst[0].start < s.deadline
  }

  /**
   * The attempt is still the one `s0` awaits: same window, same charge sheet but for discards, nothing sent or ended.
   */
  predicate SameAttempt(s0: Engine, s: Engine) {
    && Awaiting(s) && s.dst == s0.dst && s.host == s0.host && s.seqNo == s0.seqNo && s.byteTime == s0.byteTime
    && s.windowStart == s0.windowStart && s.deadline == s0.deadline && s.attempts == s0.attempts
    && s.hist.begun == s0.hist.begun && s.hist.sent == s0.hist.sent && s.hist.concluded == s0.hist.concluded
    && Tries(s) == Tries(s0)
  }

  /** Attempts and failures booked to the awaited address. */
  function Tries(s: Engine): (nat, nat, nat)
  {
    if s.dst < |s.stats| then
      var a := s.stats[s.dst]; (a.transactions + a.retries, a.timeouts, a.crcFailures)
    else (0, 0, 0)
  }

  /** After the first `k` bytes of the response. */
  predicate Progress(s0: Engine, s: Engine, burst: seq<Rx>, seg: seq<byte>, k: nat)
    requires |burst| == |seg| + 2
  {
    && SameAttempt(s0, s) && k < |burst|
    && if k == 0 then s.deframer == s0.deframer && s.respOpen == s0.respOpen
      else
        && s.deframer == Inside(seg[..k - 1]) && s.respOpen == burst[0].start
        && s.lastRx == burst[k - 1].start + s.byteTime
  }

  /** What hearing one byte leaves as it was. */
  lemma HearLeaves(s0: Engine, s: Engine, b: Rx)
    requires Shape(s0) && Shape(s) && SameAttempt(s0, s) && s.rx != [] && s.rx[0] == b
    ensures var s' := Hear(s, b).(rx := s.rx[1..]);
      && Shape(s') && SameAttempt(s0, s') && s'.deframer == Feed(s.deframer, b.value).0
      && s'.lastRx == b.start + s.byteTime && s'.respOpen == if b.value == FLAG then b.start else s.respOpen
  {
    hide Feed, Counted;
  }

  /** An event that is not this attempt's response leaves it waiting. */
  lemma DigestWaits(s0: Engine, s: Engine, events: seq<Event>, openedAt: nat)
    requires Shape(s0) && Shape(s) && SameAttempt(s0, s) && (events == [] || openedAt < s.windowStart)
    ensures var (s', ev) := Digest(s, Quiet, events, openedAt);
      && ev == Quiet && SameAttempt(s0, s') && s'.deframer == s.deframer && s'.respOpen == s.respOpen
      && s'.lastRx == s.lastRx && s'.rx == s.rx
  {
  }

  lemma ValueAt(burst: seq<Rx>, seg: seq<byte>, k: nat)
    requires Values(burst) == [FLAG] + seg + [FLAG] && k < |burst|
    ensures |burst| == |seg| + 2
    ensures burst[k].value == if k == 0 || k == |seg| + 1 then FLAG else seg[k - 1]
  {
    assert Values(burst)[k] == burst[k].value;
    assert |Values(burst)| == |burst|;
  }

  /** One byte of the response that is not its last. */
  lemma ByteProgress(s0: Engine, s: Engine, burst: seq<Rx>, seg: seq<byte>, k: nat)
    requires Shape(s0) && Fresh(s0) && Shape(s)
    requires ClosesWhole(seg) && Values(burst) == [FLAG] + seg + [FLAG] && |burst| == |seg| + 2
    requires k + 1 < |burst| && Progress(s0, s, burst, seg, k) && s.rx != [] && s.rx[0] == burst[k]
    ensures var (s', ev) := TakeByte(s, Quiet);
      ev == Quiet && s'.rx == s.rx[1..] && Progress(s0, s', burst, seg, k + 1)
  {
    ValueAt(burst, seg, k);
    HearLeaves(s0, s, s.rx[0]);
    var b, s1 := s.rx[0], Hear(s, s.rx[0]).(rx := s.rx[1..]);
    if k == 0 {
      OpeningFlag(s0.deframer);
      DigestWaits(s0, s1, Feed(s.deframer, b.value).1, s.respOpen);
      assert seg[..0] == [];
    } else {
      InsideNext(seg, k - 1);
      assert seg[k - 1] in seg;
      DigestWaits(s0, s1, [], s.respOpen);
    }
  }

  lemma OpeningFlag(d: Frame.State)
    requires StateOk(d)
    ensures Feed(d, FLAG).0 == Inside([]) && (d == IDLE ==> Feed(d, FLAG).1 == [])
  {
  }

  /** What the closing FLAG brings about. */
  lemma LastByte(s0: Engine, s: Engine, burst: seq<Rx>, seg: seq<byte>)
    requires Shape(s0) && Fresh(s0) && Shape(s) && Opens(s0, burst)
    requires ClosesWhole(seg) && Values(burst) == [FLAG] + seg + [FLAG] && |burst| == |seg| + 2
    requires Progress(s0, s, burst, seg, |burst| - 1) && s.rx == [burst[|burst| - 1]]
    ensures var n := |burst|; var s1 := Hear(s, burst[n - 1]).(rx := []);
      && SameAttempt(s0, s1) && s1.lastRx == burst[n - 1].start + s.byteTime
      && TakeByte(s, Quiet) == Digest(s1, Quiet, FrameStream.Closed(seg), burst[0].start)
  {
    var n := |burst|;
    BeforeLast(s0, s, burst, seg);
    ValueAt(burst, seg, n - 1);
    QuietUntilClosed(seg, n - 2);
    hide Feed, ClosesWhole, Inside, FrameStream.Closed, Digest, Fresh, Opens, Values, Progress;
    HearLeaves(s0, s, s.rx[0]);
    hide SameAttempt;
    assert s.rx[1..] == [];
  }

  lemma BeforeLast(s0: Engine, s: Engine, burst: seq<Rx>, seg: seq<byte>)
    requires |burst| == |seg| + 2 && Progress(s0, s, burst, seg, |burst| - 1)
    ensures SameAttempt(s0, s) && s.deframer == Inside(seg) && s.respOpen == burst[0].start
  {
    assert seg[..|burst| - 2] == seg;
    hide Inside;
  }

  // ---------------------------------------------------------------- one poll

  lemma {:induction false} DrainProgress(s0: Engine, s: Engine, burst: seq<Rx>, seg: seq<byte>, k: nat, m: nat)
    requires Shape(s0) && Fresh(s0) && Shape(s)
    requires ClosesWhole(seg) && Values(burst) == [FLAG] + seg + [FLAG] && |burst| == |seg| + 2
    requires k <= m < |burst| && Progress(s0, s, burst, seg, k) && s.rx == burst[k..m]
    ensures var (s', ev) := DrainWire(s, Quiet); ev == Quiet && s'.rx == [] && Progress(s0, s', burst, seg, m)
    decreases m - k
  {
    hide ClosesWhole, Progress, Fresh, Values, TakeByte;
    if k < m {
      assert s.rx[0] == burst[k];
      ByteProgress(s0, s, burst, seg, k);
      assert s.rx[1..] == burst[k + 1..m];
      DrainProgress(s0, TakeByte(s, Quiet).0, burst, seg, k + 1, m);
    }
  }

  /** The drain that reads the closing FLAG ends with what that FLAG means. */
  lemma {:induction false} DrainLast(s0: Engine, s: Engine, burst: seq<Rx>, seg: seq<byte>, k: nat) returns (s1: Engine)
    requires Shape(s0) && Fresh(s0) && Shape(s) && Opens(s0, burst)
    requires ClosesWhole(seg) && Values(burst) == [FLAG] + seg + [FLAG] && |burst| == |seg| + 2
    requires k < |burst| && Progress(s0, s, burst, seg, k) && s.rx == burst[k..]
    ensures Shape(s1) && SameAttempt(s0, s1) && s1.rx == [] && Now(s1) == Now(s)
    ensures s1.lastRx == burst[|burst| - 1].start + s0.byteTime
    ensures DrainWire(s, Quiet) == Digest(s1, Quiet, FrameStream.Closed(seg), burst[0].start)
    decreases |burst| - k
  {
    hide ClosesWhole, Progress, Fresh, Values, TakeByte, Opens, Digest, FrameStream.Closed;
    var n := |burst|;
    assert s.rx[0] == burst[k];
    if k == n - 1 {
      assert s.rx == [burst[n - 1]];
      LastByte(s0, s, burst, seg);
      s1 := Hear(s, burst[n - 1]).(rx := []);
      assert DrainWire(s, Quiet) == TakeByte(s, Quiet);
    } else {
      ByteProgress(s0, s, burst, seg, k);
      TakeKeepsNow(s, Quiet);
      assert s.rx[1..] == burst[k + 1..];
      s1 := DrainLast(s0, TakeByte(s, Quiet).0, burst, seg, k + 1);
    }
  }

  lemma TakeKeepsNow(s: Engine, ev: Outcome)
    requires Shape(s) && s.rx != []
    ensures Now(TakeByte(s, ev).0) == Now(s)
  {
    hide Feed, Counted;
  }

  /**
   * What the polls so far must have seen: with no byte read, the deadline is not reached; with some, the next is at
   * most one byte time overdue.
   */
  predicate Covered(deadline: nat, byteTime: nat, burst: seq<Rx>, k: nat, now: nat) {
    if k == 0 then now < deadline else k < |burst| ==> now <= burst[k].start + byteTime
  }

  /** Mid-response, a covered poll waits on. */
  lemma PollWaits(s0: Engine, s: Engine, burst: seq<Rx>, seg: seq<byte>, k: nat, m: nat, now: nat)
    requires Shape(s0) && Fresh(s0) && Shape(s) && Opens(s0, burst) && ClosesWhole(seg)
    requires OnWire(burst, seg, s0.byteTime)
    requires |burst| == |seg| + 2 && k <= m < |burst| && Progress(s0, s, burst, seg, k) && s.rx == burst[k..m]
    requires Covered(s0.deadline, s0.byteTime, burst, m, now)
    ensures var (s', ev) := Poll(s, now); ev == Quiet && s'.rx == [] && Progress(s0, s', burst, seg, m)
  {
    hide DrainWire, ClosesWhole, Inside, OnWire, Fresh, FrameArriving, FirePending, Progress, Covered, Opens;
    AtProgress(s0, s, burst, seg, k, now);
    WireValues(burst, seg, s0.byteTime);
    DrainProgress(s0, At(s, now), burst, seg, k, m);
    var s1 := DrainWire(At(s, now), Quiet).0;
    MidFrame(s0, s1, burst, seg, m, now);
    HoldsOff(s1, now);
  }

  lemma WireValues(burst: seq<Rx>, seg: seq<byte>, byteTime: nat)
    requires OnWire(burst, seg, byteTime)
    ensures Values(burst) == [FLAG] + seg + [FLAG]
  {
  }

  lemma AtProgress(s0: Engine, s: Engine, burst: seq<Rx>, seg: seq<byte>, k: nat, now: nat)
    requires |burst| == |seg| + 2 && Progress(s0, s, burst, seg, k)
    ensures Progress(s0, At(s, now), burst, seg, k)
  {
  }

  lemma UnreadProgress(s0: Engine, s: Engine, burst: seq<Rx>, seg: seq<byte>, k: nat, rx: seq<Rx>)
    requires |burst| == |seg| + 2 && Progress(s0, s, burst, seg, k)
    ensures Progress(s0, s.(rx := rx), burst, seg, k)
  {
  }

  /** A frame that opened in the window, whose next byte is not yet a byte time overdue. */
  predicate Holding(s: Engine, now: nat) {
    s.deframer.mode != Hunting && now <= s.lastRx + s.byteTime && now <= s.respOpen + MaxFrame(s.byteTime) &&
    s.windowStart <= s.respOpen < s.deadline
  }

  lemma MidFrame(s0: Engine, s: Engine, burst: seq<Rx>, seg: seq<byte>, m: nat, now: nat)
    requires Opens(s0, burst) && ClosesWhole(seg) && OnWire(burst, seg, s0.byteTime)
    requires |burst| == |seg| + 2 && m < |burst| && Progress(s0, s, burst, seg, m)
    requires Covered(s0.deadline, s0.byteTime, burst, m, now)
    ensures Awaiting(s) && (now < s.deadline || Holding(s, now))
  {
    hide ClosesWhole, Values;
    if m > 0 {
      QuietUntilClosed(seg, m - 1);
      StillArriving(burst, s0.byteTime, m, now);
    }
    hide Inside, MasterTiming.IsBurst;
  }

  lemma HoldsOff(s: Engine, now: nat)
    requires Shape(s) && Awaiting(s)
    requires now < s.deadline || Holding(s, now)
    ensures now >= s.deadline ==> FrameArriving(s, now) && s.windowStart <= s.respOpen < s.deadline
    ensures FirePending(s, now) == s
  {
    hide Encode;
  }

  lemma StillArriving(burst: seq<Rx>, byteTime: nat, m: nat, now: nat)
    requires MasterTiming.IsBurst(burst, byteTime) && 0 < m < |burst| && now <= burst[m].start + byteTime
    ensures now <= burst[m - 1].start + byteTime + byteTime && now <= burst[0].start + MaxFrame(byteTime)
  {
    Scale(m - 1, byteTime);
    Scale(m, byteTime);
    Within(m + 1, MAX_WIRE, byteTime);
    assert burst[m].start == burst[0].start + m * byteTime;
    assert burst[m - 1].start == burst[0].start + (m - 1) * byteTime;
    hide MasterTiming.IsBurst;
  }

  lemma Scale(a: nat, x: nat)
    ensures (a + 1) * x == a * x + x
  {
  }

  lemma Within(a: nat, b: nat, x: nat)
    requires a <= b
    ensures a * x <= b * x
  {
  }

  /** A response to the open transaction. */
  predicate Answers(s: Engine, f: Fields) {
    f.response && f.src == s.dst && f.dst == s.host && f.seqNo == s.seqNo
  }

  /** The transaction is over, answered, and not one more attempt was made for it. */
  predicate Answered(s0: Engine, s: Engine, f: Fields) {
    && !s.open && s.rx == [] && s.hist.sent == s0.hist.sent && s.hist.begun == s0.hist.begun && Tries(s) == Tries(s0)
    && |s.hist.concluded| == |s0.hist.concluded| + 1 && s0.hist.concluded <= s.hist.concluded
    && var c := s.hist.concluded[|s0.hist.concluded|]; c.dst == s0.dst && c.outcome == Answer(f)
  }

  /** The poll that reads the closing FLAG of the right response reports it. */
  lemma PollAnswers(s0: Engine, s: Engine, burst: seq<Rx>, seg: seq<byte>, k: nat, now: nat, f: Fields)
    requires Shape(s0) && Fresh(s0) && Shape(s) && Opens(s0, burst) && ClosesWhole(seg)
    requires OnWire(burst, seg, s0.byteTime)
    requires |burst| == |seg| + 2 && k < |burst| && Progress(s0, s, burst, seg, k) && s.rx == burst[k..]
    requires FrameStream.Closed(seg) == [Delivered(f)] && Answers(s0, f)
    ensures var (s', ev) := Poll(s, now); ev == Answer(f) && Answered(s0, s', f)
  {
    assert Progress(s0, At(s, now), burst, seg, k);
    var s1 := DrainLast(s0, At(s, now), burst, seg, k);
    hide DrainWire, ClosesWhole, Inside, Progress, Feeds, FrameStream.Closed, OnWire, Fresh, Conclude;
    RightAnswer(s0, s1, f, burst[0].start);
    assert DrainWire(At(s, now), Quiet) == (Conclude(s1, Answer(f)), Answer(f));
    hide Digest;
  }

  lemma RightAnswer(s0: Engine, s: Engine, f: Fields, openedAt: nat)
    requires Shape(s0) && Shape(s) && SameAttempt(s0, s) && s.rx == [] && Answers(s0, f)
    requires s0.windowStart <= openedAt < s0.deadline
    ensures Digest(s, Quiet, [Delivered(f)], openedAt) == (Conclude(s, Answer(f)), Answer(f))
    ensures Answered(s0, Conclude(s, Answer(f)), f)
  {
  }

  /**
   * The attempt is over for this reason: the last one fails the transaction, an earlier one is made again after T_gap.
   */
  predicate Ended(s0: Engine, s: Engine, reason: Reason, at: nat) {
    && s.rx == [] && s.hist.begun == s0.hist.begun && s.dst == s0.dst
    && Tries(s).1 == Tries(s0).1 + (if reason == Timeout then 1 else 0)
    && Tries(s).2 == Tries(s0).2 + (if reason == CrcFailed then 1 else 0)
    && s0.hist.sent <= s.hist.sent && |s.hist.sent| <= |s0.hist.sent| + 1
    && (|s.hist.sent| > |s0.hist.sent| ==> at + T_GAP <= s.hist.sent[|s0.hist.sent|].start)
    && if s0.attempts < 1 + RETRIES then
        s.open && s.hist.concluded == s0.hist.concluded
        && (s.phase == PendingTransmit <==> |s.hist.sent| == |s0.hist.sent|)
      else
        !s.open && s.hist.sent == s0.hist.sent
        && s.hist.concluded == s0.hist.concluded + [Conclusion(s0.dst, Failed(reason), Now(s))]
  }

  lemma EndsAttempt(s0: Engine, s: Engine, at: nat, reason: Reason, now: nat)
    requires Shape(s0) && Shape(s) && SameAttempt(s0, s) && s.rx == []
    ensures Ended(s0, FirePending(EndAttempt(s, at, reason).0, now), reason, at)
  {
    hide Encode;
  }

  /** The poll that reads the closing FLAG of a corrupt response ends the attempt there and then. */
  lemma PollCorrupt(s0: Engine, s: Engine, burst: seq<Rx>, seg: seq<byte>, k: nat, now: nat)
    requires Shape(s0) && Fresh(s0) && Shape(s) && Opens(s0, burst) && ClosesWhole(seg)
    requires OnWire(burst, seg, s0.byteTime)
    requires |burst| == |seg| + 2 && k < |burst| && Progress(s0, s, burst, seg, k) && s.rx == burst[k..]
    requires FrameStream.Closed(seg) == [Discarded(BadCrc)]
    ensures Ended(s0, Poll(s, now).0, CrcFailed, burst[|burst| - 1].start + s0.byteTime)
  {
    assert Progress(s0, At(s, now), burst, seg, k);
    var s1 := DrainLast(s0, At(s, now), burst, seg, k);
    EndsAttempt(s0, s1, s1.lastRx, CrcFailed, now);
    hide DrainWire, ClosesWhole, Inside, Progress, Ended, FirePending;
  }

  /** Silence: nothing before the deadline, and the first poll at or past it ends the attempt at the deadline. */
  lemma PollSilence(s0: Engine, s: Engine, now: nat)
    requires Shape(s0) && Fresh(s0) && Shape(s) && SameAttempt(s0, s) && s.rx == []
    requires s.deframer == s0.deframer && s.respOpen == s0.respOpen
    ensures var (s', ev) := Poll(s, now);
      if now < s0.deadline then
        ev == Quiet && s'.rx == [] && SameAttempt(s0, s') && s'.deframer == s0.deframer && s'.respOpen == s0.respOpen
      else Ended(s0, s', Timeout, s0.deadline)
  {
    if now >= s0.deadline {
      EndsAttempt(s0, At(s, now), s0.deadline, Timeout, now);
      hide Ended, FirePending, EndAttempt;
    } else {
      hide Encode;
    }
  }
}
