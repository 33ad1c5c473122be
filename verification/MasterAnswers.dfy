/** A good response is the answer, a corrupt one and silence end the attempt: over every run, in terms of the wire. */
module MasterAnswers {
  import opened Protocol
  import opened Frame
  import opened Wire
  import opened Master
  import opened MasterHearing
  import MasterRuns
  import MasterTiming
  import FrameStream

  // ---------------------------------------------------------------- polls in a row

  function Due(calls: seq<Call>): seq<Rx> {
    if calls == [] then [] else Due(calls[..|calls| - 1]) + calls[|calls| - 1].due
  }

  /** Polls that bring these bytes and no others, none of them late. */
  predicate Bring(calls: seq<Call>, deadline: nat, byteTime: nat, burst: seq<Rx>) {
    calls == [] ||
    (var n := |calls| - 1;
     && Bring(calls[..n], deadline, byteTime, burst)
     && calls[n].DoPoll? && Due(calls) <= burst && Covered(deadline, byteTime, burst, |Due(calls)|, calls[n].now))
  }

  lemma LastBrings(calls: seq<Call>, burst: seq<Rx>)
    requires calls != [] && Due(calls) <= burst
    ensures var before := Due(calls[..|calls| - 1]);
      && before <= burst && |before| <= |Due(calls)| && Due(calls) == burst[..|Due(calls)|]
      && calls[|calls| - 1].due == burst[|before|..|Due(calls)|]
  {
    hide Due;
    var before, due := Due(calls[..|calls| - 1]), calls[|calls| - 1].due;
    assert Due(calls) == before + due by { DueLast(calls); }
    assert forall i :: 0 <= i < |before| ==> Due(calls)[i] == before[i];
    assert forall i :: 0 <= i < |due| ==> Due(calls)[|before| + i] == due[i];
  }

  lemma DueLast(calls: seq<Call>)
    requires calls != []
    ensures Due(calls) == Due(calls[..|calls| - 1]) + calls[|calls| - 1].due
  {
  }

  /** Until the closing FLAG is read the attempt stays as it was. */
  lemma {:induction false} RunWaits(s: Engine, polls: seq<Call>, burst: seq<Rx>, seg: seq<byte>)
    requires Shape(s) && Fresh(s) && Opens(s, burst) && ClosesWhole(seg) && OnWire(burst, seg, s.byteTime)
    requires |burst| == |seg| + 2 && Bring(polls, s.deadline, s.byteTime, burst) && |Due(polls)| < |burst|
    ensures Progress(s, Run(s, polls), burst, seg, |Due(polls)|) && Run(s, polls).rx == []
  {
    hide ClosesWhole, OnWire, Poll, Covered, Begin;
    if polls != [] {
      var n := |polls| - 1;
      LastBrings(polls, burst);
      RunWaits(s, polls[..n], burst, seg);
      hide Fresh, Opens, Progress, Due;
      var s1 := Run(s, polls[..n]);
      var s2 := s1.(rx := s1.rx + polls[n].due);
      assert s2.rx == burst[|Due(polls[..n])|..|Due(polls)|];
      UnreadProgress(s, s1, burst, seg, |Due(polls[..n])|, s2.rx);
      PollWaits(s, s2, burst, seg, |Due(polls[..n])|, |Due(polls)|, polls[n].now);
    }
  }

  lemma DoneStays(s0: Engine, s: Engine, f: Fields, c: Call)
    requires Shape(s) && Answered(s0, s, f) && c.DoPoll? && c.due == []
    ensures Answered(s0, Step(s, c), f)
  {
    hide Encode, FrameArriving;
  }

  lemma {:induction false} RunAnswers(s: Engine, polls: seq<Call>, burst: seq<Rx>, seg: seq<byte>, f: Fields)
    requires Shape(s) && Fresh(s) && Opens(s, burst) && ClosesWhole(seg) && OnWire(burst, seg, s.byteTime)
    requires |burst| == |seg| + 2 && Bring(polls, s.deadline, s.byteTime, burst) && Due(polls) == burst
    requires FrameStream.Closed(seg) == [Delivered(f)] && Answers(s, f)
    ensures Answered(s, Run(s, polls), f)
  {
    hide ClosesWhole, OnWire, Poll, Covered, Answered, FrameStream.Closed, Answers, Fresh, Opens, Progress, Begin;
    var n := |polls| - 1;
    LastBrings(polls, burst);
    hide Due;
    var s1 := Run(s, polls[..n]);
    assert Run(s, polls) == Step(s1, polls[n]);
    hide Run;
    if |Due(polls[..n])| == |burst| {
      RunAnswers(s, polls[..n], burst, seg, f);
      DoneStays(s, s1, f, polls[n]);
    } else {
      RunWaits(s, polls[..n], burst, seg);
      var s2 := s1.(rx := s1.rx + polls[n].due);
      assert s2.rx == burst[|Due(polls[..n])|..];
      UnreadProgress(s, s1, burst, seg, |Due(polls[..n])|, s2.rx);
      PollAnswers(s, s2, burst, seg, |Due(polls[..n])|, polls[n].now, f);
    }
  }

  lemma {:induction false} RunEnds(s: Engine, polls: seq<Call>, burst: seq<Rx>, seg: seq<byte>)
    requires Shape(s) && Fresh(s) && Opens(s, burst) && ClosesWhole(seg) && OnWire(burst, seg, s.byteTime)
    requires |burst| == |seg| + 2 && Bring(polls, s.deadline, s.byteTime, burst) && Due(polls) == burst
    requires FrameStream.Closed(seg) == [Discarded(BadCrc)] && polls != [] && polls[|polls| - 1].due != []
    ensures Ended(s, Run(s, polls), CrcFailed, burst[|burst| - 1].start + s.byteTime)
  {
    hide ClosesWhole, OnWire, Poll, Covered, Ended, FrameStream.Closed, Fresh, Opens, Progress, Begin;
    var n := |polls| - 1;
    LastBrings(polls, burst);
    hide Due;
    var s1 := Run(s, polls[..n]);
    assert Run(s, polls) == Step(s1, polls[n]);
    hide Run;
    RunWaits(s, polls[..n], burst, seg);
    var s2 := s1.(rx := s1.rx + polls[n].due);
    assert s2.rx == burst[|Due(polls[..n])|..];
    UnreadProgress(s, s1, burst, seg, |Due(polls[..n])|, s2.rx);
    PollCorrupt(s, s2, burst, seg, |Due(polls[..n])|, polls[n].now);
  }

  /** Polls that find nothing. */
  predicate Silence(polls: seq<Call>) {
    forall c :: c in polls ==> c.DoPoll? && c.due == []
  }

  lemma {:induction false} RunSilent(s: Engine, polls: seq<Call>)
    requires Shape(s) && Fresh(s) && Silence(polls) && forall c :: c in polls ==> c.now < s.deadline
    ensures var s' := Run(s, polls);
      s'.rx == [] && SameAttempt(s, s') && s'.deframer == s.deframer && s'.respOpen == s.respOpen
  {
    hide Poll, Fresh;
    if polls == [] {
      assert SameAttempt(s, s) && s.rx == [] by { FreshAwaits(s); }
    } else {
      var n := |polls| - 1;
      RunSilent(s, polls[..n]);
      var s1 := Run(s, polls[..n]);
      assert polls[n] in polls;
      assert s1.(rx := s1.rx + polls[n].due) == s1;
      PollSilence(s, s1, polls[n].now);
    }
  }

  lemma FreshAwaits(s: Engine)
    requires Fresh(s)
    ensures Awaiting(s) && s.rx == []
  {
  }

  lemma RunTimesOut(s: Engine, polls: seq<Call>)
    requires Shape(s) && Fresh(s) && Silence(polls) && polls != [] && polls[|polls| - 1].now >= s.deadline
    requires forall c :: c in polls[..|polls| - 1] ==> c.now < s.deadline
    ensures Ended(s, Run(s, polls), Timeout, s.deadline)
  {
    hide Poll, Fresh, Ended;
    var n := |polls| - 1;
    RunSilent(s, polls[..n]);
    var s1 := Run(s, polls[..n]);
    assert s1.(rx := s1.rx + polls[n].due) == s1;
    PollSilence(s, s1, polls[n].now);
  }

  // ---------------------------------------------------------------- what a run has heard

  /** The frame now forming was opened by a FLAG that was read, or there is no such frame. */
  predicate Opener(s: Engine) {
    s.deframer == IDLE || exists b :: b in s.hist.read && b.value == FLAG && b.start == s.respOpen
  }

  lemma HearOpener(s: Engine, b: Rx, rx: seq<Rx>)
    requires Shape(s) && Opener(s)
    ensures Opener(Hear(s, b).(rx := rx))
  {
    hide Check, Counted;
    var s' := Hear(s, b).(rx := rx);
    assert s'.hist.read[|s.hist.read|] == b;
    assert forall x :: x in s.hist.read ==> x in s'.hist.read;
  }

  lemma {:induction false} DrainOpener(s: Engine, ev: Outcome)
    requires Shape(s) && Opener(s)
    ensures Opener(DrainWire(s, ev).0)
    decreases |s.rx|
  {
    hide Hear, Feed;
    if s.rx != [] {
      HearOpener(s, s.rx[0], s.rx[1..]);
      DrainOpener(TakeByte(s, ev).0, TakeByte(s, ev).1);
    }
  }

  lemma StepOpener(s: Engine, c: Call)
    requires Shape(s) && Opener(s)
    ensures Opener(Step(s, c))
  {
    hide Encode, DrainWire, FrameArriving, Want;
    DrainOpener(At(s.(rx := s.rx + c.due), c.now), Quiet);
  }

  lemma {:induction false} RunOpener(host: byte, byteTime: nat, calls: seq<Call>)
    ensures Opener(Run(Start(host, byteTime), calls))
  {
    hide Step, Opener;
    if calls == [] {
      assert Opener(Start(host, byteTime)) by { StartOpener(host, byteTime); }
    } else {
      RunOpener(host, byteTime, calls[..|calls| - 1]);
      StepOpener(Run(Start(host, byteTime), calls[..|calls| - 1]), calls[|calls| - 1]);
    }
  }

  lemma StartOpener(host: byte, byteTime: nat)
    ensures Opener(Start(host, byteTime))
  {
  }

  lemma {:induction false} RunJoins(s: Engine, a: seq<Call>, b: seq<Call>)
    requires Shape(s)
    ensures Run(s, a + b) == Run(Run(s, a), b)
    decreases |b|
  {
    hide Step;
    if b == [] {
      assert a + b == a;
    } else {
      var n := |b| - 1;
      assert (a + b)[..|a| + n] == a + b[..n] && (a + b)[|a| + n] == b[n];
      RunJoins(s, a, b[..n]);
    }
  }

  // ---------------------------------------------------------------- every run

  /** The last attempt awaits its response, and no frame has yet begun in its window. */
  predicate WindowOpen(s: Engine) {
    && Awaiting(s) && s.rx == [] && s.hist.sent != [] && s.hist.begun != []
    && forall b :: b in s.hist.read && b.value == FLAG ==> b.start < s.hist.sent[|s.hist.sent| - 1].end
  }

  /** The end of the last attempt's request, from which T_RESP counts. */
  function SentBy(s: Engine): nat
    requires s.hist.sent != []
  {
    s.hist.sent[|s.hist.sent| - 1].end
  }

  lemma WindowIsFresh(host: byte, byteTime: nat, calls: seq<Call>)
    requires calls != [] && MasterTiming.AllTimely(Start(host, byteTime), calls)
    requires WindowOpen(Run(Start(host, byteTime), calls))
    ensures var s := Run(Start(host, byteTime), calls); var b := s.hist.begun[|s.hist.begun| - 1];
      && Fresh(s) && s.windowStart == SentBy(s) && s.deadline == SentBy(s) + T_RESP
      && s.byteTime == byteTime && s.host == host && s.dst == b.dst && s.seqNo == b.seqNo
  {
    hide Run, MasterTiming.AllTimely, MasterTiming.Reading, MasterTiming.Sending, MasterRuns.AddressBooks,
      MasterRuns.FrameBooks, MasterRuns.Sequenced, MasterRuns.Tried;
    MasterTiming.RunKeeps(host, byteTime, calls);
    MasterRuns.RunKeeps(host, byteTime, calls);
    RunOpener(host, byteTime, calls);
  }

  /** This frame answers the transaction now open. */
  predicate Right(s: Engine, f: Fields)
    requires s.hist.begun != []
  {
    var b := s.hist.begun[|s.hist.begun| - 1];
    f.response && f.src == b.dst && f.dst == s.host && f.seqNo == b.seqNo
  }

  /** On the wire without a pause, the first start bit inside the window. */
  predicate InWindow(s: Engine, burst: seq<Rx>)
    requires s.hist.sent != []
  {
    MasterTiming.IsBurst(burst, s.byteTime) && SentBy(s) <= burst[0].start < SentBy(s) + T_RESP
  }

  lemma FromWindow(s: Engine, burst: seq<Rx>, seg: seq<byte>)
    requires s.hist.sent != [] && InWindow(s, burst) && Values(burst) == [FLAG] + seg + [FLAG]
    requires s.windowStart == SentBy(s) && s.deadline == SentBy(s) + T_RESP
    ensures OnWire(burst, seg, s.byteTime) && Opens(s, burst) && |burst| == |seg| + 2
  {
    assert |Values(burst)| == |burst|;
  }

  lemma EncodedCloses(f: Fields)
    requires Encodable(f) && f.seqNo < 16
    ensures ClosesWhole(Stuff(Unstuffed(f))) && FrameStream.Closed(Stuff(Unstuffed(f))) == [Delivered(f)]
    ensures Encode(f) == [FLAG] + Stuff(Unstuffed(f)) + [FLAG]
  {
    hide Check, Unstuffed;
    CheckUnstuffed(f);
    FrameStream.StuffRoundTrip(Unstuffed(f));
  }

  /**
   * Whatever the polls, as long as none is late: the right response, its first start bit in the window, ends the
   * transaction as its answer, and no further attempt is made.
   */
  lemma ResponseIsAnswer(host: byte, byteTime: nat, calls: seq<Call>, polls: seq<Call>, burst: seq<Rx>, f: Fields)
    requires calls != [] && MasterTiming.AllTimely(Start(host, byteTime), calls)
    requires var s := Run(Start(host, byteTime), calls);
      && WindowOpen(s) && Encodable(f) && f.seqNo < 16 && Right(s, f)
      && InWindow(s, burst) && Values(burst) == Encode(f)
      && Bring(polls, SentBy(s) + T_RESP, byteTime, burst) && Due(polls) == burst
    ensures var s := Run(Start(host, byteTime), calls); var s' := Run(Start(host, byteTime), calls + polls);
      && !s'.open && s'.hist.sent == s.hist.sent && s'.hist.begun == s.hist.begun
      && |s'.hist.concluded| == |s.hist.concluded| + 1 && s.hist.concluded <= s'.hist.concluded
      && s'.hist.concluded[|s.hist.concluded|].outcome == Answer(f)
  {
    hide Run, MasterTiming.AllTimely, Fresh, Bring, Due, ClosesWhole, FrameStream.Closed, Encode, Stuff, Unstuffed,
      MasterTiming.IsBurst;
    var s := Run(Start(host, byteTime), calls);
    WindowIsFresh(host, byteTime, calls);
    EncodedCloses(f);
    FromWindow(s, burst, Stuff(Unstuffed(f)));
    hide WindowOpen, InWindow, OnWire, Opens, Values;
    RunJoins(Start(host, byteTime), calls, polls);
    RunAnswers(s, polls, burst, Stuff(Unstuffed(f)), f);
  }

  /** Until its closing FLAG is read, nothing ends and nothing is sent. */
  lemma ResponseIsWaitedFor(host: byte, byteTime: nat, calls: seq<Call>, polls: seq<Call>, burst: seq<Rx>, f: Fields)
    requires calls != [] && MasterTiming.AllTimely(Start(host, byteTime), calls)
    requires var s := Run(Start(host, byteTime), calls);
      && WindowOpen(s) && Encodable(f) && f.seqNo < 16
      && InWindow(s, burst) && Values(burst) == Encode(f)
      && Bring(polls, SentBy(s) + T_RESP, byteTime, burst) && |Due(polls)| < |burst|
    ensures SameAttempt(Run(Start(host, byteTime), calls), Run(Start(host, byteTime), calls + polls))
  {
    hide Run, MasterTiming.AllTimely, Fresh, Bring, Due, ClosesWhole, FrameStream.Closed, Encode, Stuff, Unstuffed,
      MasterTiming.IsBurst;
    var s := Run(Start(host, byteTime), calls);
    WindowIsFresh(host, byteTime, calls);
    EncodedCloses(f);
    FromWindow(s, burst, Stuff(Unstuffed(f)));
    hide WindowOpen, InWindow, OnWire, Opens, Values;
    RunJoins(Start(host, byteTime), calls, polls);
    RunWaits(s, polls, burst, Stuff(Unstuffed(f)));
  }

  /** A frame that fails only its CRC, opened in the window, ends the attempt at its last stop bit. */
  lemma CorruptResponseEnds(
    host: byte, byteTime: nat, calls: seq<Call>, polls: seq<Call>, burst: seq<Rx>, body: seq<byte>)
    requires calls != [] && MasterTiming.AllTimely(Start(host, byteTime), calls)
    requires var s := Run(Start(host, byteTime), calls);
      && WindowOpen(s) && |body| <= MAX_UNSTUFFED && Check(body) == [Discarded(BadCrc)]
      && InWindow(s, burst) && Values(burst) == [FLAG] + Stuff(body) + [FLAG]
      && Bring(polls, SentBy(s) + T_RESP, byteTime, burst) && Due(polls) == burst
      && polls != [] && polls[|polls| - 1].due != []
    ensures Ended(Run(Start(host, byteTime), calls), Run(Start(host, byteTime), calls + polls), CrcFailed,
      MasterTiming.BurstEnd(burst, byteTime))
  {
    hide Run, MasterTiming.AllTimely, Fresh, Bring, Due, ClosesWhole, FrameStream.Closed, Stuff, Check, Ended,
      MasterTiming.IsBurst;
    var s := Run(Start(host, byteTime), calls);
    WindowIsFresh(host, byteTime, calls);
    CorruptCloses(body);
    MasterTiming.BurstFits(burst, byteTime);
    FromWindow(s, burst, Stuff(body));
    hide WindowOpen, InWindow, OnWire, Opens, Values;
    RunJoins(Start(host, byteTime), calls, polls);
    RunEnds(s, polls, burst, Stuff(body));
  }

  lemma CorruptCloses(body: seq<byte>)
    requires |body| <= MAX_UNSTUFFED && Check(body) == [Discarded(BadCrc)]
    ensures ClosesWhole(Stuff(body)) && FrameStream.Closed(Stuff(body)) == [Discarded(BadCrc)]
  {
    hide Check, Stuff;
    FrameStream.StuffRoundTrip(body);
  }

  lemma AllBefore(polls: seq<Call>, t: nat)
    requires polls != [] && polls[|polls| - 1].now < t && forall c :: c in polls[..|polls| - 1] ==> c.now < t
    ensures forall c :: c in polls ==> c.now < t
  {
    assert polls == polls[..|polls| - 1] + [polls[|polls| - 1]];
  }

  /** Silence ends the attempt at the deadline, at the first poll at or past it and at no poll before. */
  lemma SilenceEnds(host: byte, byteTime: nat, calls: seq<Call>, polls: seq<Call>)
    requires calls != [] && MasterTiming.AllTimely(Start(host, byteTime), calls)
    requires WindowOpen(Run(Start(host, byteTime), calls)) && Silence(polls) && polls != []
    requires forall c :: c in polls[..|polls| - 1] ==> c.now < SentBy(Run(Start(host, byteTime), calls)) + T_RESP
    ensures var s := Run(Start(host, byteTime), calls); var s' := Run(Start(host, byteTime), calls + polls);
      if polls[|polls| - 1].now < SentBy(s) + T_RESP then SameAttempt(s, s')
      else Ended(s, s', Timeout, SentBy(s) + T_RESP)
  {
    hide Run, MasterTiming.AllTimely, Fresh, Ended, SameAttempt, Silence;
    var s := Run(Start(host, byteTime), calls);
    WindowIsFresh(host, byteTime, calls);
    hide WindowOpen;
    RunJoins(Start(host, byteTime), calls, polls);
    if polls[|polls| - 1].now < s.deadline {
      AllBefore(polls, s.deadline);
      RunSilent(s, polls);
    } else {
      RunTimesOut(s, polls);
    }
  }
}
