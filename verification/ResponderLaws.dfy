/** What becomes of every frame put to a responder, and what it says to whom, told from the frames alone. */
module ResponderLaws {
  import opened Protocol
  import opened Frame
  import opened Wire
  import opened Responder
  import opened ResponderRuns

  // ---------------------------------------------------------------- the history, read back

  /** The request most recently answered anew. */
  function LastAnswered(served: seq<Served>): Option<Request> {
    if served == [] then None
    else if served[|served| - 1].verdict == Answered then Some(served[|served| - 1].request)
    else LastAnswered(served[..|served| - 1])
  }

  /** How often the handler has been asked. */
  function Calls(served: seq<Served>): nat {
    Tally(served, Answered) + Tally(served, Overlong)
  }

  /** The response to it: the handler's bytes, back to whoever asked. */
  function Given(my: byte, served: seq<Served>, h: Handler): Option<Fields> {
    if served == [] then None
    else
      var n := |served| - 1;
      var f := served[n].request.frame;
      if served[n].verdict == Answered then
        Some(Fields(f.src, my, true, f.retry, f.seqNo, h(Calls(served[..n]), f.payload)))
      else Given(my, served[..n], h)
  }

  /** What the next frame must be ruled, given those before it. */
  function Ruling(my: byte, served: seq<Served>, f: Fields, h: Handler): Verdict {
    var last := LastAnswered(served);
    if !Addressed(my, f) then Refused
    else if f.retry && last.Some? && last.value.frame.seqNo == f.seqNo && last.value.frame.src == f.src then Replayed
    else if |h(Calls(served), f.payload)| > MAX_L3_MESSAGE then Overlong
    else Answered
  }

  predicate Ruled(my: byte, served: seq<Served>, h: Handler) {
    forall i :: 0 <= i < |served| ==> served[i].verdict == Ruling(my, served[..i], served[i].request.frame, h)
  }

  datatype Exchange = Exchange(request: Request, response: Fields)

  /** Who is owed which response: one for each frame answered anew or recognised as a retry, in order. */
  function Owed(my: byte, served: seq<Served>, h: Handler): seq<Exchange> {
    if served == [] then []
    else
      var n := |served| - 1;
      var given := Given(my, served, h);
      Owed(my, served[..n], h) +
      if served[n].verdict in {Answered, Replayed} && given.Some? then [Exchange(served[n].request, given.value)]
        else []
  }

  function Paid(replies: seq<Reply>): seq<Exchange> {
    seq(|replies|, i requires 0 <= i < |replies| => Exchange(replies[i].request, replies[i].response))
  }

  // ---------------------------------------------------------------- the invariant

  /** The reply not yet on the wire. */
  function Pending(s: Engine): seq<Exchange>
    requires Shape(s)
  {
    if s.phase == Scheduled then [Exchange(s.hist.served[|s.hist.served| - 1].request, s.buffer.value)] else []
  }

  predicate Told(s: Engine, h: Handler)
    requires Shape(s)
  {
    && s.buffer == Given(s.my, s.hist.served, h) && s.calls == Calls(s.hist.served)
    && Ruled(s.my, s.hist.served, h)
    && Paid(s.hist.replies) + Pending(s) == Owed(s.my, s.hist.served, h)
  }

  lemma {:induction false} GivenIsLast(my: byte, served: seq<Served>, h: Handler)
    ensures var given, last := Given(my, served, h), LastAnswered(served);
      given.Some? == last.Some? &&
      (given.Some? ==> given.value.seqNo == last.value.frame.seqNo && given.value.dst == last.value.frame.src)
  {
    hide Calls;
    if served != [] { GivenIsLast(my, served[..|served| - 1], h); }
  }

  lemma RuledNext(my: byte, served: seq<Served>, x: Served, h: Handler)
    requires Ruled(my, served, h) && x.verdict == Ruling(my, served, x.request.frame, h)
    ensures Ruled(my, served + [x], h)
  {
    hide Ruling;
    var all := served + [x];
    forall i | 0 <= i < |all| ensures all[i].verdict == Ruling(my, all[..i], all[i].request.frame, h) {
      assert all[..i] == served[..i];
      if i == |served| { assert served[..i] == served; }
    }
  }

  lemma NextTold(my: byte, served: seq<Served>, x: Served, h: Handler)
    ensures var all, f := served + [x], x.request.frame;
      && Given(my, all, h) == (if x.verdict == Answered then
        Some(Fields(f.src, my, true, f.retry, f.seqNo, h(Calls(served), f.payload))) else Given(my, served, h))
      && Calls(all) == Calls(served) + (if x.verdict in {Answered, Overlong} then 1 else 0)
      && Owed(my, all, h) == Owed(my, served, h) +
        if x.verdict in {Answered, Replayed} && Given(my, all, h).Some? then
          [Exchange(x.request, Given(my, all, h).value)] else []
  {
    assert (served + [x])[..|served|] == served;
  }

  lemma ServeTold(s: Engine, r: Request, h: Handler)
    requires Shape(s) && Told(s, h) && s.phase != Scheduled
    ensures Told(OnRequest(s, r, h), h)
  {
    hide Encode, Given, Calls, Owed, Ruled, LastAnswered;
    var s', served := OnRequest(s, r, h), s.hist.served;
    GivenIsLast(s.my, served, h);
    var x := s'.hist.served[|served|];
    assert s'.hist.served == served + [x] && x.request == r;
    NextTold(s.my, served, x, h);
    RuledNext(s.my, served, x, h);
    assert Paid(s.hist.replies) + [] == Paid(s.hist.replies);
  }

  /** What Told reads. */
  lemma SameTold(s: Engine, s': Engine, h: Handler)
    requires Shape(s) && Shape(s') && Told(s, h)
    requires s'.my == s.my && s'.buffer == s.buffer && s'.calls == s.calls
    requires s'.hist.served == s.hist.served && s'.hist.replies == s.hist.replies
    requires s'.phase == Scheduled <==> s.phase == Scheduled
    ensures Told(s', h)
  {
    hide Given, Calls, Owed, Ruled;
  }

  lemma SendTold(s: Engine, now: nat, h: Handler)
    requires Shape(s) && Told(s, h) && s.phase == Scheduled
    ensures Told(Send(s, now), h)
  {
    hide Encode, Given, Calls, Owed, Ruled;
    var s' := Send(s, now);
    assert Paid(s'.hist.replies) == Paid(s.hist.replies) + Pending(s);
    assert Paid(s'.hist.replies) + [] == Paid(s'.hist.replies);
  }

  lemma TransmitTold(s: Engine, now: nat, drained: bool, h: Handler)
    requires Shape(s) && Told(s, h)
    ensures Told(TransmitIfDue(s, now, drained), h)
  {
    hide Told, Want, Send;
    var s1 := Finished(s, now);
    SameTold(s, s1, h);
    if s1.phase == Scheduled {
      SendTold(s1, now, h);
      SameTold(s1, s1.(origin := Some(Origin(s1, now))), h);
    }
  }

  lemma TakeTold(s: Engine, h: Handler)
    requires Shape(s) && Told(s, h) && s.rx != [] && s.phase != Transmitting
    ensures Told(TakeByte(s, h), h)
  {
    hide Told, Feed, Counted, OnRequest, Acceptable, Encode;
    SameTold(s, Fed(s), h);
    var f := FrameIn(Feed(s.deframer, s.rx[0].value).1);
    if f.Some? {
      var r := Request(f.value, s.rx[0].start + s.byteTime);
      SameTold(Fed(s), Arrive(Fed(s), r), h);
      if s.phase == Listening {
        ServeTold(Arrive(Fed(s), r), r, h);
      } else {
        SameTold(Fed(s), HoldOrDiscard(Fed(s), r), h);
      }
    } else {
      SameTold(Fed(s), CountDiscard(Fed(s)), h);
    }
  }

  lemma {:induction false} DrainTold(s: Engine, now: nat, h: Handler)
    requires Shape(s) && Told(s, h)
    ensures Told(Drain(s, now, h), h)
    decreases |s.rx|, |s.held|
  {
    hide Told, TransmitIfDue, OnRequest, TakeByte;
    TransmitTold(s, now, false, h);
    var s1 := TransmitIfDue(s, now, false);
    if s1.phase == Listening && s1.held != [] {
      var s2 := s1.(held := s1.held[1..]);
      SameTold(s1, s2, h);
      ServeTold(s2, s1.held[0], h);
      DrainTold(OnRequest(s2, s1.held[0], h), now, h);
    } else if s1.phase != Listening && !PastWindow(s1, now) {
    } else if s1.rx == [] {
    } else {
      TakeTold(s1, h);
      DrainTold(TakeByte(s1, h), now, h);
    }
  }

  lemma PollTold(s: Engine, t: Turn, h: Handler)
    requires Shape(s) && Told(s, h)
    ensures Told(Take(s, t, h), h)
  {
    hide Told, Drain, TransmitIfDue;
    var s1 := s.(rx := s.rx + t.due);
    SameTold(s, s1, h);
    DrainTold(s1, t.now, h);
    TransmitTold(Drain(s1, t.now, h), t.now, true, h);
    SameTold(TransmitIfDue(Drain(s1, t.now, h), t.now, true), Take(s, t, h), h);
  }

  lemma {:induction false} RunTold(my: byte, turnaround: nat, byteTime: nat, turns: seq<Turn>, h: Handler)
    ensures Told(Run(Start(my, turnaround, byteTime), turns, h), h)
  {
    hide Take;
    if turns != [] {
      RunTold(my, turnaround, byteTime, turns[..|turns| - 1], h);
      hide Told;
      PollTold(Run(Start(my, turnaround, byteTime), turns[..|turns| - 1], h), turns[|turns| - 1], h);
    }
  }

  // ---------------------------------------------------------------- what never changes

  predicate Alike(s: Engine, s': Engine) {
    s'.my == s.my && s'.turnaround == s.turnaround && s'.byteTime == s.byteTime
  }

  lemma StepsAlike(s: Engine, now: nat, r: Request, h: Handler)
    requires Shape(s)
    ensures Alike(s, TransmitIfDue(s, now, false)) && Alike(s, TransmitIfDue(s, now, true))
    ensures Alike(s, OnRequest(s, r, h)) && (s.rx != [] ==> Alike(s, TakeByte(s, h)))
  {
    hide Feed, Counted, Encode, Want, Acceptable, IsReplay;
  }

  lemma {:induction false} DrainAlike(s: Engine, now: nat, h: Handler)
    requires Shape(s)
    ensures Alike(s, Drain(s, now, h))
    decreases |s.rx|, |s.held|
  {
    hide TransmitIfDue, TakeByte, OnRequest;
    var s1, anyone := TransmitIfDue(s, now, false), Request(Fields(0, 0, false, false, 0, []), 0);
    StepsAlike(s, now, anyone, h);
    StepsAlike(s1, now, anyone, h);
    if s1.phase == Listening && s1.held != [] {
      StepsAlike(s1.(held := s1.held[1..]), now, s1.held[0], h);
      DrainAlike(OnRequest(s1.(held := s1.held[1..]), s1.held[0], h), now, h);
    } else if s1.phase != Listening && !PastWindow(s1, now) {
    } else if s1.rx == [] {
    } else {
      DrainAlike(TakeByte(s1, h), now, h);
    }
  }

  lemma {:induction false} RunAlike(my: byte, turnaround: nat, byteTime: nat, turns: seq<Turn>, h: Handler)
    ensures Alike(Start(my, turnaround, byteTime), Run(Start(my, turnaround, byteTime), turns, h))
  {
    hide Drain, TransmitIfDue;
    if turns != [] {
      var s, t := Run(Start(my, turnaround, byteTime), turns[..|turns| - 1], h), turns[|turns| - 1];
      RunAlike(my, turnaround, byteTime, turns[..|turns| - 1], h);
      var s1 := s.(rx := s.rx + t.due);
      DrainAlike(s1, t.now, h);
      StepsAlike(Drain(s1, t.now, h), t.now, Request(Fields(0, 0, false, false, 0, []), 0), h);
    }
  }

  // ---------------------------------------------------------------- what a run shows

  /** Every frame put to this node is ruled as its fields, the last answer and the handler's length demand. */
  lemma RulingsAreDue(my: byte, turnaround: nat, byteTime: nat, turns: seq<Turn>, h: Handler)
    ensures var served := Run(Start(my, turnaround, byteTime), turns, h).hist.served;
      forall i :: 0 <= i < |served| ==>
        served[i].verdict == Ruling(my, served[..i], served[i].request.frame, h)
  {
    hide Run, Given, Calls, Owed, Ruling;
    RunTold(my, turnaround, byteTime, turns, h);
    RunAlike(my, turnaround, byteTime, turns, h);
  }

  /**
   * The replies on the wire are exactly those owed, each to its own request and in order, but for one still scheduled;
   * none starts before the node's turnaround is over.
   */
  lemma RepliesAreOwed(my: byte, turnaround: nat, byteTime: nat, turns: seq<Turn>, h: Handler)
    requires AllTimely(Start(my, turnaround, byteTime), turns, h) && turns != []
    ensures var s := Run(Start(my, turnaround, byteTime), turns, h); var owed := Owed(my, s.hist.served, h);
      && |owed| == |s.hist.replies| + (if s.phase == Scheduled then 1 else 0)
      && forall i :: 0 <= i < |s.hist.replies| ==>
        && s.hist.replies[i].request == owed[i].request && s.hist.replies[i].response == owed[i].response
        && s.hist.replies[i].request.end + ClampTurnaround(turnaround) <= s.hist.replies[i].start
  {
    hide Run, Given, Calls, Owed, Ruled, AllTimely, Books, Order, Clocked, ResponderRuns.Pending, Answers, AfterGap;
    RunTold(my, turnaround, byteTime, turns, h);
    RunAlike(my, turnaround, byteTime, turns, h);
    RunKeeps(my, turnaround, byteTime, turns, h);
    var s := Run(Start(my, turnaround, byteTime), turns, h);
    forall i | 0 <= i < |s.hist.replies|
      ensures Exchange(s.hist.replies[i].request, s.hist.replies[i].response) == Owed(my, s.hist.served, h)[i]
      ensures s.hist.replies[i].request.end + s.turnaround <= s.hist.replies[i].start
    {
      assert Paid(s.hist.replies)[i] == Owed(my, s.hist.served, h)[i];
      assert ReplyGood(s, s.hist.replies[i]);
    }
  }

  /** A late response goes out at the first poll that finds nothing on the wire, every byte before it T_gap ago. */
  lemma LateOnQuietWireIsSent(
    my: byte, turnaround: nat, byteTime: nat, turns: seq<Turn>, h: Handler, now: nat)
    requires AllTimely(Start(my, turnaround, byteTime), turns, h) && turns != []
    requires var s := Run(Start(my, turnaround, byteTime), turns, h);
      && s.phase == Scheduled && s.rx == [] && now > s.requestEnd + T_TURN_MAX && now >= s.hist.clock
      && forall b :: b in s.hist.read ==> b.start + s.byteTime + T_GAP <= now
    ensures var s := Run(Start(my, turnaround, byteTime), turns, h); var s' := Poll(s, now, h);
      s'.hist.replies == s.hist.replies + [Sent(s, now)] && Sent(s, now).late
  {
    hide Run, AllTimely, Books, Order, Replies, Buffered, Answers, Encode;
    RunKeeps(my, turnaround, byteTime, turns, h);
    var s := Run(Start(my, turnaround, byteTime), turns, h);
    assert s.turnaround <= T_TURN_MAX;
    LastByteEnded(s, now);
    assert Drain(s, now, h) == s;
  }

  lemma LastByteEnded(s: Engine, now: nat)
    requires s.hist.clock >= 0 && Clocked(s, s.hist.clock) && now >= s.hist.clock
    requires forall b :: b in s.hist.read ==> b.start + s.byteTime + T_GAP <= now
    ensures Want(s, now) <= now
  {
  }
}
