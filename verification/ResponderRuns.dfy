/** What holds of a responder after any run of polls over any bytes, with any handler. */
module ResponderRuns {
  import opened Protocol
  import opened Frame
  import opened FrameStream
  import opened Wire
  import opened Responder

  // ---------------------------------------------------------------- reading the history

  /** Every frame a fresh deframer makes of these bytes, each with the instant it was complete. */
  function Heard(read: seq<Rx>, byteTime: nat): (r: (Frame.State, seq<Request>))
    ensures StateOk(r.0)
  {
    if read == [] then (IDLE, [])
    else
      var b := read[|read| - 1];
      var (d, rs) := Heard(read[..|read| - 1], byteTime);
      var (d1, events) := Feed(d, b.value);
      (d1, match FrameIn(events) case Some(f) => rs + [Request(f, b.start + byteTime)] case None => rs)
  }

  function Requests(arrived: seq<Arrival>): seq<Request> {
    if arrived == [] then [] else Requests(arrived[..|arrived| - 1]) + [arrived[|arrived| - 1].request]
  }

  /** A request some other station of the trunk puts to this one. */
  predicate Addressed(my: byte, f: Fields) {
    f.dst == my && !f.response && f.src != my && f.src < ADDR_COUNT && my < ADDR_COUNT
  }

  /**
   * The frames that may not be lost: those heard while no response was pending, and the requests to this node heard
   * while one was, as long as fewer than HELD_REQUESTS of the earlier ones were still to be served.
   */
  function Kept(my: byte, arrived: seq<Arrival>): seq<Request> {
    if arrived == [] then []
    else
      var before, a := Kept(my, arrived[..|arrived| - 1]), arrived[|arrived| - 1];
      if !a.busy || (Addressed(my, a.request.frame) && |before| < a.after + HELD_REQUESTS) then before + [a.request]
      else before
  }

  function Taken(served: seq<Served>): seq<Request> {
    if served == [] then [] else Taken(served[..|served| - 1]) + [served[|served| - 1].request]
  }

  function Tally(served: seq<Served>, v: Verdict): nat {
    if served == [] then 0
    else Tally(served[..|served| - 1], v) + if served[|served| - 1].verdict == v then 1 else 0
  }

  function CountLate(replies: seq<Reply>): nat {
    if replies == [] then 0
    else CountLate(replies[..|replies| - 1]) + if replies[|replies| - 1].late then 1 else 0
  }

  /** Everything the wire has offered so far, read or not. */
  function Offered(s: Engine): seq<Rx> {
    s.hist.read + s.rx
  }

  // ---------------------------------------------------------------- the invariants

  function Consumed(c: DeframerStats): nat {
    c.delivered + c.badCrc + c.badLength + c.badEscape + c.tooLong + c.reserved
  }

  function Accounted(s: Engine): nat {
    s.stats.transactions + s.stats.replays + s.stats.discards + |s.held|
  }

  /** Each frame the deframer delivers or discards is counted exactly once, or still held. */
  predicate Books(s: Engine) {
    && Consumed(s.counts) == Accounted(s)
    && s.stats.transactions == Tally(s.hist.served, Answered)
    && s.stats.replays == Tally(s.hist.served, Replayed)
    && s.calls == Tally(s.hist.served, Answered) + Tally(s.hist.served, Overlong)
  }

  /** The handler and the replay buffer see requests in arrival order. */
  predicate Order(s: Engine) {
    && Heard(s.hist.read, s.byteTime) == (s.deframer, Requests(s.hist.arrived))
    && Kept(s.my, s.hist.arrived) == Taken(s.hist.served) + s.held
    && forall r :: r in s.held ==> Acceptable(s, r.frame)
  }

  predicate Answers(my: byte, q: Fields, a: Fields) {
    && q.dst == my && q.src != my && q.src < ADDR_COUNT && !q.response
    && a.src == my && a.dst == q.src && a.response && a.seqNo == q.seqNo
    && |a.payload| <= MAX_L3_MESSAGE
  }

  /** Nothing had been on the wire for T_gap when this reply started. */
  predicate AfterGap(r: Reply, offered: seq<Rx>, byteTime: nat) {
    forall b :: b in offered && b.start <= r.start ==> b.start + byteTime + T_GAP <= r.start
  }

  predicate ReplyGood(s: Engine, r: Reply) {
    && Answers(s.my, r.request.frame, r.response)
    && r.end == r.start + |Encode(r.response)| * s.byteTime
    && r.start >= r.request.end + s.turnaround
    && (r.late <==> r.start > r.request.end + T_TURN_MAX)
    && (r.late ==> r.request.end + T_TURN_MAX < r.origin <= r.start)
    && (r.late ==> AfterGap(r, Offered(s), s.byteTime) || r.start >= r.origin + MaxFrame(s.byteTime) + T_GAP)
  }

  predicate Replies(s: Engine) {
    && (forall r :: r in s.hist.replies ==> ReplyGood(s, r))
    && (forall i, j :: 0 <= i < j < |s.hist.replies| ==> s.hist.replies[i].end <= s.hist.replies[j].start)
    && s.stats.late == CountLate(s.hist.replies)
  }

  /** How the engine's instants stand to the history, at `now`. */
  predicate Clocked(s: Engine, now: nat) {
    && (forall r :: r in s.hist.replies ==> r.end <= s.txUntil && r.start <= now)
    && (s.phase != Transmitting ==> s.txUntil <= now)
    && InOrder(Offered(s))
    && (forall b :: b in Offered(s) ==> b.start <= now)
    && s.activity == (if s.hist.read == [] then None else Some(s.hist.read[|s.hist.read| - 1].start + s.byteTime))
    && (s.origin.Some? ==> s.phase == Scheduled && s.requestEnd + T_TURN_MAX < s.origin.value <= now)
  }

  predicate Pending(s: Engine)
    requires Shape(s)
  {
    s.phase == Scheduled ==>
      && s.deadline == s.requestEnd + s.turnaround
      && s.hist.served[|s.hist.served| - 1].request.end == s.requestEnd
      && Answers(s.my, s.hist.served[|s.hist.served| - 1].request.frame, s.buffer.value)
  }

  predicate Buffered(s: Engine) {
    s.buffer.Some? ==> s.buffer.value.response && s.buffer.value.src == s.my
  }

  predicate Inv(s: Engine, now: nat)
    requires Shape(s)
  {
    Books(s) && Order(s) && Clocked(s, now) && Replies(s) && Pending(s) && Buffered(s)
  }

  // ---------------------------------------------------------------- one request

  lemma ServeBooks(s: Engine, r: Request, h: Handler)
    requires Shape(s) && s.phase == Listening && s.origin.None?
    ensures var s' := OnRequest(s, r, h);
      && Accounted(s') == Accounted(s) + 1
      && s'.hist.read == s.hist.read && s'.hist.arrived == s.hist.arrived && s'.hist.replies == s.hist.replies
      && s'.counts == s.counts && s'.deframer == s.deframer && s'.stats.late == s.stats.late
      && s'.my == s.my && s'.byteTime == s.byteTime && s'.turnaround == s.turnaround
      && s'.txUntil == s.txUntil && s'.activity == s.activity && s'.origin == s.origin && s'.phase != Transmitting
      && Taken(s'.hist.served) == Taken(s.hist.served) + [r]
  {
    hide Encode;
  }

  lemma ServeTallies(s: Engine, r: Request, h: Handler)
    requires Shape(s)
    ensures var s' := OnRequest(s, r, h);
      && s'.stats.transactions - s.stats.transactions == Tally(s'.hist.served, Answered) - Tally(s.hist.served,
        Answered)
      && s'.stats.replays - s.stats.replays == Tally(s'.hist.served, Replayed) - Tally(s.hist.served, Replayed)
      && s'.calls - s.calls == Tally(s'.hist.served, Answered) - Tally(s.hist.served, Answered)
                             + Tally(s'.hist.served, Overlong) - Tally(s.hist.served, Overlong)
  {
    hide Encode;
  }

  lemma ServePending(s: Engine, r: Request, h: Handler)
    requires Shape(s) && s.phase == Listening && Buffered(s)
    ensures Pending(OnRequest(s, r, h)) && Buffered(OnRequest(s, r, h))
  {
    hide Encode;
  }

  lemma ServeKeeps(s: Engine, r: Request, h: Handler, now: nat)
    requires Shape(s) && s.phase == Listening && s.origin.None?
    requires Clocked(s, now) && Replies(s) && Buffered(s)
    ensures var s' := OnRequest(s, r, h); Clocked(s', now) && Replies(s') && Pending(s') && Buffered(s')
  {
    hide Encode, OnRequest, InOrder;
    ServeBooks(s, r, h);
    ServePending(s, r, h);
    forall x | x in s.hist.replies ensures ReplyGood(OnRequest(s, r, h), x) {
      assert ReplyGood(s, x);
    }
  }

  // ---------------------------------------------------------------- the wire

  /** A late reply that waited for silence had it; the last byte read ended last. */
  lemma SilenceIsSilence(s: Engine, now: nat)
    requires Shape(s) && Clocked(s, now) && s.rx == [] && Want(s, now) <= now < Cap(s, now)
    ensures forall b :: b in Offered(s) ==> b.start + s.byteTime + T_GAP <= now
  {
    assert Offered(s) == s.hist.read;
    forall b | b in s.hist.read ensures b.start + s.byteTime + T_GAP <= now {
      var i :| 0 <= i < |s.hist.read| && s.hist.read[i] == b;
      assert i < |s.hist.read| - 1 ==> s.hist.read[i].start <= s.hist.read[|s.hist.read| - 1].start;
    }
  }

  lemma SentIsGood(s: Engine, now: nat)
    requires Shape(s) && s.phase == Scheduled && Clocked(s, now) && Pending(s) && s.deadline <= now
    requires PastWindow(s, now) ==> s.rx == [] && Want(s, now) <= now
    ensures ReplyGood(s, Sent(s, now))
  {
    hide Encode, InOrder;
    if PastWindow(s, now) && now < Cap(s, now) { SilenceIsSilence(s, now); }
  }

  lemma SendReplies(s: Engine, now: nat)
    requires Shape(s) && s.phase == Scheduled && Inv(s, now) && s.deadline <= now
    requires PastWindow(s, now) ==> s.rx == [] && Want(s, now) <= now
    ensures Replies(Send(s, now))
  {
    hide Encode, InOrder, Books, Order, ReplyGood, Pending, Buffered;
    SentIsGood(s, now);
    var s', before := Send(s, now), s.hist.replies;
    var after := s'.hist.replies;
    assert after == before + [Sent(s, now)] && Offered(s') == Offered(s);
    forall r | r in after ensures ReplyGood(s', r) {
      SameGoods(s, s', r);
    }
    forall i, j | 0 <= i < j < |after| ensures after[i].end <= after[j].start {
      assert after[i] == before[i] && before[i] in before;
    }
    assert after[..|after| - 1] == before;
  }

  lemma SendClocked(s: Engine, now: nat)
    requires Shape(s) && s.phase == Scheduled && Inv(s, now)
    ensures Clocked(Send(s, now), now)
  {
    hide Encode, InOrder, Books, Order, Replies, Pending, Buffered;
    var s', before := Send(s, now), s.hist.replies;
    assert s'.hist.replies == before + [Sent(s, now)] && Offered(s') == Offered(s);
  }

  lemma SendRest(s: Engine, now: nat)
    requires Shape(s) && s.phase == Scheduled && Inv(s, now)
    ensures var s' := Send(s, now); Books(s') && Order(s') && Pending(s') && Buffered(s')
  {
    hide Encode, InOrder, Heard, Kept, Taken, Tally, Requests, Replies, Clocked, Consumed;
  }

  lemma SendKeeps(s: Engine, now: nat)
    requires Shape(s) && s.phase == Scheduled && Inv(s, now) && s.deadline <= now
    requires PastWindow(s, now) ==> s.rx == [] && Want(s, now) <= now
    ensures Inv(Send(s, now), now)
  {
    hide Books, Order, Pending, Buffered, Replies, Clocked, Encode, Want, PastWindow;
    SendReplies(s, now);
    SendClocked(s, now);
    SendRest(s, now);
  }

  /** What ReplyGood depends on. */
  lemma SameGoods(s: Engine, s': Engine, r: Reply)
    requires s'.my == s.my && s'.byteTime == s.byteTime && s'.turnaround == s.turnaround && Offered(s') == Offered(s)
    ensures ReplyGood(s', r) == ReplyGood(s, r)
  {
  }

  lemma TransmitKeeps(s: Engine, now: nat, drained: bool)
    requires Shape(s) && Inv(s, now)
    requires drained && PastWindow(s, now) ==> s.rx == []
    ensures Inv(TransmitIfDue(s, now, drained), now)
  {
    hide Encode, InOrder, Heard, Kept, Taken, Tally, Requests, ReplyGood, Send;
    var s1 := Finished(s, now);
    assert Offered(s1) == Offered(s);
    forall r | r in s.hist.replies ensures ReplyGood(s1, r) {
      SameGoods(s, s1, r);
    }
    if s1.phase != Scheduled || now < s1.deadline {
    } else if !PastWindow(s1, now) {
      SendKeeps(s1, now);
    } else if drained {
      if now >= Want(s1, now) {
        SendKeeps(s1, now);
      } else {
        var s2 := s1.(origin := Some(Origin(s1, now)));
        assert Offered(s2) == Offered(s1);
        forall r | r in s.hist.replies ensures ReplyGood(s2, r) {
          SameGoods(s1, s2, r);
        }
      }
    }
  }

  // ---------------------------------------------------------------- one byte

  lemma CountedOne(c: DeframerStats, d: Frame.State, b: byte)
    requires StateOk(d)
    ensures var events := Feed(d, b).1;
      && Consumed(Counted(c, events)) == Consumed(c) + |events|
      && (FrameIn(events).Some? ==> |events| == 1)
  {
    hide Check, Feed;
    var events := Feed(d, b).1;
    if events != [] {
      assert events[..0] == [];
    }
  }

  /** The byte read and fed; what it completes is still to be dealt with. */
  function Fed(s: Engine): Engine
    requires Shape(s) && s.rx != []
  {
    var (d, events) := Feed(s.deframer, s.rx[0].value);
    s.(rx := s.rx[1..], activity := Some(s.rx[0].start + s.byteTime), deframer := d,
       counts := Counted(s.counts, events), hist := s.hist.(read := s.hist.read + [s.rx[0]]))
  }

  lemma FedKeeps(s: Engine, now: nat)
    requires Shape(s) && Inv(s, now) && s.rx != []
    ensures Clocked(Fed(s), now) && Replies(Fed(s)) && Pending(Fed(s)) && Buffered(Fed(s))
    ensures Offered(Fed(s)) == Offered(s)
  {
    hide Encode, InOrder, Heard, Kept, Taken, Tally, Requests, ReplyGood, Feed, Counted;
    var s1 := Fed(s);
    assert s.rx == [s.rx[0]] + s.rx[1..];
    assert Offered(s1) == Offered(s);
    forall r | r in s.hist.replies ensures ReplyGood(s1, r) {
      SameGoods(s, s1, r);
    }
  }

  /** Reading one byte hears one byte more. */
  lemma FedHears(s: Engine)
    requires Shape(s) && s.rx != [] && Heard(s.hist.read, s.byteTime).0 == s.deframer
    ensures var f := FrameIn(Feed(s.deframer, s.rx[0].value).1); var before := Heard(s.hist.read, s.byteTime).1;
      Heard(Fed(s).hist.read, s.byteTime) ==
        (Fed(s).deframer, before + (if f.Some? then [Request(f.value, s.rx[0].start + s.byteTime)] else []))
  {
    hide Feed, Counted;
    var read := s.hist.read;
    assert (read + [s.rx[0]])[..|read|] == read;
    assert Heard(read, s.byteTime).1 + [] == Heard(read, s.byteTime).1;
  }

  lemma ArriveLast(my: byte, arrived: seq<Arrival>, a: Arrival)
    ensures Requests(arrived + [a]) == Requests(arrived) + [a.request]
    ensures Kept(my, arrived + [a]) == Kept(my, arrived) +
      if !a.busy || (Addressed(my, a.request.frame) && |Kept(my, arrived)| < a.after + HELD_REQUESTS) then [a.request]
      else []
  {
    assert (arrived + [a])[..|arrived|] == arrived;
  }

  lemma {:induction false} TakenAll(served: seq<Served>)
    ensures |Taken(served)| == |served|
  {
    if served != [] { TakenAll(served[..|served| - 1]); }
  }

  lemma TakeOrder(s: Engine, h: Handler)
    requires Shape(s) && Order(s) && s.rx != [] && s.phase != Transmitting
    requires s.phase == Listening ==> s.held == [] && s.origin.None?
    ensures Order(TakeByte(s, h))
  {
    hide Encode, Feed, Counted, Heard, Requests, Kept, Taken, OnRequest, Accounted;
    FedHears(s);
    var f := FrameIn(Feed(s.deframer, s.rx[0].value).1);
    if f.Some? {
      var r, s1 := Request(f.value, s.rx[0].start + s.byteTime), Fed(s);
      ArriveLast(s.my, s.hist.arrived, Arrival(r, s.phase != Listening, |s.hist.served|));
      TakenAll(s.hist.served);
      if s.phase == Listening {
        ServeBooks(Arrive(s1, r), r, h);
        assert (Taken(s.hist.served) + []) + [r] == (Taken(s.hist.served) + [r]) + [];
      } else {
        assert (Taken(s.hist.served) + s.held) + [r] == Taken(s.hist.served) + (s.held + [r]);
        assert Kept(s.my, s.hist.arrived) + [] == Kept(s.my, s.hist.arrived);
      }
    } else {
      assert Requests(s.hist.arrived) + [] == Requests(s.hist.arrived);
    }
  }

  lemma TakeBooks(s: Engine, h: Handler, now: nat)
    requires Shape(s) && Inv(s, now) && s.rx != []
    ensures Books(TakeByte(s, h))
  {
    hide Encode, InOrder, ReplyGood, Feed, Counted, Tally, OnRequest, Consumed, Replies, Pending, Clocked, Order;
    CountedOne(s.counts, s.deframer, s.rx[0].value);
    var events := Feed(s.deframer, s.rx[0].value).1;
    var s1 := Fed(s);
    match FrameIn(events)
    case Some(f) =>
      var r := Request(f, s.rx[0].start + s.byteTime);
      if s.phase == Listening {
        ServeBooksAny(Arrive(s1, r), r, h);
        ServeTallies(Arrive(s1, r), r, h);
      }
    case None =>
  }

  lemma ServeBooksAny(s: Engine, r: Request, h: Handler)
    requires Shape(s)
    ensures Accounted(OnRequest(s, r, h)) == Accounted(s) + 1 && OnRequest(s, r, h).counts == s.counts
  {
    hide Encode;
  }

  lemma TakeKeeps(s: Engine, h: Handler, now: nat)
    requires Shape(s) && Inv(s, now) && s.rx != [] && s.phase != Transmitting
    requires s.phase == Listening ==> s.held == []
    ensures Inv(TakeByte(s, h), now)
  {
    TakeOrder(s, h);
    TakeBooks(s, h, now);
    TakeRest(s, h, now);
  }

  /** Bookkeeping that no reply depends on. */
  lemma SameReplies(s: Engine, s': Engine)
    requires Replies(s) && s'.hist.replies == s.hist.replies && s'.stats.late == s.stats.late
    requires s'.my == s.my && s'.byteTime == s.byteTime && s'.turnaround == s.turnaround && Offered(s') == Offered(s)
    ensures Replies(s')
  {
    hide ReplyGood, Encode, InOrder;
    forall r | r in s.hist.replies ensures ReplyGood(s', r) { SameGoods(s, s', r); }
  }

  lemma FrameRest(s: Engine, r: Request, h: Handler, now: nat)
    requires Shape(s) && Clocked(s, now) && Replies(s) && Pending(s) && Buffered(s) && s.phase != Transmitting
    requires s.phase == Listening ==> s.origin.None?
    ensures var s' := if s.phase == Listening then OnRequest(Arrive(s, r), r, h) else HoldOrDiscard(s, r);
      Clocked(s', now) && Replies(s') && Pending(s') && Buffered(s')
  {
    hide Encode, InOrder, ReplyGood, OnRequest, Replies;
    var s2, s3 := Arrive(s, r), HoldOrDiscard(s, r);
    assert Offered(s2) == Offered(s) && Offered(s3) == Offered(s);
    SameReplies(s, s2);
    SameReplies(s, s3);
    if s.phase == Listening { ServeKeeps(s2, r, h, now); }
  }

  lemma DiscardRest(s: Engine, now: nat)
    requires Shape(s) && Clocked(s, now) && Replies(s) && Pending(s) && Buffered(s)
    ensures var s' := CountDiscard(s); Clocked(s', now) && Replies(s') && Pending(s') && Buffered(s')
  {
    hide Encode, InOrder, ReplyGood, Replies;
    assert Offered(CountDiscard(s)) == Offered(s);
    SameReplies(s, CountDiscard(s));
  }

  lemma TakeRest(s: Engine, h: Handler, now: nat)
    requires Shape(s) && Inv(s, now) && s.rx != [] && s.phase != Transmitting
    ensures var s' := TakeByte(s, h); Clocked(s', now) && Replies(s') && Pending(s') && Buffered(s')
  {
    FedKeeps(s, now);
    NoOrigin(s, now);
    hide Encode, InOrder, Books, Order, Replies, Pending, Buffered, Clocked, Feed, Counted, OnRequest, HoldOrDiscard;
    DiscardRest(Fed(s), now);
    match FrameIn(Feed(s.deframer, s.rx[0].value).1)
    case Some(f) => FrameRest(Fed(s), Request(f, s.rx[0].start + s.byteTime), h, now);
    case None =>
  }

  lemma NoOrigin(s: Engine, now: nat)
    requires Shape(s) && Inv(s, now)
    ensures s.phase == Listening ==> s.origin.None?
  {
  }

  // ---------------------------------------------------------------- a held request

  lemma PopKeeps(s: Engine, h: Handler, now: nat)
    requires Shape(s) && Inv(s, now) && s.phase == Listening && s.held != []
    ensures Inv(OnRequest(s.(held := s.held[1..]), s.held[0], h), now)
  {
    hide Encode, InOrder, ReplyGood, Tally, OnRequest, Consumed, Heard, Kept, Requests;
    var s1 := s.(held := s.held[1..]);
    assert Offered(s1) == Offered(s);
    forall x | x in s1.hist.replies ensures ReplyGood(s1, x) {
      SameGoods(s, s1, x);
    }
    ServeBooks(s1, s.held[0], h);
    ServeTallies(s1, s.held[0], h);
    ServeKeeps(s1, s.held[0], h, now);
    assert s.held == [s.held[0]] + s.held[1..];
    assert Taken(s.hist.served) + s.held == (Taken(s.hist.served) + [s.held[0]]) + s.held[1..];
  }

  // ---------------------------------------------------------------- one poll, and every run

  lemma {:induction false} DrainKeeps(s: Engine, now: nat, h: Handler)
    requires Shape(s) && Inv(s, now)
    ensures Inv(Drain(s, now, h), now)
    ensures PastWindow(Drain(s, now, h), now) ==> Drain(s, now, h).rx == []
    decreases |s.rx|, |s.held|
  {
    hide Inv, TransmitIfDue, OnRequest, TakeByte;
    TransmitKeeps(s, now, false);
    var s1 := TransmitIfDue(s, now, false);
    NotBusy(s1, now);
    if s1.phase == Listening && s1.held != [] {
      PopKeeps(s1, h, now);
      DrainKeeps(OnRequest(s1.(held := s1.held[1..]), s1.held[0], h), now, h);
    } else if s1.phase != Listening && !PastWindow(s1, now) {
    } else if s1.rx == [] {
    } else {
      TakeKeeps(s1, h, now);
      DrainKeeps(TakeByte(s1, h), now, h);
    }
  }

  lemma NotBusy(s: Engine, now: nat)
    ensures PastWindow(s, now) ==> s.phase == Scheduled
  {
  }

  lemma PollKeeps(s: Engine, now: nat, h: Handler)
    requires Shape(s) && Inv(s, now)
    ensures Inv(Poll(s, now, h), now)
  {
    hide Inv, Drain, TransmitIfDue;
    DrainKeeps(s, now, h);
    TransmitKeeps(Drain(s, now, h), now, true);
    ClockOnly(TransmitIfDue(Drain(s, now, h), now, true), now);
  }

  lemma ClockOnly(s: Engine, now: nat)
    requires Shape(s) && Inv(s, now)
    ensures Inv(s.(hist := s.hist.(clock := now)), now)
  {
    hide Encode, InOrder, Heard, Kept, Taken, Tally, Requests;
    var s1 := s.(hist := s.hist.(clock := now));
    forall x | x in s1.hist.replies ensures ReplyGood(s1, x) {
      SameGoods(s, s1, x);
    }
  }

  lemma TurnKeeps(s: Engine, t: Turn, h: Handler)
    requires Shape(s) && s.hist.clock >= 0 && Inv(s, s.hist.clock) && Timely(s, t)
    ensures Inv(Take(s, t, h), t.now) && Take(s, t, h).hist.clock == t.now
  {
    hide Encode, Heard, Kept, Taken, Tally, Requests, Poll, Consumed;
    var s1 := s.(rx := s.rx + t.due);
    assert Offered(s1) == Offered(s) + t.due;
    forall x | x in s.hist.replies ensures ReplyGood(s1, x) {
      assert ReplyGood(s, x);
      assert x.start <= s.hist.clock;
    }
    assert Clocked(s1, t.now) && Pending(s1);
    PollKeeps(s1, t.now, h);
    PollClock(s1, t.now, h);
  }

  lemma PollClock(s: Engine, now: nat, h: Handler)
    requires Shape(s)
    ensures Poll(s, now, h).hist.clock == now
  {
    hide Drain, TransmitIfDue;
  }

  lemma FirstTurn(my: byte, turnaround: nat, byteTime: nat, t: Turn, h: Handler)
    requires Timely(Start(my, turnaround, byteTime), t)
    ensures Inv(Take(Start(my, turnaround, byteTime), t, h), t.now)
    ensures Take(Start(my, turnaround, byteTime), t, h).hist.clock == t.now
  {
    hide Poll;
    var s1 := Start(my, turnaround, byteTime).(rx := [] + t.due);
    assert Offered(s1) == t.due;
    assert Inv(s1, t.now);
    PollKeeps(s1, t.now, h);
    PollClock(s1, t.now, h);
  }

  lemma {:induction false} RunKeeps(my: byte, turnaround: nat, byteTime: nat, turns: seq<Turn>, h: Handler)
    requires AllTimely(Start(my, turnaround, byteTime), turns, h) && turns != []
    ensures var s := Run(Start(my, turnaround, byteTime), turns, h);
      s.hist.clock == turns[|turns| - 1].now && Inv(s, s.hist.clock)
  {
    hide Inv, Take, Timely;
    var start, last := Start(my, turnaround, byteTime), |turns| - 1;
    if last == 0 {
      assert turns[..0] == [];
      FirstTurn(my, turnaround, byteTime, turns[0], h);
    } else {
      RunKeeps(my, turnaround, byteTime, turns[..last], h);
      TurnKeeps(Run(start, turns[..last], h), turns[last], h);
    }
  }

  // ---------------------------------------------------------------- what a run shows

  /**
   * Every frame the deframer delivers or discards ends in exactly one counter, or is still held; a replay calls nobody.
   */
  lemma EveryFrameAccounted(my: byte, turnaround: nat, byteTime: nat, turns: seq<Turn>, h: Handler)
    requires AllTimely(Start(my, turnaround, byteTime), turns, h) && turns != []
    ensures var s := Run(Start(my, turnaround, byteTime), turns, h);
      && Consumed(s.counts) == s.stats.transactions + s.stats.replays + s.stats.discards + |s.held|
      && s.stats.transactions == Tally(s.hist.served, Answered) && s.stats.replays == Tally(s.hist.served, Replayed)
      && s.calls == Tally(s.hist.served, Answered) + Tally(s.hist.served, Overlong)
  {
    hide Run, AllTimely, Order, Clocked, Replies, Pending, Tally;
    RunKeeps(my, turnaround, byteTime, turns, h);
  }

  function Frames(rs: seq<Request>): seq<Fields> {
    if rs == [] then [] else Frames(rs[..|rs| - 1]) + [rs[|rs| - 1].frame]
  }

  lemma {:induction false} HeardIsBatch(read: seq<Rx>, byteTime: nat)
    ensures Frames(Heard(read, byteTime).1) == FramesOf(Batch(Values(read)))
    ensures Heard(read, byteTime).0 == Feeds(IDLE, Values(read)).0
  {
    hide Check, Batch, Feed, FramesOf, Frames;
    FeedingIsBatchDecoding(Values(read));
    NoFrames();
    if read != [] {
      var n := |read| - 1;
      var v, b := Values(read[..n]), read[n].value;
      HeardIsBatch(read[..n], byteTime);
      FeedingIsBatchDecoding(v);
      assert Values(read) == v + [b];
      FeedsAppend(IDLE, v, [b]);
      var (d, before) := Feeds(IDLE, v);
      OneFeed(d, b);
      var events := Feed(d, b).1;
      FramesJoin(before, events);
      OneEvent(events);
      if FrameIn(events).Some? {
        FramesNext(Heard(read[..n], byteTime).1, Request(FrameIn(events).value, read[n].start + byteTime));
      }
    }
  }

  lemma NoFrames()
    ensures Frames([]) == [] && FramesOf([]) == []
  {
  }

  lemma FramesNext(rs: seq<Request>, r: Request)
    ensures Frames(rs + [r]) == Frames(rs) + [r.frame]
  {
    assert (rs + [r])[..|rs|] == rs;
  }

  lemma OneFeed(d: Frame.State, b: byte)
    requires StateOk(d)
    ensures Feeds(d, [b]) == Feed(d, b)
  {
    hide Check, Feed;
    assert [b][1..] == [];
    assert Feed(d, b).1 + [] == Feed(d, b).1;
  }

  /** The arrived frames, of which the kept ones are those served, in the same order, then those held. */
  lemma ArrivalOrder(my: byte, turnaround: nat, byteTime: nat, turns: seq<Turn>, h: Handler)
    requires AllTimely(Start(my, turnaround, byteTime), turns, h) && turns != []
    ensures var s := Run(Start(my, turnaround, byteTime), turns, h);
      && Frames(Requests(s.hist.arrived)) == FramesOf(Batch(Values(s.hist.read)))
      && Kept(s.my, s.hist.arrived) == Taken(s.hist.served) + s.held
  {
    hide Run, AllTimely, Books, Clocked, Replies, Pending, Heard, Frames, FramesOf, Requests, Kept, Taken, Batch;
    RunKeeps(my, turnaround, byteTime, turns, h);
    var s := Run(Start(my, turnaround, byteTime), turns, h);
    HeardIsBatch(s.hist.read, s.byteTime);
  }

  /**
   * No two transmissions overlap, and each is in its window or counted late; a late one first looked for the wire at
   * its origin, after the window, and went out after silence or at the cap counted from there.
   */
  lemma RepliesAreTimely(my: byte, turnaround: nat, byteTime: nat, turns: seq<Turn>, h: Handler)
    requires AllTimely(Start(my, turnaround, byteTime), turns, h) && turns != []
    ensures var s := Run(Start(my, turnaround, byteTime), turns, h); var rs := s.hist.replies;
      && (forall i, j :: 0 <= i < j < |rs| ==> rs[i].end <= rs[j].start)
      && s.stats.late == CountLate(rs)
      && forall r :: r in rs ==>
        && Answers(s.my, r.request.frame, r.response)
        && r.request.end + T_TURN_MIN <= r.start
        && (r.late <==> r.start > r.request.end + T_TURN_MAX)
        && (r.late ==> r.request.end + T_TURN_MAX < r.origin <= r.start)
        && (r.late ==> AfterGap(r, Offered(s), s.byteTime) || r.start >= r.origin + MaxFrame(s.byteTime) + T_GAP)
  {
    hide Run, AllTimely, Books, Order, Clocked, Pending, Answers, AfterGap;
    RunKeeps(my, turnaround, byteTime, turns, h);
    var s := Run(Start(my, turnaround, byteTime), turns, h);
    assert T_TURN_MIN <= s.turnaround;
  }

  // ---------------------------------------------------------------- a due response goes out

  lemma TransmitAddsReplies(s: Engine, now: nat, drained: bool)
    requires Shape(s)
    ensures s.hist.replies <= TransmitIfDue(s, now, drained).hist.replies
  {
    hide Encode, Want;
  }

  lemma ServeAddsNoReply(s: Engine, r: Request, h: Handler)
    requires Shape(s)
    ensures OnRequest(s, r, h).hist.replies == s.hist.replies
  {
    hide Encode, Acceptable, IsReplay;
  }

  lemma TakeAddsNoReply(s: Engine, h: Handler)
    requires Shape(s) && s.rx != []
    ensures TakeByte(s, h).hist.replies == s.hist.replies
  {
    hide Encode, Feed, Counted, Acceptable, OnRequest;
    var f := FrameIn(Feed(s.deframer, s.rx[0].value).1);
    if f.Some? {
      var r := Request(f.value, s.rx[0].start + s.byteTime);
      ServeAddsNoReply(Arrive(Fed(s), r), r, h);
    }
  }

  /** The transcript only grows. */
  lemma {:induction false} DrainAddsReplies(s: Engine, now: nat, h: Handler)
    requires Shape(s)
    ensures TransmitIfDue(s, now, false).hist.replies <= Drain(s, now, h).hist.replies
    ensures s.hist.replies <= Drain(s, now, h).hist.replies
    decreases |s.rx|, |s.held|
  {
    hide TransmitIfDue, OnRequest, TakeByte;
    TransmitAddsReplies(s, now, false);
    var s1 := TransmitIfDue(s, now, false);
    if s1.phase == Listening && s1.held != [] {
      var s2 := s1.(held := s1.held[1..]);
      ServeAddsNoReply(s2, s1.held[0], h);
      DrainAddsReplies(OnRequest(s2, s1.held[0], h), now, h);
    } else if s1.phase != Listening && !PastWindow(s1, now) {
    } else if s1.rx == [] {
    } else {
      TakeAddsNoReply(s1, h);
      DrainAddsReplies(TakeByte(s1, h), now, h);
    }
  }

  lemma TakeAddsReplies(s: Engine, t: Turn, h: Handler)
    requires Shape(s)
    ensures Drain(s.(rx := s.rx + t.due), t.now, h).hist.replies <= Take(s, t, h).hist.replies
    ensures s.hist.replies <= Take(s, t, h).hist.replies
  {
    hide TransmitIfDue, Drain;
    var s1 := s.(rx := s.rx + t.due);
    DrainAddsReplies(s1, t.now, h);
    TransmitAddsReplies(Drain(s1, t.now, h), t.now, true);
  }

  /** Inside its window a due response is sent by the first poll that finds it due, ahead of every byte. */
  lemma DueInWindowIsSent(s: Engine, t: Turn, h: Handler)
    requires Shape(s) && s.phase == Scheduled && s.deadline <= t.now <= s.requestEnd + T_TURN_MAX
    ensures s.hist.replies + [Sent(s, t.now)] <= Take(s, t, h).hist.replies
  {
    hide Encode, Poll, Drain;
    var s1 := s.(rx := s.rx + t.due);
    var s2 := TransmitIfDue(s1, t.now, false);
    assert s2.hist.replies == s.hist.replies + [Sent(s, t.now)];
    DrainAddsReplies(s1, t.now, h);
    TakeAddsReplies(s, t, h);
  }

  /** A late response that is still waiting for the wire, since no later than `since`. */
  predicate Waiting(s: Engine, s0: Engine, since: nat) {
    && s.phase == Scheduled && s.requestEnd == s0.requestEnd && s.deadline == s0.deadline && s.buffer == s0.buffer
    && s.byteTime == s0.byteTime && s.hist.replies == s0.hist.replies
    && s.origin.Some? && s.origin.value <= since
  }

  /** While it waits, reading changes neither the response nor its origin. */
  lemma {:induction false} DrainWaits(s: Engine, now: nat, h: Handler)
    requires Shape(s) && PastWindow(s, now)
    ensures var s' := Drain(s, now, h);
      && s'.phase == Scheduled && s'.requestEnd == s.requestEnd && s'.deadline == s.deadline && s'.buffer == s.buffer
      && s'.byteTime == s.byteTime && s'.hist.replies == s.hist.replies && s'.origin == s.origin
    decreases |s.rx|, |s.held|
  {
    hide Encode, Feed, Counted, Acceptable, IsReplay, OnRequest, Send;
    assert TransmitIfDue(s, now, false) == s;
    if s.rx != [] {
      DrainWaits(TakeByte(s, h), now, h);
    }
  }

  lemma PollWaits(s: Engine, t: Turn, h: Handler)
    requires Shape(s) && PastWindow(s, t.now) && s.deadline <= t.now
    ensures var s' := Take(s, t, h);
      && (|s'.hist.replies| == |s.hist.replies| + 1 || Waiting(s', s, Origin(s, t.now)))
      && (s.origin.Some? && t.now >= Cap(s, t.now) ==> |s'.hist.replies| == |s.hist.replies| + 1)
  {
    hide Encode, Drain;
    DrainWaits(s.(rx := s.rx + t.due), t.now, h);
  }

  /**
   * A response already late at the first of these polls has been sent by the end of the last, once that
   * comes a worst-case frame and T_gap later, whatever the other stations put on the wire.
   */
  lemma {:induction false} LateResponseIsSent(s: Engine, turns: seq<Turn>, h: Handler)
    requires Shape(s) && |turns| >= 2 && s.phase == Scheduled && s.deadline <= s.requestEnd + T_TURN_MAX
    requires forall t :: t in turns ==> t.now > s.requestEnd + T_TURN_MAX
    requires Origin(s, turns[0].now) <= turns[0].now
    requires turns[|turns| - 1].now >= turns[0].now + MaxFrame(s.byteTime) + T_GAP
    ensures |Run(s, turns, h).hist.replies| > |s.hist.replies|
  {
    hide Take;
    var n := |turns| - 1;
    RunWaits(s, turns[..n], h);
    var s1 := Run(s, turns[..n], h);
    assert turns[..n][0] == turns[0];
    if Waiting(s1, s, turns[0].now) {
      PollWaits(s1, turns[n], h);
    } else {
      TakeAddsReplies(s1, turns[n], h);
    }
  }

  lemma {:induction false} RunWaits(s: Engine, turns: seq<Turn>, h: Handler)
    requires Shape(s) && turns != [] && s.phase == Scheduled && s.deadline <= s.requestEnd + T_TURN_MAX
    requires forall t :: t in turns ==> t.now > s.requestEnd + T_TURN_MAX
    requires Origin(s, turns[0].now) <= turns[0].now
    ensures var s' := Run(s, turns, h);
      |s'.hist.replies| > |s.hist.replies| || Waiting(s', s, turns[0].now)
  {
    hide Take;
    var n := |turns| - 1;
    var s1 := Run(s, turns[..n], h);
    if n == 0 {
      assert turns[..0] == [];
      PollWaits(s, turns[0], h);
    } else {
      RunWaits(s, turns[..n], h);
      assert turns[..n][0] == turns[0];
      if Waiting(s1, s, turns[0].now) {
        PollWaits(s1, turns[n], h);
      } else {
        TakeAddsReplies(s1, turns[n], h);
      }
    }
  }
}
