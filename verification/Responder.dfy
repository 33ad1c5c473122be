/** The node side of a trunk transaction, as functions from one engine value to the next. */
module Responder {
  import opened Protocol
  import opened Frame
  import opened Wire

  const HELD_REQUESTS: nat := 2

  /** What a RequestHandler returns on its n-th call (counted from 0); more than 64 bytes breaks its contract. */
  type Handler = (nat, seq<byte>) -> seq<byte>

  datatype Phase = Listening | Scheduled | Transmitting

  /** An intact frame and the instant its last byte ended. */
  datatype Request = Request(frame: Fields, end: nat)

  datatype Stats = Stats(transactions: nat, replays: nat, discards: nat, late: nat)

  datatype Verdict = Refused | Replayed | Overlong | Answered

  datatype Served = Served(request: Request, verdict: Verdict)

  /** A frame as it arrived: whether a response was still pending, and how many frames had been put to on_request. */
  datatype Arrival = Arrival(request: Request, busy: bool, after: nat)

  /** One response put on the wire: to which request, what, when, and for a late one since when it waited. */
  datatype Reply = Reply(request: Request, response: Fields, start: nat, end: nat, late: bool, origin: nat)

  /** What an observer has seen; the engine never reads it. */
  datatype History = History(
    clock: int,              // the last poll
    read: seq<Rx>,           // every byte taken off the wire
    arrived: seq<Arrival>,   // every frame those bytes delivered
    served: seq<Served>,     // every frame put to on_request
    replies: seq<Reply>)

  datatype Engine = Engine(
    my: byte,
    turnaround: nat,
    byteTime: nat,
    deframer: Frame.State,
    counts: DeframerStats,
    buffer: Option<Fields>, // the response last encoded
    phase: Phase,
    requestEnd: nat,
    deadline: nat,
    txUntil: nat,
    activity: Option<nat>,  // end of the last byte read
    origin: Option<nat>,    // when a late response first found the bus busy
    held: seq<Request>,
    stats: Stats,
    calls: nat,             // handler invocations
    rx: seq<Rx>,            // on the wire, unread
    hist: History)

  function ClampTurnaround(t: nat): nat {
    if t < T_TURN_MIN then T_TURN_MIN else if t > T_TURN_MAX then T_TURN_MAX else t
  }

  function Start(my: byte, turnaround: nat, byteTime: nat): Engine {
    Engine(my, ClampTurnaround(turnaround), byteTime, IDLE, DeframerStats(0, 0, 0, 0, 0, 0), None,
          Listening, 0, 0, 0, None, None, [], Stats(0, 0, 0, 0), 0, [], History(-1, [], [], [], []))
  }

  predicate Shape(s: Engine) {
    && StateOk(s.deframer)
    && |s.held| <= HELD_REQUESTS
    && (s.buffer.Some? ==> Encodable(s.buffer.value))
    && (s.phase == Scheduled ==> s.buffer.Some? && s.hist.served != [])
    && T_TURN_MIN <= s.turnaround <= T_TURN_MAX
  }

  lemma BufferFits(s: Engine, resp: Fields)
    requires Shape(s) && Encodable(resp)
    ensures Shape(s.(buffer := Some(resp)))
  {
  }

  predicate Acceptable(s: Engine, f: Fields) {
    f.dst == s.my && !f.response && f.src != s.my && f.src < ADDR_COUNT && s.my < ADDR_COUNT
  }

  predicate IsReplay(s: Engine, f: Fields) {
    f.retry && s.buffer.Some? && f.seqNo == s.buffer.value.seqNo && f.src == s.buffer.value.dst
  }

  function Note(s: Engine, r: Request, v: Verdict): Engine {
    s.(hist := s.hist.(served := s.hist.served + [Served(r, v)]))
  }

  function CountDiscard(s: Engine): Engine {
    s.(stats := s.stats.(discards := s.stats.discards + 1))
  }

  function Schedule(s: Engine, end: nat): Engine {
    s.(phase := Scheduled, requestEnd := end, deadline := end + s.turnaround)
  }

  function OnRequest(s: Engine, r: Request, h: Handler): (s': Engine)
    requires Shape(s)
    ensures Shape(s') && s'.rx == s.rx && s'.held == s.held
  {
    var f := r.frame;
    if !Acceptable(s, f) then CountDiscard(Note(s, r, Refused))
    else if IsReplay(s, f) then
      Schedule(Note(s, r, Replayed).(stats := s.stats.(replays := s.stats.replays + 1)), r.end)
    else
      var payload := h(s.calls, f.payload);
      var s1 := s.(calls := s.calls + 1);
      if |payload| > MAX_L3_MESSAGE then CountDiscard(Note(s1, r, Overlong))
      else
        Schedule(Note(s1, r, Answered).(
          buffer := Some(Fields(f.src, s.my, true, f.retry, f.seqNo, payload)),
          stats := s.stats.(transactions := s.stats.transactions + 1)), r.end)
  }

  function HoldOrDiscard(s: Engine, r: Request): (s': Engine)
    requires Shape(s)
    ensures Shape(s') && s'.rx == s.rx
  {
    if !Acceptable(s, r.frame) || |s.held| >= HELD_REQUESTS then CountDiscard(Arrive(s, r))
    else Arrive(s, r).(held := s.held + [r])
  }

  function Arrive(s: Engine, r: Request): Engine {
    s.(hist := s.hist.(arrived := s.hist.arrived + [Arrival(r, s.phase != Listening, |s.hist.served|)]))
  }

  predicate PastWindow(s: Engine, now: nat) {
    s.phase == Scheduled && now > s.requestEnd + T_TURN_MAX
  }

  function Finished(s: Engine, now: nat): Engine {
    if s.phase == Transmitting && now >= s.txUntil then s.(phase := Listening) else s
  }

  /** The instant a late response first looked for the wire. */
  function Origin(s: Engine, now: nat): nat {
    if s.origin.Some? then s.origin.value else now
  }

  function Cap(s: Engine, now: nat): nat {
    Origin(s, now) + MaxFrame(s.byteTime) + T_GAP
  }

  function Want(s: Engine, now: nat): nat {
    var want := if s.activity.Some? then s.activity.value + T_GAP else now;
    if want > Cap(s, now) then Cap(s, now) else want
  }

  /** The reply that sending now puts on the wire. */
  function Sent(s: Engine, now: nat): Reply
    requires Shape(s) && s.phase == Scheduled
  {
    Reply(s.hist.served[|s.hist.served| - 1].request, s.buffer.value, now,
          now + |Encode(s.buffer.value)| * s.byteTime, PastWindow(s, now), Origin(s, now))
  }

  function Send(s: Engine, now: nat): (s': Engine)
    requires Shape(s) && s.phase == Scheduled
    ensures Shape(s')
  {
    s.(phase := Transmitting, txUntil := Sent(s, now).end, origin := None,
       stats := if PastWindow(s, now) then s.stats.(late := s.stats.late + 1) else s.stats,
       hist := s.hist.(replies := s.hist.replies + [Sent(s, now)]))
  }

  function TransmitIfDue(s: Engine, now: nat, drained: bool): (s': Engine)
    requires Shape(s)
    ensures Shape(s') && s'.rx == s.rx && s'.held == s.held
  {
    var s1 := Finished(s, now);
    if s1.phase != Scheduled || now < s1.deadline then s1
    else if !PastWindow(s1, now) then Send(s1, now)
    else if !drained then s1
    else if now < Want(s1, now) then s1.(origin := Some(Origin(s1, now)))
    else Send(s1, now)
  }

  /** One byte off the wire, then whatever it completes. */
  function TakeByte(s: Engine, h: Handler): (s': Engine)
    requires Shape(s) && s.rx != []
    ensures Shape(s') && s'.rx == s.rx[1..]
  {
    var b := s.rx[0];
    var (d, events) := Feed(s.deframer, b.value);
    var s1 := s.(rx := s.rx[1..], activity := Some(b.start + s.byteTime), deframer := d,
                 counts := Counted(s.counts, events), hist := s.hist.(read := s.hist.read + [b]));
    match FrameIn(events)
    case Some(f) =>
      var r := Request(f, b.start + s.byteTime);
      if s.phase == Listening then OnRequest(Arrive(s1, r), r, h) else HoldOrDiscard(s1, r)
    case None => if events != [] then CountDiscard(s1) else s1
  }

  /** The drain loop of poll. */
  function Drain(s: Engine, now: nat, h: Handler): (s': Engine)
    requires Shape(s)
    ensures Shape(s')
    decreases |s.rx|, |s.held|
  {
    var s1 := TransmitIfDue(s, now, false);
    if s1.phase == Listening && s1.held != [] then
      Drain(OnRequest(s1.(held := s1.held[1..]), s1.held[0], h), now, h)
    else if s1.phase != Listening && !PastWindow(s1, now) then s1
    else if s1.rx == [] then s1
    else Drain(TakeByte(s1, h), now, h)
  }

  function Poll(s: Engine, now: nat, h: Handler): (s': Engine)
    requires Shape(s)
    ensures Shape(s')
  {
    var s1 := Drain(s, now, h);
    var s2 := TransmitIfDue(s1, now, true);
    s2.(hist := s2.hist.(clock := now))
  }

  // ---------------------------------------------------------------- runs

  /** The bytes that became due since the last poll, and the instant of this one. */
  datatype Turn = Turn(due: seq<Rx>, now: nat)

  predicate Timely(s: Engine, t: Turn) {
    && t.now >= s.hist.clock
    && InOrder(t.due)
    && (forall b :: b in t.due ==> s.hist.clock < b.start <= t.now)
  }

  function Take(s: Engine, t: Turn, h: Handler): (s': Engine)
    requires Shape(s)
    ensures Shape(s')
  {
    Poll(s.(rx := s.rx + t.due), t.now, h)
  }

  function Run(s: Engine, turns: seq<Turn>, h: Handler): (s': Engine)
    requires Shape(s)
    ensures Shape(s')
  {
    if turns == [] then s else Take(Run(s, turns[..|turns| - 1], h), turns[|turns| - 1], h)
  }

  predicate AllTimely(s: Engine, turns: seq<Turn>, h: Handler)
    requires Shape(s)
  {
    turns == [] ||
    (AllTimely(s, turns[..|turns| - 1], h) && Timely(Run(s, turns[..|turns| - 1], h), turns[|turns| - 1]))
  }
}
