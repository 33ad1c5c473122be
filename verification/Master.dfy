/** The host side of a trunk transaction, as functions from one engine value to the next, at a constant bit rate. */
module Master {
  import opened Protocol
  import opened Frame
  import opened Wire

  datatype SubPhase = AwaitResponse | PendingTransmit

  datatype Reason = Timeout | CrcFailed

  datatype Outcome = Quiet | Answer(response: Fields) | Failed(reason: Reason)

  datatype AddrStats = AddrStats(transactions: nat, retries: nat, timeouts: nat, crcFailures: nat, discards: nat)

  /** An accepted transaction, its outcome if it has one, and its attempts, as an observer would log them. */
  datatype Begun = Begun(dst: byte, seqNo: byte, payload: seq<byte>, at: nat)

  datatype Conclusion = Conclusion(dst: byte, outcome: Outcome, at: nat)

  datatype Attempt = Attempt(txn: nat, frame: Fields, start: nat, end: nat, origin: nat)

  datatype History = History(
    clock: int,                   // the last call to begin or poll
    driven: int,                  // the last one that begin did not refuse
    read: seq<Rx>,
    begun: seq<Begun>,
    concluded: seq<Conclusion>,   // the i-th is the outcome of the i-th transaction
    sent: seq<Attempt>)

  datatype Engine = Engine(
    host: byte,
    byteTime: nat,
    deframer: Frame.State,
    counts: DeframerStats,
    lastRx: nat,
    respOpen: nat,
    nextSeq: seq<byte>,
    open: bool,
    phase: SubPhase,
    dst: byte,
    seqNo: byte,
    attempts: nat,
    payload: seq<byte>,
    deadline: nat,
    deferOrigin: nat,
    windowStart: nat,
    activity: Option<nat>,
    stats: seq<AddrStats>,
    busDiscards: nat,
    rx: seq<Rx>,
    hist: History)

  function Start(host: byte, byteTime: nat): Engine {
    Engine(host, byteTime, IDLE, DeframerStats(0, 0, 0, 0, 0, 0), 0, 0, seq(ADDR_COUNT, i => 0),
           false, AwaitResponse, 0, 0, 0, [], 0, 0, 0, None,
           seq(ADDR_COUNT, i => AddrStats(0, 0, 0, 0, 0)), 0, [], History(-1, -1, [], [], [], []))
  }

  predicate Shape(s: Engine) {
    && StateOk(s.deframer)
    && |s.nextSeq| == ADDR_COUNT && |s.stats| == ADDR_COUNT
    && (forall a :: 0 <= a < ADDR_COUNT ==> s.nextSeq[a] < 16)
    && s.dst < ADDR_COUNT && s.seqNo < 16 && |s.payload| <= MAX_L3_MESSAGE
    && (s.open ==> s.hist.begun != [])
  }

  predicate Awaiting(s: Engine) {
    s.open && s.phase == AwaitResponse
  }

  /** Activity only ever moves forward. */
  function Later(activity: Option<nat>, t: nat): Option<nat> {
    if activity.Some? && activity.value > t then activity else Some(t)
  }

  function Request(s: Engine): Fields {
    Fields(s.dst, s.host, false, s.attempts > 0, s.seqNo, s.payload)
  }

  function Charge(s: Engine, a: AddrStats): Engine
    requires Shape(s)
  {
    s.(stats := s.stats[s.dst := a])
  }

  function DoTransmit(s: Engine, at: nat): (s': Engine)
    requires Shape(s) && s.open
    ensures Shape(s') && s'.rx == s.rx
  {
    var end := at + |Encode(Request(s))| * s.byteTime;
    var a := s.stats[s.dst];
    Charge(s, if s.attempts == 0 then a.(transactions := a.transactions + 1) else a.(retries := a.retries + 1)).(
      attempts := s.attempts + 1, phase := AwaitResponse, windowStart := end, deadline := end + T_RESP,
      hist := s.hist.(sent := s.hist.sent + [Attempt(|s.hist.begun| - 1, Request(s), at, end, s.deferOrigin)]))
  }

  function InFrameNow(s: Engine): bool {
    s.deframer.mode != Hunting
  }

  /** A frame is still arriving: open, at byte cadence, and younger than the longest frame. */
  predicate FrameArriving(s: Engine, now: nat) {
    InFrameNow(s) && now <= s.lastRx + s.byteTime && now <= s.respOpen + MaxFrame(s.byteTime)
  }

  function Cap(s: Engine): nat {
    s.deferOrigin + MaxFrame(s.byteTime) + T_GAP
  }

  /** The deferred instant, pushed out by what has been heard since, but never past the cap. */
  function Want(s: Engine): nat {
    var want := if s.activity.Some? && s.activity.value + T_GAP > s.deadline then s.activity.value + T_GAP
      else s.deadline;
    if want > Cap(s) then Cap(s) else want
  }

  function FirePending(s: Engine, now: nat): (s': Engine)
    requires Shape(s)
    ensures Shape(s') && s'.rx == s.rx
  {
    if !(s.open && s.phase == PendingTransmit) then s
    else
      var s1 := s.(deadline := Want(s));
      if now >= s1.deadline then DoTransmit(s1, now) else s1
  }

  function Conclude(s: Engine, o: Outcome): Engine {
    s.(open := false, hist := s.hist.(concluded := s.hist.concluded + [Conclusion(s.dst, o, Now(s))]))
  }

  /** The instant of the call in progress. */
  function Now(s: Engine): nat {
    if s.hist.clock < 0 then 0 else s.hist.clock
  }

  function EndAttempt(s: Engine, at: nat, reason: Reason): (r: (Engine, Outcome))
    requires Shape(s)
    ensures Shape(r.0) && r.0.rx == s.rx
  {
    var a := s.stats[s.dst];
    var s1 := Charge(s, if reason == Timeout then a.(timeouts := a.timeouts + 1)
      else a.(crcFailures := a.crcFailures + 1));
    var act := Later(s.activity, at);
    var s2 := s1.(activity := act);
    if s.attempts < 1 + RETRIES then
      (s2.(phase := PendingTransmit, deadline := act.value + T_GAP, deferOrigin := act.value + T_GAP), Quiet)
    else (Conclude(s2, Failed(reason)), Failed(reason))
  }

  /** The response this attempt is waiting for, openedAt in its window. */
  predicate Accepts(s: Engine, f: Fields, openedAt: nat) {
    && Awaiting(s) && f.response && f.src == s.dst && f.dst == s.host && f.seqNo == s.seqNo
    && s.windowStart <= openedAt < s.deadline
  }

  /** The byte recorded and fed. */
  function Hear(s: Engine, b: Rx): (s': Engine)
    requires Shape(s)
    ensures Shape(s')
  {
    var (d, events) := Feed(s.deframer, b.value);
    var end := b.start + s.byteTime;
    s.(deframer := d, counts := Counted(s.counts, events), lastRx := end, activity := Later(s.activity, end),
       respOpen := if b.value == FLAG then b.start else s.respOpen,
       hist := s.hist.(read := s.hist.read + [b]))
  }

  function CountBus(s: Engine): Engine {
    s.(busDiscards := s.busDiscards + 1)
  }

  /** What a byte's event means; `openedAt` is the FLAG that openedAt the frame it closes. */
  function Digest(s: Engine, ev: Outcome, events: seq<Event>, openedAt: nat): (r: (Engine, Outcome))
    requires Shape(s)
    ensures Shape(r.0) && r.0.rx == s.rx
  {
    if events == [Discarded(BadCrc)] then
      if Awaiting(s) && s.windowStart <= openedAt < s.deadline then EndAttempt(s, s.lastRx, CrcFailed)
      else (CountBus(s), ev)
    else match FrameIn(events)
      case None => (s, ev)
      case Some(f) =>
        if Accepts(s, f, openedAt) then (Conclude(s, Answer(f)), Answer(f))
        else if Awaiting(s) then
          (Charge(s, s.stats[s.dst].(discards := s.stats[s.dst].discards + 1)), ev)
        else (CountBus(s), ev)
  }

  function TakeByte(s: Engine, ev: Outcome): (r: (Engine, Outcome))
    requires Shape(s) && s.rx != []
    ensures Shape(r.0) && r.0.rx == s.rx[1..]
  {
    var b := s.rx[0];
    Digest(Hear(s, b).(rx := s.rx[1..]), ev, Feed(s.deframer, b.value).1, s.respOpen)
  }

  /** Every byte due, in order. */
  function DrainWire(s: Engine, ev: Outcome): (r: (Engine, Outcome))
    requires Shape(s)
    ensures Shape(r.0) && r.0.rx == []
    decreases |s.rx|
  {
    if s.rx == [] then (s, ev)
    else
      var (s1, ev1) := TakeByte(s, ev);
      DrainWire(s1, ev1)
  }

  function At(s: Engine, now: nat): Engine {
    s.(hist := s.hist.(clock := now, driven := now))
  }

  /** A refused begin changes nothing. */
  function Refused(s: Engine, now: nat): Engine {
    s.(hist := s.hist.(clock := now))
  }

  function Poll(s: Engine, now: nat): (r: (Engine, Outcome))
    requires Shape(s)
    ensures Shape(r.0) && r.0.rx == []
  {
    var (s1, ev) := DrainWire(At(s, now), Quiet);
    var pending := FrameArriving(s1, now) && s1.windowStart <= s1.respOpen < s1.deadline;
    var (s2, ev2) :=
      if Awaiting(s1) && now >= s1.deadline && !pending then EndAttempt(s1, s1.deadline, Timeout) else (s1, ev);
    (FirePending(s2, now), ev2)
  }

  /** begin's new transaction, before it is considered for the wire. */
  function Open(s: Engine, dst: byte, payload: seq<byte>, now: nat): (s': Engine)
    requires Shape(s) && dst < ADDR_COUNT && |payload| <= MAX_L3_MESSAGE
    ensures Shape(s') && s'.rx == s.rx
  {
    var at := if s.activity.Some? then s.activity.value + T_GAP else now;
    s.(dst := dst, seqNo := s.nextSeq[dst], nextSeq := s.nextSeq[dst := (s.nextSeq[dst] + 1) % 16],
       payload := payload, attempts := 0, open := true, phase := PendingTransmit, deadline := at, deferOrigin := at,
       hist := s.hist.(begun := s.hist.begun + [Begun(dst, s.nextSeq[dst], payload, now)]))
  }

  function Begin(s: Engine, dst: byte, payload: seq<byte>, now: nat): (r: (Engine, Status))
    requires Shape(s)
    ensures Shape(r.0)
  {
    if s.open then (Refused(s, now), Busy)
    else if |payload| > MAX_L3_MESSAGE then (Refused(s, now), PayloadTooLong)
    else if dst >= ADDR_COUNT then (Refused(s, now), ReservedAddress)
    else
      var s1 := DrainWire(At(s, now), Quiet).0;
      (FirePending(Open(s1, dst, payload, now), now), Ok)
  }

  // ---------------------------------------------------------------- runs

  datatype Call = DoPoll(due: seq<Rx>, now: nat) | DoBegin(due: seq<Rx>, now: nat, dst: byte, payload: seq<byte>)

  function Step(s: Engine, c: Call): (s': Engine)
    requires Shape(s)
    ensures Shape(s')
  {
    var s1 := s.(rx := s.rx + c.due);
    match c
    case DoPoll(_, now) => Poll(s1, now).0
    case DoBegin(_, now, dst, payload) => Begin(s1, dst, payload, now).0
  }

  function Run(s: Engine, calls: seq<Call>): (s': Engine)
    requires Shape(s)
    ensures Shape(s')
  {
    if calls == [] then s else Step(Run(s, calls[..|calls| - 1]), calls[|calls| - 1])
  }
}
