/** The node-health and bus-fault rules of the trunk, as functions from one tracker value to the next. */
module Health {
  import opened Protocol

  datatype HealthState = Unenrolled | Enrolled | Suspect | Offline

  datatype Record = Record(
    state: HealthState,
    failures: nat,      // consecutive_failures
    suspectSince: nat,
    lastPoll: nat,
    probeIssued: nat)

  // Per-address bitmaps are sets of addresses.
  datatype Bus = Bus(
    bitRate: nat,
    fault: bool,
    nextProbeFallback: bool,
    fallbackAnswerer: byte,
    fallbackSeen: set<byte>,
    refPassLeft: nat,
    passAddr: byte,
    passNext: byte,
    wireRate: nat,
    probeFallback: set<byte>,
    probeLive: set<byte>,
    probeAcrossClear: set<byte>)

  datatype Stats = Stats(rateChanges: nat, busFaults: nat)

  datatype NoticeKind =
    | ENROLLED | SUSPECT | OFFLINE | RECOVERED
    | BUS_FAULT | ALERT | BUS_RECOVERED

  datatype Notice = Notice(kind: NoticeKind, addr: byte)

  datatype Tracker = Tracker(
    recs: seq<Record>,
    nextProbe: byte,
    bus: Bus,
    stats: Stats,
    log: seq<Notice>) // everything the listener has been told, oldest first

  datatype Probe = Probe(addr: byte, bitRate: nat)

  const US_PER_MS: nat := 1000
  const OFFLINE_THRESHOLD: nat := OFFLINE_AFTER_SUSPECT_MS * US_PER_MS
  const OUTCOME_WINDOW: nat := 2 * MAX_WIRE * ByteTime(BIT_RATE_FALLBACK) + T_RESP
  const SUSPECT_POLL_PERIOD: nat := 10 * T_POLL
  const BUS_ADDR: byte := 0
  const BACKPLANES: nat := ADDR_BACKPLANE_MAX - ADDR_BACKPLANE_MIN + 1

  predicate IsNode(addr: byte) {
    addr != ADDR_HOST && addr < ADDR_COUNT
  }

  predicate InTable(addr: byte) {
    addr < ADDR_COUNT
  }

  /** An earlier `now` counts as no time at all, never as a wrapped difference. */
  function Elapsed(now: nat, since: nat): nat {
    if now >= since then now - since else 0
  }

  /** uint8_t decrement, wrap included. */
  function Dec8(n: nat): nat {
    if n == 0 then 255 else n - 1
  }

  function Left(r: Record): bool {
    r.state != Unenrolled
  }

  /** How many records from `lo` up have left UNENROLLED. */
  function Count(recs: seq<Record>, lo: nat): (n: nat)
    requires lo <= |recs|
    ensures n <= |recs| - lo
    decreases |recs| - lo
  {
    if lo == |recs| then 0 else (if Left(recs[lo]) then 1 else 0) + Count(recs, lo + 1)
  }

  /** A tracker as constructed. */
  function Start(): Tracker {
    Tracker(
      seq(ADDR_COUNT, i => Record(Unenrolled, 0, 0, 0, 0)),
      ADDR_BACKPLANE_MAX,
      Bus(BIT_RATE, false, false, 0, {}, 0, 0, ADDR_BACKPLANE_MIN, BIT_RATE, {}, {}, {}),
      Stats(0, 0),
      [])
  }

  /** The ranges the table and the cursors are declared with; every function below keeps them. */
  predicate Shape(t: Tracker) {
    && |t.recs| == ADDR_COUNT
    && ADDR_BACKPLANE_MIN <= t.nextProbe <= ADDR_BACKPLANE_MAX
    && ADDR_BACKPLANE_MIN <= t.bus.passNext <= ADDR_BACKPLANE_MAX
    && t.bus.passAddr <= ADDR_BACKPLANE_MAX
    && TrunkRate(t.bus.bitRate)
  }

  /** The two rates of trunk section 9. */
  predicate TrunkRate(rate: nat) {
    rate == BIT_RATE || rate == BIT_RATE_FALLBACK
  }

  function Tell(t: Tracker, kind: NoticeKind, addr: byte): Tracker {
    t.(log := t.log + [Notice(kind, addr)])
  }

  function Put(t: Tracker, addr: byte, r: Record): Tracker
    requires addr < |t.recs|
  {
    t.(recs := t.recs[addr := r])
  }

  /** The node transition table alone. */
  function ApplyResult(t: Tracker, addr: byte, ok: bool, now: nat): (t': Tracker)
    requires Shape(t) && addr < ADDR_COUNT
    ensures Shape(t') && t'.bus == t.bus && t'.stats == t.stats
  {
    var r := t.recs[addr];
    match r.state
    case Unenrolled =>
      if ok then Tell(Put(t, addr, r.(state := Enrolled, failures := 0)), ENROLLED, addr) else t
    case Enrolled =>
      if ok then Put(t, addr, r.(failures := 0))
      else if r.failures + 1 >= SUSPECT_AFTER_FAILURES then
        Tell(Put(t, addr, r.(failures := r.failures + 1, state := Suspect, suspectSince := now)), SUSPECT, addr)
      else Put(t, addr, r.(failures := r.failures + 1))
    case Suspect =>
      if ok then Tell(Put(t, addr, r.(state := Enrolled, failures := 0)), RECOVERED, addr)
      else if Elapsed(now, r.suspectSince) >= OFFLINE_THRESHOLD then
        Tell(Put(t, addr, r.(state := Offline)), OFFLINE, addr)
      else t
    case Offline =>
      if ok then Tell(Put(t, addr, r.(state := Enrolled, failures := 0)), RECOVERED, addr) else t
  }

  function NoteWireRate(t: Tracker, rate: nat): Tracker {
    if rate == t.bus.wireRate then t
    else t.(bus := t.bus.(wireRate := rate), stats := t.stats.(rateChanges := t.stats.rateChanges + 1))
  }

  function NoteProbe(t: Tracker, addr: byte, rate: nat, now: nat): (t': Tracker)
    requires Shape(t) && addr < ADDR_COUNT
    ensures Shape(t')
  {
    Put(t, addr, t.recs[addr].(probeIssued := now)).(
      bus := t.bus.(
        probeFallback := if rate == BIT_RATE_FALLBACK then t.bus.probeFallback + {addr}
          else t.bus.probeFallback - {addr},
        probeLive := t.bus.probeLive + {addr},
        probeAcrossClear := t.bus.probeAcrossClear - {addr}))
  }

  predicate AllFailing(recs: seq<Record>) {
    && (exists a :: 0 <= a < |recs| && Left(recs[a]))
    && (forall a :: 0 <= a < |recs| && Left(recs[a]) ==> recs[a].state != Enrolled)
  }

  /** The outstanding probes whose outcome can still arrive. */
  function Answerable(t: Tracker, now: nat): set<byte>
    requires Shape(t)
  {
    set a | a in t.bus.probeLive
      && !(ADDR_BACKPLANE_MIN <= a <= ADDR_BACKPLANE_MAX && Elapsed(now, t.recs[a].probeIssued) > OUTCOME_WINDOW)
  }

  /** Every address at once, or none: what an address with nothing outstanding is read at. */
  function InUseBits(rate: nat): set<byte> {
    if rate == BIT_RATE_FALLBACK then set a: byte | 0 <= a < ADDR_COUNT && InTable(a) else {}
  }

  /** Trunk section 7, the declare rule. */
  function EvaluateDeclare(t: Tracker, now: nat): (t': Tracker)
    requires Shape(t)
    ensures Shape(t')
  {
    if t.bus.fault || !AllFailing(t.recs) then t
    else
      var live := Answerable(t, now);
      var bus := t.bus.(
        fault := true,
        nextProbeFallback := true,
        fallbackAnswerer := 0,
        refPassLeft := 0,
        passAddr := 0,
        passNext := ADDR_BACKPLANE_MIN,
        probeLive := live,
        probeFallback := (t.bus.probeFallback * live) + (InUseBits(t.bus.bitRate) - live));
      Tell(Tell(t.(bus := bus, stats := t.stats.(busFaults := t.stats.busFaults + 1)), BUS_FAULT, BUS_ADDR), ALERT,
        BUS_ADDR)
  }

  /** Every fallback-rate answerer from `a` up takes the transition it was owed. */
  function EnrolAnswerers(t: Tracker, a: nat, now: nat): (t': Tracker)
    requires Shape(t) && a <= ADDR_COUNT
    ensures Shape(t') && t'.bus == t.bus && t'.stats == t.stats
    decreases ADDR_COUNT - a
  {
    if a == ADDR_COUNT then t
    else EnrolAnswerers(if a in t.bus.fallbackSeen then ApplyResult(t, a, true, now) else t, a + 1, now)
  }

  /** The rate in use is decided, and at the fallback rate the answerers are enrolled first. */
  function Cleared(t: Tracker, rate: nat, now: nat): (t': Tracker)
    requires Shape(t) && TrunkRate(rate)
    ensures Shape(t')
  {
    var t1 := NoteWireRate(t.(bus := t.bus.(fault := false, bitRate := rate,
                                probeAcrossClear := t.bus.probeAcrossClear + t.bus.probeLive)), rate);
    if rate == BIT_RATE_FALLBACK then EnrolAnswerers(t1, ADDR_BACKPLANE_MIN, now) else t1
  }

  /** Trunk section 7: the episode ends, at the rate that worked. */
  function ClearFault(t: Tracker, rate: nat, now: nat): (t': Tracker)
    requires Shape(t) && TrunkRate(rate)
    ensures Shape(t')
  {
    var t1 := Cleared(t, rate, now);
    Tell(t1.(bus := t1.bus.(fallbackSeen := {}, fallbackAnswerer := 0, refPassLeft := 0, passAddr := 0)),
         BUS_RECOVERED, BUS_ADDR)
  }

  /** The late outcome of a probe that a clear overtook, at the other rate. */
  predicate LateStranded(t: Tracker, addr: byte, now: nat)
    requires Shape(t) && addr < ADDR_COUNT
  {
    && !t.bus.fault
    && addr in t.bus.probeLive
    && addr in t.bus.probeAcrossClear
    && Elapsed(now, t.recs[addr].probeIssued) <= OUTCOME_WINDOW
    && (addr !in t.bus.probeFallback) != (t.bus.bitRate == BIT_RATE)
  }

  /** A first answer at the fallback rate is recorded and starts the reference pass. */
  function RecordAnswer(t: Tracker, addr: byte): (t': Tracker)
    requires Shape(t)
    ensures Shape(t')
  {
    var bus := t.bus.(fallbackAnswerer := addr, fallbackSeen := t.bus.fallbackSeen + {addr});
    t.(bus := if bus.refPassLeft == 0
              then bus.(refPassLeft := Count(t.recs, 0), passAddr := 0, passNext := ADDR_BACKPLANE_MIN)
              else bus)
  }

  /** The pass probe in flight is accounted for. */
  function SpendPassProbe(t: Tracker): Tracker {
    t.(bus := t.bus.(passAddr := 0, refPassLeft := Dec8(t.bus.refPassLeft)))
  }

  /** The three ways an outcome is read before the pass looks at it. */
  function Read(t: Tracker, addr: byte, ok: bool, now: nat): (t': Tracker)
    requires Shape(t) && IsNode(addr)
    ensures Shape(t')
  {
    var t1 := t.(bus := t.bus.(probeLive := t.bus.probeLive - {addr}));
    if (ok && addr in t.bus.fallbackSeen) || LateStranded(t, addr, now) then t1
    else if t.bus.fault && ok && addr in t.bus.probeFallback then RecordAnswer(t1, addr)
    else ApplyResult(t1, addr, ok, now)
  }

  /** An answer at the reference rate from an address that has not answered at the fallback rate. */
  predicate ReferenceAnswer(t: Tracker, addr: byte, ok: bool) {
    t.bus.fault && ok && addr !in t.bus.probeFallback && addr !in t.bus.fallbackSeen
  }

  /** The pass takes its own probe's outcome, and the episode ends if this was what it waited for. */
  function Settle(t: Tracker, addr: byte, referenceAnswer: bool, now: nat): (t': Tracker)
    requires Shape(t)
    ensures Shape(t')
  {
    var t1 := if t.bus.passAddr == addr then SpendPassProbe(t) else t;
    if referenceAnswer then ClearFault(t1, BIT_RATE, now)
    else if t.bus.passAddr == addr && t1.bus.refPassLeft == 0 then ClearFault(t1, BIT_RATE_FALLBACK, now)
    else t1
  }

  /** One transaction outcome. */
  function OnResult(t: Tracker, addr: byte, ok: bool, now: nat): (t': Tracker)
    requires Shape(t)
    ensures Shape(t')
  {
    if !IsNode(addr) then t
    else EvaluateDeclare(Settle(Read(t, addr, ok, now), addr, ReferenceAnswer(t, addr, ok), now), now)
  }

  /** Every record from `a` up whose SUSPECT time has run out goes OFFLINE. */
  function Age(t: Tracker, a: nat, now: nat): (t': Tracker)
    requires Shape(t) && a <= ADDR_COUNT
    ensures Shape(t') && t'.bus == t.bus && t'.stats == t.stats
    decreases ADDR_COUNT - a
  {
    if a == ADDR_COUNT then t
    else
      var r := t.recs[a];
      Age(if r.state == Suspect && Elapsed(now, r.suspectSince) >= OFFLINE_THRESHOLD
          then Tell(Put(t, a, r.(state := Offline)), OFFLINE, a) else t, a + 1, now)
  }

  function Tick(t: Tracker, now: nat): (t': Tracker)
    requires Shape(t)
    ensures Shape(t')
  {
    EvaluateDeclare(Age(t, 0, now), now)
  }

  predicate PollDue(t: Tracker, addr: byte, now: nat)
    requires Shape(t)
  {
    && IsNode(addr)
    && !t.bus.fault
    && (t.recs[addr].state == Enrolled
        || (t.recs[addr].state == Suspect && Elapsed(now, t.recs[addr].lastPoll) >= SUSPECT_POLL_PERIOD))
  }

  function MarkPolled(t: Tracker, addr: byte, now: nat): (t': Tracker)
    requires Shape(t)
    ensures Shape(t')
  {
    if !IsNode(addr) then t
    else NoteProbe(Put(t, addr, t.recs[addr].(lastPoll := now)), addr, t.bus.bitRate, now)
  }

  function NextBackplane(addr: byte): (b: byte)
    requires ADDR_BACKPLANE_MIN <= addr <= ADDR_BACKPLANE_MAX
    ensures ADDR_BACKPLANE_MIN <= b <= ADDR_BACKPLANE_MAX
  {
    (addr - ADDR_BACKPLANE_MIN + 1) % BACKPLANES + ADDR_BACKPLANE_MIN
  }

  /** The pass cursor's scan, at most `n` addresses long. */
  function PassScan(t: Tracker, n: nat, now: nat): (r: (Tracker, Probe))
    requires Shape(t)
    ensures Shape(r.0) && r.1.bitRate == BIT_RATE
    decreases n
  {
    if n == 0 then (NoteWireRate(t, BIT_RATE), Probe(ADDR_HOST, BIT_RATE))
    else
      var addr := t.bus.passNext;
      var t1 := t.(bus := t.bus.(passNext := NextBackplane(addr)));
      if Left(t.recs[addr]) then
        (NoteProbe(NoteWireRate(t1.(bus := t1.bus.(passAddr := addr)), BIT_RATE), addr, BIT_RATE, now),
          Probe(addr, BIT_RATE))
      else PassScan(t1, n - 1, now)
  }

  function PassProbe(t: Tracker, now: nat): (r: (Tracker, Probe))
    requires Shape(t)
    ensures Shape(r.0) && r.1.bitRate == BIT_RATE
  {
    if t.bus.passAddr != 0 then (NoteWireRate(t, BIT_RATE), Probe(t.bus.passAddr, BIT_RATE))
    else PassScan(t, BACKPLANES, now)
  }

  predicate Candidate(t: Tracker, addr: byte)
    requires addr < |t.recs|
  {
    var s := t.recs[addr].state;
    s == Unenrolled || s == Offline || (t.bus.fault && s == Suspect)
  }

  /** The enrolment rotation's scan, at most `n` addresses long. */
  function Rotate(t: Tracker, n: nat, rate: nat, now: nat): (r: (Tracker, Probe))
    requires Shape(t)
    ensures Shape(r.0) && r.1.bitRate == rate
    decreases n
  {
    if n == 0 then (t, Probe(ADDR_HOST, rate))
    else
      var addr := NextBackplane(t.nextProbe);
      var t1 := t.(nextProbe := addr);
      if Candidate(t1, addr) then (NoteProbe(t1, addr, rate, now), Probe(addr, rate))
      else Rotate(t1, n - 1, rate, now)
  }

  /** A pass probe past its outcome window is written off; the last one ends the episode. */
  function WriteOff(t: Tracker, now: nat): (t': Tracker)
    requires Shape(t)
    ensures Shape(t')
  {
    if t.bus.fault && t.bus.passAddr != 0 && Elapsed(now, t.recs[t.bus.passAddr].probeIssued) > OUTCOME_WINDOW then
      var t1 := SpendPassProbe(t);
      if t1.bus.refPassLeft == 0 then ClearFault(t1, BIT_RATE_FALLBACK, now) else t1
    else t
  }

  /** Outside a pass: the rate the next probe goes out at, alternating while a fault stands. */
  function Alternate(t: Tracker): (r: (Tracker, nat))
    requires Shape(t)
    ensures Shape(r.0) && TrunkRate(r.1)
  {
    var rate := if !t.bus.fault then t.bus.bitRate
                else if t.bus.nextProbeFallback then BIT_RATE_FALLBACK else BIT_RATE;
    var t1 := if t.bus.fault then t.(bus := t.bus.(nextProbeFallback := !t.bus.nextProbeFallback)) else t;
    (NoteWireRate(t1, rate), rate)
  }

  function NextProbe(t: Tracker, now: nat): (r: (Tracker, Probe))
    requires Shape(t)
    ensures Shape(r.0) && TrunkRate(r.1.bitRate)
  {
    var t1 := WriteOff(t, now);
    if t1.bus.fault && t1.bus.refPassLeft > 0 then PassProbe(t1, now)
    else
      var (t2, rate) := Alternate(t1);
      Rotate(t2, BACKPLANES, rate, now)
  }

  function SetBitRate(t: Tracker, bps: nat): (t': Tracker)
    requires Shape(t)
    ensures Shape(t')
  {
    if bps != BIT_RATE && bps != BIT_RATE_FALLBACK then t
    else
      t.(bus := t.bus.(bitRate := bps, wireRate := bps),
         stats := if bps != t.bus.bitRate || bps != t.bus.wireRate
                  then t.stats.(rateChanges := t.stats.rateChanges + 1) else t.stats)
  }
}
