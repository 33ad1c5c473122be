/** One host and one node over a channel that delays and loses frames but neither duplicates nor reorders them. */
module LinkSystem {
  import opened Protocol
  import opened Frame
  import M = Master
  import R = Responder
  import MasterRuns

  /** A request with the transaction it belongs to, or a response with the handler call it reports. */
  datatype Packet = Packet(frame: Fields, id: nat)

  /** One handler call: the transaction whose request it was given, and what it returned. */
  datatype Handled = Handled(txn: nat, result: seq<byte>)

  /** A transaction the master concluded with an answer, and the handler call that answer reports. */
  datatype Accepted = Accepted(txn: nat, call: nat, payload: seq<byte>)

  datatype System = System(
    m: M.Engine,
    r: R.Engine,
    toNode: seq<Packet>,
    toHost: seq<Packet>,
    handled: seq<Handled>,
    accepted: seq<Accepted>)

  datatype Act =
    | Begin(dst: byte, payload: seq<byte>, now: nat)
    | Transmit(now: nat)
    | Expire(at: nat, reason: M.Reason)
    | LoseRequest(i: nat)
    | LoseResponse(i: nat)
    | Deliver(end: nat)
    | Respond(now: nat)
    | Hear(openedAt: nat)
    | Foreign(frame: Fields, openedAt: nat)

  predicate Shape(s: System) {
    M.Shape(s.m) && R.Shape(s.r) && (s.r.buffer.Some? ==> s.handled != [])
  }

  function Without<T>(s: seq<T>, i: nat): seq<T>
    requires i < |s|
  {
    s[..i] + s[i + 1..]
  }

  /** The oldest request reaches a listening node. */
  function DeliverStep(s: System, end: nat, h: R.Handler): (s': System)
    requires Shape(s) && s.toNode != [] && s.r.phase == R.Listening
    ensures Shape(s')
  {
    var p := s.toNode[0];
    var r := R.OnRequest(s.r, R.Request(p.frame, end), h);
    var called := r.calls > s.r.calls;
    s.(r := r, toNode := s.toNode[1..],
       handled := if called then s.handled + [Handled(p.id, h(s.r.calls, p.frame.payload))] else s.handled)
  }

  /** The oldest response reaches the host. */
  function HearStep(s: System, openedAt: nat): (s': System)
    requires Shape(s) && s.toHost != []
    ensures Shape(s')
  {
    var p := s.toHost[0];
    var m := M.Digest(s.m, M.Quiet, [Delivered(p.frame)], openedAt).0;
    s.(m := m, toHost := s.toHost[1..],
       accepted := if s.m.open && !m.open then s.accepted + [Accepted(|s.m.hist.begun| - 1, p.id, p.frame.payload)]
         else s.accepted)
  }

  /** An act that is not possible changes nothing. */
  function Step(s: System, a: Act, h: R.Handler): (s': System)
    requires Shape(s)
    ensures Shape(s')
  {
    match a
    case Begin(dst, payload, now) =>
      if s.m.open || dst >= ADDR_COUNT || |payload| > MAX_L3_MESSAGE then s
      else s.(m := M.Open(s.m, dst, payload, now))
    case Transmit(now) =>
      if !(s.m.open && s.m.phase == M.PendingTransmit) then s
      else s.(m := M.DoTransmit(s.m, now), toNode := s.toNode + [Packet(M.Request(s.m), |s.m.hist.begun| - 1)])
    case Expire(at, reason) =>
      if !M.Awaiting(s.m) then s else s.(m := M.EndAttempt(s.m, at, reason).0)
    case LoseRequest(i) => if i >= |s.toNode| then s else s.(toNode := Without(s.toNode, i))
    case LoseResponse(i) => if i >= |s.toHost| then s else s.(toHost := Without(s.toHost, i))
    case Deliver(end) => if s.toNode == [] || s.r.phase != R.Listening then s else DeliverStep(s, end, h)
    case Respond(now) =>
      if s.r.phase != R.Scheduled then s
      else s.(r := R.Finished(R.Send(s.r, now), R.Send(s.r, now).txUntil),
              toHost := s.toHost + [Packet(s.r.buffer.value, |s.handled| - 1)])
    case Hear(openedAt) => if s.toHost == [] then s else HearStep(s, openedAt)
    case Foreign(f, openedAt) =>
      if f.src == s.r.my then s else s.(m := M.Digest(s.m, M.Quiet, [Delivered(f)], openedAt).0)
  }

  function Start(host: byte, my: byte, turnaround: nat, byteTime: nat): (s: System)
    ensures Shape(s)
  {
    System(M.Start(host, byteTime), R.Start(my, turnaround, byteTime), [], [], [], [])
  }

  function Run(s: System, acts: seq<Act>, h: R.Handler): (s': System)
    requires Shape(s)
    ensures Shape(s')
  {
    if acts == [] then s else Step(Run(s, acts[..|acts| - 1], h), acts[|acts| - 1], h)
  }

  /** The handler honours the capacity it is given. */
  ghost predicate Honest(h: R.Handler) {
    forall n, req :: |h(n, req)| <= MAX_L3_MESSAGE
  }

  // ---------------------------------------------------------------- the invariant

  predicate Stations(s: System) {
    s.m.host < ADDR_COUNT && s.r.my < ADDR_COUNT && s.m.host != s.r.my
  }

  /** Transactions of which an attempt may have been made: all, but for one just begun. */
  function Limit(m: M.Engine): nat
    requires M.Shape(m)
  {
    |m.hist.begun| - (if m.open && m.attempts == 0 then 1 else 0)
  }

  predicate RequestOk(b: seq<M.Begun>, host: byte, limit: nat, p: Packet) {
    && p.id < limit <= |b|
    && p.frame == Fields(b[p.id].dst, host, false, p.frame.retry, b[p.id].seqNo, b[p.id].payload)
  }

  /** In order, and only the first attempt of a transaction is without the retry bit. */
  predicate Requests(b: seq<M.Begun>, host: byte, limit: nat, toNode: seq<Packet>) {
    && (forall p :: p in toNode ==> RequestOk(b, host, limit, p))
    && (forall i, j :: 0 <= i < j < |toNode| ==> toNode[i].id <= toNode[j].id)
    && (forall i, j :: 0 <= i < j < |toNode| && toNode[i].id == toNode[j].id ==> toNode[j].frame.retry)
  }

  predicate HandledOk(b: seq<M.Begun>, my: byte, limit: nat, h: R.Handler, i: nat, x: Handled) {
    x.txn < limit <= |b| && b[x.txn].dst == my && x.result == h(i, b[x.txn].payload)
  }

  /** Each handler call is for a later transaction than the one before. */
  predicate Calls(b: seq<M.Begun>, my: byte, limit: nat, h: R.Handler, handled: seq<Handled>) {
    && (forall i :: 0 <= i < |handled| ==> HandledOk(b, my, limit, h, i, handled[i]))
    && (forall i, j :: 0 <= i < j < |handled| ==> handled[i].txn < handled[j].txn)
  }

  /** What is still to arrive is no older than the last call, and no first attempt of its transaction. */
  predicate NoneAgain(handled: seq<Handled>, toNode: seq<Packet>) {
    handled != [] ==>
      forall p :: p in toNode ==> Last(handled).txn <= p.id && (p.id == Last(handled).txn ==> p.frame.retry)
  }

  function Last(handled: seq<Handled>): Handled
    requires handled != []
  {
    handled[|handled| - 1]
  }

  /** The response a handler call turns into, but for the retry bit it mirrors. */
  predicate IsResponse(b: seq<M.Begun>, handled: seq<Handled>, my: byte, host: byte, i: nat, f: Fields) {
    && i < |handled| && handled[i].txn < |b|
    && f.response && f.src == my && f.dst == host
    && f.seqNo == b[handled[i].txn].seqNo && f.payload == handled[i].result
  }

  predicate Buffer(b: seq<M.Begun>, handled: seq<Handled>, my: byte, host: byte, buffer: Option<Fields>) {
    && (buffer.Some? <==> handled != [])
    && (buffer.Some? ==> IsResponse(b, handled, my, host, |handled| - 1, buffer.value))
  }

  predicate Responses(b: seq<M.Begun>, handled: seq<Handled>, my: byte, host: byte, toHost: seq<Packet>) {
    forall p :: p in toHost ==> IsResponse(b, handled, my, host, p.id, p.frame)
  }

  predicate AcceptedOk(b: seq<M.Begun>, handled: seq<Handled>, my: byte, x: Accepted) {
    && x.txn < |b| && b[x.txn].dst == my
    && x.call < |handled| && handled[x.call].txn <= x.txn && x.payload == handled[x.call].result
    && b[handled[x.call].txn].seqNo == b[x.txn].seqNo
  }

  predicate Answers(b: seq<M.Begun>, handled: seq<Handled>, my: byte, accepted: seq<Accepted>) {
    forall x :: x in accepted ==> AcceptedOk(b, handled, my, x)
  }

  /** The master's own log, as far as the channel depends on it. */
  predicate Log(m: M.Engine)
    requires M.Shape(m)
  {
    var b := m.hist.begun;
    && (forall a: byte :: a < ADDR_COUNT ==> m.nextSeq[a] == MasterRuns.BegunTo(b, a) % 16)
    && MasterRuns.Numbered(b)
    && (m.open ==> m.dst == b[|b| - 1].dst && m.seqNo == b[|b| - 1].seqNo && m.payload == b[|b| - 1].payload)
  }

  ghost predicate Inv(s: System, h: R.Handler)
    requires Shape(s)
  {
    var b, limit := s.m.hist.begun, Limit(s.m);
    && Stations(s) && Log(s.m) && s.r.calls == |s.handled|
    && Requests(b, s.m.host, limit, s.toNode)
    && Calls(b, s.r.my, limit, h, s.handled)
    && NoneAgain(s.handled, s.toNode)
    && Buffer(b, s.handled, s.r.my, s.m.host, s.r.buffer)
    && Responses(b, s.handled, s.r.my, s.m.host, s.toHost)
    && Answers(b, s.handled, s.r.my, s.accepted)
  }

  // ---------------------------------------------------------------- growing logs

  lemma BegunGrows(s: System, x: M.Begun, h: R.Handler)
    requires Shape(s) && Inv(s, h)
    ensures var b, limit := s.m.hist.begun + [x], |s.m.hist.begun|;
      && Requests(b, s.m.host, limit, s.toNode)
      && Calls(b, s.r.my, limit, h, s.handled)
      && Buffer(b, s.handled, s.r.my, s.m.host, s.r.buffer)
      && Responses(b, s.handled, s.r.my, s.m.host, s.toHost)
      && Answers(b, s.handled, s.r.my, s.accepted)
  {
    hide Log;
    var b := s.m.hist.begun;
    assert forall p :: RequestOk(b, s.m.host, Limit(s.m), p) ==> RequestOk(b + [x], s.m.host, |b|, p);
    assert forall i: nat, y :: HandledOk(b, s.r.my, Limit(s.m), h, i, y) ==> HandledOk(b + [x], s.r.my, |b|, h, i, y);
    assert forall i: nat, f :: IsResponse(b, s.handled, s.r.my, s.m.host, i, f) ==>
      IsResponse(b + [x], s.handled, s.r.my, s.m.host, i, f);
    assert forall y :: AcceptedOk(b, s.handled, s.r.my, y) ==> AcceptedOk(b + [x], s.handled, s.r.my, y);
  }

  lemma HandledGrows(b: seq<M.Begun>, handled: seq<Handled>, x: Handled, my: byte, host: byte, toHost: seq<Packet>,
      accepted: seq<Accepted>)
    requires Responses(b, handled, my, host, toHost) && Answers(b, handled, my, accepted)
    ensures Responses(b, handled + [x], my, host, toHost) && Answers(b, handled + [x], my, accepted)
  {
    assert forall i: nat, f :: IsResponse(b, handled, my, host, i, f) ==> IsResponse(b, handled + [x], my, host, i, f);
    assert forall y :: AcceptedOk(b, handled, my, y) ==> AcceptedOk(b, handled + [x], my, y);
  }

  lemma LimitGrows(b: seq<M.Begun>, host: byte, my: byte, l: nat, m: nat, toNode: seq<Packet>, h: R.Handler,
      handled: seq<Handled>)
    requires l <= m <= |b| && Requests(b, host, l, toNode) && Calls(b, my, l, h, handled)
    ensures Requests(b, host, m, toNode) && Calls(b, my, m, h, handled)
  {
    assert forall p :: RequestOk(b, host, l, p) ==> RequestOk(b, host, m, p);
    assert forall i: nat, y :: HandledOk(b, my, l, h, i, y) ==> HandledOk(b, my, m, h, i, y);
  }

  // ---------------------------------------------------------------- the master's acts

  /** Acts of the master that leave its log and its open request alone. */
  predicate Alike(m: M.Engine, m': M.Engine) {
    && m'.host == m.host && m'.hist.begun == m.hist.begun && m'.nextSeq == m.nextSeq
    && m'.dst == m.dst && m'.seqNo == m.seqNo && m'.payload == m.payload && m'.attempts == m.attempts
    && (m'.open ==> m.open)
  }

  lemma AlikeKeeps(s: System, m: M.Engine, h: R.Handler)
    requires Shape(s) && M.Shape(m) && Inv(s, h) && Alike(s.m, m)
    ensures Inv(s.(m := m), h)
  {
    hide MasterRuns.BegunTo, MasterRuns.Numbered, Requests, Calls, Buffer, Responses, Answers;
    LimitGrows(s.m.hist.begun, s.m.host, s.r.my, Limit(s.m), Limit(m), s.toNode, h, s.handled);
  }

  lemma DigestAlike(m: M.Engine, f: Fields, openedAt: nat)
    requires M.Shape(m)
    ensures Alike(m, M.Digest(m, M.Quiet, [Delivered(f)], openedAt).0)
  {
  }

  lemma BeginKeeps(s: System, dst: byte, payload: seq<byte>, now: nat, h: R.Handler)
    requires Shape(s) && Inv(s, h) && !s.m.open && dst < ADDR_COUNT && |payload| <= MAX_L3_MESSAGE
    ensures Inv(s.(m := M.Open(s.m, dst, payload, now)), h)
  {
    hide MasterRuns.BegunTo, MasterRuns.Numbered, Requests, Calls, Buffer, Responses, Answers;
    var b, x := s.m.hist.begun, M.Begun(dst, s.m.nextSeq[dst], payload, now);
    BegunGrows(s, x, h);
    MasterRuns.NextNumbers(s.m.nextSeq, b, x);
    MasterRuns.NumberedNext(b, x);
  }

  /** One more request behind the others, with the retry bit if its transaction may already be among them. */
  lemma RequestsNext(b: seq<M.Begun>, host: byte, limit: nat, toNode: seq<Packet>, p: Packet)
    requires Requests(b, host, limit, toNode) && limit <= |b| && RequestOk(b, host, |b|, p) && p.id == |b| - 1
    requires limit < |b| || p.frame.retry
    ensures Requests(b, host, |b|, toNode + [p])
  {
    forall q | q in toNode ensures RequestOk(b, host, |b|, q) && q.id < limit {
      assert RequestOk(b, host, limit, q);
    }
  }

  lemma NoneAgainNext(b: seq<M.Begun>, my: byte, limit: nat, h: R.Handler, handled: seq<Handled>, toNode: seq<Packet>,
      p: Packet)
    requires Calls(b, my, limit, h, handled) && NoneAgain(handled, toNode) && p.id == |b| - 1
    requires limit < |b| || p.frame.retry
    ensures NoneAgain(handled, toNode + [p])
  {
    if handled != [] {
      assert HandledOk(b, my, limit, h, |handled| - 1, Last(handled));
    }
  }

  lemma TransmitKeeps(s: System, now: nat, h: R.Handler)
    requires Shape(s) && Inv(s, h) && s.m.open && s.m.phase == M.PendingTransmit
    ensures Inv(Step(s, Transmit(now), h), h)
  {
    hide Encode, MasterRuns.BegunTo, MasterRuns.Numbered, Requests, Calls, NoneAgain, Buffer, Responses, Answers;
    var b, s' := s.m.hist.begun, Step(s, Transmit(now), h);
    var p := Packet(M.Request(s.m), |b| - 1);
    LimitGrows(b, s.m.host, s.r.my, Limit(s.m), |b|, s.toNode, h, s.handled);
    assert s'.toNode == s.toNode + [p] && Limit(s'.m) == |b|;
    RequestsNext(b, s.m.host, Limit(s.m), s.toNode, p);
    NoneAgainNext(b, s.r.my, Limit(s.m), h, s.handled, s.toNode, p);
  }

  // ---------------------------------------------------------------- losses

  lemma RequestsWithout(b: seq<M.Begun>, host: byte, limit: nat, toNode: seq<Packet>, i: nat, handled: seq<Handled>)
    requires Requests(b, host, limit, toNode) && NoneAgain(handled, toNode) && i < |toNode|
    ensures Requests(b, host, limit, Without(toNode, i)) && NoneAgain(handled, Without(toNode, i))
  {
    hide RequestOk;
    var rest := Without(toNode, i);
    assert forall k :: 0 <= k < |rest| ==> rest[k] == toNode[if k < i then k else k + 1];
    assert forall p :: p in rest ==> p in toNode;
  }

  lemma LoseRequestKeeps(s: System, i: nat, h: R.Handler)
    requires Shape(s) && Inv(s, h) && i < |s.toNode|
    ensures Inv(s.(toNode := Without(s.toNode, i)), h)
  {
    hide Log, Requests, Calls, NoneAgain, Buffer, Responses, Answers;
    RequestsWithout(s.m.hist.begun, s.m.host, Limit(s.m), s.toNode, i, s.handled);
  }

  lemma LoseResponseKeeps(s: System, i: nat, h: R.Handler)
    requires Shape(s) && Inv(s, h) && i < |s.toHost|
    ensures Inv(s.(toHost := Without(s.toHost, i)), h)
  {
    hide Log, Calls, Buffer, Requests, Answers;
    assert forall p :: p in Without(s.toHost, i) ==> p in s.toHost;
  }

  // ---------------------------------------------------------------- the node

  /** A repeated attempt of the transaction handled last is answered from the buffer. */
  lemma RepeatIsReplay(s: System, h: R.Handler)
    requires Shape(s) && Inv(s, h) && s.toNode != [] && s.handled != [] && s.toNode[0].id == Last(s.handled).txn
    ensures R.IsReplay(s.r, s.toNode[0].frame)
  {
    hide Log, Answers, Responses;
    assert RequestOk(s.m.hist.begun, s.m.host, Limit(s.m), s.toNode[0]);
  }

  /** What the node makes of the oldest request. */
  lemma DeliverCalls(s: System, end: nat, h: R.Handler)
    requires Shape(s) && Inv(s, h) && Honest(h) && s.toNode != [] && s.r.phase == R.Listening
    ensures var s', p := DeliverStep(s, end, h), s.toNode[0];
      && s'.r.my == s.r.my && s'.r.calls == |s'.handled|
      && if s'.handled == s.handled then s'.r.buffer == s.r.buffer
         else
           && s'.handled == s.handled + [Handled(p.id, h(|s.handled|, p.frame.payload))]
           && p.frame.dst == s.r.my && (s.handled != [] ==> p.id > Last(s.handled).txn)
           && s'.r.buffer.Some? && var f := s'.r.buffer.value;
             f.response && f.src == s.r.my && f.dst == p.frame.src && f.seqNo == p.frame.seqNo
               && f.payload == h(|s.handled|, p.frame.payload)
  {
    hide Encode, Log, Answers, Responses, Requests;
    var p := s.toNode[0];
    assert p in s.toNode;
    if s.handled != [] && p.id == Last(s.handled).txn { RepeatIsReplay(s, h); }
  }

  lemma DeliverKeeps(s: System, end: nat, h: R.Handler)
    requires Shape(s) && Inv(s, h) && Honest(h) && s.toNode != [] && s.r.phase == R.Listening
    ensures Inv(DeliverStep(s, end, h), h)
  {
    DeliverCalls(s, end, h);
    DeliverOld(s, end, h);
    DeliverNew(s, end, h);
  }

  lemma DeliverOld(s: System, end: nat, h: R.Handler)
    requires Shape(s) && Inv(s, h) && Honest(h) && s.toNode != [] && s.r.phase == R.Listening
    ensures DeliverStep(s, end, h).handled == s.handled ==> Inv(DeliverStep(s, end, h), h)
  {
    DeliverCalls(s, end, h);
    RequestsWithout(s.m.hist.begun, s.m.host, Limit(s.m), s.toNode, 0, s.handled);
    hide Log, Requests, Calls, NoneAgain, Buffer, Responses, Answers, R.OnRequest;
    assert Without(s.toNode, 0) == s.toNode[1..];
  }

  /** A handler call for a request newer than every earlier call. */
  lemma CallsNext(b: seq<M.Begun>, my: byte, limit: nat, h: R.Handler, handled: seq<Handled>, x: Handled)
    requires Calls(b, my, limit, h, handled) && HandledOk(b, my, limit, h, |handled|, x)
    requires handled != [] ==> x.txn > Last(handled).txn
    ensures Calls(b, my, limit, h, handled + [x])
  {
    hide HandledOk;
  }

  lemma NoneAgainAfter(b: seq<M.Begun>, host: byte, limit: nat, handled: seq<Handled>, x: Handled, toNode: seq<Packet>)
    requires Requests(b, host, limit, toNode) && toNode != [] && x.txn == toNode[0].id
    ensures NoneAgain(handled + [x], toNode[1..])
  {
    hide RequestOk;
  }

  lemma DeliverNew(s: System, end: nat, h: R.Handler)
    requires Shape(s) && Inv(s, h) && Honest(h) && s.toNode != [] && s.r.phase == R.Listening
    ensures DeliverStep(s, end, h).handled != s.handled ==> Inv(DeliverStep(s, end, h), h)
  {
    DeliverCalls(s, end, h);
    var s', p, b := DeliverStep(s, end, h), s.toNode[0], s.m.hist.begun;
    assert RequestOk(b, s.m.host, Limit(s.m), p);
    hide Log, Requests, Calls, NoneAgain, Responses, Answers, R.OnRequest;
    if s'.handled != s.handled {
      var x := Handled(p.id, h(|s.handled|, p.frame.payload));
      RequestsWithout(b, s.m.host, Limit(s.m), s.toNode, 0, s.handled);
      assert Without(s.toNode, 0) == s.toNode[1..];
      HandledGrows(b, s.handled, x, s.r.my, s.m.host, s.toHost, s.accepted);
      CallsNext(b, s.r.my, Limit(s.m), h, s.handled, x);
      NoneAgainAfter(b, s.m.host, Limit(s.m), s.handled, x, s.toNode);
    }
  }

  lemma RespondKeeps(s: System, now: nat, h: R.Handler)
    requires Shape(s) && Inv(s, h) && s.r.phase == R.Scheduled
    ensures Inv(Step(s, Respond(now), h), h)
  {
    hide Encode, Log, Calls, Requests, Answers;
  }

  // ---------------------------------------------------------------- the host

  /** What concluding on this frame means for it. */
  lemma AcceptedFrame(m: M.Engine, f: Fields, openedAt: nat)
    requires M.Shape(m) && m.open && !M.Digest(m, M.Quiet, [Delivered(f)], openedAt).0.open
    ensures f.src == m.dst && f.seqNo == m.seqNo
  {
  }

  lemma HearKeeps(s: System, openedAt: nat, h: R.Handler)
    requires Shape(s) && Inv(s, h) && s.toHost != []
    ensures Inv(HearStep(s, openedAt), h)
  {
    hide MasterRuns.BegunTo, MasterRuns.Numbered, Requests, Calls, Buffer, M.Digest;
    var p, s' := s.toHost[0], HearStep(s, openedAt);
    assert Without(s.toHost, 0) == s.toHost[1..];
    LoseResponseKeeps(s, 0, h);
    DigestAlike(s.m, p.frame, openedAt);
    AlikeKeeps(s.(toHost := s.toHost[1..]), s'.m, h);
    if s.m.open && !s'.m.open {
      AcceptedFrame(s.m, p.frame, openedAt);
      assert IsResponse(s.m.hist.begun, s.handled, s.r.my, s.m.host, p.id, p.frame);
      assert AcceptedOk(s.m.hist.begun, s.handled, s.r.my, Accepted(|s.m.hist.begun| - 1, p.id, p.frame.payload));
    }
  }

  // ---------------------------------------------------------------- every run

  lemma StepKeeps(s: System, a: Act, h: R.Handler)
    requires Shape(s) && Inv(s, h) && Honest(h)
    ensures Inv(Step(s, a, h), h)
  {
    hide Inv, M.Digest, M.EndAttempt, DeliverStep, HearStep, R.Send;
    match a
    case Begin(dst, payload, now) =>
      if !s.m.open && dst < ADDR_COUNT && |payload| <= MAX_L3_MESSAGE { BeginKeeps(s, dst, payload, now, h); }
    case Transmit(now) => if s.m.open && s.m.phase == M.PendingTransmit { TransmitKeeps(s, now, h); }
    case Expire(at, reason) =>
      if M.Awaiting(s.m) {
        ExpireAlike(s.m, at, reason);
        AlikeKeeps(s, M.EndAttempt(s.m, at, reason).0, h);
      }
    case LoseRequest(i) => if i < |s.toNode| { LoseRequestKeeps(s, i, h); }
    case LoseResponse(i) => if i < |s.toHost| { LoseResponseKeeps(s, i, h); }
    case Deliver(end) => if s.toNode != [] && s.r.phase == R.Listening { DeliverKeeps(s, end, h); }
    case Respond(now) => if s.r.phase == R.Scheduled { RespondKeeps(s, now, h); }
    case Hear(openedAt) => if s.toHost != [] { HearKeeps(s, openedAt, h); }
    case Foreign(f, openedAt) =>
      DigestAlike(s.m, f, openedAt);
      if f.src != s.r.my { AlikeKeeps(s, M.Digest(s.m, M.Quiet, [Delivered(f)], openedAt).0, h); }
  }

  lemma ExpireAlike(m: M.Engine, at: nat, reason: M.Reason)
    requires M.Shape(m) && M.Awaiting(m)
    ensures Alike(m, M.EndAttempt(m, at, reason).0)
  {
  }

  predicate Configured(s: System) {
    Stations(s) && s == Start(s.m.host, s.r.my, s.r.turnaround, s.m.byteTime)
  }

  lemma {:induction false} RunKeeps(start: System, acts: seq<Act>, h: R.Handler)
    requires Shape(start) && Configured(start) && Honest(h)
    ensures Inv(Run(start, acts, h), h)
  {
    hide Step;
    if acts == [] {
      assert MasterRuns.BegunTo([], start.r.my) == 0;
    } else {
      RunKeeps(start, acts[..|acts| - 1], h);
      StepKeeps(Run(start, acts[..|acts| - 1], h), acts[|acts| - 1], h);
    }
  }

  /**
   * Over any losses and delays the handler runs at most once per transaction, in order, on that transaction's request.
   */
  lemma HandledAtMostOnce(start: System, acts: seq<Act>, h: R.Handler)
    requires Shape(start) && Configured(start) && Honest(h)
    ensures var s := Run(start, acts, h); var b := s.m.hist.begun;
      && s.r.calls == |s.handled|
      && (forall i, j :: 0 <= i < j < |s.handled| ==> s.handled[i].txn < s.handled[j].txn)
      && forall i :: 0 <= i < |s.handled| ==>
        s.handled[i].txn < |b| && b[s.handled[i].txn].dst == s.r.my
          && s.handled[i].result == h(i, b[s.handled[i].txn].payload)
  {
    hide Run, Log, Requests, NoneAgain, Buffer, Responses, Answers;
    RunKeeps(start, acts, h);
    var s := Run(start, acts, h);
    assert forall i :: 0 <= i < |s.handled| ==> HandledOk(s.m.hist.begun, s.r.my, Limit(s.m), h, i, s.handled[i]);
  }

  // ---------------------------------------------------------------- whose answer it is

  /** How many transactions to this node came before the i-th of all. */
  function Ordinal(b: seq<M.Begun>, my: byte, i: nat): nat
    requires i <= |b|
  {
    MasterRuns.BegunTo(b[..i], my)
  }

  lemma {:induction false} OrdinalGrows(b: seq<M.Begun>, my: byte, i: nat, j: nat)
    requires i <= j <= |b|
    ensures Ordinal(b, my, i) <= Ordinal(b, my, j)
    ensures i < j && b[i].dst == my ==> Ordinal(b, my, i) < Ordinal(b, my, j)
    decreases j - i
  {
    if i < j {
      assert b[..j][..j - 1] == b[..j - 1] && b[..j][j - 1] == b[j - 1];
      OrdinalGrows(b, my, i, j - 1);
    }
  }

  lemma OrdinalKeeps(b: seq<M.Begun>, x: M.Begun, my: byte, i: nat)
    requires i <= |b|
    ensures Ordinal(b + [x], my, i) == Ordinal(b, my, i)
  {
    assert (b + [x])[..i] == b[..i];
  }

  /**
   * The answer comes from a transaction with the same number mod 16; it is the transaction's own unless 16 or more
   * behind.
   */
  lemma AnswerIsCongruent(start: System, acts: seq<Act>, h: R.Handler, x: Accepted)
    requires Shape(start) && Configured(start) && Honest(h) && x in Run(start, acts, h).accepted
    ensures var s := Run(start, acts, h); var b := s.m.hist.begun;
      && x.call < |s.handled| && x.txn < |b| && s.handled[x.call].txn <= x.txn
      && var j := s.handled[x.call].txn;
        && x.payload == h(x.call, b[j].payload)
        && Ordinal(b, s.r.my, j) % 16 == Ordinal(b, s.r.my, x.txn) % 16
        && (j == x.txn <==> Ordinal(b, s.r.my, x.txn) - Ordinal(b, s.r.my, j) < 16)
  {
    hide Run, Requests, NoneAgain, Buffer, Responses, MasterRuns.BegunTo;
    RunKeeps(start, acts, h);
    Congruent(Run(start, acts, h), h, x);
  }

  lemma Congruent(s: System, h: R.Handler, x: Accepted)
    requires Shape(s) && Inv(s, h) && x in s.accepted
    ensures var b := s.m.hist.begun;
      && x.call < |s.handled| && x.txn < |b| && s.handled[x.call].txn <= x.txn
      && var j := s.handled[x.call].txn;
        && x.payload == h(x.call, b[j].payload)
        && Ordinal(b, s.r.my, j) % 16 == Ordinal(b, s.r.my, x.txn) % 16
        && (j == x.txn <==> Ordinal(b, s.r.my, x.txn) - Ordinal(b, s.r.my, j) < 16)
  {
    hide Requests, NoneAgain, Buffer, Responses, MasterRuns.BegunTo;
    var b := s.m.hist.begun;
    assert AcceptedOk(b, s.handled, s.r.my, x);
    var j := s.handled[x.call].txn;
    assert HandledOk(b, s.r.my, Limit(s.m), h, x.call, s.handled[x.call]);
    OrdinalGrows(b, s.r.my, j, x.txn);
    Mod16(Ordinal(b, s.r.my, j), Ordinal(b, s.r.my, x.txn));
  }

  lemma Mod16(i: nat, j: nat)
    requires i % 16 == j % 16 && i <= j
    ensures j - i < 16 ==> i == j
  {
  }

  // ---------------------------------------------------------------- inside the window

  /**
   * Fewer than 16 transactions to the node separate the next one from the last it handled and from every frame in
   * flight.
   */
  predicate WindowOpen(s: System)
    requires Shape(s)
  {
    Young(s, 15)
  }

  predicate Recent(b: seq<M.Begun>, my: byte, txn: nat, age: nat) {
    txn < |b| && MasterRuns.BegunTo(b, my) - Ordinal(b, my, txn) <= age
  }

  predicate Young(s: System, age: nat)
    requires Shape(s)
  {
    var b, my := s.m.hist.begun, s.r.my;
    && (s.handled != [] ==> Recent(b, my, Last(s.handled).txn, age))
    && (forall p :: p in s.toNode && p.frame.dst == my ==> Recent(b, my, p.id, age))
    && (forall p :: p in s.toHost ==> p.id < |s.handled| && Recent(b, my, s.handled[p.id].txn, age))
  }

  predicate AllOwn(s: System) {
    forall x :: x in s.accepted ==> x.call < |s.handled| && s.handled[x.call].txn == x.txn
  }

  predicate Careful(s: System, acts: seq<Act>, h: R.Handler)
    requires Shape(s)
  {
    acts == [] ||
    (Careful(s, acts[..|acts| - 1], h) &&
     var s1, a := Run(s, acts[..|acts| - 1], h), acts[|acts| - 1];
     (a.Begin? && a.dst == s1.r.my && !s1.m.open ==> WindowOpen(s1)))
  }

  lemma YoungBegin(s: System, dst: byte, payload: seq<byte>, now: nat)
    requires Shape(s) && !s.m.open && dst < ADDR_COUNT && |payload| <= MAX_L3_MESSAGE
    requires Young(s, 16) && (dst == s.r.my ==> Young(s, 15))
    ensures Young(s.(m := M.Open(s.m, dst, payload, now)), 16)
  {
    hide MasterRuns.BegunTo;
    var b, x := s.m.hist.begun, M.Begun(dst, s.m.nextSeq[dst], payload, now);
    MasterRuns.BegunNext(b, x);
    forall i: nat | i < |b| ensures Ordinal(b + [x], s.r.my, i) == Ordinal(b, s.r.my, i) {
      OrdinalKeeps(b, x, s.r.my, i);
    }
  }

  lemma NewestIsYoung(b: seq<M.Begun>, my: byte)
    requires b != []
    ensures Recent(b, my, |b| - 1, 16)
  {
  }

  lemma YoungDeliver(s: System, end: nat, h: R.Handler)
    requires Shape(s) && Inv(s, h) && Honest(h) && Young(s, 16) && s.toNode != [] && s.r.phase == R.Listening
    ensures Young(DeliverStep(s, end, h), 16)
  {
    DeliverCalls(s, end, h);
    hide Inv, Ordinal, R.OnRequest;
    var s' := DeliverStep(s, end, h);
    assert s.toNode[0] in s.toNode && forall q :: q in s.toNode[1..] ==> q in s.toNode;
    if s'.handled != s.handled {
      assert forall i :: 0 <= i < |s.handled| ==> s'.handled[i] == s.handled[i];
    }
  }

  lemma YoungHear(s: System, openedAt: nat)
    requires Shape(s) && Young(s, 16) && s.toHost != []
    ensures Young(HearStep(s, openedAt), 16)
  {
    DigestAlike(s.m, s.toHost[0].frame, openedAt);
    hide Recent, M.Digest;
    assert forall q :: q in s.toHost[1..] ==> q in s.toHost;
  }

  lemma OwnHear(s: System, openedAt: nat, h: R.Handler)
    requires Shape(s) && Inv(s, h) && Young(s, 16) && AllOwn(s) && s.toHost != []
    ensures AllOwn(HearStep(s, openedAt))
  {
    var p, s' := s.toHost[0], HearStep(s, openedAt);
    assert p in s.toHost;
    if s.m.open && !s'.m.open {
      var x := Accepted(|s.m.hist.begun| - 1, p.id, p.frame.payload);
      HearKeeps(s, openedAt, h);
      DigestAlike(s.m, p.frame, openedAt);
      hide Inv, Ordinal, M.Digest;
      assert x in s'.accepted;
      Congruent(s', h, x);
      AnsweredIsLast(s', h, x);
    }
  }

  lemma AnsweredIsLast(s: System, h: R.Handler, x: Accepted)
    requires Shape(s) && Inv(s, h) && x in s.accepted && x.txn == |s.m.hist.begun| - 1
    ensures MasterRuns.BegunTo(s.m.hist.begun, s.r.my) == Ordinal(s.m.hist.begun, s.r.my, x.txn) + 1
  {
    hide Requests, Calls, NoneAgain, Buffer, Responses, Log;
    assert AcceptedOk(s.m.hist.begun, s.handled, s.r.my, x);
  }

  lemma StepOwn(s: System, a: Act, h: R.Handler)
    requires Shape(s) && Inv(s, h) && Honest(h) && Young(s, 16) && AllOwn(s)
    requires a.Begin? && a.dst == s.r.my && !s.m.open ==> WindowOpen(s)
    ensures Young(Step(s, a, h), 16) && AllOwn(Step(s, a, h))
  {
    hide Inv, M.Digest, M.EndAttempt, DeliverStep, HearStep, Ordinal, Encode, M.Open, R.OnRequest;
    match a
    case Begin(dst, payload, now) =>
      if !s.m.open && dst < ADDR_COUNT && |payload| <= MAX_L3_MESSAGE { YoungBegin(s, dst, payload, now); }
    case Transmit(now) =>
      if s.m.open && s.m.phase == M.PendingTransmit { NewestIsYoung(s.m.hist.begun, s.r.my); }
    case Expire(at, reason) => if M.Awaiting(s.m) { ExpireAlike(s.m, at, reason); }
    case LoseRequest(i) => assert i < |s.toNode| ==> forall p :: p in Without(s.toNode, i) ==> p in s.toNode;
    case LoseResponse(i) => assert i < |s.toHost| ==> forall p :: p in Without(s.toHost, i) ==> p in s.toHost;
    case Deliver(end) =>
      if s.toNode != [] && s.r.phase == R.Listening {
        YoungDeliver(s, end, h);
        DeliverOwn(s, end, h);
      }
    case Respond(now) =>
    case Hear(openedAt) =>
      if s.toHost != [] {
        OwnHear(s, openedAt, h);
        YoungHear(s, openedAt);
      }
    case Foreign(f, openedAt) => DigestAlike(s.m, f, openedAt);
  }

  lemma DeliverOwn(s: System, end: nat, h: R.Handler)
    requires Shape(s) && Inv(s, h) && Honest(h) && AllOwn(s) && s.toNode != [] && s.r.phase == R.Listening
    ensures AllOwn(DeliverStep(s, end, h))
  {
    DeliverCalls(s, end, h);
    hide Inv, R.OnRequest;
  }

  lemma {:induction false} RunOwn(start: System, acts: seq<Act>, h: R.Handler)
    requires Shape(start) && Configured(start) && Honest(h) && Careful(start, acts, h)
    ensures Young(Run(start, acts, h), 16) && AllOwn(Run(start, acts, h))
  {
    hide Step, Inv, Young;
    if acts == [] {
      NothingIsYoung(start);
    } else {
      RunKeeps(start, acts[..|acts| - 1], h);
      RunOwn(start, acts[..|acts| - 1], h);
      StepOwn(Run(start, acts[..|acts| - 1], h), acts[|acts| - 1], h);
    }
  }

  lemma NothingIsYoung(start: System)
    requires Shape(start) && Configured(start)
    ensures Young(start, 16) && AllOwn(start)
  {
  }

  /** Inside the window every answer is the handler's result for that very transaction. */
  lemma AnswersAreOwn(start: System, acts: seq<Act>, h: R.Handler)
    requires Shape(start) && Configured(start) && Honest(h) && Careful(start, acts, h)
    ensures var s := Run(start, acts, h);
      forall x :: x in s.accepted ==>
        && x.call < |s.handled| && x.txn < |s.m.hist.begun| && s.handled[x.call].txn == x.txn
        && x.payload == h(x.call, s.m.hist.begun[x.txn].payload)
  {
    hide Run, Careful, Inv, Young;
    RunKeeps(start, acts, h);
    RunOwn(start, acts, h);
    var s := Run(start, acts, h);
    forall x | x in s.accepted
      ensures x.call < |s.handled| && x.txn < |s.m.hist.begun| && s.handled[x.call].txn == x.txn
      ensures x.payload == h(x.call, s.m.hist.begun[x.txn].payload)
    {
      Congruent(s, h, x);
    }
  }
}
