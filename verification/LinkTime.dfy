/** When the acts of a run can happen: the clock, the engines' own deadlines, and one frame on the wire at a time. */
module LinkTime {
  import opened Protocol
  import opened Frame
  import M = Master
  import R = Responder
  import opened LinkSystem

  /** The instant of an act, if it has one; a frame is lost at no instant of the stations'. */
  function Instant(a: Act): Option<nat> {
    match a
    case Begin(_, _, now) => Some(now)
    case Transmit(now) => Some(now)
    case Expire(at, _) => Some(at)
    case LoseRequest(_) => None
    case LoseResponse(_) => None
    case Deliver(end) => Some(end)
    case Respond(now) => Some(now)
    case Hear(openedAt) => Some(openedAt)
    case Foreign(_, openedAt) => Some(openedAt)
  }

  /**
   * An act the stations can make now. Time does not run backwards; an attempt goes out at or after its deferred instant
   * and times out at its deadline; a response goes out at or after its own. Neither station sends into the node's last
   * transmission, and the node hears nothing during it.
   */
  predicate Allowed(s: System, a: Act, since: nat) {
    && (Instant(a).Some? ==> since <= Instant(a).value)
    && match a
       case Transmit(now) => M.Want(s.m) <= now && s.r.txUntil <= now
       case Expire(at, reason) => reason == M.Timeout ==> at == s.m.deadline
       case Deliver(end) => s.r.txUntil <= end
       case Respond(now) => s.r.deadline <= now
       case _ => true
  }

  /** The clock after an act: a request occupies the wire until its last byte has ended. */
  function After(s: System, a: Act, since: nat, h: R.Handler): nat
    requires Shape(s)
  {
    if a.Transmit? && Step(s, a, h).m.windowStart >= since then Step(s, a, h).m.windowStart
    else if Instant(a).Some? && Instant(a).value >= since then Instant(a).value
    else since
  }

  function Clock(s: System, acts: seq<Act>, since: nat, h: R.Handler): nat
    requires Shape(s)
  {
    if acts == [] then since
    else
      var n := |acts| - 1;
      After(Run(s, acts[..n], h), acts[n], Clock(s, acts[..n], since, h), h)
  }

  /** Every act of the run is allowed where it stands. */
  predicate InTime(s: System, acts: seq<Act>, since: nat, h: R.Handler)
    requires Shape(s)
  {
    acts == [] ||
    var n := |acts| - 1;
    InTime(s, acts[..n], since, h) && Allowed(Run(s, acts[..n], h), acts[n], Clock(s, acts[..n], since, h))
  }

  // ---------------------------------------------------------------- putting runs together

  lemma Nothing(s: System, since: nat, h: R.Handler)
    requires Shape(s)
    ensures Run(s, [], h) == s && Clock(s, [], since, h) == since && InTime(s, [], since, h)
  {
  }

  lemma Then(s: System, acts: seq<Act>, a: Act, since: nat, h: R.Handler)
    requires Shape(s)
    ensures var s1, clock := Run(s, acts, h), Clock(s, acts, since, h);
      && Run(s, acts + [a], h) == Step(s1, a, h)
      && Clock(s, acts + [a], since, h) == After(s1, a, clock, h)
      && (InTime(s, acts + [a], since, h) <==> InTime(s, acts, since, h) && Allowed(s1, a, clock))
  {
    assert (acts + [a])[..|acts|] == acts;
  }

  lemma Once(s: System, a: Act, since: nat, h: R.Handler)
    requires Shape(s)
    ensures Run(s, [a], h) == Step(s, a, h) && Clock(s, [a], since, h) == After(s, a, since, h)
    ensures InTime(s, [a], since, h) <==> Allowed(s, a, since)
  {
    Nothing(s, since, h);
    Then(s, [], a, since, h);
    assert [] + [a] == [a];
  }

  lemma {:induction false} Join(s: System, first: seq<Act>, rest: seq<Act>, since: nat, h: R.Handler)
    requires Shape(s)
    ensures var s1, clock := Run(s, first, h), Clock(s, first, since, h);
      && Run(s, first + rest, h) == Run(s1, rest, h)
      && Clock(s, first + rest, since, h) == Clock(s1, rest, clock, h)
      && (InTime(s, first + rest, since, h) <==> InTime(s, first, since, h) && InTime(s1, rest, clock, h))
    decreases |rest|
  {
    hide Step, Allowed, After, Run, Clock, InTime;
    if rest == [] {
      Nothing(Run(s, first, h), Clock(s, first, since, h), h);
      assert first + rest == first;
    } else {
      var n := |rest| - 1;
      Join(s, first, rest[..n], since, h);
      Then(s, first + rest[..n], rest[n], since, h);
      Then(Run(s, first, h), rest[..n], rest[n], Clock(s, first, since, h), h);
      assert first + rest[..n] + [rest[n]] == first + rest && rest[..n] + [rest[n]] == rest;
    }
  }

  function Latest(a: nat, b: nat): nat {
    if a >= b then a else b
  }

  /** The first instant at which the pending attempt may go out. */
  function Free(s: System, since: nat): nat {
    Latest(since, Latest(M.Want(s.m), s.r.txUntil))
  }
}
