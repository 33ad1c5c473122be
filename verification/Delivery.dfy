/** Callback delivery: two queues served in turn under one budget, each in its own order. */
module Delivery {
  import opened Protocol
  import opened Ring

  /** A queued lifecycle event, or a parameter result with the request id it releases. */
  datatype Delivered<E> = Event(event: E) | Result(id: byte)

  datatype Queues<E> = Queues(events: seq<E>, results: seq<byte>, resultNext: bool, used: set<byte>)

  function AfterResult<E>(q: Queues<E>): Queues<E>
    requires q.results != []
  {
    q.(results := q.results[1..], resultNext := false, used := q.used - {q.results[0]})
  }

  function AfterEvent<E>(q: Queues<E>): Queues<E>
    requires q.events != []
  {
    q.(events := q.events[1..], resultNext := true)
  }

  function First<E>(d: Delivered<E>, rest: (Queues<E>, seq<Delivered<E>>)): (Queues<E>, seq<Delivered<E>>) {
    (rest.0, [d] + rest.1)
  }

  /** `left` deliveries still allowed, of which at most `e` events and `r` results were pending at entry. */
  function Drain<E>(q: Queues<E>, left: nat, e: nat, r: nat): (d: (Queues<E>, seq<Delivered<E>>))
    requires e <= |q.events| && r <= |q.results|
    decreases left
  {
    if left == 0 || (e == 0 && r == 0) then (q, [])
    else if r > 0 && (q.resultNext || e == 0) then
      First(Result(q.results[0]), Drain(AfterResult(q), left - 1, e, r - 1))
    else First(Event(q.events[0]), Drain(AfterEvent(q), left - 1, e - 1, r))
  }

  function Events<E>(ds: seq<Delivered<E>>): seq<E> {
    if ds == [] then [] else (if ds[0].Event? then [ds[0].event] else []) + Events(ds[1..])
  }

  function Results<E>(ds: seq<Delivered<E>>): seq<byte> {
    if ds == [] then [] else (if ds[0].Result? then [ds[0].id] else []) + Results(ds[1..])
  }

  function IdsOf(s: seq<byte>): set<byte> {
    set id | id in s
  }

  lemma Uncons<E>(d: Delivered<E>, ds: seq<Delivered<E>>)
    ensures Events([d] + ds) == (if d.Event? then [d.event] else []) + Events(ds)
    ensures Results([d] + ds) == (if d.Result? then [d.id] else []) + Results(ds)
  {
    assert ([d] + ds)[1..] == ds;
  }

  lemma Nil<E>()
    ensures Events<E>([]) == [] && Results<E>([]) == []
  {
  }

  /** As many as the budget and what was pending allow, and no more of either kind than was pending. */
  lemma {:induction false} DrainCounts<E>(q: Queues<E>, left: nat, e: nat, r: nat)
    requires e <= |q.events| && r <= |q.results|
    ensures var ds := Drain(q, left, e, r).1;
      && |ds| == (if left < e + r then left else e + r)
      && |Events(ds)| + |Results(ds)| == |ds| && |Events(ds)| <= e && |Results(ds)| <= r
    decreases left
  {
    hide Events, Results;
    if left == 0 || (e == 0 && r == 0) {
      Nil<E>();
    } else if r > 0 && (q.resultNext || e == 0) {
      DrainCounts(AfterResult(q), left - 1, e, r - 1);
      Uncons(Result(q.results[0]), Drain(AfterResult(q), left - 1, e, r - 1).1);
    } else {
      DrainCounts(AfterEvent(q), left - 1, e - 1, r);
      Uncons(Event(q.events[0]), Drain(AfterEvent(q), left - 1, e - 1, r).1);
    }
  }

  /** The next delivery put before a drain that keeps each queue's order keeps it too. */
  lemma OrderStep<E>(q: Queues<E>, q1: Queues<E>, d: Delivered<E>, q': Queues<E>, ds: seq<Delivered<E>>)
    requires Events(ds) + q'.events == q1.events && Results(ds) + q'.results == q1.results
    requires q.events == (if d.Event? then [d.event] else []) + q1.events
    requires q.results == (if d.Result? then [d.id] else []) + q1.results
    ensures Events([d] + ds) + q'.events == q.events && Results([d] + ds) + q'.results == q.results
  {
    Uncons(d, ds);
    hide Events, Results;
    assert forall a: seq<E> :: a + (Events(ds) + q'.events) == (a + Events(ds)) + q'.events;
    assert forall a: seq<byte> :: a + (Results(ds) + q'.results) == (a + Results(ds)) + q'.results;
  }

  /** Each queue in its own order with nothing lost. */
  lemma {:induction false} DrainInOrder<E>(q: Queues<E>, left: nat, e: nat, r: nat)
    requires e <= |q.events| && r <= |q.results|
    ensures var (q', ds) := Drain(q, left, e, r);
      Events(ds) + q'.events == q.events && Results(ds) + q'.results == q.results
    decreases left
  {
    hide Events, Results;
    if left == 0 || (e == 0 && r == 0) {
      Nil<E>();
      assert [] + q.events == q.events && [] + q.results == q.results;
    } else if r > 0 && (q.resultNext || e == 0) {
      var q1, d := AfterResult(q), Result(q.results[0]);
      DrainInOrder(q1, left - 1, e, r - 1);
      assert q.results == [q.results[0]] + q1.results && q.events == [] + q1.events;
      OrderStep(q, q1, d, Drain(q1, left - 1, e, r - 1).0, Drain(q1, left - 1, e, r - 1).1);
    } else {
      var q1, d := AfterEvent(q), Event(q.events[0]);
      DrainInOrder(q1, left - 1, e - 1, r);
      assert q.events == [q.events[0]] + q1.events && q.results == [] + q1.results;
      OrderStep(q, q1, d, Drain(q1, left - 1, e - 1, r).0, Drain(q1, left - 1, e - 1, r).1);
    }
  }

  /** Exactly the delivered results' ids go back to the pool. */
  lemma {:induction false} DrainReleases<E>(q: Queues<E>, left: nat, e: nat, r: nat)
    requires e <= |q.events| && r <= |q.results|
    ensures Drain(q, left, e, r).0.used == q.used - IdsOf(Results(Drain(q, left, e, r).1))
    decreases left
  {
    hide Events, Results;
    if left == 0 || (e == 0 && r == 0) {
      Nil<E>();
    } else if r > 0 && (q.resultNext || e == 0) {
      var ds := Drain(AfterResult(q), left - 1, e, r - 1).1;
      DrainReleases(AfterResult(q), left - 1, e, r - 1);
      Uncons(Result(q.results[0]), ds);
      assert IdsOf([q.results[0]] + Results(ds)) == {q.results[0]} + IdsOf(Results(ds));
    } else {
      var ds := Drain(AfterEvent(q), left - 1, e - 1, r).1;
      DrainReleases(AfterEvent(q), left - 1, e - 1, r);
      Uncons(Event(q.events[0]), ds);
      assert [] + Results(ds) == Results(ds);
    }
  }

  /** Neither queue falls more than one delivery behind the other while it still has something that was pending. */
  lemma {:induction false} DrainIsFair<E>(q: Queues<E>, left: nat, e: nat, r: nat)
    requires e <= |q.events| && r <= |q.results|
    ensures var ds := Drain(q, left, e, r).1;
      && (|Events(ds)| < e ==> |Results(ds)| <= |Events(ds)| + if q.resultNext then 1 else 0)
      && (|Results(ds)| < r ==> |Events(ds)| <= |Results(ds)| + if q.resultNext then 0 else 1)
    decreases left
  {
    hide Events, Results;
    DrainCounts(q, left, e, r);
    if left == 0 || (e == 0 && r == 0) {
      Nil<E>();
    } else if r > 0 && (q.resultNext || e == 0) {
      DrainIsFair(AfterResult(q), left - 1, e, r - 1);
      Uncons(Result(q.results[0]), Drain(AfterResult(q), left - 1, e, r - 1).1);
    } else {
      DrainIsFair(AfterEvent(q), left - 1, e - 1, r);
      Uncons(Event(q.events[0]), Drain(AfterEvent(q), left - 1, e - 1, r).1);
    }
  }

  /** The rings, the alternation flag and the id pool; deliveries are logged in place of the two callbacks. */
  class Outbox<E(0)> {
    const events: Ring<E>
    const results: Ring<byte>
    var resultNext: bool
    var used: set<byte>
    var log: seq<Delivered<E>>

    ghost predicate Valid()
      reads this, events, events.storage, results, results.storage
    {
      && events.Valid() && results.Valid()
      && {events, events.storage} !! {results, results.storage}
        && this !in {events, events.storage, results, results.storage}
    }

    ghost function Value(): Queues<E>
      requires Valid()
      reads this, events, events.storage, results, results.storage
    {
      Queues(events.Contents(), results.Contents(), resultNext, used)
    }

    constructor (capacity: nat)
      requires capacity > 0
      ensures Valid() && Value() == Queues([], [], false, {}) && log == []
    {
      events := new Ring<E>(capacity);
      results := new Ring<byte>(capacity);
      resultNext, used, log := false, {}, [];
    }

    /** The next result, its id released. */
    method DeliverResult()
      requires Valid() && results.count > 0
      modifies this, results
      ensures Valid() && events.count == old(events.count) && results.count == old(results.count) - 1
      ensures var q := old(Value());
        Value() == AfterResult(q) && log == old(log) + [Result(q.results[0])]
    {
      var got := results.Pop();
      used := used - {got.value};
      resultNext := false;
      log := log + [Result(got.value)];
    }

    method DeliverEvent()
      requires Valid() && events.count > 0
      modifies this, events
      ensures Valid() && results.count == old(results.count) && events.count == old(events.count) - 1
      ensures var q := old(Value());
        Value() == AfterEvent(q) && log == old(log) + [Event(q.events[0])]
    {
      var got := events.Pop();
      resultNext := true;
      log := log + [Event(got.value)];
    }

    /** The next delivery of a drain that has some left. */
    method DeliverNext(left: nat, e: nat, r: nat) returns (e': nat, r': nat)
      requires Valid() && e <= |Value().events| && r <= |Value().results| && left > 0 && (e > 0 || r > 0)
      modifies this, events, results
      ensures Valid() && e' <= |Value().events| && r' <= |Value().results|
      ensures var d := Drain(old(Value()), left, e, r);
        && d.1 != [] && log == old(log) + [d.1[0]]
        && Drain(Value(), left - 1, e', r') == (d.0, d.1[1..])
    {
      DrainTurn(Value(), left, e, r);
      hide Drain;
      if r > 0 && (resultNext || e == 0) {
        DeliverResult();
        return e, r - 1;
      }
      DeliverEvent();
      return e - 1, r;
    }

    method DrainCallbacks(max: nat)
      requires Valid()
      modifies this, events, results
      ensures Valid()
      ensures var q := old(Value()); var d := Drain(q, max, |q.events|, |q.results|);
        Value() == d.0 && log == old(log) + d.1
    {
      var left: nat, e: nat, r: nat := max, events.count, results.count;
      ghost var d := Drain(Value(), max, e, r);
      ghost var done := 0;
      assert log == log + d.1[..0] && d.1[0..] == d.1;
      while left > 0 && (e > 0 || r > 0)
        invariant Valid() && e <= |Value().events| && r <= |Value().results|
        invariant done <= |d.1| && log == old(log) + d.1[..done]
        invariant Drain(Value(), left, e, r) == (d.0, d.1[done..])
        decreases left
      {
        DrainSome(Value(), left, e, r);
        hide Drain;
        e, r := DeliverNext(left, e, r);
        left := left - 1;
        assert d.1[done..][0] == d.1[done] && d.1[done..][1..] == d.1[done + 1..];
        assert d.1[..done + 1] == d.1[..done] + [d.1[done]];
        done := done + 1;
      }
      assert d.1[done..] == [] && d.1[..done] == d.1;
    }
  }

  lemma DrainSome<E>(q: Queues<E>, left: nat, e: nat, r: nat)
    requires e <= |q.events| && r <= |q.results| && left > 0 && (e > 0 || r > 0)
    ensures Drain(q, left, e, r).1 != []
  {
  }

  /** One turn: which queue it takes from, and what is left to do. */
  lemma DrainTurn<E>(q: Queues<E>, left: nat, e: nat, r: nat)
    requires e <= |q.events| && r <= |q.results| && left > 0 && (e > 0 || r > 0)
    ensures var d := Drain(q, left, e, r);
      d.1 != [] &&
      if r > 0 && (q.resultNext || e == 0) then
        d.1[0] == Result(q.results[0]) && Drain(AfterResult(q), left - 1, e, r - 1) == (d.0, d.1[1..])
      else
        d.1[0] == Event(q.events[0]) && Drain(AfterEvent(q), left - 1, e - 1, r) == (d.0, d.1[1..])
  {
  }
}
