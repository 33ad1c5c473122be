/** The queue of lifecycle notices, and which node has one to send when a descriptor becomes whole. */
module CoreNotices {
  import opened Protocol
  import opened Core
  import CoreCache

  /** The queue after these events: as many as there is room for, the newest dropped and counted. */
  function Announced(t: Tables, events: seq<Lifecycle>): (q: (seq<Lifecycle>, nat))
    requires Shape(t)
  {
    var room := MAX_NODES - |t.lifecycle|;
    if |events| <= room then (t.lifecycle + events, t.dropped)
    else (t.lifecycle + events[..room], t.dropped + |events| - room)
  }

  predicate Announces(t: Tables, t': Tables, events: seq<Lifecycle>)
    requires Shape(t)
  {
    (t'.lifecycle, t'.dropped) == Announced(t, events)
  }

  lemma AnnounceThen(t: Tables, t1: Tables, t2: Tables, a: seq<Lifecycle>, b: seq<Lifecycle>)
    requires Shape(t) && Shape(t1) && Announces(t, t1, a) && Announces(t1, t2, b)
    ensures Announces(t, t2, a + b)
  {
    var room := MAX_NODES - |t.lifecycle|;
    if |a| <= room {
      assert t.lifecycle + a + b == t.lifecycle + (a + b);
      if |a + b| > room {
        assert (a + b)[..room] == a + b[..room - |a|];
        assert t.lifecycle + a + b[..room - |a|] == t.lifecycle + (a + b[..room - |a|]);
      }
    } else {
      assert b[..0] == [] && t1.lifecycle + [] == t1.lifecycle;
      assert (a + b)[..room] == a[..room];
    }
  }

  lemma NothingAnnounced(t: Tables)
    requires Shape(t)
    ensures Announces(t, t, [])
  {
    assert t.lifecycle + [] == t.lifecycle;
  }

  // ---------------------------------------------------------------- discoveries

  /** One for each node that has become Discovered, from `id` up: known for the first time, or known again. */
  function Discoveries(t: Tables, t': Tables, id: nat): seq<Lifecycle>
    requires Shape(t) && Shape(t') && ADDR_MODULE_MIN <= id <= ADDR_MODULE_MAX + 1
    decreases ADDR_MODULE_MAX + 1 - id
  {
    if id > ADDR_MODULE_MAX then []
    else
      var n, n' := NodeOf(t, id), NodeOf(t', id);
      (if n.discovery != Discovered && n'.discovery == Discovered then
        [Lifecycle(if n.everDiscovered then NodeRediscovered else NodeDiscovered, id, n.slot)]
       else []) + Discoveries(t, t', id + 1)
  }

  /** What Discoveries reads. */
  predicate SameNews(t: Tables, t': Tables, id: nat)
    requires Shape(t) && Shape(t') && ADDR_MODULE_MIN <= id
  {
    forall a: byte :: IsModule(a) && a >= id ==>
      && (NodeOf(t', a).discovery == Discovered <==> NodeOf(t, a).discovery == Discovered)
      && NodeOf(t', a).everDiscovered == NodeOf(t, a).everDiscovered && NodeOf(t', a).slot == NodeOf(t, a).slot
  }

  lemma {:induction false} SameDiscoveries(t: Tables, t1: Tables, u: Tables, u1: Tables, id: nat)
    requires Shape(t) && Shape(t1) && Shape(u) && Shape(u1) && ADDR_MODULE_MIN <= id <= ADDR_MODULE_MAX + 1
    requires SameNews(t, t1, id) && SameNews(u, u1, id)
    ensures Discoveries(t, u, id) == Discoveries(t1, u1, id)
    decreases ADDR_MODULE_MAX + 1 - id
  {
    if id <= ADDR_MODULE_MAX {
      assert IsModule(id);
      SameDiscoveries(t, t1, u, u1, id + 1);
    }
  }

  lemma {:induction false} NoDiscoveries(t: Tables, t': Tables, id: nat)
    requires Shape(t) && Shape(t') && ADDR_MODULE_MIN <= id <= ADDR_MODULE_MAX + 1
    requires forall a: byte :: IsModule(a) && a >= id && NodeOf(t', a).discovery == Discovered ==>
      NodeOf(t, a).discovery == Discovered
    ensures Discoveries(t, t', id) == []
    decreases ADDR_MODULE_MAX + 1 - id
  {
    if id <= ADDR_MODULE_MAX {
      assert IsModule(id);
      NoDiscoveries(t, t', id + 1);
    }
  }
}
