/** The notices answers give rise to: one for each node they make Discovered. */
module CoreNews {
  import opened Protocol
  import opened Crc16
  import opened Core
  import opened CoreDiscovery
  import opened CoreNotices

  lemma MarkAnnounces(t: Tables, id: byte, i: nat)
    requires Shape(t) && IsModule(id) && i < CACHE_ENTRIES
    ensures var n := NodeOf(t, id);
      Announces(t, MarkDiscovered(t, id, i),
        [Lifecycle(if n.everDiscovered then NodeRediscovered else NodeDiscovered, id, n.slot)])
  {
    var n := NodeOf(t, id);
    var x := Lifecycle(if n.everDiscovered then NodeRediscovered else NodeDiscovered, id, n.slot);
    assert [x][..0] == [] && t.lifecycle + [] == t.lifecycle;
  }

  lemma {:induction false} AttachAnnounces(t: Tables, i: nat, id: nat)
    requires Shape(t) && i < CACHE_ENTRIES && ADDR_MODULE_MIN <= id <= ADDR_MODULE_MAX + 1
    ensures Announces(t, Attach(t, i, id), Discoveries(t, Attach(t, i, id), id))
    decreases ADDR_MODULE_MAX + 1 - id
  {
    hide Announced, MarkDiscovered;
    if id > ADDR_MODULE_MAX {
      NothingAnnounced(t);
    } else {
      var waits := Waits(NodeOf(t, id), t.entries[i].key);
      var t1 := if waits then MarkDiscovered(t, id, i) else t;
      var t' := Attach(t1, i, id + 1);
      MarkTouches(t, id, i);
      AttachAnnounces(t1, i, id + 1);
      AttachLeavesOthers(t1, i, id + 1, id);
      SameDiscoveries(t, t1, t', t', id + 1);
      if waits {
        MarkAnnounces(t, id, i);
        var n := NodeOf(t, id);
        var x := Lifecycle(if n.everDiscovered then NodeRediscovered else NodeDiscovered, id, n.slot);
        AnnounceThen(t, t1, t', [x], Discoveries(t, t', id + 1));
      } else {
        assert [] + Discoveries(t, t', id + 1) == Discoveries(t, t', id + 1);
      }
    }
  }

  /** Attaching over tables that differ only in what no notice tells. */
  lemma AttachTells(t: Tables, t1: Tables, i: nat)
    requires Shape(t) && Shape(t1) && i < CACHE_ENTRIES && SameNews(t, t1, ADDR_MODULE_MIN)
    requires t1.lifecycle == t.lifecycle && t1.dropped == t.dropped
    ensures var t' := Attach(t1, i, ADDR_MODULE_MIN); Announces(t, t', Discoveries(t, t', ADDR_MODULE_MIN))
  {
    hide Attach, Discoveries, SameNews, Announces;
    AttachAnnounces(t1, i, ADDR_MODULE_MIN);
    var t' := Attach(t1, i, ADDR_MODULE_MIN);
    SelfNews(t');
    SameDiscoveries(t, t1, t', t', ADDR_MODULE_MIN);
    SameQueue(t, t1, t', Discoveries(t1, t', ADDR_MODULE_MIN));
  }

  lemma SelfNews(t: Tables)
    requires Shape(t)
    ensures SameNews(t, t, ADDR_MODULE_MIN)
  {
  }

  lemma SameQueue(t: Tables, t1: Tables, t': Tables, events: seq<Lifecycle>)
    requires Shape(t) && Shape(t1) && t1.lifecycle == t.lifecycle && t1.dropped == t.dropped
    requires Announces(t1, t', events)
    ensures Announces(t, t', events)
  {
  }

  /** At most one node rewritten, and it not made Discovered. */
  predicate Touches(t: Tables, t': Tables, id: byte)
    requires Shape(t) && Shape(t') && IsModule(id)
  {
    && t'.nodes == t.nodes[id - ADDR_MODULE_MIN := NodeOf(t', id)]
    && t'.lifecycle == t.lifecycle && t'.dropped == t.dropped
    && (NodeOf(t', id).discovery == Discovered ==> NodeOf(t, id).discovery == Discovered)
  }

  lemma TouchesTells(t: Tables, t': Tables, id: byte)
    requires Shape(t) && Shape(t') && IsModule(id) && Touches(t, t', id)
    ensures Announces(t, t', Discoveries(t, t', ADDR_MODULE_MIN))
  {
    NoDiscoveries(t, t', ADDR_MODULE_MIN);
    NothingAnnounced(t);
    SameQueue(t, t, t', []);
  }

  /** A chunk's answer but for a descriptor made whole. */
  lemma ChunkTouches(t: Tables, ring: seq<Chunk>, id: byte, i: nat, bytes: seq<byte>, sf: nat)
    requires Shape(t) && IsModule(id) && |ring| <= MAX_NODES && i < CACHE_ENTRIES
    ensures Touches(t, t, id) && Touches(t, Stall(t, id, sf), id) && Touches(t, Abandon(t, id, i), id)
    ensures var e := t.entries[i];
      var t1 := PutEntry(if bytes != [] then Stall(t, id, 0) else t, i, e.(blob := e.blob + bytes));
      && Touches(t, Abandon(t1, id, i), id) && Touches(t, t1, id) && t1.entries[i] == e.(blob := e.blob + bytes)
      && forall e' :: SameNews(t, PutEntry(t1, i, e'), ADDR_MODULE_MIN)
  {
  }

  lemma ExtendTells(t: Tables, ring: seq<Chunk>, id: byte, i: nat, bytes: seq<byte>)
    requires Shape(t) && IsModule(id) && |ring| <= MAX_NODES && i < CACHE_ENTRIES
    ensures var t' := Extend(t, ring, id, i, bytes).0; Announces(t, t', Discoveries(t, t', ADDR_MODULE_MIN))
  {
    hide Attach, Announces, Discoveries, Crc, Touches, Abandon, SameNews;
    ChunkTouches(t, ring, id, i, bytes, 0);
    var e, t' := t.entries[i], Extend(t, ring, id, i, bytes).0;
    var t1 := PutEntry(if bytes != [] then Stall(t, id, 0) else t, i, e.(blob := e.blob + bytes));
    if |e.blob + bytes| >= e.key.len && Crc(e.blob + bytes) == e.key.crc {
      AttachTells(t, PutEntry(t1, i, e.(blob := e.blob + bytes, complete := true)), i);
    } else {
      TouchesTells(t, t', id);
    }
  }

  /** A chunk queues one notice for each node it makes Discovered, lowest id first, and no other. */
  lemma ChunkTells(t: Tables, ring: seq<Chunk>, id: byte, asked: nat, answer: ChunkAnswer, sf: nat)
    requires Shape(t) && IsModule(id) && |ring| <= MAX_NODES
    ensures var t' := OnChunk(t, ring, id, asked, answer, sf).0;
      Announces(t, t', Discoveries(t, t', ADDR_MODULE_MIN))
  {
    hide Announces, Discoveries, Touches, Abandon, Stall, Extend;
    var found := Find(t, NodeOf(t, id).key);
    var t' := OnChunk(t, ring, id, asked, answer, sf).0;
    ChunkTouches(t, ring, id, if found.Some? then found.value else 0, [], sf);
    if found.Some? && answer.Bytes? {
      ExtendTells(t, ring, id, found.value, answer.bytes);
      if t' != Extend(t, ring, id, found.value, answer.bytes).0 { TouchesTells(t, t', id); }
    } else {
      TouchesTells(t, t', id);
    }
  }

  /** So does an identity. */
  lemma IdentityTells(t: Tables, ring: seq<Chunk>, id: byte, key: Key)
    requires Shape(t) && IsModule(id) && |ring| <= MAX_NODES && NodeOf(t, id).discovery != Discovered
    ensures var t' := OnIdentity(t, ring, id, key).0; Announces(t, t', Discoveries(t, t', ADDR_MODULE_MIN))
  {
    hide Attach, Announces, Discoveries, Claimable, MarkDiscovered, SameNews;
    var n, t' := NodeOf(t, id), OnIdentity(t, ring, id, key).0;
    var found := Find(t, key);
    if n.inUse && found.Some? && t.entries[found.value].complete {
      var t1 := PutNode(t, id, n.(key := key));
      MarkAnnounces(t1, id, found.value);
      MarkTouches(t1, id, found.value);
      OneDiscovery(t, t', id, ADDR_MODULE_MIN);
      SameQueue(t, t1, t', Discoveries(t, t', ADDR_MODULE_MIN));
    } else {
      var reading := n.(key := key, discovery := ReadingDescriptor, stalled := 0);
      var i := Claimable(PutNode(t, id, reading), key);
      if n.inUse && found.None? && i.Some? && key.len == 0 {
        var t1 := PutEntry(PutNode(t, id, reading), i.value, Claimed(key).(complete := true));
        ReadingIsNoNews(t, t1, id, key);
        AttachTells(t, t1, i.value);
      } else {
        TouchesTells(t, t', id);
      }
    }
  }

  lemma ReadingIsNoNews(t: Tables, t1: Tables, id: byte, key: Key)
    requires Shape(t) && Shape(t1) && IsModule(id) && NodeOf(t, id).discovery != Discovered
    requires t1.nodes == t.nodes[id - ADDR_MODULE_MIN :=
      NodeOf(t, id).(key := key, discovery := ReadingDescriptor, stalled := 0)]
    ensures SameNews(t, t1, ADDR_MODULE_MIN)
  {
  }

  lemma {:induction false} OneDiscovery(t: Tables, t': Tables, id: byte, from: nat)
    requires Shape(t) && Shape(t') && IsModule(id) && ADDR_MODULE_MIN <= from <= ADDR_MODULE_MAX + 1
    requires NodeOf(t, id).discovery != Discovered && NodeOf(t', id).discovery == Discovered
    requires forall a: byte :: IsModule(a) && a != id ==> NodeOf(t', a) == NodeOf(t, a)
    ensures Discoveries(t, t', from) ==
      if from > id then []
      else [Lifecycle(if NodeOf(t, id).everDiscovered then NodeRediscovered
        else NodeDiscovered, id, NodeOf(t, id).slot)]
    decreases ADDR_MODULE_MAX + 1 - from
  {
    if from <= ADDR_MODULE_MAX {
      assert IsModule(from);
      OneDiscovery(t, t', id, from + 1);
    }
  }
}
