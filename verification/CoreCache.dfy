/** Descriptor-cache coherence: one entry per key, exact reference counts, and no descriptor but a checked one. */
module CoreCache {
  import opened Protocol
  import opened Crc16
  import opened Core

  /** How many nodes point at entry `i`. */
  function Pointing(nodes: seq<Node>, i: nat): nat {
    if nodes == [] then 0
    else Pointing(nodes[..|nodes| - 1], i) + if nodes[|nodes| - 1].descriptor == Some(i) then 1 else 0
  }

  function One(n: Node, i: nat): nat {
    if n.descriptor == Some(i) then 1 else 0
  }

  lemma {:induction false} PointingUpdate(nodes: seq<Node>, k: nat, n: Node, i: nat)
    requires k < |nodes|
    ensures Pointing(nodes[k := n], i) == Pointing(nodes, i) - One(nodes[k], i) + One(n, i)
  {
    var last := |nodes| - 1;
    if k == last {
      assert nodes[k := n][..last] == nodes[..last];
    } else {
      assert nodes[k := n][..last] == nodes[..last][k := n];
      PointingUpdate(nodes[..last], k, n, i);
    }
  }

  lemma {:induction false} PointingSome(nodes: seq<Node>, k: nat, i: nat)
    requires k < |nodes| && nodes[k].descriptor == Some(i)
    ensures Pointing(nodes, i) > 0
  {
    if k < |nodes| - 1 { PointingSome(nodes[..|nodes| - 1], k, i); }
  }

  lemma {:induction false} PointingNone(nodes: seq<Node>, i: nat)
    requires forall n :: n in nodes ==> n.descriptor != Some(i)
    ensures Pointing(nodes, i) == 0
  {
    if nodes != [] {
      assert nodes[|nodes| - 1] in nodes;
      PointingNone(nodes[..|nodes| - 1], i);
    }
  }

  // ---------------------------------------------------------------- the invariant

  /** An entry in use holds a prefix of its descriptor; a complete one all of it, with the CRC it was advertised by. */
  predicate EntryOk(e: Entry) {
    e.inUse ==>
      && |e.blob| <= e.key.len <= MAX_DESCRIPTOR_BYTES
      && (e.complete ==> |e.blob| == e.key.len && (e.key.len > 0 ==> Crc(e.blob) == e.key.crc))
      && (e.key.len == 0 ==> e.complete)
  }

  predicate OnePerKey(entries: seq<Entry>) {
    forall i, j :: 0 <= i < j < |entries| && entries[i].inUse && entries[j].inUse ==> entries[i].key != entries[j].key
  }

  /** Discovered exactly when it has a descriptor, and that one is complete and the node's own. */
  predicate NodeOk(n: Node, entries: seq<Entry>) {
    && (n.descriptor.Some? <==> n.inUse && n.discovery == Discovered)
    && (n.descriptor.Some? ==>
      n.descriptor.value < |entries| && var e := entries[n.descriptor.value]; e.inUse && e.complete && e.key == n.key)
    && (!n.inUse ==> n.discovery == Undiscovered)
  }

  predicate Counts(t: Tables)
    requires Shape(t)
  {
    forall i :: 0 <= i < CACHE_ENTRIES ==> t.entries[i].refcount == Pointing(t.nodes, i)
  }

  predicate Coherent(t: Tables)
    requires Shape(t)
  {
    && (forall i :: 0 <= i < CACHE_ENTRIES ==> EntryOk(t.entries[i]))
    && OnePerKey(t.entries)
    && (forall k :: 0 <= k < MODULE_IDS ==> NodeOk(t.nodes[k], t.entries))
    && Counts(t)
  }

  /** An incomplete or unused entry has nobody pointing at it. */
  lemma NobodyPoints(t: Tables, i: nat)
    requires Shape(t) && Coherent(t) && i < CACHE_ENTRIES && !(t.entries[i].inUse && t.entries[i].complete)
    ensures t.entries[i].refcount == 0
    ensures forall k :: 0 <= k < MODULE_IDS ==> t.nodes[k].descriptor != Some(i)
  {
    hide Pointing, EntryOk, OnePerKey;
    forall k | 0 <= k < MODULE_IDS ensures t.nodes[k].descriptor != Some(i) {
      assert NodeOk(t.nodes[k], t.entries);
    }
    PointingNone(t.nodes, i);
  }

  // ---------------------------------------------------------------- one record changed

  /** A node record without a descriptor replaced by another without one. */
  lemma NodeSwap(t: Tables, id: byte, n: Node)
    requires Shape(t) && Coherent(t) && IsModule(id)
    requires NodeOf(t, id).descriptor.None? && n.descriptor.None? && NodeOk(n, t.entries)
    ensures Coherent(PutNode(t, id, n))
  {
    hide Pointing, EntryOk, OnePerKey;
    var k := id - ADDR_MODULE_MIN;
    forall i | 0 <= i < CACHE_ENTRIES ensures Pointing(t.nodes[k := n], i) == Pointing(t.nodes, i) {
      PointingUpdate(t.nodes, k, n, i);
    }
  }

  /** An entry nobody points at replaced by one with no references. */
  lemma EntrySwap(t: Tables, i: nat, e: Entry)
    requires Shape(t) && Coherent(t) && i < CACHE_ENTRIES && EntryOk(e) && e.refcount == 0
    requires forall k :: 0 <= k < MODULE_IDS ==> t.nodes[k].descriptor != Some(i)
    requires e.inUse ==> forall j :: 0 <= j < CACHE_ENTRIES && j != i && t.entries[j].inUse ==>
      t.entries[j].key != e.key
    ensures Coherent(PutEntry(t, i, e))
  {
    hide Pointing, EntryOk;
    PointingNone(t.nodes, i);
    forall k | 0 <= k < MODULE_IDS ensures NodeOk(t.nodes[k], t.entries[i := e]) {
      assert NodeOk(t.nodes[k], t.entries);
    }
  }

  lemma MarkKeeps(t: Tables, id: byte, i: nat)
    requires Shape(t) && Coherent(t) && IsModule(id) && i < CACHE_ENTRIES
    requires NodeOf(t, id).inUse && NodeOf(t, id).descriptor.None?
    requires t.entries[i].inUse && t.entries[i].complete && t.entries[i].key == NodeOf(t, id).key
    ensures Coherent(MarkDiscovered(t, id, i))
  {
    hide Pointing, EntryOk;
    var t', k := MarkDiscovered(t, id, i), id - ADDR_MODULE_MIN;
    forall j | 0 <= j < CACHE_ENTRIES ensures t'.entries[j].refcount == Pointing(t'.nodes, j) {
      PointingUpdate(t.nodes, k, t'.nodes[k], j);
    }
    forall j | 0 <= j < CACHE_ENTRIES ensures EntryOk(t'.entries[j]) {
      assert EntryOk(t.entries[j]);
      SameEntry(t.entries[j], t'.entries[j]);
    }
    forall x | 0 <= x < MODULE_IDS ensures NodeOk(t'.nodes[x], t'.entries) {
      assert NodeOk(t.nodes[x], t.entries);
    }
  }

  lemma SameEntry(e: Entry, e': Entry)
    requires EntryOk(e) && e'.inUse == e.inUse && e'.key == e.key && e'.complete == e.complete && e'.blob == e.blob
    ensures EntryOk(e')
  {
  }

  lemma ReleaseKeeps(t: Tables, id: byte)
    requires Shape(t) && Coherent(t) && IsModule(id)
    ensures var t' := Release(t, id); Coherent(PutNode(t', id, Blank(NodeOf(t', id).everDiscovered)))
  {
    hide Pointing, EntryOk;
    var n, k := NodeOf(t, id), id - ADDR_MODULE_MIN;
    assert NodeOk(t.nodes[k], t.entries);
    if n.descriptor.None? {
      NodeSwap(t, id, Blank(n.everDiscovered));
    } else {
      var i := n.descriptor.value;
      PointingSome(t.nodes, k, i);
      var t' := PutNode(Release(t, id), id, Blank(n.everDiscovered));
      assert t'.nodes == t.nodes[k := Blank(n.everDiscovered)];
      forall j | 0 <= j < CACHE_ENTRIES ensures t'.entries[j].refcount == Pointing(t'.nodes, j) {
        PointingUpdate(t.nodes, k, t'.nodes[k], j);
      }
      forall j | 0 <= j < CACHE_ENTRIES ensures EntryOk(t'.entries[j]) {
        SameEntry(t.entries[j], t'.entries[j]);
      }
      forall x | 0 <= x < MODULE_IDS ensures NodeOk(t'.nodes[x], t'.entries) {
        assert NodeOk(t.nodes[x], t.entries);
      }
    }
  }

  // ---------------------------------------------------------------- attaching

  lemma {:induction false} AttachKeeps(t: Tables, i: nat, id: nat)
    requires Shape(t) && Coherent(t) && i < CACHE_ENTRIES && ADDR_MODULE_MIN <= id <= ADDR_MODULE_MAX + 1
    requires t.entries[i].inUse && t.entries[i].complete
    ensures Coherent(Attach(t, i, id))
    decreases ADDR_MODULE_MAX + 1 - id
  {
    hide Coherent, EntryOk, Enqueue;
    if id <= ADDR_MODULE_MAX {
      if Waits(NodeOf(t, id), t.entries[i].key) {
        WaiterHasNone(t, id);
        MarkKeeps(t, id, i);
        MarkLeaves(t, id, i);
        AttachKeeps(MarkDiscovered(t, id, i), i, id + 1);
      } else {
        AttachKeeps(t, i, id + 1);
      }
    }
  }

  lemma WaiterHasNone(t: Tables, id: byte)
    requires Shape(t) && Coherent(t) && IsModule(id) && NodeOf(t, id).discovery != Discovered
    ensures NodeOf(t, id).descriptor.None?
  {
    hide EntryOk, OnePerKey, Counts;
    assert NodeOk(t.nodes[id - ADDR_MODULE_MIN], t.entries);
  }

  lemma MarkLeaves(t: Tables, id: byte, i: nat)
    requires Shape(t) && IsModule(id) && i < CACHE_ENTRIES
    ensures var e, e' := t.entries[i], MarkDiscovered(t, id, i).entries[i];
      e'.inUse == e.inUse && e'.complete == e.complete && e'.key == e.key
  {
  }

  // ---------------------------------------------------------------- claiming

  /** A claim takes no entry that a node points at or still reads. */
  lemma ClaimEvictsNobody(t: Tables, key: Key)
    requires Shape(t) && Coherent(t) && Claimable(t, key).Some?
    ensures var i := Claimable(t, key).value;
      && (forall k :: 0 <= k < MODULE_IDS ==> t.nodes[k].descriptor != Some(i))
      && (t.entries[i].inUse ==> !HasReader(t, t.entries[i]))
      && key.len <= MAX_DESCRIPTOR_BYTES
  {
    hide Pointing, EntryOk, OnePerKey, HasReader;
    var i := Claimable(t, key).value;
    if !t.entries[i].inUse {
      NobodyPoints(t, i);
    } else {
      forall k | 0 <= k < MODULE_IDS ensures t.nodes[k].descriptor != Some(i) {
        if t.nodes[k].descriptor == Some(i) { PointingSome(t.nodes, k, i); }
      }
    }
  }

  lemma NotFound(t: Tables, key: Key)
    requires Shape(t) && Find(t, key).None?
    ensures forall j :: 0 <= j < CACHE_ENTRIES && t.entries[j].inUse ==> t.entries[j].key != key
  {
  }

  // ---------------------------------------------------------------- answers

  lemma IdentityKeeps(t: Tables, ring: seq<Chunk>, id: byte, key: Key)
    requires Shape(t) && Coherent(t) && IsModule(id) && |ring| <= MAX_NODES && NodeOf(t, id).discovery != Discovered
    ensures Coherent(OnIdentity(t, ring, id, key).0)
  {
    hide Coherent, EntryOk, MarkDiscovered, Attach, Claimable;
    var n := NodeOf(t, id);
    if n.inUse {
      WaiterHasNone(t, id);
      var found := Find(t, key);
      var reading, retrying := n.(key := key, discovery := ReadingDescriptor, stalled := 0),
        n.(key := key, discovery := Identifying, stalled := 0);
      NodeSwap(t, id, reading);
      NodeSwap(t, id, retrying);
      var t1 := PutNode(t, id, reading);
      if found.Some? {
        if t.entries[found.value].complete {
          var hit := n.(key := key);
          KeyChange(t, id, hit);
          MarkKeeps(PutNode(t, id, hit), id, found.value);
        }
      } else {
        var i := Claimable(t1, key);
        if i.Some? {
          ClaimEvictsNobody(t1, key);
          NotFound(t, key);
          ClaimedOk(key);
          if key.len == 0 {
            EntrySwap(t1, i.value, Claimed(key).(complete := true));
            AttachKeeps(PutEntry(t1, i.value, Claimed(key).(complete := true)), i.value, ADDR_MODULE_MIN);
          } else if |ring| >= MAX_NODES {
            var t2 := PutNode(t, id, retrying);
            assert forall k :: 0 <= k < MODULE_IDS ==> t2.nodes[k].descriptor == t1.nodes[k].descriptor;
            EntrySwap(t2, i.value, Claimed(key).(inUse := false));
          } else {
            EntrySwap(t1, i.value, Claimed(key));
          }
        }
      }
    }
  }

  lemma KeyChange(t: Tables, id: byte, n: Node)
    requires Shape(t) && Coherent(t) && IsModule(id) && NodeOf(t, id).descriptor.None?
    requires n == NodeOf(t, id).(key := n.key)
    ensures Coherent(PutNode(t, id, n))
  {
    hide EntryOk, OnePerKey, Counts;
    assert NodeOk(t.nodes[id - ADDR_MODULE_MIN], t.entries);
    assert NodeOk(n, t.entries);
    NodeSwap(t, id, n);
  }

  lemma ClaimedOk(key: Key)
    requires key.len <= MAX_DESCRIPTOR_BYTES
    ensures key.len > 0 ==> EntryOk(Claimed(key))
    ensures key.len == 0 ==> EntryOk(Claimed(key).(complete := true))
    ensures EntryOk(Claimed(key).(inUse := false))
  {
  }

  /** A node not Discovered keeps the tables coherent whatever its stall marker and progress say. */
  lemma Reword(t: Tables, id: byte, n: Node)
    requires Shape(t) && Coherent(t) && IsModule(id) && NodeOf(t, id).inUse && NodeOf(t, id).discovery != Discovered
    requires n == NodeOf(t, id).(discovery := n.discovery, stalled := n.stalled) && n.discovery != Discovered
    ensures Coherent(PutNode(t, id, n))
  {
    hide Coherent, EntryOk;
    WaiterHasNone(t, id);
    NodeSwap(t, id, n);
  }

  /** Neither the stall marker nor the measured duration matters to the cache. */
  lemma AnnotateKeeps(t: Tables, id: byte, n: Node)
    requires Shape(t) && Coherent(t) && IsModule(id)
    requires n == NodeOf(t, id).(stalled := n.stalled, lastDuration := n.lastDuration)
    ensures Coherent(PutNode(t, id, n))
  {
    hide Pointing, EntryOk, OnePerKey;
    var k := id - ADDR_MODULE_MIN;
    assert NodeOk(t.nodes[k], t.entries) && NodeOk(n, t.entries);
    forall i | 0 <= i < CACHE_ENTRIES ensures Pointing(t.nodes[k := n], i) == Pointing(t.nodes, i) {
      PointingUpdate(t.nodes, k, n, i);
    }
  }

  lemma StallKeeps(t: Tables, id: byte, superframe: nat)
    requires Shape(t) && Coherent(t) && IsModule(id)
    ensures Coherent(Stall(t, id, superframe))
  {
    hide Coherent;
    AnnotateKeeps(t, id, NodeOf(t, id).(stalled := superframe));
  }

  /** An entry in use keeps its key apart from the others whatever its bytes become. */
  lemma Refill(t: Tables, i: nat, e: Entry)
    requires Shape(t) && Coherent(t) && i < CACHE_ENTRIES && t.entries[i].inUse && !t.entries[i].complete
    requires e.key == t.entries[i].key && e.refcount == t.entries[i].refcount && EntryOk(e)
    ensures Coherent(PutEntry(t, i, e))
  {
    hide Pointing, EntryOk;
    NobodyPoints(t, i);
    forall j | 0 <= j < CACHE_ENTRIES && j != i && t.entries[j].inUse ensures t.entries[j].key != e.key {
      if i < j { assert t.entries[i].key != t.entries[j].key; } else { assert t.entries[j].key != t.entries[i].key; }
    }
    EntrySwap(t, i, e);
  }

  lemma AbandonKeeps(t: Tables, id: byte, i: nat)
    requires Shape(t) && Coherent(t) && IsModule(id) && i < CACHE_ENTRIES
    requires NodeOf(t, id).inUse && NodeOf(t, id).discovery != Discovered && t.entries[i].inUse
    requires !t.entries[i].complete
    ensures Coherent(Abandon(t, id, i))
  {
    hide Coherent;
    Refill(t, i, t.entries[i].(inUse := false));
    Reword(PutEntry(t, i, t.entries[i].(inUse := false)), id, NodeOf(t, id).(discovery := Identifying));
  }

  /** A node whose key finds an incomplete entry is not Discovered. */
  lemma ReaderNotDiscovered(t: Tables, id: byte)
    requires Shape(t) && Coherent(t) && IsModule(id)
    requires Find(t, NodeOf(t, id).key).Some? && !t.entries[Find(t, NodeOf(t, id).key).value].complete
    ensures NodeOf(t, id).discovery != Discovered || !NodeOf(t, id).inUse
  {
    hide EntryOk, Counts;
    assert NodeOk(t.nodes[id - ADDR_MODULE_MIN], t.entries);
  }

  lemma ExtendKeeps(t: Tables, ring: seq<Chunk>, id: byte, i: nat, bytes: seq<byte>)
    requires Shape(t) && Coherent(t) && IsModule(id) && |ring| <= MAX_NODES && i < CACHE_ENTRIES
    requires NodeOf(t, id).inUse && NodeOf(t, id).discovery != Discovered && t.entries[i].inUse
    requires !t.entries[i].complete
    requires |t.entries[i].blob| + |bytes| <= t.entries[i].key.len
    ensures Coherent(Extend(t, ring, id, i, bytes).0)
  {
    hide Coherent, Attach, Abandon, Crc;
    var e := t.entries[i];
    var e1 := e.(blob := e.blob + bytes);
    var t0 := if bytes != [] then Stall(t, id, 0) else t;
    StallKeeps(t, id, 0);
    IncompleteBound(t, i);
    Refill(t0, i, e1);
    var t1 := PutEntry(t0, i, e1);
    AbandonKeeps(t1, id, i);
    if |e1.blob| >= e.key.len && Crc(e1.blob) == e.key.crc {
      Refill(t1, i, e1.(complete := true));
      AttachKeeps(PutEntry(t1, i, e1.(complete := true)), i, ADDR_MODULE_MIN);
    }
  }

  lemma IncompleteBound(t: Tables, i: nat)
    requires Shape(t) && Coherent(t) && i < CACHE_ENTRIES && t.entries[i].inUse && !t.entries[i].complete
    ensures 0 < t.entries[i].key.len <= MAX_DESCRIPTOR_BYTES
  {
    assert EntryOk(t.entries[i]);
  }

  lemma ChunkKeeps(t: Tables, ring: seq<Chunk>, id: byte, asked: nat, answer: ChunkAnswer, superframe: nat)
    requires Shape(t) && Coherent(t) && IsModule(id) && |ring| <= MAX_NODES
    ensures Coherent(OnChunk(t, ring, id, asked, answer, superframe).0)
  {
    hide Coherent, Extend, Abandon, Stall;
    var found := Find(t, NodeOf(t, id).key);
    if NodeOf(t, id).inUse && found.Some? && !t.entries[found.value].complete {
      ReaderNotDiscovered(t, id);
      StallKeeps(t, id, superframe);
      AbandonKeeps(t, id, found.value);
      if answer.Bytes? && |t.entries[found.value].blob| + |answer.bytes| <= t.entries[found.value].key.len {
        ExtendKeeps(t, ring, id, found.value, answer.bytes);
      }
    }
  }

  // ---------------------------------------------------------------- slots

  lemma SameCacheKeeps(t: Tables, t': Tables)
    requires Shape(t) && Shape(t') && Coherent(t) && t'.nodes == t.nodes && t'.entries == t.entries
    ensures Coherent(t')
  {
    hide Pointing, EntryOk, OnePerKey, NodeOk;
  }

  lemma SlotKeeps(t: Tables, addr: byte, slot: nat, occupied: bool)
    requires Shape(t) && Coherent(t) && IsBackplane(addr) && slot < MAX_SLOTS
    ensures Coherent(SlotStep(t, addr, slot, occupied))
  {
    hide Coherent, Release;
    var b := BackplaneOf(t, addr);
    if occupied {
      if b.idBySlot[slot] == 0 {
        var free := FreeId(t.nodes, 0);
        if free.Some? {
          var id: byte := ADDR_MODULE_MIN + free.value;
          FreeHasNone(t, id);
          var n := Blank(NodeOf(t, id).everDiscovered).(inUse := true, backplane := addr, slot := slot);
          NodeSwap(t, id, n);
          SameCacheKeeps(PutNode(t, id, n), SlotStep(t, addr, slot, occupied));
        } else {
          SameCacheKeeps(t, SlotStep(t, addr, slot, occupied));
        }
      }
    } else {
      var t0 := PutBackplane(t, addr, SetReported(b, slot, false));
      SameCacheKeeps(t, t0);
      var id := b.idBySlot[slot];
      if id != 0 && IsModule(id) {
        ReleaseKeeps(t0, id);
        var r := Release(t0, id);
        SameCacheKeeps(PutNode(r, id, Blank(NodeOf(r, id).everDiscovered)), SlotStep(t, addr, slot, occupied));
      } else {
        SameCacheKeeps(t0, SlotStep(t, addr, slot, occupied));
      }
    }
  }

  lemma FreeHasNone(t: Tables, id: byte)
    requires Shape(t) && Coherent(t) && IsModule(id) && !NodeOf(t, id).inUse
    ensures NodeOf(t, id).descriptor.None?
  {
    hide EntryOk, OnePerKey, Counts;
    assert NodeOk(t.nodes[id - ADDR_MODULE_MIN], t.entries);
  }

  lemma {:induction false} SlotsKeep(t: Tables, addr: byte, m: SlotMap, n: nat)
    requires Shape(t) && Coherent(t) && IsBackplane(addr) && n <= MAX_SLOTS
    ensures Coherent(Slots(t, addr, m, n))
  {
    hide Coherent, SlotStep, Occupied;
    if n > 0 {
      SlotsKeep(t, addr, m, n - 1);
      SlotKeeps(Slots(t, addr, m, n - 1), addr, n - 1, Occupied(m, n - 1));
    }
  }

  lemma ReconcileKeepsCoherence(t: Tables, addr: byte, m: SlotMap)
    requires Shape(t) && Coherent(t)
    ensures Coherent(Reconcile(t, addr, m))
  {
    hide Coherent, Slots;
    if IsBackplane(addr) {
      var t1 := PutBackplane(t, addr, BackplaneOf(t, addr).(slotCount := SlotCount(m)));
      SameCacheKeeps(t, t1);
      SlotsKeep(t1, addr, m, MAX_SLOTS);
    }
  }

  lemma StartIsCoherent()
    ensures Coherent(Start())
  {
    hide Crc;
    var t := Start();
    forall i | 0 <= i < CACHE_ENTRIES ensures Pointing(t.nodes, i) == 0 {
      PointingNone(t.nodes, i);
    }
  }
}
