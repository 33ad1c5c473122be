/** The host core's tables updated in place, proved against Core. */
module CoreTables {
  import opened Protocol
  import opened Crc16
  import opened Core
  import opened Ring

  class CoreTables {
    const nodes: array<Node>
    const backplanes: array<Backplane>
    const entries: array<Entry>
    const lifecycle: Ring<Lifecycle>
    var dropped: nat

    ghost function Repr(): set<object>
    {
      {this, nodes, backplanes, entries, lifecycle, lifecycle.storage}
    }

    ghost predicate Valid()
      reads this, nodes, backplanes, entries, lifecycle, lifecycle.storage
    {
      lifecycle.Valid() && lifecycle.storage.Length == MAX_NODES && Shape(Value())
    }

    ghost function Value(): Tables
      requires lifecycle.Valid()
      reads this, nodes, backplanes, entries, lifecycle, lifecycle.storage
    {
      Tables(nodes[..], backplanes[..], entries[..], lifecycle.Contents(), dropped)
    }

    constructor ()
      ensures Valid() && Value() == Start() && fresh(Repr())
    {
      nodes := new Node[MODULE_IDS](i => Blank(false));
      backplanes := new Backplane[ADDR_BACKPLANE_MAX](i => Backplane(0, seq(MAX_SLOTS, j => 0), {}, 0));
      entries := new Entry[CACHE_ENTRIES](i => Entry(false, NO_KEY, false, [], 0));
      lifecycle := new Ring<Lifecycle>(MAX_NODES);
      dropped := 0;
      new;
      assert nodes[..] == Start().nodes && backplanes[..] == Start().backplanes && entries[..] == Start().entries;
    }

    // One record stored.

    method SetNode(id: byte, n: Node)
      requires Valid() && IsModule(id)
      modifies nodes
      ensures Valid() && Value() == PutNode(old(Value()), id, n)
    {
      nodes[id - ADDR_MODULE_MIN] := n;
    }

    method SetEntry(i: nat, e: Entry)
      requires Valid() && i < CACHE_ENTRIES
      modifies entries
      ensures Valid() && Value() == PutEntry(old(Value()), i, e)
    {
      entries[i] := e;
    }

    method SetBackplane(addr: byte, b: Backplane)
      requires Valid() && IsBackplane(addr) && |b.idBySlot| == MAX_SLOTS
      modifies backplanes
      ensures Valid() && Value() == PutBackplane(old(Value()), addr, b)
    {
      backplanes[addr - 1] := b;
    }

    method Enqueue(ev: Lifecycle) returns (ok: bool)
      requires Valid()
      modifies this`dropped, lifecycle, lifecycle.storage
      ensures Valid() && Value() == Core.Enqueue(old(Value()), ev)
      ensures ok <==> |old(Value()).lifecycle| < MAX_NODES
    {
      ok := lifecycle.Push(ev);
      if !ok { dropped := dropped + 1; }
    }

    // The descriptor cache.

    method Find(key: Key) returns (r: Option<nat>)
      requires Valid()
      ensures r == Core.Find(Value(), key)
    {
      var i := 0;
      while i < CACHE_ENTRIES
        invariant 0 <= i <= CACHE_ENTRIES && Core.Find(Value(), key) == FindFrom(entries[..], key, i)
      {
        if entries[i].inUse && entries[i].key == key { return Some(i); }
        i := i + 1;
      }
      return None;
    }

    method HasReader(e: Entry) returns (b: bool)
      requires Valid()
      ensures b <==> Core.HasReader(Value(), e)
    {
      var k := 0;
      while k < MODULE_IDS
        invariant 0 <= k <= MODULE_IDS
        invariant forall j :: 0 <= j < k ==>
          !(nodes[j].inUse && nodes[j].discovery == ReadingDescriptor && nodes[j].key == e.key)
      {
        if nodes[k].inUse && nodes[k].discovery == ReadingDescriptor && nodes[k].key == e.key {
          assert nodes[k] in Value().nodes;
          return true;
        }
        k := k + 1;
      }
      return false;
    }

    method Claimable(key: Key) returns (r: Option<nat>)
      requires Valid()
      ensures r == Core.Claimable(Value(), key)
    {
      if key.len > MAX_DESCRIPTOR_BYTES { return None; }
      var i := 0;
      while i < CACHE_ENTRIES
        invariant 0 <= i <= CACHE_ENTRIES && FirstFree(entries[..], 0) == FirstFree(entries[..], i)
      {
        if !entries[i].inUse { return Some(i); }
        i := i + 1;
      }
      i := 0;
      while i < CACHE_ENTRIES
        invariant 0 <= i <= CACHE_ENTRIES && FirstReusable(Value(), 0) == FirstReusable(Value(), i)
      {
        if entries[i].refcount == 0 {
          var read := HasReader(entries[i]);
          if !read { return Some(i); }
        }
        i := i + 1;
      }
      return None;
    }

    method MarkDiscovered(id: byte, i: nat)
      requires Valid() && IsModule(id) && i < CACHE_ENTRIES
      modifies this`dropped, nodes, entries, lifecycle, lifecycle.storage
      ensures Valid() && Value() == Core.MarkDiscovered(old(Value()), id, i)
    {
      var n, e := nodes[id - ADDR_MODULE_MIN], entries[i];
      SetNode(id, n.(descriptor := Some(i), discovery := Discovered, everDiscovered := true));
      SetEntry(i, e.(refcount := e.refcount + 1));
      var ok := Enqueue(Lifecycle(if n.everDiscovered then NodeRediscovered else NodeDiscovered, id, n.slot));
    }

    /** One waiter, if it is one. */
    method AttachOne(i: nat, id: byte)
      requires Valid() && i < CACHE_ENTRIES && IsModule(id)
      modifies this`dropped, nodes, entries, lifecycle, lifecycle.storage
      ensures Valid()
      ensures var t := old(Value());
        Value() == if Waits(NodeOf(t, id), t.entries[i].key) then Core.MarkDiscovered(t, id, i) else t
    {
      hide Core.MarkDiscovered;
      if Waits(nodes[id - ADDR_MODULE_MIN], entries[i].key) { MarkDiscovered(id, i); }
    }

    method Attach(i: nat)
      requires Valid() && i < CACHE_ENTRIES
      modifies this`dropped, nodes, entries, lifecycle, lifecycle.storage
      ensures Valid() && Value() == Core.Attach(old(Value()), i, ADDR_MODULE_MIN)
    {
      hide Core.MarkDiscovered, Shape, Waits, Core.Attach;
      var id := ADDR_MODULE_MIN;
      while id <= ADDR_MODULE_MAX
        invariant ADDR_MODULE_MIN <= id <= ADDR_MODULE_MAX + 1 && Valid()
        invariant Core.Attach(Value(), i, id) == Core.Attach(old(Value()), i, ADDR_MODULE_MIN)
      {
        AttachTurn(Value(), i, id);
        AttachOne(i, id);
        id := id + 1;
      }
      AttachEnd(Value(), i);
    }

    method Release(id: byte)
      requires Valid() && IsModule(id)
      modifies nodes, entries
      ensures Valid() && Value() == Core.Release(old(Value()), id)
    {
      var n := nodes[id - ADDR_MODULE_MIN];
      if n.descriptor.None? || n.descriptor.value >= CACHE_ENTRIES { return; }
      var e := entries[n.descriptor.value];
      SetEntry(n.descriptor.value, e.(refcount := if e.refcount != 0 then e.refcount - 1 else 0));
      SetNode(id, n.(descriptor := None));
    }

    method Stall(id: byte, superframe: nat)
      requires Valid() && IsModule(id)
      modifies nodes
      ensures Valid() && Value() == Core.Stall(old(Value()), id, superframe)
    {
      SetNode(id, nodes[id - ADDR_MODULE_MIN].(stalled := superframe));
    }

    method Abandon(id: byte, i: nat)
      requires Valid() && IsModule(id) && i < CACHE_ENTRIES
      modifies nodes, entries
      ensures Valid() && Value() == Core.Abandon(old(Value()), id, i)
    {
      SetEntry(i, entries[i].(inUse := false));
      SetNode(id, nodes[id - ADDR_MODULE_MIN].(discovery := Identifying));
    }

    // Answers; the ring holds the chunks still to be asked for.

    ghost predicate RingOk(ring: Ring<Chunk>)
      reads ring, ring.storage
    {
      ring.Valid() && ring.storage.Length == MAX_NODES && {ring, ring.storage} !! Repr()
    }

    /** A fresh claim of a free entry for this key, its first chunk queued. */
    method StartRead(ring: Ring<Chunk>, id: byte, i: nat, key: Key)
      requires Valid() && RingOk(ring) && IsModule(id) && i < CACHE_ENTRIES && key.len > 0
      modifies nodes, entries, ring, ring.storage
      ensures Valid() && RingOk(ring)
      ensures var t, c := old(Value()), old(ring.Contents());
        (Value(), ring.Contents()) ==
          if |c| >= MAX_NODES then
            (PutNode(PutEntry(t, i, Claimed(key).(inUse := false)), id, NodeOf(t, id).(discovery := Identifying)), c)
          else (PutEntry(t, i, Claimed(key)), c + [Chunk(id, 0)])
    {
      SetEntry(i, Claimed(key));
      var ok := ring.Push(Chunk(id, 0));
      if !ok {
        SetEntry(i, Claimed(key).(inUse := false));
        SetNode(id, nodes[id - ADDR_MODULE_MIN].(discovery := Identifying));
        assert entries[..] == old(entries[..])[i := Claimed(key).(inUse := false)];
      }
    }

    method OnIdentity(ring: Ring<Chunk>, id: byte, key: Key)
      requires Valid() && RingOk(ring) && IsModule(id)
      modifies Repr(), ring, ring.storage
      ensures Valid() && RingOk(ring)
      ensures (Value(), ring.Contents()) == Core.OnIdentity(old(Value()), old(ring.Contents()), id, key)
    {
      hide Core.Find, Core.Claimable, Core.Attach, Core.MarkDiscovered;
      var n := nodes[id - ADDR_MODULE_MIN];
      if !n.inUse { return; }
      ghost var t := Value();
      var found := Find(key);
      if found.Some? {
        FoundInRange(t, key);
        if entries[found.value].complete {
          SetNode(id, n.(key := key));
          MarkDiscovered(id, found.value);
          return;
        }
      }
      SetNode(id, n.(key := key, discovery := ReadingDescriptor, stalled := 0));
      if found.Some? { return; }
      ghost var k := id - ADDR_MODULE_MIN;
      ghost var retrying := n.(key := key, discovery := Identifying, stalled := 0);
      assert nodes[..][k := retrying] == t.nodes[k := retrying];
      var i := Claimable(key);
      if i.None? {
        SetNode(id, nodes[id - ADDR_MODULE_MIN].(discovery := Identifying));
      } else if key.len == 0 {
        SetEntry(i.value, Claimed(key).(complete := true));
        Attach(i.value);
      } else {
        StartRead(ring, id, i.value, key);
      }
    }

    /** The bytes appended, and the node no longer stalled if there were any. */
    method Append(id: byte, i: nat, bytes: seq<byte>)
      requires Valid() && IsModule(id) && i < CACHE_ENTRIES
      modifies nodes, entries
      ensures Valid()
      ensures var t := old(Value());
        Value() == PutEntry(
          if bytes != [] then Core.Stall(t, id, 0) else t, i, t.entries[i].(blob := t.entries[i].blob + bytes))
    {
      var e := entries[i];
      SetEntry(i, e.(blob := e.blob + bytes));
      if bytes != [] { Stall(id, 0); }
    }

    method Extend(ring: Ring<Chunk>, id: byte, i: nat, bytes: seq<byte>)
      requires Valid() && RingOk(ring) && IsModule(id) && i < CACHE_ENTRIES
      modifies Repr(), ring, ring.storage
      ensures Valid() && RingOk(ring)
      ensures (Value(), ring.Contents()) == Core.Extend(old(Value()), old(ring.Contents()), id, i, bytes)
    {
      hide Core.Attach, Core.Stall, Core.Abandon, Crc;
      Append(id, i, bytes);
      var e := entries[i];
      if |e.blob| < e.key.len {
        if bytes == [] {
          Abandon(id, i);
          return;
        }
        var ok := ring.Push(Chunk(id, |e.blob|));
        if !ok { Abandon(id, i); }
        return;
      }
      var crc := Crc16CcittFalse(e.blob);
      if crc != e.key.crc {
        Abandon(id, i);
        return;
      }
      SetEntry(i, e.(complete := true));
      Attach(i);
    }

    method OnChunk(ring: Ring<Chunk>, id: byte, asked: nat, answer: ChunkAnswer, superframe: nat)
      requires Valid() && RingOk(ring) && IsModule(id)
      modifies Repr(), ring, ring.storage
      ensures Valid() && RingOk(ring)
      ensures (Value(), ring.Contents()) == Core.OnChunk(old(Value()), old(ring.Contents()), id, asked, answer,
        superframe)
    {
      hide Core.Find, Core.Extend, Core.Stall, Core.Abandon;
      var n := nodes[id - ADDR_MODULE_MIN];
      ghost var t := Value();
      var found := Find(n.key);
      if !n.inUse || found.None? { return; }
      FoundInRange(t, n.key);
      var i := found.value;
      var e := entries[i];
      if e.complete { return; }
      match answer {
        case NoChunk =>
          Stall(id, superframe);
          var ok := ring.Push(Chunk(id, asked));
        case BadChunk =>
          Stall(id, superframe);
        case Bytes(offset, bytes) =>
          if offset != |e.blob| {
            Stall(id, superframe);
            var ok := ring.Push(Chunk(id, |e.blob|));
          } else if |e.blob| + |bytes| > e.key.len {
            Abandon(id, i);
          } else {
            Extend(ring, id, i, bytes);
          }
      }
    }

    // Slots.

    method FreeId() returns (r: Option<nat>)
      requires Valid()
      ensures r == Core.FreeId(Value().nodes, 0)
    {
      var i := 0;
      while i < MODULE_IDS
        invariant 0 <= i <= MODULE_IDS && Core.FreeId(nodes[..], 0) == Core.FreeId(nodes[..], i)
      {
        if !nodes[i].inUse { return Some(i); }
        i := i + 1;
      }
      return None;
    }

    method Assign(addr: byte, slot: nat)
      requires Valid() && IsBackplane(addr) && slot < MAX_SLOTS
      modifies Repr()
      ensures Valid() && Value() == Core.Assign(old(Value()), addr, slot)
    {
      hide Core.FreeId;
      var b := backplanes[addr - 1];
      var free := FreeId();
      if free.None? {
        if slot !in b.reported {
          var ok := Enqueue(Lifecycle(NodeIdPoolExhausted, addr, slot));
          SetBackplane(addr, SetReported(b, slot, ok));
        }
        return;
      }
      FreeInRange(Value());
      var id: byte := ADDR_MODULE_MIN + free.value;
      SetNode(id, Blank(nodes[free.value].everDiscovered).(inUse := true, backplane := addr, slot := slot));
      SetBackplane(addr, SetReported(b, slot, false).(idBySlot := b.idBySlot[slot := id]));
    }

    method Vacate(addr: byte, slot: nat)
      requires Valid() && IsBackplane(addr) && slot < MAX_SLOTS
      modifies Repr()
      ensures Valid() && Value() == Core.Vacate(old(Value()), addr, slot)
    {
      hide Core.Release;
      var b := backplanes[addr - 1];
      var id := b.idBySlot[slot];
      if id == 0 { return; }
      if IsModule(id) {
        Release(id);
        SetNode(id, Blank(nodes[id - ADDR_MODULE_MIN].everDiscovered));
      }
      SetBackplane(addr, b.(idBySlot := b.idBySlot[slot := 0]));
      var ok := Enqueue(Lifecycle(NodeRemoved, id, slot));
    }

    method SlotStep(addr: byte, slot: nat, occupied: bool)
      requires Valid() && IsBackplane(addr) && slot < MAX_SLOTS
      modifies Repr()
      ensures Valid() && Value() == Core.SlotStep(old(Value()), addr, slot, occupied)
    {
      hide Core.Assign, Core.Vacate;
      var b := backplanes[addr - 1];
      if occupied {
        if b.idBySlot[slot] == 0 { Assign(addr, slot); }
        return;
      }
      SetBackplane(addr, SetReported(b, slot, false));
      Vacate(addr, slot);
    }

    /** Every slot the map covers, then every slot past its clamped count as empty. */
    method Reconcile(addr: byte, m: SlotMap)
      requires Valid()
      modifies Repr()
      ensures Valid() && Value() == Core.Reconcile(old(Value()), addr, m)
    {
      hide Core.SlotStep, SlotBit, Shape;
      if !IsBackplane(addr) { return; }
      var count := SlotCount(m);
      assert |backplanes[..]| == ADDR_BACKPLANE_MAX && |backplanes[..][addr - 1].idBySlot| == MAX_SLOTS by {
        SlotSizes(Value(), addr);
      }
      SetBackplane(addr, backplanes[addr - 1].(slotCount := count));
      ghost var t := Value();
      var slot := 0;
      while slot < count
        invariant 0 <= slot <= count && Valid() && Value() == Slots(t, addr, m, slot)
      {
        SlotStep(addr, slot, SlotBit(m.occupied, slot));
        slot := slot + 1;
      }
      while slot < MAX_SLOTS
        invariant count <= slot <= MAX_SLOTS && Valid() && Value() == Slots(t, addr, m, slot)
      {
        SlotStep(addr, slot, false);
        slot := slot + 1;
      }
    }
  }

  lemma AttachTurn(t: Tables, i: nat, id: byte)
    requires Shape(t) && i < CACHE_ENTRIES && IsModule(id)
    ensures Core.Attach(t, i, id) ==
      Core.Attach(if Waits(NodeOf(t, id), t.entries[i].key) then Core.MarkDiscovered(t, id, i) else t, i, id + 1)
  {
    hide Core.MarkDiscovered, Waits;
  }

  lemma AttachEnd(t: Tables, i: nat)
    requires Shape(t) && i < CACHE_ENTRIES
    ensures Core.Attach(t, i, ADDR_MODULE_MAX + 1) == t
  {
  }

  lemma FoundInRange(t: Tables, key: Key)
    requires Shape(t) && Core.Find(t, key).Some?
    ensures Core.Find(t, key).value < CACHE_ENTRIES
  {
  }

  lemma FreeInRange(t: Tables)
    requires Shape(t) && Core.FreeId(t.nodes, 0).Some?
    ensures Core.FreeId(t.nodes, 0).value < MODULE_IDS
  {
  }

  lemma SlotSizes(t: Tables, addr: byte)
    requires Shape(t) && IsBackplane(addr)
    ensures |t.backplanes| == ADDR_BACKPLANE_MAX && |t.backplanes[addr - 1].idBySlot| == MAX_SLOTS
  {
  }
}
