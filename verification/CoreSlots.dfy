/** Node ids and occupied slots: a bijection any slot map keeps, and where repeated maps settle. */
module CoreSlots {
  import opened Protocol
  import opened Crc16
  import opened Core

  function IdAt(t: Tables, addr: byte, slot: nat): byte
    requires Shape(t) && IsBackplane(addr) && slot < MAX_SLOTS
  {
    BackplaneOf(t, addr).idBySlot[slot]
  }

  /** Each non-zero slot entry names an in-use node that records this backplane and slot. */
  predicate SlotNamesNode(t: Tables, addr: byte, slot: nat)
    requires Shape(t) && IsBackplane(addr) && slot < MAX_SLOTS
  {
    var id := IdAt(t, addr, slot);
    id != 0 ==> IsModule(id) && NodeOf(t, id).inUse && NodeOf(t, id).backplane == addr && NodeOf(t, id).slot == slot
  }

  /** Each in-use node is named by the slot it records. */
  predicate NodeIsNamed(t: Tables, id: byte)
    requires Shape(t) && IsModule(id)
  {
    var n := NodeOf(t, id);
    n.inUse ==> IsBackplane(n.backplane) && n.slot < MAX_SLOTS && IdAt(t, n.backplane, n.slot) == id
  }

  predicate Bijection(t: Tables)
    requires Shape(t)
  {
    && (forall addr: byte, slot: nat :: IsBackplane(addr) && slot < MAX_SLOTS ==> SlotNamesNode(t, addr, slot))
    && (forall id: byte :: IsModule(id) ==> NodeIsNamed(t, id))
  }

  // ---------------------------------------------------------------- one slot

  /** What the slot tables and the node table say, and nothing else. */
  predicate SameSlots(t: Tables, t': Tables)
    requires Shape(t) && Shape(t')
  {
    && (forall id: byte :: IsModule(id) ==>
      NodeOf(t', id).inUse == NodeOf(t, id).inUse && NodeOf(t', id).backplane == NodeOf(t, id).backplane
        && NodeOf(t', id).slot == NodeOf(t, id).slot)
    && (forall addr: byte :: IsBackplane(addr) ==> BackplaneOf(t', addr).idBySlot == BackplaneOf(t, addr).idBySlot)
  }

  lemma SameSlotsKeep(t: Tables, t': Tables)
    requires Shape(t) && Shape(t') && Bijection(t) && SameSlots(t, t')
    ensures Bijection(t')
  {
    forall a: byte, s: nat | IsBackplane(a) && s < MAX_SLOTS ensures SlotNamesNode(t', a, s) {
      assert SlotNamesNode(t, a, s);
    }
    forall i: byte | IsModule(i) ensures NodeIsNamed(t', i) {
      assert NodeIsNamed(t, i);
    }
  }

  lemma AssignKeeps(t: Tables, addr: byte, slot: nat)
    requires Shape(t) && Bijection(t) && IsBackplane(addr) && slot < MAX_SLOTS && IdAt(t, addr, slot) == 0
    ensures Bijection(Assign(t, addr, slot))
  {
    var t' := Assign(t, addr, slot);
    var free := FreeId(t.nodes, 0);
    if free.None? {
      SameSlotsKeep(t, t');
    } else {
      var id: byte := ADDR_MODULE_MIN + free.value;
      forall a: byte, s: nat | IsBackplane(a) && s < MAX_SLOTS ensures SlotNamesNode(t', a, s) {
        assert SlotNamesNode(t, a, s);
      }
      forall i: byte | IsModule(i) ensures NodeIsNamed(t', i) {
        assert NodeIsNamed(t, i);
      }
    }
  }

  lemma VacateKeeps(t: Tables, addr: byte, slot: nat)
    requires Shape(t) && Bijection(t) && IsBackplane(addr) && slot < MAX_SLOTS
    ensures Bijection(Vacate(t, addr, slot)) && IdAt(Vacate(t, addr, slot), addr, slot) == 0
  {
    var t', id := Vacate(t, addr, slot), IdAt(t, addr, slot);
    assert SlotNamesNode(t, addr, slot);
    if id != 0 {
      forall a: byte, s: nat | IsBackplane(a) && s < MAX_SLOTS ensures SlotNamesNode(t', a, s) {
        assert SlotNamesNode(t, a, s);
        assert IdAt(t, a, s) == id ==> a == addr && s == slot;
      }
      forall i: byte | IsModule(i) ensures NodeIsNamed(t', i) {
        assert NodeIsNamed(t, i);
      }
    }
  }

  lemma StepKeeps(t: Tables, addr: byte, slot: nat, occupied: bool)
    requires Shape(t) && Bijection(t) && IsBackplane(addr) && slot < MAX_SLOTS
    ensures Bijection(SlotStep(t, addr, slot, occupied))
  {
    hide Assign, Vacate;
    if occupied {
      if IdAt(t, addr, slot) == 0 { AssignKeeps(t, addr, slot); }
    } else {
      var t1 := PutBackplane(t, addr, SetReported(BackplaneOf(t, addr), slot, false));
      SameSlotsKeep(t, t1);
      VacateKeeps(t1, addr, slot);
    }
  }

  lemma {:induction false} SlotsKeep(t: Tables, addr: byte, m: SlotMap, n: nat)
    requires Shape(t) && Bijection(t) && IsBackplane(addr) && n <= MAX_SLOTS
    ensures Bijection(Slots(t, addr, m, n))
  {
    hide Bijection, SlotStep, Occupied;
    if n > 0 {
      SlotsKeep(t, addr, m, n - 1);
      StepKeeps(Slots(t, addr, m, n - 1), addr, n - 1, Occupied(m, n - 1));
    }
  }

  /** Whatever a backplane claims: over-claimed count, short bitmap, exhausted pool. */
  lemma ReconcileKeepsBijection(t: Tables, addr: byte, m: SlotMap)
    requires Shape(t) && Bijection(t)
    ensures Bijection(Reconcile(t, addr, m))
  {
    hide Bijection, Slots;
    if IsBackplane(addr) {
      var t1 := PutBackplane(t, addr, BackplaneOf(t, addr).(slotCount := SlotCount(m)));
      SameSlotsKeep(t, t1);
      SlotsKeep(t1, addr, m, MAX_SLOTS);
    }
  }

  // ---------------------------------------------------------------- the others are left alone

  /** Everything another backplane owns: its record, and every node it has. */
  predicate OthersSame(t: Tables, t': Tables, addr: byte)
    requires Shape(t) && Shape(t')
  {
    && (forall a: byte :: IsBackplane(a) && a != addr ==> BackplaneOf(t', a) == BackplaneOf(t, a))
    && (forall id: byte :: IsModule(id) && NodeOf(t, id).inUse && NodeOf(t, id).backplane != addr ==>
      NodeOf(t', id) == NodeOf(t, id))
  }

  lemma StepLeavesOthers(t: Tables, addr: byte, slot: nat, occupied: bool)
    requires Shape(t) && Bijection(t) && IsBackplane(addr) && slot < MAX_SLOTS
    ensures OthersSame(t, SlotStep(t, addr, slot, occupied), addr)
  {
    assert SlotNamesNode(t, addr, slot);
  }

  lemma {:induction false} SlotsLeaveOthers(t: Tables, addr: byte, m: SlotMap, n: nat)
    requires Shape(t) && Bijection(t) && IsBackplane(addr) && n <= MAX_SLOTS
    ensures OthersSame(t, Slots(t, addr, m, n), addr)
  {
    hide Bijection, SlotStep, Occupied;
    if n > 0 {
      SlotsKeep(t, addr, m, n - 1);
      SlotsLeaveOthers(t, addr, m, n - 1);
      StepLeavesOthers(Slots(t, addr, m, n - 1), addr, n - 1, Occupied(m, n - 1));
    }
  }

  lemma OtherBackplanesUntouched(t: Tables, addr: byte, m: SlotMap)
    requires Shape(t) && Bijection(t)
    ensures OthersSame(t, Reconcile(t, addr, m), addr)
  {
    hide Bijection, Slots;
    if IsBackplane(addr) {
      var t1 := PutBackplane(t, addr, BackplaneOf(t, addr).(slotCount := SlotCount(m)));
      assert Bijection(t1) by { SameSlotsKeep(t, t1); }
      SlotsLeaveOthers(t1, addr, m, MAX_SLOTS);
    }
  }

  /** The changed bitmap, and the occupied bits past the clamped count, decide nothing. */
  lemma {:induction false} OnlyOccupancyCounts(t: Tables, addr: byte, m: SlotMap, m': SlotMap, n: nat)
    requires Shape(t) && IsBackplane(addr) && n <= MAX_SLOTS
    requires forall s: nat :: s < n ==> Occupied(m, s) == Occupied(m', s)
    ensures Slots(t, addr, m, n) == Slots(t, addr, m', n)
  {
    hide Occupied, SlotStep;
    if n > 0 { OnlyOccupancyCounts(t, addr, m, m', n - 1); }
  }

  lemma ChangedIsIrrelevant(t: Tables, addr: byte, m: SlotMap, changed: seq<byte>)
    requires Shape(t)
    ensures Reconcile(t, addr, m.(changed := changed)) == Reconcile(t, addr, m)
  {
    hide SlotBit, Slots;
    if IsBackplane(addr) {
      var t1 := PutBackplane(t, addr, BackplaneOf(t, addr).(slotCount := SlotCount(m)));
      OnlyOccupancyCounts(t1, addr, m.(changed := changed), m, MAX_SLOTS);
    }
  }

  // ---------------------------------------------------------------- the slots after one map

  /** Empty slots have no id. */
  predicate EmptyAreFree(t: Tables, addr: byte, m: SlotMap, n: nat)
    requires Shape(t) && IsBackplane(addr) && n <= MAX_SLOTS
  {
    forall s: nat :: s < n && !Occupied(m, s) ==> IdAt(t, addr, s) == 0
  }

  predicate NoFreeId(t: Tables) {
    forall n :: n in t.nodes ==> n.inUse
  }

  predicate Short(t: Tables, addr: byte, m: SlotMap, s: nat)
    requires Shape(t) && IsBackplane(addr) && s < MAX_SLOTS
  {
    Occupied(m, s) && IdAt(t, addr, s) == 0
  }

  lemma StepElsewhere(t: Tables, addr: byte, slot: nat, occupied: bool)
    requires Shape(t) && IsBackplane(addr) && slot < MAX_SLOTS
    ensures var t' := SlotStep(t, addr, slot, occupied);
      && BackplaneOf(t', addr).slotCount == BackplaneOf(t, addr).slotCount
      && (forall s: nat :: s < MAX_SLOTS && s != slot ==> IdAt(t', addr, s) == IdAt(t, addr, s))
      && (!occupied ==> IdAt(t', addr, slot) == 0)
  {
  }

  /** After the first `n` slots the empty ones among them are free, and the rest are as they were. */
  lemma {:induction false} SlotsSettle(t: Tables, addr: byte, m: SlotMap, n: nat)
    requires Shape(t) && IsBackplane(addr) && n <= MAX_SLOTS
    ensures var t' := Slots(t, addr, m, n);
      && EmptyAreFree(t', addr, m, n)
      && BackplaneOf(t', addr).slotCount == BackplaneOf(t, addr).slotCount
      && forall s: nat :: n <= s < MAX_SLOTS ==> IdAt(t', addr, s) == IdAt(t, addr, s)
  {
    hide SlotStep, Occupied;
    if n > 0 {
      SlotsSettle(t, addr, m, n - 1);
      StepElsewhere(Slots(t, addr, m, n - 1), addr, n - 1, Occupied(m, n - 1));
    }
  }

  // ---------------------------------------------------------------- applying one map again

  /** The node table, the cache and the slot tables; not the notices. */
  predicate SameTables(t: Tables, t': Tables)
    requires Shape(t) && Shape(t')
  {
    t'.nodes == t.nodes && t'.entries == t.entries
    && forall a: byte :: IsBackplane(a) ==>
      BackplaneOf(t', a).idBySlot == BackplaneOf(t, a).idBySlot
        && BackplaneOf(t', a).slotCount == BackplaneOf(t, a).slotCount
  }

  /** Nothing left for this map to do: empty slots free, and no shortage while an id is free. */
  predicate Settled(t: Tables, addr: byte, m: SlotMap)
    requires Shape(t) && IsBackplane(addr)
  {
    && EmptyAreFree(t, addr, m, MAX_SLOTS)
    && (forall s: nat :: s < MAX_SLOTS && Short(t, addr, m, s) ==> NoFreeId(t))
  }

  lemma NoneFree(t: Tables)
    ensures NoFreeId(t) <==> FreeId(t.nodes, 0).None?
  {
  }

  lemma SettledStep(t: Tables, addr: byte, m: SlotMap, slot: nat)
    requires Shape(t) && IsBackplane(addr) && Settled(t, addr, m) && slot < MAX_SLOTS
    ensures SameTables(t, SlotStep(t, addr, slot, Occupied(m, slot)))
  {
    hide Occupied, NoFreeId;
    NoneFree(t);
    if Occupied(m, slot) && IdAt(t, addr, slot) == 0 { assert Short(t, addr, m, slot); }
  }

  lemma SettledSame(t: Tables, t': Tables, addr: byte, m: SlotMap)
    requires Shape(t) && Shape(t') && IsBackplane(addr) && Settled(t, addr, m) && SameTables(t, t')
    ensures Settled(t', addr, m)
  {
    hide Occupied;
    forall s: nat | s < MAX_SLOTS && Short(t', addr, m, s) ensures NoFreeId(t') {
      assert Short(t, addr, m, s);
    }
  }

  lemma {:induction false} SettledSlots(t: Tables, addr: byte, m: SlotMap, n: nat)
    requires Shape(t) && IsBackplane(addr) && Settled(t, addr, m) && n <= MAX_SLOTS
    ensures SameTables(t, Slots(t, addr, m, n))
  {
    hide SlotStep, Settled, Occupied;
    if n > 0 {
      SettledSlots(t, addr, m, n - 1);
      SettledSame(t, Slots(t, addr, m, n - 1), addr, m);
      SettledStep(Slots(t, addr, m, n - 1), addr, m, n - 1);
    }
  }

  /** With every empty slot already free, a step can only assign. */
  lemma AssignsOnly(t: Tables, addr: byte, m: SlotMap, slot: nat)
    requires Shape(t) && IsBackplane(addr) && EmptyAreFree(t, addr, m, MAX_SLOTS) && slot < MAX_SLOTS
    ensures var t' := SlotStep(t, addr, slot, Occupied(m, slot));
      && EmptyAreFree(t', addr, m, MAX_SLOTS)
      && (NoFreeId(t) ==> NoFreeId(t'))
      && (Short(t', addr, m, slot) ==> NoFreeId(t'))
  {
    hide Occupied;
    NoneFree(t);
    var t' := SlotStep(t, addr, slot, Occupied(m, slot));
    StepElsewhere(t, addr, slot, Occupied(m, slot));
    if Occupied(m, slot) && IdAt(t, addr, slot) == 0 && FreeId(t.nodes, 0).None? { assert t'.nodes == t.nodes; }
  }

  lemma {:induction false} SecondPass(t: Tables, addr: byte, m: SlotMap, n: nat)
    requires Shape(t) && IsBackplane(addr) && EmptyAreFree(t, addr, m, MAX_SLOTS) && n <= MAX_SLOTS
    ensures var t' := Slots(t, addr, m, n);
      && EmptyAreFree(t', addr, m, MAX_SLOTS)
      && (NoFreeId(t) ==> NoFreeId(t'))
      && forall s: nat :: s < n && Short(t', addr, m, s) ==> NoFreeId(t')
  {
    hide SlotStep, Occupied, NoFreeId;
    if n > 0 {
      SecondPass(t, addr, m, n - 1);
      var t1 := Slots(t, addr, m, n - 1);
      AssignsOnly(t1, addr, m, n - 1);
      StepElsewhere(t1, addr, n - 1, Occupied(m, n - 1));
      var t2 := SlotStep(t1, addr, n - 1, Occupied(m, n - 1));
      forall s: nat | s < n && Short(t2, addr, m, s) ensures NoFreeId(t2) {
        if s < n - 1 {
          assert Short(t1, addr, m, s);
          Monotone(t1, addr, m, n - 1);
        }
      }
    }
  }

  lemma Monotone(t: Tables, addr: byte, m: SlotMap, slot: nat)
    requires Shape(t) && IsBackplane(addr) && EmptyAreFree(t, addr, m, MAX_SLOTS) && slot < MAX_SLOTS && NoFreeId(t)
    ensures NoFreeId(SlotStep(t, addr, slot, Occupied(m, slot)))
  {
    AssignsOnly(t, addr, m, slot);
  }

  function Counted(t: Tables, addr: byte, m: SlotMap): Tables
    requires Shape(t) && IsBackplane(addr)
  {
    PutBackplane(t, addr, BackplaneOf(t, addr).(slotCount := SlotCount(m)))
  }

  lemma CountOnly(t: Tables, addr: byte, m: SlotMap)
    requires Shape(t) && IsBackplane(addr)
    ensures forall s: nat :: s < MAX_SLOTS ==> IdAt(Counted(t, addr, m), addr, s) == IdAt(t, addr, s)
    ensures Counted(t, addr, m).nodes == t.nodes
  {
  }

  /** After one map every empty slot is free; after two there is nothing left to do. */
  lemma TwiceSettles(t: Tables, addr: byte, m: SlotMap)
    requires Shape(t) && IsBackplane(addr)
    ensures EmptyAreFree(Reconcile(t, addr, m), addr, m, MAX_SLOTS)
    ensures BackplaneOf(Reconcile(t, addr, m), addr).slotCount == SlotCount(m)
    ensures Settled(Reconcile(Reconcile(t, addr, m), addr, m), addr, m)
  {
    hide Slots, Occupied, NoFreeId;
    SlotsSettle(Counted(t, addr, m), addr, m, MAX_SLOTS);
    var r := Reconcile(t, addr, m);
    CountOnly(r, addr, m);
    SecondPass(Counted(r, addr, m), addr, m, MAX_SLOTS);
  }

  lemma SettledIsFixed(t: Tables, addr: byte, m: SlotMap)
    requires Shape(t) && IsBackplane(addr) && Settled(t, addr, m) && BackplaneOf(t, addr).slotCount == SlotCount(m)
    ensures SameTables(t, Reconcile(t, addr, m))
  {
    hide Slots, Occupied, NoFreeId;
    var t1 := Counted(t, addr, m);
    assert t1.backplanes == t.backplanes;
    SettledSlots(t1, addr, m, MAX_SLOTS);
  }

  /** One response applied twice is a fixed point of the node and slot tables. */
  lemma SecondApplicationIsFixed(t: Tables, addr: byte, m: SlotMap)
    requires Shape(t) && IsBackplane(addr)
    ensures var twice := Reconcile(Reconcile(t, addr, m), addr, m); SameTables(twice, Reconcile(twice, addr, m))
  {
    hide Reconcile, Settled, SameTables;
    TwiceSettles(t, addr, m);
    TwiceSettles(Reconcile(t, addr, m), addr, m);
    SettledIsFixed(Reconcile(Reconcile(t, addr, m), addr, m), addr, m);
  }

  /** Once is already enough exactly when it left no slot short while an id was free. */
  lemma OnceIsFixedIff(t: Tables, addr: byte, m: SlotMap)
    requires Shape(t) && IsBackplane(addr)
    ensures var once := Reconcile(t, addr, m);
      SameTables(once, Reconcile(once, addr, m)) <==>
        ((forall s: nat :: s < MAX_SLOTS ==> !Short(once, addr, m, s)) || NoFreeId(once))
  {
    hide Reconcile, Occupied, NoFreeId;
    TwiceSettles(t, addr, m);
    var once := Reconcile(t, addr, m);
    var twice := Reconcile(once, addr, m);
    if SameTables(once, twice) {
      if s: nat :| s < MAX_SLOTS && Short(once, addr, m, s) {
        assert Short(twice, addr, m, s);
        SameNodesSameFree(once, twice);
      }
    } else if (forall s: nat :: s < MAX_SLOTS ==> !Short(once, addr, m, s)) || NoFreeId(once) {
      SettledIsFixed(once, addr, m);
    }
  }

  lemma SameNodesSameFree(t: Tables, t': Tables)
    requires t.nodes == t'.nodes
    ensures NoFreeId(t) == NoFreeId(t')
  {
  }

  // ---------------------------------------------------------------- what leaves the slots alone

  /** A record whose slot is unchanged. */
  lemma NodeSlots(t: Tables, id: byte, n: Node)
    requires Shape(t) && IsModule(id)
    requires n.inUse == NodeOf(t, id).inUse && n.backplane == NodeOf(t, id).backplane && n.slot == NodeOf(t, id).slot
    ensures SameSlots(t, PutNode(t, id, n))
  {
  }

  lemma SameSlotsTrans(t: Tables, t1: Tables, t2: Tables)
    requires Shape(t) && Shape(t1) && Shape(t2) && SameSlots(t, t1) && SameSlots(t1, t2)
    ensures SameSlots(t, t2)
  {
  }

  lemma SameSlotsRefl(t: Tables)
    requires Shape(t)
    ensures SameSlots(t, t)
  {
  }

  lemma {:induction false} AttachSlots(t: Tables, i: nat, id: nat)
    requires Shape(t) && i < CACHE_ENTRIES && ADDR_MODULE_MIN <= id <= ADDR_MODULE_MAX + 1
    ensures SameSlots(t, Attach(t, i, id))
    decreases ADDR_MODULE_MAX + 1 - id
  {
    hide SameSlots, MarkDiscovered;
    if id > ADDR_MODULE_MAX {
      SameSlotsRefl(t);
    } else if Waits(NodeOf(t, id), t.entries[i].key) {
      MarkSlots(t, id, i);
      AttachSlots(MarkDiscovered(t, id, i), i, id + 1);
      SameSlotsTrans(t, MarkDiscovered(t, id, i), Attach(t, i, id));
    } else {
      AttachSlots(t, i, id + 1);
    }
  }

  lemma MarkSlots(t: Tables, id: byte, i: nat)
    requires Shape(t) && IsModule(id) && i < CACHE_ENTRIES
    ensures SameSlots(t, MarkDiscovered(t, id, i))
  {
  }

  lemma IdentitySlots(t: Tables, ring: seq<Chunk>, id: byte, key: Key)
    requires Shape(t) && IsModule(id) && |ring| <= MAX_NODES
    ensures SameSlots(t, OnIdentity(t, ring, id, key).0)
  {
    hide Attach, Claimable, Find;
    var n := NodeOf(t, id);
    var t1 := PutNode(t, id, n.(key := key, discovery := ReadingDescriptor, stalled := 0));
    var i := Claimable(t1, key);
    if n.inUse && Find(t, key).None? && i.Some? && key.len == 0 {
      AttachSlots(PutEntry(t1, i.value, Claimed(key).(complete := true)), i.value, ADDR_MODULE_MIN);
    }
  }

  lemma ExtendSlots(t: Tables, ring: seq<Chunk>, id: byte, i: nat, bytes: seq<byte>)
    requires Shape(t) && IsModule(id) && i < CACHE_ENTRIES && |ring| <= MAX_NODES
    ensures SameSlots(t, Extend(t, ring, id, i, bytes).0)
  {
    hide Attach, Crc;
    var e1 := t.entries[i].(blob := t.entries[i].blob + bytes);
    var t1 := PutEntry(if bytes != [] then Stall(t, id, 0) else t, i, e1);
    AttachSlots(PutEntry(t1, i, e1.(complete := true)), i, ADDR_MODULE_MIN);
  }

  lemma ChunkSlots(t: Tables, ring: seq<Chunk>, id: byte, asked: nat, answer: ChunkAnswer, superframe: nat)
    requires Shape(t) && IsModule(id) && |ring| <= MAX_NODES
    ensures SameSlots(t, OnChunk(t, ring, id, asked, answer, superframe).0)
  {
    hide Extend;
    var found := Find(t, NodeOf(t, id).key);
    if found.Some? && answer.Bytes? { ExtendSlots(t, ring, id, found.value, answer.bytes); }
  }

  /** A map can end a node's discovery but never complete one. */
  lemma {:induction false} NoneDiscoveredBySlots(t: Tables, addr: byte, m: SlotMap, n: nat)
    requires Shape(t) && IsBackplane(addr) && n <= MAX_SLOTS
    ensures forall id: byte :: IsModule(id) && NodeOf(Slots(t, addr, m, n), id).discovery == Discovered ==>
      NodeOf(t, id).discovery == Discovered
  {
    hide Occupied;
    if n > 0 { NoneDiscoveredBySlots(t, addr, m, n - 1); }
  }

  lemma StartIsBijective()
    ensures Bijection(Start())
  {
  }
}
