/** What one slot map does to each slot, to the node in it, and to the notices. */
module CoreReconcile {
  import opened Protocol
  import opened Core
  import opened CoreSlots
  import opened CoreNotices

  // ---------------------------------------------------------------- bitmaps

  function Bit(flags: seq<bool>, at: nat): nat {
    if at < |flags| && flags[at] then 1 else 0
  }

  /** The flags from `at` up to the end of their octet, least significant first. */
  function Octet(flags: seq<bool>, at: nat, n: nat): (b: nat)
    ensures b < Power2(n)
    decreases n
  {
    if n == 0 then 0 else Bit(flags, at) + 2 * Octet(flags, at + 1, n - 1)
  }

  /** A bitmap as a backplane packs it: eight slots to the byte, the lowest slot in the lowest bit. */
  function Packed(flags: seq<bool>): (bytes: seq<byte>)
    ensures |bytes| == (|flags| + 7) / 8
  {
    Eight();
    seq((|flags| + 7) / 8, j requires 0 <= j < (|flags| + 7) / 8 => Octet(flags, 8 * j, 8))
  }

  lemma Eight()
    ensures Power2(8) == 256
  {
    assert Power2(8) == 2 * Power2(7) == 4 * Power2(6) == 8 * Power2(5) == 16 * Power2(4);
  }

  lemma HalfThenShift(x: nat, p: nat)
    requires p > 0
    ensures x / (2 * p) == x / 2 / p
  {
    var q, r := x / (2 * p), x % (2 * p);
    assert x == 2 * p * q + r;
    var half := r / 2;
    assert x / 2 == p * q + half by { assert x == 2 * (p * q) + r; }
    assert 0 <= half < p;
    DivIs(x / 2, p, q, half);
  }

  lemma DivIs(x: nat, p: nat, q: nat, r: nat)
    requires r < p && x == p * q + r
    ensures x / p == q
  {
    var d := x / p;
    if d < q { Less(p, d, q); }
    if d > q { Less(p, q, d); }
  }

  lemma {:induction false} Less(p: nat, a: nat, b: nat)
    requires a < b
    ensures p * a + p <= p * b
    decreases b
  {
    assert p * b == p * (b - 1) + p;
    if a < b - 1 { Less(p, a, b - 1); }
  }

  lemma OctetSplits(flags: seq<bool>, at: nat, n: nat)
    requires n > 0
    ensures Octet(flags, at, n) / 2 == Octet(flags, at + 1, n - 1) && Octet(flags, at, n) % 2 == Bit(flags, at)
  {
  }

  lemma {:induction false} OctetBit(flags: seq<bool>, at: nat, n: nat, k: nat)
    requires k < n
    ensures (Octet(flags, at, n) / Power2(k)) % 2 == Bit(flags, at + k)
    decreases n
  {
    hide Octet, Bit;
    OctetSplits(flags, at, n);
    if k > 0 {
      HalfThenShift(Octet(flags, at, n), Power2(k - 1));
      OctetBit(flags, at + 1, n - 1, k - 1);
      assert Octet(flags, at, n) / Power2(k) == Octet(flags, at + 1, n - 1) / Power2(k - 1);
    }
  }

  /** Reading a slot's bit gives the flag that was packed for it, and nothing past the end. */
  lemma PackedReads(flags: seq<bool>, slot: nat)
    ensures SlotBit(Packed(flags), slot) <==> slot < |flags| && flags[slot]
  {
    if slot / 8 < (|flags| + 7) / 8 {
      OctetBit(flags, 8 * (slot / 8), 8, slot % 8);
      assert 8 * (slot / 8) + slot % 8 == slot;
    }
  }

  // ---------------------------------------------------------------- one slot

  /** A module is reported in this slot. */
  predicate Present(m: SlotMap, slot: nat) {
    slot < m.slotCount && slot < MAX_SLOTS && SlotBit(m.occupied, slot)
  }

  /** A node nothing is known of yet but where it is. */
  predicate Newcomer(n: Node, addr: byte, slot: nat) {
    && n.inUse && n.backplane == addr && n.slot == slot && n.discovery == Undiscovered
    && n.key == NO_KEY && n.descriptor.None? && n.stalled == 0 && n.lastDuration == 0
  }

  /** What the map has made of this slot: emptied, left exactly as it was, or given to a newcomer if an id was free. */
  predicate Follows(t: Tables, t': Tables, addr: byte, m: SlotMap, slot: nat)
    requires Shape(t) && Shape(t') && IsBackplane(addr) && slot < MAX_SLOTS
  {
    var before, after := IdAt(t, addr, slot), IdAt(t', addr, slot);
    if !Present(m, slot) then after == 0
    else if before != 0 then after == before && IsModule(after) && NodeOf(t', after) == NodeOf(t, after)
    else after != 0 ==> IsModule(after) && Newcomer(NodeOf(t', after), addr, slot)
  }

  /** Untouched so far. */
  predicate Ahead(t: Tables, t': Tables, addr: byte, slot: nat)
    requires Shape(t) && Shape(t') && IsBackplane(addr) && slot < MAX_SLOTS
  {
    var id := IdAt(t, addr, slot);
    && IdAt(t', addr, slot) == id
    && (slot in BackplaneOf(t', addr).reported <==> slot in BackplaneOf(t, addr).reported)
    && (id != 0 ==> IsModule(id) && NodeOf(t', id) == NodeOf(t, id))
  }

  /** A step at one slot leaves the others, and the nodes in them, alone. */
  lemma StepLeavesSlot(t: Tables, addr: byte, slot: nat, occupied: bool, s: nat)
    requires Shape(t) && Bijection(t) && IsBackplane(addr) && slot < MAX_SLOTS && s < MAX_SLOTS && s != slot
    ensures Ahead(t, SlotStep(t, addr, slot, occupied), addr, s)
  {
    assert SlotNamesNode(t, addr, slot) && SlotNamesNode(t, addr, s);
    hide Bijection;
  }

  lemma StepFollows(t: Tables, addr: byte, m: SlotMap, slot: nat)
    requires Shape(t) && Bijection(t) && IsBackplane(addr) && slot < MAX_SLOTS
    ensures Follows(t, SlotStep(t, addr, slot, Occupied(m, slot)), addr, m, slot)
  {
    assert SlotNamesNode(t, addr, slot);
    hide Bijection, Release, SlotBit;
  }

  lemma {:induction false} SlotsFollow(t: Tables, addr: byte, m: SlotMap, n: nat, s: nat)
    requires Shape(t) && Bijection(t) && IsBackplane(addr) && n <= MAX_SLOTS && s < MAX_SLOTS
    ensures var t' := Slots(t, addr, m, n);
      if s < n then Follows(t, t', addr, m, s) else Ahead(t, t', addr, s)
  {
    hide Bijection, SlotStep, Newcomer, Occupied;
    if n == 0 {
      AheadSame(t, addr, s);
    } else {
      var t1 := Slots(t, addr, m, n - 1);
      SlotsKeep(t, addr, m, n - 1);
      SlotsFollow(t, addr, m, n - 1, s);
      if s == n - 1 {
        StepFollows(t1, addr, m, s);
      } else {
        StepLeavesSlot(t1, addr, n - 1, Occupied(m, n - 1), s);
      }
    }
  }

  lemma AheadSame(t: Tables, addr: byte, s: nat)
    requires Shape(t) && Bijection(t) && IsBackplane(addr) && s < MAX_SLOTS
    ensures Ahead(t, t, addr, s)
  {
    assert SlotNamesNode(t, addr, s);
  }

  // ---------------------------------------------------------------- notices

  /** What this slot has to say: a module gone, or one there is no id for and nobody has been told of yet. */
  function SlotNotice(t: Tables, t': Tables, addr: byte, m: SlotMap, slot: nat): seq<Lifecycle>
    requires Shape(t) && Shape(t') && IsBackplane(addr) && slot < MAX_SLOTS
  {
    var before, after := IdAt(t, addr, slot), IdAt(t', addr, slot);
    if !Present(m, slot) then if before != 0 then [Lifecycle(NodeRemoved, before, slot)] else []
    else if before == 0 && after == 0 && slot !in BackplaneOf(t, addr).reported then
      [Lifecycle(NodeIdPoolExhausted, addr, slot)]
    else []
  }

  function SlotNotices(t: Tables, t': Tables, addr: byte, m: SlotMap, n: nat): seq<Lifecycle>
    requires Shape(t) && Shape(t') && IsBackplane(addr) && n <= MAX_SLOTS
  {
    if n == 0 then [] else SlotNotices(t, t', addr, m, n - 1) + SlotNotice(t, t', addr, m, n - 1)
  }

  lemma StepNotice(t: Tables, addr: byte, m: SlotMap, slot: nat)
    requires Shape(t) && IsBackplane(addr) && slot < MAX_SLOTS
    ensures var t' := SlotStep(t, addr, slot, Occupied(m, slot)); Announces(t, t', SlotNotice(t, t', addr, m, slot))
  {
    hide SlotBit, Release;
    assert t.lifecycle + [] == t.lifecycle;
    var notice := SlotNotice(t, SlotStep(t, addr, slot, Occupied(m, slot)), addr, m, slot);
    assert notice[..0] == [];
    ReleaseKeepsQueue(t, addr, slot);
  }

  lemma ReleaseKeepsQueue(t: Tables, addr: byte, slot: nat)
    requires Shape(t) && IsBackplane(addr) && slot < MAX_SLOTS
    ensures var t1 := PutBackplane(t, addr, SetReported(BackplaneOf(t, addr), slot, false));
      forall id: byte :: IsModule(id) ==>
        Release(t1, id).lifecycle == t.lifecycle && Release(t1, id).dropped == t.dropped
  {
  }

  lemma {:induction false} SameNotices(t: Tables, t1: Tables, t2: Tables, addr: byte, m: SlotMap, n: nat)
    requires Shape(t) && Shape(t1) && Shape(t2) && IsBackplane(addr) && n <= MAX_SLOTS
    requires forall s: nat :: s < n ==> IdAt(t1, addr, s) == IdAt(t2, addr, s)
    ensures SlotNotices(t, t1, addr, m, n) == SlotNotices(t, t2, addr, m, n)
  {
    hide Present;
    if n > 0 { SameNotices(t, t1, t2, addr, m, n - 1); }
  }

  lemma {:induction false} SlotsAnnounce(t: Tables, addr: byte, m: SlotMap, n: nat)
    requires Shape(t) && Bijection(t) && IsBackplane(addr) && n <= MAX_SLOTS
    ensures var t' := Slots(t, addr, m, n); Announces(t, t', SlotNotices(t, t', addr, m, n))
  {
    hide Bijection, SlotStep, Occupied, Present, Announced;
    if n == 0 {
      NothingAnnounced(t);
    } else {
      var t1 := Slots(t, addr, m, n - 1);
      SlotsAnnounce(t, addr, m, n - 1);
      SlotsFollow(t, addr, m, n - 1, n - 1);
      StepNotice(t1, addr, m, n - 1);
      var t' := SlotStep(t1, addr, n - 1, Occupied(m, n - 1));
      StepElsewhere(t1, addr, n - 1, Occupied(m, n - 1));
      SameNotices(t, t1, t', addr, m, n - 1);
      assert SlotNotice(t, t', addr, m, n - 1) == SlotNotice(t1, t', addr, m, n - 1);
      AnnounceThen(t, t1, t', SlotNotices(t, t1, addr, m, n - 1), SlotNotice(t1, t', addr, m, n - 1));
    }
  }

  // ---------------------------------------------------------------- shortages

  /** A slot left without an id is marked, so as to be reported once, unless its notice was dropped. */
  predicate Marked(t: Tables, t': Tables, addr: byte, m: SlotMap, slot: nat)
    requires Shape(t) && Shape(t') && IsBackplane(addr) && slot < MAX_SLOTS
  {
    var marked := slot in BackplaneOf(t', addr).reported;
    && (!Present(m, slot) ==> !marked)
    && (Present(m, slot) && IdAt(t, addr, slot) == 0 ==>
      (marked ==> IdAt(t', addr, slot) == 0) &&
      (IdAt(t', addr, slot) == 0 && t'.dropped == t.dropped ==> marked))
  }

  lemma StepMarks(t: Tables, addr: byte, m: SlotMap, slot: nat)
    requires Shape(t) && IsBackplane(addr) && slot < MAX_SLOTS
    ensures var t' := SlotStep(t, addr, slot, Occupied(m, slot));
      t'.dropped >= t.dropped && Marked(t, t', addr, m, slot)
  {
    hide SlotBit;
  }

  lemma {:induction false} SlotsMark(t: Tables, addr: byte, m: SlotMap, n: nat, s: nat)
    requires Shape(t) && Bijection(t) && IsBackplane(addr) && s < n <= MAX_SLOTS
    ensures var t' := Slots(t, addr, m, n); t'.dropped >= t.dropped && Marked(t, t', addr, m, s)
  {
    hide Bijection, SlotStep, Occupied, Present;
    var t1 := Slots(t, addr, m, n - 1);
    SlotsKeep(t, addr, m, n - 1);
    StepMarks(t1, addr, m, n - 1);
    NeverUndropped(t, addr, m, n - 1);
    if s == n - 1 {
      SlotsFollow(t, addr, m, s, s);
    } else {
      SlotsMark(t, addr, m, n - 1, s);
      StepLeavesSlot(t1, addr, n - 1, Occupied(m, n - 1), s);
    }
  }

  lemma {:induction false} NeverUndropped(t: Tables, addr: byte, m: SlotMap, n: nat)
    requires Shape(t) && IsBackplane(addr) && n <= MAX_SLOTS
    ensures Slots(t, addr, m, n).dropped >= t.dropped
  {
    hide SlotStep, Occupied, Present, Marked;
    if n > 0 {
      NeverUndropped(t, addr, m, n - 1);
      StepMarks(Slots(t, addr, m, n - 1), addr, m, n - 1);
    }
  }

  // ---------------------------------------------------------------- the whole map

  /**
   * Slot by slot: emptied, left exactly as it was, or given to a newcomer; the queue has gained one notice for each
   * module gone and each shortage not reported before, in slot order, and a shortage is marked once reported.
   */
  lemma MapIsFollowed(t: Tables, addr: byte, m: SlotMap)
    requires Shape(t) && Bijection(t) && IsBackplane(addr)
    ensures var t' := Reconcile(t, addr, m);
      && (forall s: nat :: s < MAX_SLOTS ==> Follows(t, t', addr, m, s) && Marked(t, t', addr, m, s))
      && Announces(t, t', SlotNotices(t, t', addr, m, MAX_SLOTS))
  {
    hide Bijection, Slots, Present, Newcomer, Announced, SlotNotices;
    var t1 := Counted(t, addr, m);
    CountOnly(t, addr, m);
    CountKeeps(t, addr, m);
    var t' := Slots(t1, addr, m, MAX_SLOTS);
    forall s: nat | s < MAX_SLOTS ensures Follows(t, t', addr, m, s) && Marked(t, t', addr, m, s) {
      SlotsFollow(t1, addr, m, MAX_SLOTS, s);
      SlotsMark(t1, addr, m, MAX_SLOTS, s);
    }
    SlotsAnnounce(t1, addr, m, MAX_SLOTS);
    CountNotices(t, t', addr, m, MAX_SLOTS);
    CountAnnounces(t, t', addr, m, SlotNotices(t1, t', addr, m, MAX_SLOTS));
  }

  lemma CountAnnounces(t: Tables, t': Tables, addr: byte, m: SlotMap, events: seq<Lifecycle>)
    requires Shape(t) && IsBackplane(addr) && Announces(Counted(t, addr, m), t', events)
    ensures Announces(t, t', events)
  {
  }

  lemma CountKeeps(t: Tables, addr: byte, m: SlotMap)
    requires Shape(t) && Bijection(t) && IsBackplane(addr)
    ensures Bijection(Counted(t, addr, m)) && Counted(t, addr, m).dropped == t.dropped
    ensures BackplaneOf(Counted(t, addr, m), addr).reported == BackplaneOf(t, addr).reported
  {
    SameSlotsKeep(t, Counted(t, addr, m));
    hide Bijection;
  }

  lemma {:induction false} CountNotices(t: Tables, t': Tables, addr: byte, m: SlotMap, n: nat)
    requires Shape(t) && Shape(t') && IsBackplane(addr) && n <= MAX_SLOTS
    ensures SlotNotices(Counted(t, addr, m), t', addr, m, n) == SlotNotices(t, t', addr, m, n)
  {
    hide Present;
    if n > 0 { CountNotices(t, t', addr, m, n - 1); }
  }

  /** A slot's id once its turn is over. */
  lemma {:induction false} IdStays(t: Tables, addr: byte, m: SlotMap, n: nat, s: nat)
    requires Shape(t) && IsBackplane(addr) && s < n <= MAX_SLOTS
    ensures IdAt(Slots(t, addr, m, n), addr, s) == IdAt(Slots(t, addr, m, s + 1), addr, s)
  {
    hide SlotStep, Occupied;
    if s < n - 1 {
      IdStays(t, addr, m, n - 1, s);
      StepElsewhere(Slots(t, addr, m, n - 1), addr, n - 1, Occupied(m, n - 1));
    }
  }

  /** A newcomer's id is the lowest that is free when its turn comes, and there is none only if every id is taken. */
  lemma LowestIdFirst(t: Tables, addr: byte, m: SlotMap, s: nat)
    requires Shape(t) && IsBackplane(addr) && s < MAX_SLOTS && Present(m, s) && IdAt(t, addr, s) == 0
    ensures var u, id := Slots(Counted(t, addr, m), addr, m, s), IdAt(Reconcile(t, addr, m), addr, s);
      && (id == 0 ==> forall a: byte :: IsModule(a) ==> NodeOf(u, a).inUse)
      && (id != 0 ==>
        IsModule(id) && !NodeOf(u, id).inUse && forall a: byte :: IsModule(a) && a < id ==> NodeOf(u, a).inUse)
  {
    hide Slots, SlotBit;
    var t1 := Counted(t, addr, m);
    CountOnly(t, addr, m);
    IdStays(t1, addr, m, MAX_SLOTS, s);
    SlotsSettle(t1, addr, m, s);
    var u := Slots(t1, addr, m, s);
    NextSlot(t1, addr, m, s);
    var free := FreeId(u.nodes, 0);
    forall a: byte | IsModule(a) && (free.Some? ==> a < ADDR_MODULE_MIN + free.value) ensures NodeOf(u, a).inUse {
      assert NodeOf(u, a) == u.nodes[a - ADDR_MODULE_MIN];
    }
  }

  lemma NextSlot(t: Tables, addr: byte, m: SlotMap, s: nat)
    requires Shape(t) && IsBackplane(addr) && s < MAX_SLOTS
    ensures Slots(t, addr, m, s + 1) == SlotStep(Slots(t, addr, m, s), addr, s, Occupied(m, s))
  {
    hide SlotStep, Occupied;
  }
}
