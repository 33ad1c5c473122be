/** When one application of a slot map is enough: the balance of node ids along its slots, and a run where it is not. */
module CoreSettling {
  import opened Protocol
  import opened Core
  import opened CoreSlots

  // ---------------------------------------------------------------- counting ids

  function One(n: Node): nat {
    if n.inUse then 0 else 1
  }

  function FreeIds(nodes: seq<Node>): nat {
    if nodes == [] then 0 else FreeIds(nodes[..|nodes| - 1]) + One(nodes[|nodes| - 1])
  }

  lemma {:induction false} FreeIdsUpdate(nodes: seq<Node>, k: nat, n: Node)
    requires k < |nodes|
    ensures FreeIds(nodes[k := n]) == FreeIds(nodes) - One(nodes[k]) + One(n)
    decreases |nodes|
  {
    var last, changed := |nodes| - 1, nodes[k := n];
    if k == last {
      assert changed[..last] == nodes[..last];
    } else {
      FreeIdsUpdate(nodes[..last], k, n);
      assert changed[..last] == nodes[..last][k := n];
    }
  }

  lemma {:induction false} FreeIdsNone(nodes: seq<Node>)
    ensures FreeIds(nodes) == 0 <==> forall n :: n in nodes ==> n.inUse
  {
    if nodes != [] {
      var last := |nodes| - 1;
      FreeIdsNone(nodes[..last]);
      assert forall n :: n in nodes <==> n in nodes[..last] || n == nodes[last];
    }
  }

  // ---------------------------------------------------------------- the balance

  /** What a slot will ask of the pool: an id if it is occupied and has none, one back if it is empty and has one. */
  function Change(t: Tables, addr: byte, m: SlotMap, s: nat): int
    requires Shape(t) && IsBackplane(addr) && s < MAX_SLOTS
  {
    if Occupied(m, s) && IdAt(t, addr, s) == 0 then -1 else if !Occupied(m, s) && IdAt(t, addr, s) != 0 then 1 else 0
  }

  /** Free ids, plus those given back, less those asked for, by the first `n` slots. */
  function Balance(t: Tables, addr: byte, m: SlotMap, n: nat): int
    requires Shape(t) && IsBackplane(addr) && n <= MAX_SLOTS
  {
    if n == 0 then FreeIds(t.nodes) else Balance(t, addr, m, n - 1) + Change(t, addr, m, n - 1)
  }

  /** The lowest balance so far, if it has been below zero. */
  function Lowest(t: Tables, addr: byte, m: SlotMap, n: nat): (low: int)
    requires Shape(t) && IsBackplane(addr) && n <= MAX_SLOTS
    ensures low <= 0
  {
    if n == 0 then 0
    else
      var low, now := Lowest(t, addr, m, n - 1), Balance(t, addr, m, n);
      if now < low then now else low
  }

  lemma {:induction false} LowestIs(t: Tables, addr: byte, m: SlotMap, n: nat)
    requires Shape(t) && IsBackplane(addr) && n <= MAX_SLOTS
    ensures forall k: nat :: k <= n ==> Lowest(t, addr, m, n) <= Balance(t, addr, m, k)
    ensures Lowest(t, addr, m, n) < 0 ==> exists k: nat :: k <= n && Balance(t, addr, m, k) == Lowest(t, addr, m, n)
  {
    hide Change;
    if n > 0 { LowestIs(t, addr, m, n - 1); }
  }

  predicate SomeShort(t: Tables, addr: byte, m: SlotMap, n: nat)
    requires Shape(t) && IsBackplane(addr) && n <= MAX_SLOTS
  {
    exists s: nat :: s < n && Short(t, addr, m, s)
  }

  /** A slot's step against the pool. */
  lemma StepTakes(t: Tables, addr: byte, m: SlotMap, slot: nat)
    requires Shape(t) && Bijection(t) && IsBackplane(addr) && slot < MAX_SLOTS
    ensures var t', c, free := SlotStep(t, addr, slot, Occupied(m, slot)), Change(t, addr, m, slot), FreeIds(t.nodes);
      && FreeIds(t'.nodes) == (if c < 0 && free == 0 then 0 else free + c)
      && (Short(t', addr, m, slot) <==> c < 0 && free == 0)
  {
    hide Occupied, Bijection;
    if Occupied(m, slot) {
      if IdAt(t, addr, slot) == 0 { AssignTakes(t, addr, slot); }
    } else {
      VacateGives(t, addr, slot);
    }
  }

  lemma AssignTakes(t: Tables, addr: byte, slot: nat)
    requires Shape(t) && IsBackplane(addr) && slot < MAX_SLOTS && IdAt(t, addr, slot) == 0
    ensures var t', free := Assign(t, addr, slot), FreeIds(t.nodes);
      && FreeIds(t'.nodes) == (if free == 0 then 0 else free - 1)
      && (IdAt(t', addr, slot) == 0 <==> free == 0)
  {
    FreeIdsNone(t.nodes);
    NoneFree(t);
    var free := FreeId(t.nodes, 0);
    if free.Some? {
      assert t.nodes[free.value] in t.nodes;
      FreeIdsUpdate(t.nodes, free.value, Assign(t, addr, slot).nodes[free.value]);
    }
  }

  lemma ReleaseLeaves(t: Tables, id: byte)
    requires Shape(t) && IsModule(id)
    ensures FreeIds(Release(t, id).nodes) == FreeIds(t.nodes)
    ensures NodeOf(Release(t, id), id).inUse == NodeOf(t, id).inUse
  {
    var n := NodeOf(t, id);
    FreeIdsUpdate(t.nodes, id - ADDR_MODULE_MIN, n.(descriptor := None));
  }

  lemma VacateGives(t: Tables, addr: byte, slot: nat)
    requires Shape(t) && Bijection(t) && IsBackplane(addr) && slot < MAX_SLOTS
    ensures FreeIds(SlotStep(t, addr, slot, false).nodes) ==
      FreeIds(t.nodes) + if IdAt(t, addr, slot) == 0 then 0 else 1
  {
    hide Release, NodeIsNamed;
    assert SlotNamesNode(t, addr, slot);
    var id := IdAt(t, addr, slot);
    if id != 0 {
      var t1 := PutBackplane(t, addr, SetReported(BackplaneOf(t, addr), slot, false));
      var r := Release(t1, id);
      ReleaseLeaves(t1, id);
      FreeIdsUpdate(r.nodes, id - ADDR_MODULE_MIN, Blank(NodeOf(r, id).everDiscovered));
    }
  }

  lemma StepBijection(t: Tables, addr: byte, m: SlotMap, n: nat)
    requires Shape(t) && Bijection(t) && IsBackplane(addr) && 0 < n <= MAX_SLOTS
    ensures Bijection(Slots(t, addr, m, n - 1))
  {
    hide Bijection;
    SlotsKeep(t, addr, m, n - 1);
  }

  /** Ids free and slots short after the first `n` slots, from the table and the map alone. */
  lemma {:induction false} SlotsFollowBalance(t: Tables, addr: byte, m: SlotMap, n: nat)
    requires Shape(t) && Bijection(t) && IsBackplane(addr) && n <= MAX_SLOTS
    ensures var t' := Slots(t, addr, m, n);
      && FreeIds(t'.nodes) == Balance(t, addr, m, n) - Lowest(t, addr, m, n)
      && (SomeShort(t', addr, m, n) <==> Lowest(t, addr, m, n) < 0)
  {
    hide SlotStep, Occupied, Bijection, Short, FreeIds;
    if n > 0 {
      var t1 := Slots(t, addr, m, n - 1);
      SlotsFollowBalance(t, addr, m, n - 1);
      StepBijection(t, addr, m, n);
      SlotsSettle(t, addr, m, n - 1);
      assert Change(t1, addr, m, n - 1) == Change(t, addr, m, n - 1);
      StepTakes(t1, addr, m, n - 1);
      ShortStays(t1, addr, m, n);
    }
  }

  lemma ShortStays(t: Tables, addr: byte, m: SlotMap, n: nat)
    requires Shape(t) && IsBackplane(addr) && 0 < n <= MAX_SLOTS
    ensures var t' := SlotStep(t, addr, n - 1, Occupied(m, n - 1));
      SomeShort(t', addr, m, n) <==> SomeShort(t, addr, m, n - 1) || Short(t', addr, m, n - 1)
  {
    hide SlotStep, Occupied;
    StepElsewhere(t, addr, n - 1, Occupied(m, n - 1));
    var t' := SlotStep(t, addr, n - 1, Occupied(m, n - 1));
    assert forall s: nat :: s < n - 1 ==> (Short(t', addr, m, s) <==> Short(t, addr, m, s));
  }

  // ---------------------------------------------------------------- exactly

  /** Never below zero on the way, or lowest at the end. */
  predicate Settling(t: Tables, addr: byte, m: SlotMap)
    requires Shape(t) && IsBackplane(addr)
  {
    || (forall k: nat :: k <= MAX_SLOTS ==> Balance(t, addr, m, k) >= 0)
    || (forall k: nat :: k <= MAX_SLOTS ==> Balance(t, addr, m, MAX_SLOTS) <= Balance(t, addr, m, k))
  }

  lemma {:induction false} CountedBalance(t: Tables, addr: byte, m: SlotMap, n: nat)
    requires Shape(t) && IsBackplane(addr) && n <= MAX_SLOTS
    ensures Balance(Counted(t, addr, m), addr, m, n) == Balance(t, addr, m, n)
    ensures Lowest(Counted(t, addr, m), addr, m, n) == Lowest(t, addr, m, n)
  {
    hide Occupied;
    if n > 0 { CountedBalance(t, addr, m, n - 1); }
  }

  lemma CountedBijection(t: Tables, addr: byte, m: SlotMap)
    requires Shape(t) && Bijection(t) && IsBackplane(addr)
    ensures Bijection(Counted(t, addr, m))
  {
    SameSlotsKeep(t, Counted(t, addr, m));
  }

  /** What one application leaves: ids free and slots short. */
  lemma OnceFollowsBalance(t: Tables, addr: byte, m: SlotMap)
    requires Shape(t) && Bijection(t) && IsBackplane(addr)
    ensures var once := Reconcile(t, addr, m);
      && FreeIds(once.nodes) == Balance(t, addr, m, MAX_SLOTS) - Lowest(t, addr, m, MAX_SLOTS)
      && (SomeShort(once, addr, m, MAX_SLOTS) <==> Lowest(t, addr, m, MAX_SLOTS) < 0)
  {
    hide Slots, Bijection, Balance, Lowest, SomeShort, FreeIds;
    CountedBijection(t, addr, m);
    SlotsFollowBalance(Counted(t, addr, m), addr, m, MAX_SLOTS);
    CountedBalance(t, addr, m, MAX_SLOTS);
  }

  /**
   * Before a map is applied its caller can tell whether once will be enough: in slot order, free ids and ids given back
   * against ids asked for never fall short, or are at their lowest at the end.
   */
  lemma OnceIsFixedExactly(t: Tables, addr: byte, m: SlotMap)
    requires Shape(t) && Bijection(t) && IsBackplane(addr)
    ensures var once := Reconcile(t, addr, m); SameTables(once, Reconcile(once, addr, m)) <==> Settling(t, addr, m)
  {
    hide Reconcile, Bijection, SameTables, Balance, Lowest, FreeIds;
    var once := Reconcile(t, addr, m);
    OnceFollowsBalance(t, addr, m);
    OnceIsFixedIff(t, addr, m);
    FreeIdsNone(once.nodes);
    LowestIs(t, addr, m, MAX_SLOTS);
    var low := Lowest(t, addr, m, MAX_SLOTS);
    if low < 0 {
      var k: nat :| k <= MAX_SLOTS && Balance(t, addr, m, k) == low;
    }
  }

  // ---------------------------------------------------------------- a run in which once is not enough

  /** Slots 1 to 112 occupied: as many as there are ids. */
  const FULL: SlotMap := SlotMap(113, [0xFE] + seq(13, i => 0xFF) + [0x01], [])

  /** Then slot 0 is occupied as well, and slot 112 no longer. */
  const MOVED: SlotMap := SlotMap(112, seq(14, i => 0xFF), [])

  lemma Powers()
    ensures Power2(0) == 1 && Power2(1) == 2 && Power2(2) == 4 && Power2(3) == 8
    ensures Power2(4) == 16 && Power2(5) == 32 && Power2(6) == 64 && Power2(7) == 128
  {
  }

  lemma BitsOf(k: nat)
    requires k < 8
    ensures (0xFF / Power2(k)) % 2 == 1 && ((0xFE / Power2(k)) % 2 == 1 <==> k != 0)
    ensures ((0x01 / Power2(k)) % 2 == 1 <==> k == 0)
  {
    Powers();
    hide Power2;
  }

  lemma FullOccupies(s: nat)
    ensures Occupied(FULL, s) <==> 1 <= s <= 112
  {
    BitsOf(s % 8);
    hide Power2;
  }

  lemma MovedOccupies(s: nat)
    ensures Occupied(MOVED, s) <==> s < 112
  {
    BitsOf(s % 8);
    hide Power2;
  }

  lemma {:induction false} AllFree(n: nat)
    ensures FreeIds(seq(n, i => Blank(false))) == n
  {
    if n > 0 {
      AllFree(n - 1);
      assert seq(n, i => Blank(false))[..n - 1] == seq(n - 1, i => Blank(false));
    }
  }

  lemma {:induction false} FullBalance(n: nat)
    requires n <= MAX_SLOTS
    ensures Balance(Start(), 1, FULL, n) == if n == 0 then 112 else if n <= 113 then 113 - n else 0
  {
    hide Occupied, FreeIds;
    if n == 0 {
      AllFree(MODULE_IDS);
    } else {
      FullBalance(n - 1);
      FullOccupies(n - 1);
    }
  }

  lemma {:induction false} FullLowest(n: nat)
    requires n <= MAX_SLOTS
    ensures Lowest(Start(), 1, FULL, n) == 0
  {
    hide Balance;
    FullBalance(n);
    if n > 0 { FullLowest(n - 1); }
  }

  /** Every id taken, one by each of slots 1 to 112. */
  lemma AfterFull()
    ensures var t := Reconcile(Start(), 1, FULL);
      && Bijection(t) && FreeIds(t.nodes) == 0
      && forall s: nat :: s < MAX_SLOTS ==> (IdAt(t, 1, s) != 0 <==> 1 <= s <= 112)
  {
    hide Reconcile, Bijection, Balance, Lowest, FreeIds, Occupied, Start;
    var t := Reconcile(Start(), 1, FULL);
    StartIsBijective();
    ReconcileKeepsBijection(Start(), 1, FULL);
    OnceFollowsBalance(Start(), 1, FULL);
    FullBalance(MAX_SLOTS);
    FullLowest(MAX_SLOTS);
    TwiceSettles(Start(), 1, FULL);
    forall s: nat | s < MAX_SLOTS ensures IdAt(t, 1, s) != 0 <==> 1 <= s <= 112 {
      FullOccupies(s);
      assert !Short(t, 1, FULL, s);
    }
  }

  /**
   * Two maps from the start: the second leaves slot 0 short and frees slot 112's id, and applied again it changes the
   * tables.
   */
  lemma OnceIsNotFixed()
    ensures var t := Reconcile(Start(), 1, FULL);
      var once := Reconcile(t, 1, MOVED);
      && !SameTables(once, Reconcile(once, 1, MOVED))
      && FreeIds(t.nodes) == 0 && Short(once, 1, MOVED, 0) && FreeIds(once.nodes) == 1
  {
    hide Reconcile, Bijection, Occupied, FreeIds, SameTables, Start;
    AfterFull();
    var t := Reconcile(Start(), 1, FULL);
    MovedBalance(t, 1);
    MovedBalance(t, MAX_SLOTS);
    MovedLowest(t, MAX_SLOTS);
    OnceIsFixedExactly(t, 1, MOVED);
    OnceFollowsBalance(t, 1, MOVED);
    FirstIsShort(t);
  }

  lemma {:induction false} MovedBalance(t: Tables, n: nat)
    requires Shape(t) && FreeIds(t.nodes) == 0 && n <= MAX_SLOTS
    requires forall s: nat :: s < MAX_SLOTS ==> (IdAt(t, 1, s) != 0 <==> 1 <= s <= 112)
    ensures Balance(t, 1, MOVED, n) == if 1 <= n <= 112 then -1 else 0
  {
    hide Occupied, FreeIds;
    if n > 0 {
      MovedBalance(t, n - 1);
      MovedOccupies(n - 1);
    }
  }

  lemma {:induction false} MovedLowest(t: Tables, n: nat)
    requires Shape(t) && FreeIds(t.nodes) == 0 && n <= MAX_SLOTS
    requires forall s: nat :: s < MAX_SLOTS ==> (IdAt(t, 1, s) != 0 <==> 1 <= s <= 112)
    ensures Lowest(t, 1, MOVED, n) == if n == 0 then 0 else -1
  {
    hide Balance, Occupied, FreeIds;
    MovedBalance(t, n);
    if n > 0 { MovedLowest(t, n - 1); }
  }

  lemma FirstIsShort(t: Tables)
    requires Shape(t) && Bijection(t) && FreeIds(t.nodes) == 0 && IdAt(t, 1, 0) == 0
    ensures Short(Reconcile(t, 1, MOVED), 1, MOVED, 0)
  {
    hide Bijection, Occupied, FreeIds, Balance, SlotStep;
    var t1 := Counted(t, 1, MOVED);
    CountedBijection(t, 1, MOVED);
    MovedOccupies(0);
    StepTakes(t1, 1, MOVED, 0);
    Untouched(t1, MAX_SLOTS);
  }

  /** The first slot's id after its own step stands to the end. */
  lemma {:induction false} Untouched(t: Tables, n: nat)
    requires Shape(t) && 1 <= n <= MAX_SLOTS
    ensures IdAt(Slots(t, 1, MOVED, n), 1, 0) == IdAt(Slots(t, 1, MOVED, 1), 1, 0)
    ensures Slots(t, 1, MOVED, 1) == SlotStep(t, 1, 0, Occupied(MOVED, 0))
  {
    hide SlotStep, Occupied;
    if n > 1 {
      Untouched(t, n - 1);
      StepElsewhere(Slots(t, 1, MOVED, n - 1), 1, n - 1, Occupied(MOVED, n - 1));
    }
  }
}
