/** The host core's tables: nodes, backplane slots and the descriptor cache, as functions on values. */
module Core {
  import opened Protocol
  import opened Crc16

  const CACHE_ENTRIES: nat := 32

  datatype Discovery = Undiscovered | Identifying | ReadingDescriptor | Discovered

  /** What an IDENTIFY answer can form: module type, descriptor length and descriptor CRC. */
  datatype Key = Key(moduleType: byte, len: nat, crc: bv16)

  const NO_KEY: Key := Key(0, 0, 0)

  datatype Node = Node(
    inUse: bool,
    backplane: byte,
    slot: nat,
    discovery: Discovery,
    key: Key,
    descriptor: Option<nat>, // index into the cache
    everDiscovered: bool,
    stalled: nat,            // superframe of the last chunk that made no progress, 0 if none
    lastDuration: nat)

  datatype Entry = Entry(inUse: bool, key: Key, complete: bool, blob: seq<byte>, refcount: nat)

  datatype Backplane = Backplane(slotCount: nat, idBySlot: seq<byte>, reported: set<nat>, lastDuration: nat)

  datatype LifecycleKind = NodeDiscovered | NodeRediscovered | NodeRemoved | NodeIdPoolExhausted

  datatype Lifecycle = Lifecycle(kind: LifecycleKind, nodeId: byte, slot: nat)

  datatype Tables = Tables(
    nodes: seq<Node>,
    backplanes: seq<Backplane>,
    entries: seq<Entry>,
    lifecycle: seq<Lifecycle>, // queued deliveries
    dropped: nat)

  /** A reset record keeps only the id's own history. */
  function Blank(ever: bool): Node {
    Node(false, 0, 0, Undiscovered, NO_KEY, None, ever, 0, 0)
  }

  function Start(): Tables {
    Tables(
      seq(MODULE_IDS, i => Blank(false)),
      seq(ADDR_BACKPLANE_MAX, i => Backplane(0, seq(MAX_SLOTS, j => 0), {}, 0)),
      seq(CACHE_ENTRIES, i => Entry(false, NO_KEY, false, [], 0)),
      [], 0)
  }

  predicate Shape(t: Tables) {
    && |t.nodes| == MODULE_IDS && |t.backplanes| == ADDR_BACKPLANE_MAX && |t.entries| == CACHE_ENTRIES
    && (forall a :: 0 <= a < |t.backplanes| ==> |t.backplanes[a].idBySlot| == MAX_SLOTS)
    && |t.lifecycle| <= MAX_NODES
  }

  predicate IsModule(id: byte) {
    ADDR_MODULE_MIN <= id <= ADDR_MODULE_MAX
  }

  predicate IsBackplane(addr: byte) {
    ADDR_BACKPLANE_MIN <= addr <= ADDR_BACKPLANE_MAX
  }

  function NodeOf(t: Tables, id: byte): Node
    requires Shape(t) && IsModule(id)
  {
    t.nodes[id - ADDR_MODULE_MIN]
  }

  function PutNode(t: Tables, id: byte, n: Node): (t': Tables)
    requires Shape(t) && IsModule(id)
    ensures Shape(t')
  {
    t.(nodes := t.nodes[id - ADDR_MODULE_MIN := n])
  }

  function PutEntry(t: Tables, i: nat, e: Entry): (t': Tables)
    requires Shape(t) && i < CACHE_ENTRIES
    ensures Shape(t')
  {
    t.(entries := t.entries[i := e])
  }

  function PutBackplane(t: Tables, addr: byte, b: Backplane): (t': Tables)
    requires Shape(t) && IsBackplane(addr) && |b.idBySlot| == MAX_SLOTS
    ensures Shape(t')
  {
    t.(backplanes := t.backplanes[addr - 1 := b])
  }

  /** Drop-newest: a full ring refuses and counts. */
  function Enqueue(t: Tables, ev: Lifecycle): (t': Tables)
    requires Shape(t)
    ensures Shape(t')
  {
    if |t.lifecycle| < MAX_NODES then t.(lifecycle := t.lifecycle + [ev]) else t.(dropped := t.dropped + 1)
  }

  // ---------------------------------------------------------------- the descriptor cache

  /** The first entry in use with this key, from `i` up. */
  function FindFrom(entries: seq<Entry>, key: Key, i: nat): (r: Option<nat>)
    requires i <= |entries|
    ensures r.Some? ==> i <= r.value < |entries| && entries[r.value].inUse && entries[r.value].key == key
    ensures r.None? ==> forall j :: i <= j < |entries| ==> !(entries[j].inUse && entries[j].key == key)
    decreases |entries| - i
  {
    if i == |entries| then None
    else if entries[i].inUse && entries[i].key == key then Some(i)
    else FindFrom(entries, key, i + 1)
  }

  function Find(t: Tables, key: Key): Option<nat> {
    FindFrom(t.entries, key, 0)
  }

  /** A node still reading this entry, found by key as the reader itself finds it. */
  predicate HasReader(t: Tables, e: Entry) {
    exists n :: n in t.nodes && n.inUse && n.discovery == ReadingDescriptor && n.key == e.key
  }

  function FirstFree(entries: seq<Entry>, i: nat): (r: Option<nat>)
    requires i <= |entries|
    ensures r.Some? ==> r.value < |entries| && !entries[r.value].inUse
    decreases |entries| - i
  {
    if i == |entries| then None else if !entries[i].inUse then Some(i) else FirstFree(entries, i + 1)
  }

  function FirstReusable(t: Tables, i: nat): (r: Option<nat>)
    requires Shape(t) && i <= CACHE_ENTRIES
    ensures r.Some? ==> r.value < CACHE_ENTRIES && t.entries[r.value].refcount == 0 && !HasReader(t, t.entries[r.value])
    decreases CACHE_ENTRIES - i
  {
    if i == CACHE_ENTRIES then None
    else if t.entries[i].refcount == 0 && !HasReader(t, t.entries[i]) then Some(i)
    else FirstReusable(t, i + 1)
  }

  /** A never-used entry if there is one, else one nobody points at or reads. */
  function Claimable(t: Tables, key: Key): (r: Option<nat>)
    requires Shape(t)
    ensures r.Some? ==> r.value < CACHE_ENTRIES
  {
    if key.len > MAX_DESCRIPTOR_BYTES then None
    else
      var free := FirstFree(t.entries, 0);
      if free.Some? then free else FirstReusable(t, 0)
  }

  function Claimed(key: Key): Entry {
    Entry(true, key, false, [], 0)
  }

  function MarkDiscovered(t: Tables, id: byte, i: nat): (t': Tables)
    requires Shape(t) && IsModule(id) && i < CACHE_ENTRIES
    ensures Shape(t')
  {
    var n, e := NodeOf(t, id), t.entries[i];
    var t1 := PutEntry(PutNode(t, id, n.(descriptor := Some(i), discovery := Discovered, everDiscovered := true)),
                       i, e.(refcount := e.refcount + 1));
    Enqueue(t1, Lifecycle(if n.everDiscovered then NodeRediscovered else NodeDiscovered, id, n.slot))
  }

  predicate Waits(n: Node, key: Key) {
    n.inUse && n.discovery == ReadingDescriptor && n.key == key
  }

  /** Every node waiting on a completed entry, from `id` up, becomes Discovered. */
  function Attach(t: Tables, i: nat, id: nat): (t': Tables)
    requires Shape(t) && i < CACHE_ENTRIES && ADDR_MODULE_MIN <= id <= ADDR_MODULE_MAX + 1
    ensures Shape(t')
    decreases ADDR_MODULE_MAX + 1 - id
  {
    if id > ADDR_MODULE_MAX then t
    else Attach(if Waits(NodeOf(t, id), t.entries[i].key) then MarkDiscovered(t, id, i) else t, i, id + 1)
  }

  function Release(t: Tables, id: byte): (t': Tables)
    requires Shape(t) && IsModule(id)
    ensures Shape(t')
  {
    var n := NodeOf(t, id);
    if n.descriptor.None? || n.descriptor.value >= CACHE_ENTRIES then t
    else
      var e := t.entries[n.descriptor.value];
      PutNode(PutEntry(t, n.descriptor.value, e.(refcount := if e.refcount != 0 then e.refcount - 1 else 0)),
              id, n.(descriptor := None))
  }

  // ---------------------------------------------------------------- answers

  datatype Chunk = Chunk(nodeId: byte, offset: nat)

  /** The chunk ring: refuses when full. */
  function Push(ring: seq<Chunk>, c: Chunk): (ring': seq<Chunk>)
    requires |ring| <= MAX_NODES
    ensures |ring'| <= MAX_NODES
  {
    if |ring| < MAX_NODES then ring + [c] else ring
  }

  /** An identity for a node in use; the ring is that of chunks still to be asked for. */
  function OnIdentity(t: Tables, ring: seq<Chunk>, id: byte, key: Key): (r: (Tables, seq<Chunk>))
    requires Shape(t) && IsModule(id) && |ring| <= MAX_NODES
    ensures Shape(r.0) && |r.1| <= MAX_NODES
  {
    var n := NodeOf(t, id);
    if !n.inUse then (t, ring)
    else
      var found := Find(t, key);
      if found.Some? && t.entries[found.value].complete then
        (MarkDiscovered(PutNode(t, id, n.(key := key)), id, found.value), ring)
      else
        var t1 := PutNode(t, id, n.(key := key, discovery := ReadingDescriptor, stalled := 0));
        if found.Some? then (t1, ring)
        else
          var i := Claimable(t1, key);
          if i.None? then (PutNode(t, id, n.(key := key, discovery := Identifying, stalled := 0)), ring)
          else if key.len == 0 then
            (Attach(PutEntry(t1, i.value, Claimed(key).(complete := true)), i.value, ADDR_MODULE_MIN), ring)
          else if |ring| >= MAX_NODES then
            (PutEntry(PutNode(t, id, n.(key := key, discovery := Identifying, stalled := 0)),
                      i.value, Claimed(key).(inUse := false)), ring)
          else (PutEntry(t1, i.value, Claimed(key)), Push(ring, Chunk(id, 0)))
  }

  /** The read is given up: the entry is free again and its node starts over from IDENTIFY. */
  function Abandon(t: Tables, id: byte, i: nat): (t': Tables)
    requires Shape(t) && IsModule(id) && i < CACHE_ENTRIES
    ensures Shape(t')
  {
    PutNode(PutEntry(t, i, t.entries[i].(inUse := false)), id, NodeOf(t, id).(discovery := Identifying))
  }

  function Stall(t: Tables, id: byte, superframe: nat): (t': Tables)
    requires Shape(t) && IsModule(id)
    ensures Shape(t')
  {
    PutNode(t, id, NodeOf(t, id).(stalled := superframe))
  }

  /** The bytes of a chunk that continues the entry where it stood, kept and judged. */
  function Extend(t: Tables, ring: seq<Chunk>, id: byte, i: nat, bytes: seq<byte>): (r: (Tables, seq<Chunk>))
    requires Shape(t) && IsModule(id) && i < CACHE_ENTRIES && |ring| <= MAX_NODES
    ensures Shape(r.0) && |r.1| <= MAX_NODES
  {
    var e := t.entries[i];
    var e1 := e.(blob := e.blob + bytes);
    var t1 := PutEntry(if bytes != [] then Stall(t, id, 0) else t, i, e1);
    if |e1.blob| < e.key.len then
      if bytes == [] || |ring| >= MAX_NODES then (Abandon(t1, id, i), ring)
      else (t1, Push(ring, Chunk(id, |e1.blob|)))
    else if Crc(e1.blob) != e.key.crc then (Abandon(t1, id, i), ring)
    else (Attach(PutEntry(t1, i, e1.(complete := true)), i, ADDR_MODULE_MIN), ring)
  }

  datatype ChunkAnswer =
    | NoChunk                                  // an ERROR answer, or one that does not decode as READ_DESC
    | BadChunk                                 // READ_DESC with an undecodable payload
    | Bytes(offset: nat, bytes: seq<byte>)

  function OnChunk(t: Tables, ring: seq<Chunk>, id: byte, asked: nat, answer: ChunkAnswer,
      superframe: nat): (r: (Tables, seq<Chunk>))
    requires Shape(t) && IsModule(id) && |ring| <= MAX_NODES
    ensures Shape(r.0) && |r.1| <= MAX_NODES
  {
    var n := NodeOf(t, id);
    var found := Find(t, n.key);
    if !n.inUse || found.None? || t.entries[found.value].complete then (t, ring)
    else
      var i := found.value;
      var e := t.entries[i];
      match answer
      case NoChunk => (Stall(t, id, superframe), Push(ring, Chunk(id, asked)))
      case BadChunk => (Stall(t, id, superframe), ring)
      case Bytes(offset, bytes) =>
        if offset != |e.blob| then (Stall(t, id, superframe), Push(ring, Chunk(id, |e.blob|)))
        else if |e.blob| + |bytes| > e.key.len then (Abandon(t, id, i), ring)
        else Extend(t, ring, id, i, bytes)
  }

  // ---------------------------------------------------------------- slots

  /** BP_SLOT_MAP: a claimed count and two bitmaps, least significant bit first. */
  datatype SlotMap = SlotMap(slotCount: byte, occupied: seq<byte>, changed: seq<byte>)

  function Power2(n: nat): (p: nat)
    ensures p > 0
  {
    if n == 0 then 1 else 2 * Power2(n - 1)
  }

  predicate SlotBit(bitmap: seq<byte>, slot: nat) {
    slot / 8 < |bitmap| && (bitmap[slot / 8] / Power2(slot % 8)) % 2 == 1
  }

  function SlotCount(m: SlotMap): nat {
    if m.slotCount > MAX_SLOTS then MAX_SLOTS else m.slotCount
  }

  /** Within the clamped count, and its bit set; a short bitmap reads as empty. */
  predicate Occupied(m: SlotMap, slot: nat) {
    slot < SlotCount(m) && SlotBit(m.occupied, slot)
  }

  /** The lowest free node id, from `i` up. */
  function FreeId(nodes: seq<Node>, i: nat): (r: Option<nat>)
    requires i <= |nodes|
    ensures r.Some? ==> i <= r.value < |nodes| && !nodes[r.value].inUse
    ensures r.Some? ==> forall j :: i <= j < r.value ==> nodes[j].inUse
    ensures r.None? ==> forall j :: i <= j < |nodes| ==> nodes[j].inUse
    decreases |nodes| - i
  {
    if i == |nodes| then None else if !nodes[i].inUse then Some(i) else FreeId(nodes, i + 1)
  }

  function SetReported(b: Backplane, slot: nat, on: bool): Backplane {
    b.(reported := if on then b.reported + {slot} else b.reported - {slot})
  }

  function BackplaneOf(t: Tables, addr: byte): Backplane
    requires Shape(t) && IsBackplane(addr)
  {
    t.backplanes[addr - 1]
  }

  /** An occupied slot without an id gets the lowest free one, or its shortage is reported once. */
  function Assign(t: Tables, addr: byte, slot: nat): (t': Tables)
    requires Shape(t) && IsBackplane(addr) && slot < MAX_SLOTS
    ensures Shape(t')
  {
    var b := BackplaneOf(t, addr);
    var free := FreeId(t.nodes, 0);
    if free.None? then
      if slot in b.reported then t
      else
        var t1 := Enqueue(t, Lifecycle(NodeIdPoolExhausted, addr, slot));
        PutBackplane(t1, addr, SetReported(b, slot, |t.lifecycle| < MAX_NODES))
    else
      var id := ADDR_MODULE_MIN + free.value;
      var n := Blank(t.nodes[free.value].everDiscovered).(inUse := true, backplane := addr, slot := slot);
      PutBackplane(PutNode(t, id, n), addr, SetReported(b, slot, false).(idBySlot := b.idBySlot[slot := id]))
  }

  /** An empty slot's id goes back to the pool, its descriptor released, and the removal is reported. */
  function Vacate(t: Tables, addr: byte, slot: nat): (t': Tables)
    requires Shape(t) && IsBackplane(addr) && slot < MAX_SLOTS
    ensures Shape(t')
  {
    var b := BackplaneOf(t, addr);
    var id := b.idBySlot[slot];
    if id == 0 then t
    else
      var t1 := if IsModule(id) then var r := Release(t, id); PutNode(r, id, Blank(NodeOf(r, id).everDiscovered))
        else t;
      Enqueue(PutBackplane(t1, addr, b.(idBySlot := b.idBySlot[slot := 0])), Lifecycle(NodeRemoved, id, slot))
  }

  function SlotStep(t: Tables, addr: byte, slot: nat, occupied: bool): (t': Tables)
    requires Shape(t) && IsBackplane(addr) && slot < MAX_SLOTS
    ensures Shape(t')
  {
    if occupied then
      if BackplaneOf(t, addr).idBySlot[slot] == 0 then Assign(t, addr, slot) else t
    else Vacate(PutBackplane(t, addr, SetReported(BackplaneOf(t, addr), slot, false)), addr, slot)
  }

  /** The first `n` slots brought in line with what the backplane reports. */
  function Slots(t: Tables, addr: byte, m: SlotMap, n: nat): (t': Tables)
    requires Shape(t) && IsBackplane(addr) && n <= MAX_SLOTS
    ensures Shape(t')
  {
    if n == 0 then t else SlotStep(Slots(t, addr, m, n - 1), addr, n - 1, Occupied(m, n - 1))
  }

  function Reconcile(t: Tables, addr: byte, m: SlotMap): (t': Tables)
    requires Shape(t)
    ensures Shape(t')
  {
    if !IsBackplane(addr) then t
    else Slots(PutBackplane(t, addr, BackplaneOf(t, addr).(slotCount := SlotCount(m))), addr, m, MAX_SLOTS)
  }
}
