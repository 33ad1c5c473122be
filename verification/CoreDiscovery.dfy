/** How a node comes to be Discovered: what an identity decides, what a chunk decides, and a whole read. */
module CoreDiscovery {
  import opened Protocol
  import opened Crc16
  import opened Core
  import opened CoreCache

  // ---------------------------------------------------------------- an identity

  /** The whole descriptor with this key is in the cache. */
  predicate Cached(t: Tables, key: Key) {
    exists e :: e in t.entries && e.inUse && e.key == key && e.complete
  }

  /** Some of it is. */
  predicate BeingRead(t: Tables, key: Key) {
    exists e :: e in t.entries && e.inUse && e.key == key && !e.complete
  }

  /** An entry that is free, or that no node points at and none but `id` is reading. */
  predicate Spare(t: Tables, id: byte, e: Entry)
    requires Shape(t) && IsModule(id)
  {
    || !e.inUse
    || (e.refcount == 0 &&
        forall a: byte :: IsModule(a) && a != id ==>
          !(NodeOf(t, a).inUse && NodeOf(t, a).discovery == ReadingDescriptor && NodeOf(t, a).key == e.key))
  }

  predicate Room(t: Tables, id: byte, key: Key)
    requires Shape(t) && IsModule(id)
  {
    key.len <= MAX_DESCRIPTOR_BYTES && exists i :: 0 <= i < CACHE_ENTRIES && Spare(t, id, t.entries[i])
  }

  lemma {:induction false} FindDecides(entries: seq<Entry>, key: Key, i: nat)
    requires i <= |entries|
    ensures FindFrom(entries, key, i).Some? <==>
      exists j :: i <= j < |entries| && entries[j].inUse && entries[j].key == key
    decreases |entries| - i
  {
    if i < |entries| { FindDecides(entries, key, i + 1); }
  }

  /** The entry found is complete or not as the cache says; there is only one. */
  lemma FoundIs(t: Tables, key: Key)
    requires Shape(t) && Coherent(t)
    ensures var found := Find(t, key);
      && (found.Some? ==> (Cached(t, key) <==> t.entries[found.value].complete) &&
                          (BeingRead(t, key) <==> !t.entries[found.value].complete))
      && (found.None? ==> !Cached(t, key) && !BeingRead(t, key))
  {
    hide EntryOk, NodeOk, Counts;
    FindDecides(t.entries, key, 0);
    if Cached(t, key) {
      var e :| e in t.entries && e.inUse && e.key == key && e.complete;
      var j :| 0 <= j < |t.entries| && t.entries[j] == e;
      OnlyOne(t, key, j);
    }
    if BeingRead(t, key) {
      var e :| e in t.entries && e.inUse && e.key == key && !e.complete;
      var j :| 0 <= j < |t.entries| && t.entries[j] == e;
      OnlyOne(t, key, j);
    }
  }

  lemma OnlyOne(t: Tables, key: Key, j: nat)
    requires Shape(t) && Coherent(t) && j < CACHE_ENTRIES && t.entries[j].inUse && t.entries[j].key == key
    ensures Find(t, key) == Some(j)
  {
    hide EntryOk, NodeOk, Counts;
    FindDecides(t.entries, key, 0);
  }

  lemma {:induction false} FreeDecides(entries: seq<Entry>, i: nat)
    requires i <= |entries|
    ensures FirstFree(entries, i).Some? <==> exists j :: i <= j < |entries| && !entries[j].inUse
    decreases |entries| - i
  {
    if i < |entries| { FreeDecides(entries, i + 1); }
  }

  predicate Reusable(t: Tables, e: Entry) {
    e.refcount == 0 && !HasReader(t, e)
  }

  lemma {:induction false} ReusableDecides(t: Tables, i: nat)
    requires Shape(t) && i <= CACHE_ENTRIES
    ensures FirstReusable(t, i).Some? <==> exists j :: i <= j < CACHE_ENTRIES && Reusable(t, t.entries[j])
    decreases CACHE_ENTRIES - i
  {
    hide HasReader;
    if i < CACHE_ENTRIES { ReusableDecides(t, i + 1); }
  }

  /** With `id` itself now reading a key nobody else has, the readers of any entry are the other nodes. */
  lemma SpareIs(t: Tables, id: byte, n: Node, i: nat)
    requires Shape(t) && IsModule(id) && i < CACHE_ENTRIES && t.entries[i].inUse && t.entries[i].key != n.key
    ensures Reusable(PutNode(t, id, n), t.entries[i]) <==> Spare(t, id, t.entries[i])
  {
    var t1, e := PutNode(t, id, n), t.entries[i];
    if HasReader(t1, e) {
      var m :| m in t1.nodes && m.inUse && m.discovery == ReadingDescriptor && m.key == e.key;
      var k :| 0 <= k < |t1.nodes| && t1.nodes[k] == m;
      var a: byte := ADDR_MODULE_MIN + k;
      assert a != id && NodeOf(t, a) == m;
    } else {
      forall a: byte | IsModule(a) && a != id
        ensures !(NodeOf(t, a).inUse && NodeOf(t, a).discovery == ReadingDescriptor && NodeOf(t, a).key == e.key)
      {
        assert NodeOf(t1, a) in t1.nodes;
        assert NodeOf(t1, a) == NodeOf(t, a);
      }
    }
  }

  lemma RoomIs(t: Tables, id: byte, n: Node)
    requires Shape(t) && IsModule(id) && Find(t, n.key).None?
    ensures Claimable(PutNode(t, id, n), n.key).Some? <==> Room(t, id, n.key)
  {
    hide HasReader, Reusable, FirstFree, FirstReusable;
    var t1 := PutNode(t, id, n);
    FreeDecides(t.entries, 0);
    ReusableDecides(t1, 0);
    NotFound(t, n.key);
    forall i | 0 <= i < CACHE_ENTRIES && t.entries[i].inUse
      ensures Reusable(t1, t.entries[i]) <==> Spare(t, id, t.entries[i])
    {
      SpareIs(t, id, n, i);
    }
  }

  lemma {:induction false} AttachLeavesOthers(t: Tables, i: nat, id: nat, a: byte)
    requires Shape(t) && i < CACHE_ENTRIES && ADDR_MODULE_MIN <= id <= ADDR_MODULE_MAX + 1 && IsModule(a)
    ensures var n, n' := NodeOf(t, a), NodeOf(Attach(t, i, id), a);
      var e, e' := t.entries[i], Attach(t, i, id).entries[i];
      && (a < id || !Waits(n, e.key) ==> n' == n)
      && (a >= id && Waits(n, e.key) ==>
        n' == n.(descriptor := Some(i), discovery := Discovered, everDiscovered := true))
      && e' == e.(refcount := e'.refcount)
      && forall j :: 0 <= j < CACHE_ENTRIES && j != i ==> Attach(t, i, id).entries[j] == t.entries[j]
    decreases ADDR_MODULE_MAX + 1 - id
  {
    hide Enqueue;
    if id <= ADDR_MODULE_MAX {
      var t1 := if Waits(NodeOf(t, id), t.entries[i].key) then MarkDiscovered(t, id, i) else t;
      MarkTouches(t, id, i);
      AttachLeavesOthers(t1, i, id + 1, a);
    }
  }

  /** Marking touches one node, and of its entry only the count. */
  lemma MarkTouches(t: Tables, id: byte, i: nat)
    requires Shape(t) && IsModule(id) && i < CACHE_ENTRIES
    ensures var t' := MarkDiscovered(t, id, i); var n := NodeOf(t, id);
      && t'.nodes ==
        t.nodes[id - ADDR_MODULE_MIN := n.(descriptor := Some(i), discovery := Discovered, everDiscovered := true)]
      && t'.entries == t.entries[i := t.entries[i].(refcount := t.entries[i].refcount + 1)]
      && t'.backplanes == t.backplanes
  {
  }

  /** What an identity makes of the node that gave it. */
  function IdentityMakes(t: Tables, free: nat, id: byte, key: Key): Discovery
    requires Shape(t) && IsModule(id)
  {
    if Cached(t, key) then Discovered
    else if BeingRead(t, key) then ReadingDescriptor
    else if !Room(t, id, key) then Identifying
    else if key.len == 0 then Discovered
    else if free > 0 then ReadingDescriptor
    else Identifying
  }

  /** The first chunk is asked for exactly when the node is to be the first reader of a descriptor that has bytes. */
  lemma IdentityDecides(t: Tables, ring: seq<Chunk>, id: byte, key: Key)
    requires Shape(t) && Coherent(t) && IsModule(id) && |ring| <= MAX_NODES
    requires NodeOf(t, id).inUse && NodeOf(t, id).discovery != Discovered
    ensures var (t', ring') := OnIdentity(t, ring, id, key);
      && NodeOf(t', id).inUse && NodeOf(t', id).key == key
      && NodeOf(t', id).discovery == IdentityMakes(t, MAX_NODES - |ring|, id, key)
      && ring' == ring +
        (if !Cached(t, key) && !BeingRead(t, key) && NodeOf(t', id).discovery == ReadingDescriptor then [Chunk(id, 0)]
         else [])
  {
    hide Coherent, Attach, Claimable, Cached, BeingRead, Room, Enqueue;
    var n := NodeOf(t, id);
    var reading := n.(key := key, discovery := ReadingDescriptor, stalled := 0);
    FoundIs(t, key);
    assert ring + [] == ring;
    var found := Find(t, key);
    if found.Some? {
      MarkTouches(PutNode(t, id, n.(key := key)), id, found.value);
    } else {
      RoomIs(t, id, reading);
      var t1 := PutNode(t, id, reading);
      var i := Claimable(t1, key);
      if i.Some? {
        AttachLeavesOthers(PutEntry(t1, i.value, Claimed(key).(complete := true)), i.value, ADDR_MODULE_MIN, id);
      }
    }
  }

  /** While some entry is free, an identity takes nothing from the cache: every entry in use keeps its key and bytes. */
  lemma FreeEntryFirst(t: Tables, ring: seq<Chunk>, id: byte, key: Key, j: nat)
    requires Shape(t) && IsModule(id) && |ring| <= MAX_NODES
    requires j < CACHE_ENTRIES && t.entries[j].inUse && exists i :: 0 <= i < CACHE_ENTRIES && !t.entries[i].inUse
    ensures var x := OnIdentity(t, ring, id, key).0.entries[j]; x == t.entries[j].(refcount := x.refcount)
  {
    hide Attach, FirstFree, FirstReusable, Enqueue, FindFrom;
    FreeDecides(t.entries, 0);
    var n := NodeOf(t, id);
    var found := Find(t, key);
    if found.Some? {
      MarkTouches(PutNode(t, id, n.(key := key)), id, found.value);
    } else {
      var t1 := PutNode(t, id, n.(key := key, discovery := ReadingDescriptor, stalled := 0));
      var i := FirstFree(t.entries, 0);
      AttachLeavesOthers(PutEntry(t1, i.value, Claimed(key).(complete := true)), i.value, ADDR_MODULE_MIN, id);
    }
  }

  // ---------------------------------------------------------------- a chunk

  /** A node in the middle of its read: `blob` so far, in entry `i`. */
  predicate Holds(t: Tables, id: byte, i: nat, blob: seq<byte>)
    requires Shape(t) && IsModule(id)
  {
    && NodeOf(t, id).inUse && NodeOf(t, id).discovery == ReadingDescriptor
    && i < CACHE_ENTRIES && t.entries[i].inUse && !t.entries[i].complete
    && t.entries[i].key == NodeOf(t, id).key && t.entries[i].blob == blob
  }

  /** The read is complete and right, is past saving, or goes on. */
  datatype Fate = Whole | Hopeless | GoesOn

  function ChunkMeans(key: Key, blob: seq<byte>, free: nat, at: nat, bytes: seq<byte>): Fate {
    if at != |blob| then GoesOn
    else if |blob| + |bytes| == key.len then if Crc(blob + bytes) == key.crc then Whole else Hopeless
    else if |blob| + |bytes| > key.len || bytes == [] || free == 0 then Hopeless
    else GoesOn
  }

  /** The nodes and entries a chunk has nothing to do with. */
  predicate OthersKept(t: Tables, t': Tables, i: nat, key: Key)
    requires Shape(t) && Shape(t')
  {
    && (forall a: byte :: IsModule(a) && !Waits(NodeOf(t, a), key) ==> NodeOf(t', a) == NodeOf(t, a))
    && (forall j :: 0 <= j < CACHE_ENTRIES && j != i ==> t'.entries[j] == t.entries[j])
  }

  /** Every node that was reading this key has the whole of it. */
  predicate AllHave(t: Tables, t': Tables, i: nat, key: Key, blob: seq<byte>)
    requires Shape(t) && Shape(t') && i < CACHE_ENTRIES
  {
    && t'.entries[i].inUse && t'.entries[i].complete && t'.entries[i].key == key && t'.entries[i].blob == blob
    && (forall a: byte :: IsModule(a) && Waits(NodeOf(t, a), key) ==>
      NodeOf(t', a).inUse && NodeOf(t', a).discovery == Discovered && NodeOf(t', a).descriptor == Some(i))
  }

  /** A chunk extends the blob only where it stood; the whole and right blob makes every reader Discovered. */
  lemma ChunkDecides(
    t: Tables, ring: seq<Chunk>, id: byte, i: nat, blob: seq<byte>, asked: nat, at: nat, bytes: seq<byte>, sf: nat)
    requires Shape(t) && Coherent(t) && IsModule(id) && |ring| <= MAX_NODES && Holds(t, id, i, blob)
    ensures var key := t.entries[i].key; var (t', ring') := OnChunk(t, ring, id, asked, Bytes(at, bytes), sf);
      && OthersKept(t, t', i, key)
      && match ChunkMeans(key, blob, MAX_NODES - |ring|, at, bytes)
         case Whole => AllHave(t, t', i, key, blob + bytes) && ring' == ring
         case Hopeless =>
           !t'.entries[i].inUse && ring' == ring && NodeOf(t', id).inUse && NodeOf(t', id).discovery == Identifying
         case GoesOn =>
           && Holds(t', id, i, if at == |blob| then blob + bytes else blob) && t'.entries[i].key == key
           && (|ring| < MAX_NODES ==> ring' == ring + [Chunk(id, |t'.entries[i].blob|)])
  {
    hide Coherent, Attach, Crc;
    OnlyOne(t, NodeOf(t, id).key, i);
    IncompleteBound(t, i);
    if at == |blob| && |blob| + |bytes| == t.entries[i].key.len && Crc(blob + bytes) == t.entries[i].key.crc {
      var e := t.entries[i];
      var t0, e1 := if bytes != [] then Stall(t, id, 0) else t, e.(blob := blob + bytes);
      assert PutEntry(PutEntry(t0, i, e1), i, e1.(complete := true)) == PutEntry(t0, i, e1.(complete := true));
      WholeAttaches(t, id, i, bytes);
    }
  }

  lemma WholeAttaches(t: Tables, id: byte, i: nat, bytes: seq<byte>)
    requires Shape(t) && IsModule(id) && i < CACHE_ENTRIES && t.entries[i].inUse
    ensures var e := t.entries[i];
      var t' := Attach(PutEntry(if bytes != [] then Stall(t, id, 0) else t, i,
        e.(blob := e.blob + bytes, complete := true)), i, ADDR_MODULE_MIN);
      AllHave(t, t', i, e.key, e.blob + bytes) &&
      (Waits(NodeOf(t, id), e.key) ==> OthersKept(t, t', i, e.key))
  {
    hide Attach, Crc;
    var e := t.entries[i];
    var t1 := PutEntry(if bytes != [] then Stall(t, id, 0) else t, i, e.(blob := e.blob + bytes, complete := true));
    forall a: byte | IsModule(a)
      ensures Waits(NodeOf(t1, a), e.key) == Waits(NodeOf(t, a), e.key)
      ensures a != id ==> NodeOf(t1, a) == NodeOf(t, a)
      ensures var n := NodeOf(Attach(t1, i, ADDR_MODULE_MIN), a);
        Waits(NodeOf(t, a), e.key) ==> n.inUse && n.discovery == Discovered && n.descriptor == Some(i)
      ensures !Waits(NodeOf(t, a), e.key) ==> NodeOf(Attach(t1, i, ADDR_MODULE_MIN), a) == NodeOf(t1, a)
    {
      AttachLeavesOthers(t1, i, ADDR_MODULE_MIN, a);
    }
    AttachLeavesOthers(t1, i, ADDR_MODULE_MIN, id);
  }

  /** An answer that carries no chunk leaves the read as it was, and marks the node. */
  lemma NoChunkDecides(
    t: Tables, ring: seq<Chunk>, id: byte, i: nat, blob: seq<byte>, asked: nat, answer: ChunkAnswer, sf: nat)
    requires Shape(t) && Coherent(t) && IsModule(id) && |ring| < MAX_NODES && Holds(t, id, i, blob) && !answer.Bytes?
    ensures var (t', ring') := OnChunk(t, ring, id, asked, answer, sf);
      && Holds(t', id, i, blob) && NodeOf(t', id).stalled == sf && t'.entries == t.entries
      && (forall a: byte :: IsModule(a) && a != id ==> NodeOf(t', a) == NodeOf(t, a))
      && ring' == ring + if answer.NoChunk? then [Chunk(id, asked)] else []
  {
    hide Coherent;
    OnlyOne(t, NodeOf(t, id).key, i);
    assert ring + [] == ring;
  }

  // ---------------------------------------------------------------- a whole read

  /** What a node with this descriptor answers: up to `n` bytes from where it was asked. */
  function Part(d: seq<byte>, at: nat, n: nat): seq<byte> {
    if at >= |d| then [] else if at + n <= |d| then d[at..at + n] else d[at..]
  }

  /** The last chunk asked for answered honestly, again and again, the queue's first `others` chunks left aside. */
  function Serve(
    t: Tables, ring: seq<Chunk>, others: nat, d: seq<byte>, sizes: seq<nat>, sf: nat): (r: (Tables, seq<Chunk>))
    requires Shape(t) && |ring| <= MAX_NODES
    ensures Shape(r.0) && |r.1| <= MAX_NODES
    decreases |sizes|
  {
    var n := |ring| - 1;
    if sizes == [] || n < others || !IsModule(ring[n].nodeId) then (t, ring)
    else
      var bytes := Part(d, ring[n].offset, sizes[0]);
      var (t', ring') := OnChunk(t, ring[..n], ring[n].nodeId, ring[n].offset, Bytes(ring[n].offset, bytes), sf);
      Serve(t', ring', others, d, sizes[1..], sf)
  }

  function Sum(sizes: seq<nat>): nat {
    if sizes == [] then 0 else sizes[0] + Sum(sizes[1..])
  }

  predicate Has(t: Tables, id: byte, i: nat, d: seq<byte>)
    requires Shape(t) && IsModule(id)
  {
    && NodeOf(t, id).inUse && NodeOf(t, id).discovery == Discovered && NodeOf(t, id).descriptor == Some(i)
    && i < CACHE_ENTRIES && t.entries[i].inUse && t.entries[i].complete && t.entries[i].blob == d
  }

  lemma PartExtends(d: seq<byte>, pos: nat, n: nat)
    requires pos < |d| && n > 0
    ensures var m := |Part(d, pos, n)|;
      && Part(d, pos, n) != [] && pos + m <= |d| && d[..pos] + Part(d, pos, n) == d[..pos + m]
      && (pos + m < |d| ==> m == n)
  {
  }

  lemma {:induction false} ReadToTheEnd(
    t: Tables, ring: seq<Chunk>, id: byte, i: nat, d: seq<byte>, pos: nat, sizes: seq<nat>, sf: nat)
    requires Shape(t) && Coherent(t) && IsModule(id) && |ring| < MAX_NODES && pos < |d| && Holds(t, id, i, d[..pos])
    requires t.entries[i].key.len == |d| && t.entries[i].key.crc == Crc(d)
    requires (forall n :: n in sizes ==> n > 0) && pos + Sum(sizes) >= |d|
    ensures var (t', ring') := Serve(t, ring + [Chunk(id, pos)], |ring|, d, sizes, sf);
      Has(t', id, i, d) && ring' == ring
    decreases |sizes|
  {
    hide Coherent, Crc, OnChunk, OthersKept;
    assert sizes != [] && sizes[0] in sizes;
    var bytes := Part(d, pos, sizes[0]);
    PartExtends(d, pos, sizes[0]);
    ChunkDecides(t, ring, id, i, d[..pos], pos, pos, bytes, sf);
    ChunkKeeps(t, ring, id, pos, Bytes(pos, bytes), sf);
    var (t1, ring1) := OnChunk(t, ring, id, pos, Bytes(pos, bytes), sf);
    var asked := ring + [Chunk(id, pos)];
    assert asked[..|ring|] == ring && asked[|ring|] == Chunk(id, pos);
    assert Serve(t, asked, |ring|, d, sizes, sf) == Serve(t1, ring1, |ring|, d, sizes[1..], sf);
    if pos + |bytes| == |d| {
      assert d[..|d|] == d;
    } else {
      assert forall n :: n in sizes[1..] ==> n in sizes;
      ReadToTheEnd(t1, ring, id, i, d, pos + |bytes|, sizes[1..], sf);
    }
  }

  /**
   * A node that says who it is, finds room, and answers every chunk it is asked for at the place it is asked for, as
   * much or as little as it likes each time, becomes Discovered with exactly its own bytes.
   */
  lemma ServedIsDiscovered(t: Tables, ring: seq<Chunk>, id: byte, key: Key, d: seq<byte>, sizes: seq<nat>, sf: nat)
    requires Shape(t) && Coherent(t) && IsModule(id) && |ring| < MAX_NODES
    requires NodeOf(t, id).inUse && NodeOf(t, id).discovery != Discovered
    requires !Cached(t, key) && !BeingRead(t, key) && Room(t, id, key)
    requires key.len == |d| > 0 && key.crc == Crc(d) && (forall n :: n in sizes ==> n > 0) && Sum(sizes) >= |d|
    ensures var (t1, ring1) := OnIdentity(t, ring, id, key);
      var (t2, ring2) := Serve(t1, ring1, |ring|, d, sizes, sf);
      ring2 == ring && exists i :: Has(t2, id, i, d)
  {
    hide Coherent, Crc, OnChunk, Serve, Room, Cached, BeingRead;
    IdentityDecides(t, ring, id, key);
    IdentityKeeps(t, ring, id, key);
    var i := IdentityClaims(t, ring, id, key);
    ReadToTheEnd(OnIdentity(t, ring, id, key).0, ring, id, i, d, 0, sizes, sf);
  }

  lemma IdentityClaims(t: Tables, ring: seq<Chunk>, id: byte, key: Key) returns (i: nat)
    requires Shape(t) && Coherent(t) && IsModule(id) && |ring| < MAX_NODES && key.len > 0
    requires NodeOf(t, id).inUse && !Cached(t, key) && !BeingRead(t, key) && Room(t, id, key)
    ensures Holds(OnIdentity(t, ring, id, key).0, id, i, []) && OnIdentity(t, ring, id, key).0.entries[i].key == key
  {
    hide Coherent, Claimable, Cached, BeingRead, Room;
    var reading := NodeOf(t, id).(key := key, discovery := ReadingDescriptor, stalled := 0);
    FoundIs(t, key);
    RoomIs(t, id, reading);
    i := Claimable(PutNode(t, id, reading), key).value;
  }
}
