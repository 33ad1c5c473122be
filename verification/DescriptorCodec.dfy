/** The cursor, the validator's loop and the writer's buffer, proved against the rules. */
module DescriptorCodec {
  import opened Protocol
  import opened Descriptor
  import opened DescriptorRules
  import Bitmap

  predicate CutAt(blob: seq<byte>, pos: nat)
    requires pos < |blob|
  {
    |blob| - pos < 2 || |blob| - pos - 2 < blob[pos + 1]
  }

  lemma Drops(blob: seq<byte>, pos: nat, n: nat)
    requires pos + n <= |blob|
    ensures blob[pos..][n..] == blob[pos + n..]
  {
  }

  lemma Takes(blob: seq<byte>, pos: nat, i: nat, j: nat)
    requires i <= j && pos + j <= |blob|
    ensures blob[pos..][i..j] == blob[pos + i..pos + j]
  {
  }

  lemma Heads(blob: seq<byte>, pos: nat)
    requires pos < |blob|
    ensures var s := blob[pos..];
      |s| == |blob| - pos && s[0] == blob[pos] && (|s| >= 2 ==> s[1] == blob[pos + 1]) && (Cut(s) <==> CutAt(blob, pos))
  {
  }

  lemma ParseAt(blob: seq<byte>, pos: nat)
    requires pos < |blob|
    ensures CutAt(blob, pos) ==> Parse(blob[pos..]) == ([], blob[pos..])
    ensures !CutAt(blob, pos) ==>
      var next := pos + 2 + blob[pos + 1] as int; var (rs, tail) := Parse(blob[next..]);
      Parse(blob[pos..]) == ([Record(blob[pos], blob[pos + 2..next])] + rs, tail)
  {
    hide Parse;
    Heads(blob, pos);
    ParseStep(blob[pos..]);
    if !CutAt(blob, pos) {
      Drops(blob, pos, 2 + blob[pos + 1] as int);
      Takes(blob, pos, 2, 2 + blob[pos + 1] as int);
    }
  }

  /** A position in a blob. */
  class RecordCursor {
    const blob: seq<byte>
    var pos: nat

    ghost predicate Valid()
      reads this
    {
      pos <= |blob|
    }

    constructor (blob: seq<byte>)
      ensures Valid() && this.blob == blob && pos == 0
    {
      this.blob := blob;
      pos := 0;
    }

    /** The next record, or nothing at the end; a record cut short ends the walk. */
    method Next() returns (st: Status, r: Option<Record>)
      requires Valid()
      modifies this`pos
      ensures Valid()
      ensures var (rs, tail) := Parse(blob[old(pos)..]);
        if rs != [] then
          st == Ok && r == Some(rs[0]) && Parse(blob[pos..]) == (rs[1..], tail) && pos == old(pos) + 2 + |rs[0].value|
        else r == None && pos == |blob| && st == (if tail == [] then Ok else Truncated)
    {
      if pos >= |blob| {
        assert blob[pos..] == [];
        return Ok, None;
      }
      ParseAt(blob, pos);
      hide Parse;
      if |blob| - pos < 2 || |blob| - pos - 2 < blob[pos + 1] {
        pos := |blob|;
        return Truncated, None;
      }
      var next := pos + 2 + blob[pos + 1] as int;
      r := Some(Record(blob[pos], blob[pos + 2..next]));
      FrontOf(r.value, Parse(blob[next..]).0);
      pos := next;
      return Ok, r;
    }
  }

  lemma FrontOf(r: Record, rs: seq<Record>)
    ensures ([r] + rs)[0] == r && ([r] + rs)[1..] == rs
  {
  }

  lemma JudgeNext(rs: seq<Record>, tail: seq<byte>, k: nat, seen: Seen, offset: nat, p: Report)
    requires Sized(rs) && k < |rs|
    ensures var (st, after) := Admit(seen, rs[k]);
      Judge(rs, tail, k, seen, offset, p) ==
        if st != Ok then p.(status := st, kind := rs[k].kind, offset := offset)
        else Judge(rs, tail, k + 1, after, offset + 2 + |rs[k].value|, CountRecord(p, rs[k]))
  {
  }

  lemma JudgeEnd(rs: seq<Record>, tail: seq<byte>, seen: Seen, offset: nat, p: Report)
    requires Sized(rs)
    ensures Judge(rs, tail, |rs|, seen, offset, p) ==
      if tail != [] then p.(status := Truncated, kind := tail[0], offset := offset)
      else if Missing(seen.kinds, 0).Some? then
        p.(status := MissingRequired, kind := Missing(seen.kinds, 0).value, offset := offset)
      else p
  {
  }

  /** The walk stands at `pos`, in front of record `k` of all that the blob parses to. */
  ghost predicate Reached(blob: seq<byte>, pos: nat, rs: seq<Record>, tail: seq<byte>, k: nat) {
    Sized(rs) && pos <= |blob| && k <= |rs| && Parse(blob[pos..]) == (rs[k..], tail)
  }

  lemma ReachedNext(blob: seq<byte>, pos: nat, rs: seq<Record>, tail: seq<byte>, k: nat)
    requires Reached(blob, pos, rs, tail, k) && pos < |blob|
    ensures CutAt(blob, pos) ==> k == |rs| && tail != [] && tail[0] == blob[pos]
    ensures !CutAt(blob, pos) ==>
      var next := pos + 2 + blob[pos + 1] as int;
      && k < |rs| && rs[k] == Record(blob[pos], blob[pos + 2..next])
      && Reached(blob, next, rs, tail, k + 1)
  {
    ParseAt(blob, pos);
    hide Parse;
    if !CutAt(blob, pos) {
      var next := pos + 2 + blob[pos + 1] as int;
      var r, more := Record(blob[pos], blob[pos + 2..next]), Parse(blob[next..]).0;
      assert rs[k..] == [r] + more;
      assert rs[k..][0] == r && rs[k..][1..] == more;
      assert rs[k + 1..] == rs[k..][1..];
    }
  }

  lemma ReachedEnd(blob: seq<byte>, rs: seq<Record>, tail: seq<byte>, k: nat)
    requires Reached(blob, |blob|, rs, tail, k)
    ensures k == |rs| && tail == []
  {
    assert blob[|blob|..] == [];
  }

  lemma ReachedStart(blob: seq<byte>)
    ensures Reached(blob, 0, Parse(blob).0, Parse(blob).1, 0)
  {
    hide Parse;
    assert blob[0..] == blob && Parse(blob).0[0..] == Parse(blob).0;
  }

  // ---------------------------------------------------------------- the tests on one record

  method FindInfo(kind: byte) returns (r: Option<Info>)
    ensures r == InfoOf(kind)
  {
    var i := 0;
    while i < |TLV_INFO|
      invariant 0 <= i <= |TLV_INFO| && InfoFrom(kind, i) == InfoFrom(kind, 0)
    {
      if TLV_INFO[i].kind == kind { return Some(TLV_INFO[i]); }
      i := i + 1;
    }
    return None;
  }

  /** Three bitmaps, none of them two of the three. */
  predicate Apart3(kinds: array<bv32>, channels: array<bv32>, params: array<bv32>) {
    && kinds.Length == channels.Length == params.Length == Bitmap.WORDS
    && kinds != channels && kinds != params && channels != params
  }

  ghost function SeenIn(kinds: array<bv32>, channels: array<bv32>, params: array<bv32>): Seen
    requires Apart3(kinds, channels, params)
    reads kinds, channels, params
  {
    Seen(Bitmap.Of(kinds), Bitmap.Of(channels), Bitmap.Of(params))
  }

  /** Admit for a type that has a row in the table, spelt out. */
  lemma AdmitKnown(seen: Seen, r: Record)
    requires Known(r.kind)
    ensures var (st, seen'), check := Admit(seen, r), CheckRecord(r.kind, r.value);
      var kinds, keyed := seen.kinds + {r.kind}, r.kind == TLV_CHANNEL || r.kind == TLV_PARAM;
      if !Repeated(r.kind) && r.kind in seen.kinds then st == DuplicateRecord
      else if check != Ok then st == check
      else
        && (keyed ==> r.value != [])
        && (r.kind == TLV_CHANNEL ==> (st == Ok <==> r.value[0] !in seen.channels))
        && (r.kind == TLV_PARAM ==> (st == Ok <==> r.value[0] !in seen.params))
        && (st != Ok ==> st == DuplicateKey && keyed)
        && (st == Ok ==> seen' == Seen(kinds,
              if r.kind == TLV_CHANNEL then seen.channels + {r.value[0]} else seen.channels,
              if r.kind == TLV_PARAM then seen.params + {r.value[0]} else seen.params))
  {
    if CheckRecord(r.kind, r.value) == Ok && (r.kind == TLV_CHANNEL || r.kind == TLV_PARAM) {
      KeyedIsLong(r.kind, r.value);
    }
  }

  /** A key claimed, unless it is taken. */
  method ClaimKey(keys: array<bv32>, key: byte) returns (st: Status)
    requires keys.Length == Bitmap.WORDS
    modifies keys
    ensures st == if key in old(Bitmap.Of(keys)) then DuplicateKey else Ok
    ensures Bitmap.Of(keys) == old(Bitmap.Of(keys)) + {key}
  {
    var taken := Bitmap.Test(keys, key);
    if taken { return DuplicateKey; }
    Bitmap.Set(keys, key);
    return Ok;
  }

  /** One record against the validator's bitmaps, which are right again whenever it is admitted. */
  method NoteRecord(kinds: array<bv32>, channels: array<bv32>, params: array<bv32>, r: Record, p: Report)
    returns (st: Status, p': Report)
    requires Apart3(kinds, channels, params)
    modifies kinds, channels, params
    ensures st == Admit(old(SeenIn(kinds, channels, params)), r).0
    ensures st == Ok ==> SeenIn(kinds, channels, params) == Admit(old(SeenIn(kinds, channels, params)), r).1
    ensures st == Ok ==> p' == CountRecord(p, r)
  {
    hide InfoOf, CheckRecord, Bitmap.Of;
    ghost var seen := SeenIn(kinds, channels, params);
    var info := FindInfo(r.kind);
    if info.None? { return Ok, p.(skipped := p.skipped + 1); }
    AdmitKnown(seen, r);
    hide Admit;
    var again := Bitmap.Test(kinds, r.kind);
    if !info.value.repeated && again { return DuplicateRecord, p; }
    Bitmap.Set(kinds, r.kind);
    st := CheckRecord(r.kind, r.value);
    if st != Ok { return st, p; }
    p' := p;
    if r.kind == TLV_CHANNEL {
      st := ClaimKey(channels, r.value[0]);
      p' := p.(channels := p.channels + 1);
    } else if r.kind == TLV_PARAM {
      st := ClaimKey(params, r.value[0]);
      p' := p.(params := p.params + 1);
    }
  }

  // ---------------------------------------------------------------- the validator's walk

  /** The record at a position, unless it is cut short. */
  method ReadRecord(blob: seq<byte>, pos: nat) returns (r: Option<Record>, next: nat)
    requires pos < |blob|
    ensures r.None? <==> CutAt(blob, pos)
    ensures r.Some? ==> next == pos + 2 + blob[pos + 1] as int && r.value == Record(blob[pos], blob[pos + 2..next])
  {
    if |blob| - pos < 2 || |blob| - pos - 2 < blob[pos + 1] { return None, pos; }
    next := pos + 2 + blob[pos + 1] as int;
    return Some(Record(blob[pos], blob[pos + 2..next])), next;
  }

  /** The walk with record `k` admitted, in front of the next. */
  lemma JudgeOn(rs: seq<Record>, tail: seq<byte>, k: nat, seen: Seen, offset: nat, p: Report)
    requires Sized(rs) && k < |rs| && Admit(seen, rs[k]).0 == Ok
    ensures Judge(rs, tail, k, seen, offset, p) ==
      Judge(rs, tail, k + 1, Admit(seen, rs[k]).1, offset + 2 + |rs[k].value|, CountRecord(p, rs[k]))
  {
    hide Admit, CountRecord;
  }

  lemma CountKeepsStatus(p: Report, r: Record)
    ensures CountRecord(p, r).status == p.status
  {
  }

  /** One record of the walk: the report if it ends here, or the bitmaps and the place in front of the next. */
  method ValidateOne(blob: seq<byte>, pos: nat, kinds: array<bv32>, channels: array<bv32>, params: array<bv32>,
                     p: Report, ghost rs: seq<Record>, ghost tail: seq<byte>, ghost k: nat)
    returns (stop: bool, p': Report, next: nat)
    requires Apart3(kinds, channels, params) && Reached(blob, pos, rs, tail, k) && pos < |blob| && p.status == Ok
    modifies kinds, channels, params
    ensures stop ==> p' == Judge(rs, tail, k, old(SeenIn(kinds, channels, params)), pos, p)
    ensures !stop ==> Reached(blob, next, rs, tail, k + 1) && next > pos && p'.status == Ok
    ensures !stop ==>
      Judge(rs, tail, k, old(SeenIn(kinds, channels, params)), pos, p) ==
      Judge(rs, tail, k + 1, SeenIn(kinds, channels, params), next, p')
  {
    hide Parse, Admit, Missing, Judge, CountRecord, SeenIn, Reached;
    ReachedNext(blob, pos, rs, tail, k);
    InBlob(blob, pos, rs, tail, k);
    ghost var seen := SeenIn(kinds, channels, params);
    var r;
    r, next := ReadRecord(blob, pos);
    if r.None? {
      JudgeEnd(rs, tail, seen, pos, p);
      return true, p.(status := Truncated, kind := blob[pos], offset := pos), pos;
    }
    var st;
    st, p' := NoteRecord(kinds, channels, params, r.value, p);
    if st != Ok {
      JudgeNext(rs, tail, k, seen, pos, p);
      return true, p.(status := st, kind := r.value.kind, offset := pos), pos;
    }
    JudgeOn(rs, tail, k, seen, pos, p);
    CountKeepsStatus(p, r.value);
    stop := false;
  }

  /** The walk over a blob's bytes: the rules applied record by record, stopping at the first refusal. */
  method ValidateDescriptor(blob: seq<byte>) returns (p: Report)
    ensures p == Validate(blob)
  {
    if |blob| > MAX_DESCRIPTOR_BYTES { return CLEAN.(status := BlobTooLarge); }
    p := CLEAN;
    var kinds := Bitmap.Empty();
    var channels := Bitmap.Empty();
    var params := Bitmap.Empty();
    var pos := 0;
    ghost var (rs, tail) := Parse(blob);
    ghost var k := 0;
    ReachedStart(blob);
    assert Judge(rs, tail, 0, NOTHING_SEEN, 0, CLEAN) == Validate(blob);
    assert SeenIn(kinds, channels, params) == NOTHING_SEEN;
    hide Parse, Admit, Missing, Judge, Validate, SeenIn, Reached;
    while pos < |blob|
      invariant Reached(blob, pos, rs, tail, k) && p.status == Ok
      invariant Judge(rs, tail, k, SeenIn(kinds, channels, params), pos, p) == Validate(blob)
      invariant fresh(kinds) && fresh(channels) && fresh(params)
      decreases |blob| - pos
    {
      var stop, p', next := ValidateOne(blob, pos, kinds, channels, params, p, rs, tail, k);
      if stop { return p'; }
      p, pos := p', next;
      k := k + 1;
    }
    InBlob(blob, pos, rs, tail, k);
    ReachedEnd(blob, rs, tail, k);
    ghost var seen := SeenIn(kinds, channels, params);
    JudgeEnd(rs, tail, seen, pos, p);
    var missing := FindMissing(kinds);
    assert seen.kinds == Bitmap.Of(kinds) by { KindsSeen(kinds, channels, params); }
    if missing.Some? { return p.(status := MissingRequired, kind := missing.value, offset := pos); }
  }

  lemma InBlob(blob: seq<byte>, pos: nat, rs: seq<Record>, tail: seq<byte>, k: nat)
    requires Reached(blob, pos, rs, tail, k)
    ensures pos <= |blob| && Sized(rs)
  {
  }

  /** Type, length and value written behind the first `start` bytes. */
  lemma Written(was: seq<byte>, now: seq<byte>, start: nat, r: Record)
    requires |r.value| < 256 && |was| == |now| && start + 2 + |r.value| <= |now|
    requires forall i :: 0 <= i < start ==> now[i] == was[i]
    requires now[start] == r.kind && now[start + 1] == |r.value| && now[start + 2..start + 2 + |r.value|] == r.value
    ensures now[..start + 2 + |r.value|] == was[..start] + RecordBytes(r)
  {
    var end := start + 2 + |r.value|;
    assert now[..end] == now[..start] + [now[start], now[start + 1]] + now[start + 2..end];
    assert now[..start] == was[..start];
  }

  lemma KindsSeen(kinds: array<bv32>, channels: array<bv32>, params: array<bv32>)
    requires Apart3(kinds, channels, params)
    ensures SeenIn(kinds, channels, params).kinds == Bitmap.Of(kinds)
  {
  }

  /** The required types, in the table's order. */
  method FindMissing(kinds: array<bv32>) returns (r: Option<byte>)
    requires kinds.Length == Bitmap.WORDS
    ensures r == Missing(Bitmap.Of(kinds), 0)
  {
    hide Bitmap.Of;
    var i := 0;
    while i < |TLV_INFO|
      invariant 0 <= i <= |TLV_INFO| && Missing(Bitmap.Of(kinds), i) == Missing(Bitmap.Of(kinds), 0)
    {
      var there := Bitmap.Test(kinds, TLV_INFO[i].kind);
      if TLV_INFO[i].required && !there { return Some(TLV_INFO[i].kind); }
      i := i + 1;
    }
    return None;
  }

  /** A caller's buffer filled from the front. */
  class DescriptorWriter {
    const buf: array<byte>
    const cap: nat
    const kinds: array<bv32>
    const channels: array<bv32>
    const params: array<bv32>
    var size: nat

    ghost predicate Valid()
      reads this
    {
      && size <= cap <= buf.Length && cap <= MAX_DESCRIPTOR_BYTES && Apart3(kinds, channels, params)
      && var b: object := buf; b !in {kinds, channels, params}
    }

    ghost function Value(): Writer
      requires Valid()
      reads this, buf, kinds, channels, params
    {
      Writer(buf[..size], cap, SeenIn(kinds, channels, params))
    }

    ghost function Repr(): set<object>
    {
      {this, buf, kinds, channels, params}
    }

    constructor (buf: array<byte>)
      ensures Valid() && this.buf == buf && Value() == Fresh(buf.Length) && fresh(Repr() - {buf})
    {
      this.buf := buf;
      cap := if buf.Length < MAX_DESCRIPTOR_BYTES then buf.Length else MAX_DESCRIPTOR_BYTES;
      var ofKinds := Bitmap.Empty();
      var ofChannels := Bitmap.Empty();
      var ofParams := Bitmap.Empty();
      kinds, channels, params, size := ofKinds, ofChannels, ofParams, 0;
    }

    /** The tests alone: nothing is marked yet. */
    method Admissible(info: Option<Info>, r: Record) returns (st: Status)
      requires Valid() && info == InfoOf(r.kind)
      ensures st == Admit(Value().seen, r).0
    {
      hide InfoOf, CheckRecord, Bitmap.Of;
      if info.None? { return Ok; }
      AdmitKnown(Value().seen, r);
      hide Admit;
      var again := Bitmap.Test(kinds, r.kind);
      if !info.value.repeated && again { return DuplicateRecord; }
      st := CheckRecord(r.kind, r.value);
      if st != Ok { return; }
      if r.kind == TLV_CHANNEL {
        var taken := Bitmap.Test(channels, r.value[0]);
        if taken { return DuplicateKey; }
      }
      if r.kind == TLV_PARAM {
        var taken := Bitmap.Test(params, r.value[0]);
        if taken { return DuplicateKey; }
      }
    }

    /** An admitted record's type and key. */
    method Mark(info: Option<Info>, r: Record)
      requires Valid() && info == InfoOf(r.kind) && Admit(Value().seen, r).0 == Ok
      modifies kinds, channels, params
      ensures Valid() && SeenIn(kinds, channels, params) == Admit(old(Value()).seen, r).1
    {
      hide InfoOf, CheckRecord, Bitmap.Of;
      if info.None? { return; }
      AdmitKnown(Value().seen, r);
      hide Admit;
      Bitmap.Set(kinds, r.kind);
      if r.kind == TLV_CHANNEL {
        Bitmap.Set(channels, r.value[0]);
      } else if r.kind == TLV_PARAM {
        Bitmap.Set(params, r.value[0]);
      }
    }

    method Append(r: Record) returns (st: Status)
      requires Valid() && |r.value| < 256
      modifies this`size, buf, kinds, channels, params
      ensures Valid() && (Value(), st) == DescriptorRules.Append(old(Value()), r)
      ensures forall i :: 0 <= i < buf.Length && !(old(size) <= i < size) ==> buf[i] == old(buf[i])
    {
      hide Admit, InfoOf, Bitmap.Of, SeenIn;
      var info := FindInfo(r.kind);
      st := Admissible(info, r);
      if st != Ok { return; }
      var need := 2 + |r.value|;
      if size + need > cap { return if cap == MAX_DESCRIPTOR_BYTES then BlobTooLarge else BufferTooSmall; }
      PutRecord(r);
      Mark(info, r);
    }

    method PutRecord(r: Record)
      requires Valid() && |r.value| < 256 && size + 2 + |r.value| <= cap
      modifies this`size, buf
      ensures Valid() && size == old(size) + 2 + |r.value| && buf[..size] == old(buf[..size]) + RecordBytes(r)
      ensures forall i :: 0 <= i < buf.Length && !(old(size) <= i < size) ==> buf[i] == old(buf[i])
    {
      ghost var was, start := buf[..], size;
      buf[size] := r.kind;
      buf[size + 1] := |r.value|;
      PutValue(r.value);
      size := size + 2 + |r.value|;
      Written(was, buf[..], start, r);
    }

    /** The value's bytes, two places on. */
    method PutValue(value: seq<byte>)
      requires Valid() && size + 2 + |value| <= cap
      modifies buf
      ensures buf[size + 2..size + 2 + |value|] == value
      ensures forall k :: 0 <= k < buf.Length && !(size + 2 <= k < size + 2 + |value|) ==> buf[k] == old(buf[k])
    {
      var i := 0;
      while i < |value|
        invariant 0 <= i <= |value| && forall k :: 0 <= k < i ==> buf[size + 2 + k] == value[k]
        invariant forall k :: 0 <= k < buf.Length && !(size + 2 <= k < size + 2 + i) ==> buf[k] == old(buf[k])
      {
        buf[size + 2 + i] := value[i];
        i := i + 1;
      }
    }

    method Finish() returns (p: Report)
      requires Valid()
      ensures p == Validate(Value().bytes)
    {
      p := ValidateDescriptor(buf[..size]);
    }
  }
}
