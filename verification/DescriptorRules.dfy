/** What the validator accepts, what it reports first, and how validator, cursor and writer agree. */
module DescriptorRules {
  import opened Protocol
  import opened Descriptor

  // ---------------------------------------------------------------- the rules without an order of checking

  /** Two records that cannot stand in one descriptor. */
  predicate Clash(x: Record, y: Record) {
    && Known(x.kind) && x.kind == y.kind
    && (!Repeated(x.kind) ||
        ((x.kind == TLV_CHANNEL || x.kind == TLV_PARAM) && x.value != [] && y.value != [] && x.value[0] == y.value[0]))
  }

  predicate Apart(rs: seq<Record>) {
    forall i, j :: 0 <= i < j < |rs| ==> !Clash(rs[i], rs[j])
  }

  predicate EachOk(rs: seq<Record>) {
    forall r :: r in rs && Known(r.kind) ==> CheckRecord(r.kind, r.value) == Ok
  }

  predicate Complete(rs: seq<Record>) {
    forall info :: info in TLV_INFO && info.required ==> exists r :: r in rs && r.kind == info.kind
  }

  predicate Declared(rs: seq<Record>) {
    EachOk(rs) && Apart(rs)
  }

  // ---------------------------------------------------------------- what the bitmaps hold

  predicate SeenIs(seen: Seen, rs: seq<Record>) {
    && (forall k: byte :: k in seen.kinds <==> Known(k) && exists r :: r in rs && r.kind == k)
    && (forall c: byte :: c in seen.channels <==>
      exists r :: r in rs && r.kind == TLV_CHANNEL && r.value != [] && r.value[0] == c)
    && (forall c: byte :: c in seen.params <==>
      exists r :: r in rs && r.kind == TLV_PARAM && r.value != [] && r.value[0] == c)
  }

  lemma KeyedAreKnown()
    ensures Known(TLV_CHANNEL) && Known(TLV_PARAM) && Repeated(TLV_CHANNEL) && Repeated(TLV_PARAM)
  {
    assert TLV_INFO[6].kind == TLV_CHANNEL && TLV_INFO[8].kind == TLV_PARAM;
    assert InfoFrom(TLV_CHANNEL, 6) == Some(TLV_INFO[6]) && InfoFrom(TLV_PARAM, 8) == Some(TLV_INFO[8]);
    SkipTo(TLV_CHANNEL, 6);
    SkipTo(TLV_PARAM, 8);
  }

  lemma SkipTo(kind: byte, n: nat)
    requires n <= |TLV_INFO| && forall i :: 0 <= i < n ==> TLV_INFO[i].kind != kind
    ensures InfoOf(kind) == InfoFrom(kind, n)
  {
    var i := n;
    while i > 0
      invariant 0 <= i <= n && InfoFrom(kind, i) == InfoFrom(kind, n)
    {
      i := i - 1;
    }
  }

  lemma SeenStep(seen: Seen, rs: seq<Record>, r: Record)
    requires SeenIs(seen, rs) && Admit(seen, r).0 == Ok
    ensures SeenIs(Admit(seen, r).1, rs + [r])
  {
    hide Known, Repeated, CheckRecord;
    KeyedAreKnown();
    if Known(r.kind) && (r.kind == TLV_CHANNEL || r.kind == TLV_PARAM) { KeyedIsLong(r.kind, r.value); }
    var s' := Admit(seen, r).1;
    forall k: byte ensures k in s'.kinds <==> Known(k) && exists x :: x in rs + [r] && x.kind == k {
      assert r in rs + [r] && forall x :: x in rs ==> x in rs + [r];
    }
    forall c: byte ensures c in s'.channels <==>
      exists x :: x in rs + [r] && x.kind == TLV_CHANNEL && x.value != [] && x.value[0] == c {
      assert r in rs + [r] && forall x :: x in rs ==> x in rs + [r];
    }
    forall c: byte ensures c in s'.params <==>
      exists x :: x in rs + [r] && x.kind == TLV_PARAM && x.value != [] && x.value[0] == c {
      assert r in rs + [r] && forall x :: x in rs ==> x in rs + [r];
    }
  }

  /** One more record is admitted exactly when it is in order and clashes with none before it. */
  lemma AdmitIff(seen: Seen, rs: seq<Record>, r: Record)
    requires SeenIs(seen, rs)
    ensures Admit(seen, r).0 == Ok <==>
      (Known(r.kind) ==> CheckRecord(r.kind, r.value) == Ok) && forall x :: x in rs ==> !Clash(x, r)
  {
    hide Known, Repeated, CheckRecord;
    KeyedAreKnown();
    if Known(r.kind) && CheckRecord(r.kind, r.value) == Ok && (r.kind == TLV_CHANNEL || r.kind == TLV_PARAM) {
      KeyedIsLong(r.kind, r.value);
    }
    if x :| x in rs && Clash(x, r) {
      assert Known(r.kind) && x.kind == r.kind;
    }
  }

  lemma Last(rs: seq<Record>)
    requires rs != []
    ensures var n := |rs| - 1; rs == rs[..n] + [rs[n]]
    ensures Declared(rs) <==>
      var n := |rs| - 1;
      Declared(rs[..n]) && (Known(rs[n].kind) ==> CheckRecord(rs[n].kind, rs[n].value) == Ok)
        && forall x :: x in rs[..n] ==> !Clash(x, rs[n])
  {
    hide Known, CheckRecord, Clash;
    var n := |rs| - 1;
    assert forall r :: r in rs <==> r in rs[..n] || r == rs[n];
    if Declared(rs) {
      forall x | x in rs[..n] ensures !Clash(x, rs[n]) {
        var i :| 0 <= i < n && rs[..n][i] == x;
        assert !Clash(rs[i], rs[n]);
      }
    }
  }

  /** A list is admitted record by record exactly when it satisfies the rules, in whatever order they are read. */
  lemma {:induction false} AdmittedIffDeclared(rs: seq<Record>)
    ensures SeenAfter(rs).Some? <==> Declared(rs)
    ensures SeenAfter(rs).Some? ==> SeenIs(SeenAfter(rs).value, rs)
  {
    hide Admit, Clash, EachOk, Apart, SeenIs;
    if rs == [] {
      NothingIs();
    } else {
      var n := |rs| - 1;
      AdmittedIffDeclared(rs[..n]);
      Last(rs);
      if SeenAfter(rs[..n]).Some? {
        AdmitIff(SeenAfter(rs[..n]).value, rs[..n], rs[n]);
        if SeenAfter(rs).Some? { SeenStep(SeenAfter(rs[..n]).value, rs[..n], rs[n]); }
      }
    }
  }

  lemma NothingIs()
    ensures SeenIs(NOTHING_SEEN, []) && Declared([])
  {
  }

  // ---------------------------------------------------------------- the report

  lemma {:induction false} NothingMissing(kinds: set<byte>, i: nat)
    requires i <= |TLV_INFO|
    ensures Missing(kinds, i).None? <==> forall j :: i <= j < |TLV_INFO| && TLV_INFO[j].required ==>
      TLV_INFO[j].kind in kinds
    decreases |TLV_INFO| - i
  {
    if i < |TLV_INFO| { NothingMissing(kinds, i + 1); }
  }

  /** The walk stands at record `k` with everything before it admitted. */
  lemma {:induction false} JudgeFollows(rs: seq<Record>, tail: seq<byte>, k: nat, seen: Seen, offset: nat, p: Report)
    requires Sized(rs) && k <= |rs| && SeenAfter(rs[..k]) == Some(seen) && p.status == Ok
    ensures var r, all := Judge(rs, tail, k, seen, offset, p), SeenAfter(rs);
      && (all.None? ==> r.status !in {Ok, MissingRequired, Truncated})
      && (all.Some? && tail != [] ==> r.status == Truncated)
      && (all.Some? && tail == [] ==> r.status == if Missing(all.value.kinds, 0).Some? then MissingRequired else Ok)
    decreases |rs| - k
  {
    hide Admit, Known, Missing;
    if k == |rs| {
      assert rs[..k] == rs;
    } else {
      var (st, seen') := Admit(seen, rs[k]);
      assert rs[..k + 1][..k] == rs[..k];
      RefusalStatus(seen, rs[k]);
      if st == Ok {
        JudgeFollows(rs, tail, k + 1, seen', offset + 2 + |rs[k].value|, CountRecord(p, rs[k]));
      } else {
        NeverAdmitted(rs, k + 1);
      }
    }
  }

  lemma RefusalStatus(seen: Seen, r: Record)
    ensures Admit(seen, r).0 !in {MissingRequired, Truncated, BlobTooLarge, BufferTooSmall}
  {
  }

  lemma {:induction false} NeverAdmitted(rs: seq<Record>, k: nat)
    requires k <= |rs| && SeenAfter(rs[..k]).None?
    ensures SeenAfter(rs).None?
    decreases |rs| - k
  {
    hide Admit;
    if k < |rs| {
      assert rs[..k + 1][..k] == rs[..k];
      NeverAdmitted(rs, k + 1);
    } else {
      assert rs[..k] == rs;
    }
  }

  /** A blob is valid exactly when it is no longer than the cap, cut nowhere, in order, and complete. */
  lemma ValidIff(blob: seq<byte>)
    ensures var (rs, tail) := Parse(blob);
      Validate(blob).status == Ok <==> |blob| <= MAX_DESCRIPTOR_BYTES && tail == [] && Declared(rs) && Complete(rs)
  {
    hide Judge, Parse, Missing, SeenAfter, Declared;
    var (rs, tail) := Parse(blob);
    assert rs[..0] == [];
    NoneYet();
    JudgeFollows(rs, tail, 0, NOTHING_SEEN, 0, CLEAN);
    AdmittedIffDeclared(rs);
    if SeenAfter(rs).Some? { CompleteIff(SeenAfter(rs).value, rs); }
  }

  lemma NoneYet()
    ensures SeenAfter([]) == Some(NOTHING_SEEN)
  {
  }

  lemma CompleteIff(seen: Seen, rs: seq<Record>)
    requires SeenIs(seen, rs)
    ensures Missing(seen.kinds, 0).None? <==> Complete(rs)
  {
    hide Missing, Known;
    NothingMissing(seen.kinds, 0);
    forall info | info in TLV_INFO ensures Known(info.kind) {
      TableIsKnown(info);
    }
    forall j | 0 <= j < |TLV_INFO| ensures TLV_INFO[j] in TLV_INFO {
    }
  }

  lemma TableIsKnown(info: Info)
    requires info in TLV_INFO
    ensures Known(info.kind)
  {
    var i :| 0 <= i < |TLV_INFO| && TLV_INFO[i] == info;
    FoundBy(info.kind, i);
  }

  lemma FoundBy(kind: byte, i: nat)
    requires i < |TLV_INFO| && TLV_INFO[i].kind == kind
    ensures InfoOf(kind).Some?
  {
    var j := i;
    while j > 0
      invariant 0 <= j <= i && InfoFrom(kind, j).Some?
    {
      j := j - 1;
    }
  }

  /** Any other refusal names the first record that the ones before it do not admit, where it starts. */
  lemma {:induction false} FirstRefusal(rs: seq<Record>, tail: seq<byte>, k: nat, seen: Seen, offset: nat,
      p: Report) returns (at: nat)
    requires Sized(rs) && k <= |rs| && SeenAfter(rs[..k]) == Some(seen) && p.status == Ok && offset == |Blob(rs[..k])|
    requires SeenAfter(rs).None?
    ensures k <= at < |rs| && SeenAfter(rs[..at]).Some?
    ensures var r, st := Judge(rs, tail, k, seen, offset, p), Admit(SeenAfter(rs[..at]).value, rs[at]).0;
      st != Ok && r.status == st && r.kind == rs[at].kind && r.offset == |Blob(rs[..at])|
    decreases |rs| - k
  {
    hide Admit, Known;
    assert rs[..|rs|] == rs;
    var (st, seen') := Admit(seen, rs[k]);
    assert rs[..k + 1][..k] == rs[..k];
    BlobBack(rs[..k + 1]);
    if st == Ok {
      at := FirstRefusal(rs, tail, k + 1, seen', offset + 2 + |rs[k].value|, CountRecord(p, rs[k]));
    } else {
      at := k;
    }
  }

  /** The first-error contract of the validator, for every refusal that is a record's own. */
  lemma ReportsFirstRefusal(blob: seq<byte>) returns (at: nat)
    requires Validate(blob).status !in {Ok, MissingRequired, Truncated, BlobTooLarge}
    ensures var r, rs := Validate(blob), Parse(blob).0;
      && at < |rs| && Declared(rs[..at]) && !Declared(rs[..at + 1])
      && r.kind == rs[at].kind && r.offset == |Blob(rs[..at])|
      && SeenAfter(rs[..at]).Some? && r.status == Admit(SeenAfter(rs[..at]).value, rs[at]).0
  {
    hide Judge, Parse, Missing, SeenAfter, Blob, Declared, Admit;
    var (rs, tail) := Parse(blob);
    assert rs[..0] == [];
    NoneYet();
    NoBlob();
    JudgeFollows(rs, tail, 0, NOTHING_SEEN, 0, CLEAN);
    at := FirstRefusal(rs, tail, 0, NOTHING_SEEN, 0, CLEAN);
    AdmittedIffDeclared(rs[..at]);
    AdmittedIffDeclared(rs[..at + 1]);
    RefusedNext(rs, at);
  }

  lemma RefusedNext(rs: seq<Record>, at: nat)
    requires at < |rs| && SeenAfter(rs[..at]).Some? && Admit(SeenAfter(rs[..at]).value, rs[at]).0 != Ok
    ensures SeenAfter(rs[..at + 1]).None?
  {
    hide Admit;
    assert rs[..at + 1][..at] == rs[..at];
  }

  // ---------------------------------------------------------------- the writer

  datatype Writer = Writer(bytes: seq<byte>, cap: nat, seen: Seen)

  function Fresh(cap: nat): Writer {
    Writer([], if cap < MAX_DESCRIPTOR_BYTES then cap else MAX_DESCRIPTOR_BYTES, NOTHING_SEEN)
  }

  function Append(w: Writer, r: Record): (Writer, Status)
    requires |r.value| < 256
  {
    var (st, seen) := Admit(w.seen, r);
    if st != Ok then (w, st)
    else if |w.bytes| + 2 + |r.value| > w.cap then
      (w, if w.cap == MAX_DESCRIPTOR_BYTES then BlobTooLarge else BufferTooSmall)
    else (w.(bytes := w.bytes + RecordBytes(r), seen := seen), Ok)
  }

  /** Every append attempted in turn; the refused ones leave no trace. */
  function AppendAll(w: Writer, rs: seq<Record>): Writer
    requires Sized(rs)
  {
    if rs == [] then w else Append(AppendAll(w, rs[..|rs| - 1]), rs[|rs| - 1]).0
  }

  /** The attempts that were accepted. */
  function Accepted(w: Writer, rs: seq<Record>): (done: seq<Record>)
    requires Sized(rs)
    ensures Sized(done)
  {
    if rs == [] then []
    else
      var before := rs[..|rs| - 1];
      Accepted(w, before) + (if Append(AppendAll(w, before), rs[|rs| - 1]).1 == Ok then [rs[|rs| - 1]] else [])
  }

  lemma WriterStep(w: Writer, cap: nat, done: seq<Record>, r: Record)
    requires Sized(done) && |r.value| < 256 && Holds(w, cap, done) && |w.bytes| <= w.cap
    ensures var (w', st) := Append(w, r);
      |w'.bytes| <= w'.cap && Sized(done + [r]) && Holds(w', cap, if st == Ok then done + [r] else done)
  {
    hide Admit;
    assert (done + [r])[..|done|] == done;
    BlobBack(done + [r]);
  }

  lemma {:induction false} WriterHolds(cap: nat, rs: seq<Record>)
    requires Sized(rs)
    ensures var w, done := AppendAll(Fresh(cap), rs), Accepted(Fresh(cap), rs);
      Holds(w, cap, done) && |w.bytes| <= w.cap
  {
    hide Append, AppendAll, Accepted, Blob, SeenAfter;
    if rs == [] {
      NoBlob();
      NoneYet();
      AppendNothing(Fresh(cap));
    } else {
      var before, r := rs[..|rs| - 1], rs[|rs| - 1];
      assert rs == before + [r];
      WriterHolds(cap, before);
      AppendAllStep(Fresh(cap), before, r);
      var done := Accepted(Fresh(cap), before);
      WriterStep(AppendAll(Fresh(cap), before), cap, done, r);
      assert done + [] == done;
    }
  }

  /** Whatever was attempted, the blob holds exactly what was accepted, and only completeness can be missing. */
  lemma WriterAgrees(cap: nat, rs: seq<Record>)
    requires Sized(rs)
    ensures var blob := AppendAll(Fresh(cap), rs).bytes;
      && Parse(blob) == (Accepted(Fresh(cap), rs), [])
      && Validate(blob).status == if Complete(Accepted(Fresh(cap), rs)) then Ok else MissingRequired
  {
    hide Judge, Parse, Missing, SeenAfter, Blob, AppendAll, Accepted, Complete;
    WriterHolds(cap, rs);
    var done := Accepted(Fresh(cap), rs);
    ParseOfBlob(done);
    assert done[..0] == [];
    NoneYet();
    JudgeFollows(done, [], 0, NOTHING_SEEN, 0, CLEAN);
    AdmittedIffDeclared(done);
    CompleteIff(SeenAfter(done).value, done);
  }

  lemma {:induction false} PrefixAdmitted(rs: seq<Record>, k: nat)
    requires k <= |rs| && SeenAfter(rs).Some?
    ensures SeenAfter(rs[..k]).Some?
  {
    if SeenAfter(rs[..k]).None? { NeverAdmitted(rs, k); }
  }

  lemma AppendAllStep(w: Writer, rs: seq<Record>, r: Record)
    requires Sized(rs) && Sized(rs + [r])
    ensures AppendAll(w, rs + [r]) == Append(AppendAll(w, rs), r).0
    ensures Accepted(w, rs + [r]) == Accepted(w, rs) + (if Append(AppendAll(w, rs), r).1 == Ok then [r] else [])
  {
    assert (rs + [r])[..|rs|] == rs;
  }

  lemma AppendNothing(w: Writer)
    ensures AppendAll(w, []) == w && Accepted(w, []) == []
  {
  }

  /** The first `k` records of a list that is admitted and fits. */
  predicate Holds(w: Writer, cap: nat, rs: seq<Record>)
    requires Sized(rs)
  {
    w.bytes == Blob(rs) && SeenAfter(rs) == Some(w.seen) && w.cap == Fresh(cap).cap
  }

  lemma RebuildStep(w: Writer, cap: nat, rs: seq<Record>, r: Record)
    requires Sized(rs + [r]) && Sized(rs) && Holds(w, cap, rs) && SeenAfter(rs + [r]).Some? && |Blob(rs + [r])| <= w.cap
    ensures Append(w, r).1 == Ok && Holds(Append(w, r).0, cap, rs + [r])
  {
    hide Admit;
    assert (rs + [r])[..|rs|] == rs;
    BlobBack(rs + [r]);
  }

  lemma {:induction false} Rebuild(cap: nat, rs: seq<Record>, k: nat)
    requires Sized(rs) && SeenAfter(rs).Some? && |Blob(rs)| <= Fresh(cap).cap && k <= |rs|
    ensures Holds(AppendAll(Fresh(cap), rs[..k]), cap, rs[..k])
    ensures forall i :: 0 <= i < k ==> Append(AppendAll(Fresh(cap), rs[..i]), rs[i]).1 == Ok
    decreases k
  {
    hide Append, Blob, AppendAll, SeenAfter;
    if k == 0 {
      NoBlob();
      NoneYet();
      AppendNothing(Fresh(cap));
      assert rs[..0] == [];
    } else {
      Rebuild(cap, rs, k - 1);
      assert rs[..k] == rs[..k - 1] + [rs[k - 1]];
      AppendAllStep(Fresh(cap), rs[..k - 1], rs[k - 1]);
      PrefixAdmitted(rs, k);
      BlobGrows(rs, k);
      RebuildStep(AppendAll(Fresh(cap), rs[..k - 1]), cap, rs[..k - 1], rs[k - 1]);
    }
  }

  lemma {:induction false} BlobGrows(rs: seq<Record>, k: nat)
    requires Sized(rs) && k <= |rs|
    ensures |Blob(rs[..k])| <= |Blob(rs)|
    decreases |rs| - k
  {
    if k == |rs| {
      assert rs[..k] == rs;
    } else {
      BlobGrows(rs, k + 1);
      assert rs[..k + 1][..k] == rs[..k];
      BlobBack(rs[..k + 1]);
    }
  }

  /** A valid blob is rebuilt byte for byte from its own records, every append accepted. */
  lemma ValidIsRebuilt(blob: seq<byte>, cap: nat)
    requires Validate(blob).status == Ok && cap >= |blob|
    ensures var rs := Parse(blob).0;
      && AppendAll(Fresh(cap), rs).bytes == blob
      && forall i :: 0 <= i < |rs| ==> Append(AppendAll(Fresh(cap), rs[..i]), rs[i]).1 == Ok
  {
    hide Validate, Parse, SeenAfter, Declared, Complete, AppendAll, Append, Blob;
    ValidIff(blob);
    var (rs, tail) := Parse(blob);
    BlobOfParse(blob);
    assert Blob(rs) + [] == Blob(rs);
    AdmittedIffDeclared(rs);
    Rebuild(cap, rs, |rs|);
    assert rs[..|rs|] == rs;
  }
}
