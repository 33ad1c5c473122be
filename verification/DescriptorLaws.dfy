/** The descriptor rules in the values a module's author writes: type codes, lengths and ranges, type by type. */
module DescriptorLaws {
  import opened Protocol
  import opened Descriptor
  import opened DescriptorRules
  import Utf8

  // ---------------------------------------------------------------- one record, in plain values

  /** A 16-bit field, low byte first. */
  function Field(v: seq<byte>, i: nat): nat
    requires i + 1 < |v|
  {
    var lo: int, hi: int := v[i], v[i + 1];
    lo + 256 * hi
  }

  /** These bytes are some text in UTF-8. */
  ghost predicate IsText(v: seq<byte>) {
    exists cs: seq<nat> :: Utf8.Scalars(cs) && Utf8.EncodeAll(cs) == v
  }

  /** The length a value of this type must have: exactly, or at least when there is a text to follow. */
  predicate LengthFits(kind: byte, n: nat) {
    match kind
    case 0x01 => n == 2
    case 0x02 => n == 1
    case 0x05 => n == 6
    case 0x10 => n >= 1
    case 0x11 => n == 3
    case 0x20 => n >= 5
    case 0x21 => n >= 2
    case 0x30 => n == 6
    case 0x40 => n == 8
    case 0x41 => n == 11
    case 0x7E => n >= 2
    case _ => true
  }

  /** Where the text in a value of this type begins, if it has one. */
  function TextAt(kind: byte): Option<nat> {
    match kind
    case 0x03 => Some(0)
    case 0x04 => Some(0)
    case 0x06 => Some(0)
    case 0x10 => Some(1)
    case 0x20 => Some(5)
    case 0x21 => Some(2)
    case _ => None
  }

  ghost predicate TextFits(kind: byte, v: seq<byte>) {
    TextAt(kind).Some? ==> TextAt(kind).value <= |v| && IsText(v[TextAt(kind).value..])
  }

  /** NAME and MANUFACTURER have at most 24 bytes, SERIAL at most 16. */
  predicate ShortEnough(kind: byte, n: nat) {
    ((kind == 0x03 || kind == 0x04) ==> n <= 24) && (kind == 0x06 ==> n <= 16)
  }

  /** Every number in a value of the right length is one the protocol allows. */
  predicate NumbersFit(kind: byte, v: seq<byte>)
    requires LengthFits(kind, |v|)
  {
    match kind
    case 0x02 => 1 <= v[0] <= 13
    case 0x11 => Field(v, 1) <= 5000
    case 0x20 => v[2] <= 5 && Field(v, 3) <= 4095
    case 0x30 => v[1] <= 1 && Field(v, 2) <= 10000 && Field(v, 4) <= 10000
    case 0x40 => Field(v, 0) <= 150 && Field(v, 2) <= 150 && Field(v, 4) <= 500 && Field(v, 6) <= 1000
    case 0x41 => 1 <= v[0] <= 4 && Field(v, 5) <= 2000 && Field(v, 7) <= 300 && v[10] <= 40
    case _ => true
  }

  /** What is wrong with a value on its own, if anything. */
  ghost function Fault(kind: byte, v: seq<byte>): Status {
    if !LengthFits(kind, |v|) then MalformedRecord
    else if !ShortEnough(kind, |v|) then StringTooLong
    else if !TextFits(kind, v) then InvalidUtf8
    else if !NumbersFit(kind, v) then OutOfRange
    else Ok
  }

  lemma TextIs(v: seq<byte>)
    ensures Utf8.Valid(v) <==> IsText(v)
  {
    Utf8.ValidIffEncodesScalars(v);
  }

  /** The type codes there are. */
  predicate IsType(kind: byte) {
    kind in {0x01, 0x02, 0x03, 0x04, 0x05, 0x06, 0x10, 0x11, 0x20, 0x21, 0x30, 0x40, 0x41, 0x7E}
  }

  /** Those that may occur more than once. */
  predicate MayRepeat(kind: byte) {
    kind in {0x10, 0x20, 0x21, 0x7E}
  }

  /** Those a descriptor must have. */
  predicate MustOccur(kind: byte) {
    kind in {0x01, 0x02, 0x03, 0x04, 0x05, 0x10, 0x11, 0x20, 0x30, 0x40}
  }

  lemma Row(i: nat)
    requires i < |TLV_INFO|
    ensures InfoOf(TLV_INFO[i].kind) == Some(TLV_INFO[i])
  {
    SkipTo(TLV_INFO[i].kind, i);
  }

  lemma {:induction false} NoRow(kind: byte, i: nat)
    requires i <= |TLV_INFO| && !IsType(kind)
    ensures InfoFrom(kind, i).None?
    decreases |TLV_INFO| - i
  {
    if i < |TLV_INFO| { NoRow(kind, i + 1); }
  }

  /** The record table says exactly this. */
  lemma TableIs(kind: byte)
    ensures Known(kind) <==> IsType(kind)
    ensures Repeated(kind) <==> MayRepeat(kind)
    ensures InfoOf(kind).Some? ==> (InfoOf(kind).value.required <==> MustOccur(kind))
    ensures InfoOf(kind).Some? ==>
      InfoOf(kind).value.maxLen == if kind == 0x03 || kind == 0x04 then 24 else if kind == 0x06 then 16 else 0
  {
    if IsType(kind) {
      var i := RowOf(kind);
      Row(i);
    } else {
      NoRow(kind, 0);
    }
  }

  function RowOf(kind: byte): (i: nat)
    requires IsType(kind)
    ensures i < |TLV_INFO| && TLV_INFO[i].kind == kind
  {
    match kind
    case 0x01 => 0 case 0x02 => 1 case 0x03 => 2 case 0x04 => 3 case 0x05 => 4 case 0x06 => 5 case 0x10 => 6
    case 0x11 => 7 case 0x20 => 8 case 0x21 => 9 case 0x30 => 10 case 0x40 => 11 case 0x41 => 12 case _ => 13
  }

  /** The checks find exactly the fault, for every value of every type. */
  lemma FaultIs(kind: byte, v: seq<byte>)
    requires IsType(kind)
    ensures CheckRecord(kind, v) == Fault(kind, v)
  {
    TableIs(kind);
    TextIs(v);
    if |v| >= 1 { TextIs(v[1..]); }
    if |v| >= 2 { TextIs(v[2..]); }
    if |v| >= 5 { TextIs(v[5..]); }
    assert v[0..] == v;
    hide Utf8.Valid, IsText, InfoOf;
  }

  // ---------------------------------------------------------------- a whole descriptor

  /** Two records of one descriptor that leave each other alone. */
  predicate Distinct(x: Record, y: Record) {
    && (x.kind == y.kind && IsType(x.kind) ==> MayRepeat(x.kind))
    && (x.kind == y.kind && (x.kind == 0x10 || x.kind == 0x20) && x.value != [] && y.value != [] ==>
      x.value[0] != y.value[0])
  }

  ghost predicate Faultless(r: Record) {
    IsType(r.kind) ==> Fault(r.kind, r.value) == Ok
  }

  /** Every record faultless, types and keys not repeated, and nothing missing. */
  ghost predicate Proper(rs: seq<Record>) {
    && (forall r :: r in rs ==> Faultless(r))
    && (forall i, j :: 0 <= i < j < |rs| ==> Distinct(rs[i], rs[j]))
    && (forall kind: byte :: MustOccur(kind) ==> exists r :: r in rs && r.kind == kind)
  }

  lemma FaultlessIs(r: Record)
    ensures Faultless(r) <==> (Known(r.kind) ==> CheckRecord(r.kind, r.value) == Ok)
  {
    TableIs(r.kind);
    if IsType(r.kind) { FaultIs(r.kind, r.value); }
    hide Fault, CheckRecord, Known;
  }

  lemma DistinctIs(x: Record, y: Record)
    ensures Distinct(x, y) <==> !Clash(x, y)
  {
    TableIs(x.kind);
    hide Known, Repeated;
  }

  lemma CompleteIs(rs: seq<Record>)
    ensures Complete(rs) <==> forall kind: byte :: MustOccur(kind) ==> exists r :: r in rs && r.kind == kind
  {
    forall kind: byte | MustOccur(kind) ensures exists info :: info in TLV_INFO && info.required && info.kind == kind {
      assert TLV_INFO[RowOf(kind)] in TLV_INFO;
    }
    forall info | info in TLV_INFO && info.required ensures MustOccur(info.kind) {
      var i :| 0 <= i < |TLV_INFO| && TLV_INFO[i] == info;
    }
  }

  lemma DeclaredIs(rs: seq<Record>)
    ensures Declared(rs) <==>
      (forall r :: r in rs ==> Faultless(r)) && forall i, j :: 0 <= i < j < |rs| ==> Distinct(rs[i], rs[j])
  {
    hide Faultless, Distinct, Clash, Known, CheckRecord;
    forall r | r in rs ensures Faultless(r) <==> (Known(r.kind) ==> CheckRecord(r.kind, r.value) == Ok) {
      FaultlessIs(r);
    }
    forall i, j | 0 <= i < j < |rs| ensures Distinct(rs[i], rs[j]) <==> !Clash(rs[i], rs[j]) {
      DistinctIs(rs[i], rs[j]);
    }
  }

  /** A blob is valid exactly when it is at most 2048 bytes and is the record bytes of some proper list. */
  lemma ValidIffProper(blob: seq<byte>)
    ensures Validate(blob).status == Ok <==>
      |blob| <= 2048 && exists rs: seq<Record> :: Sized(rs) && Blob(rs) == blob && Proper(rs)
  {
    hide Validate, Proper, Blob, Declared, Complete;
    ValidIff(blob);
    var (rs, tail) := Parse(blob);
    BlobOfParse(blob);
    ProperIs(rs);
    if tail == [] { assert Blob(rs) + [] == Blob(rs); }
    if other: seq<Record> :| Sized(other) && Blob(other) == blob && Proper(other) {
      ParseOfBlob(other);
    }
  }

  lemma ProperIs(rs: seq<Record>)
    ensures Proper(rs) <==> Declared(rs) && Complete(rs)
  {
    DeclaredIs(rs);
    CompleteIs(rs);
    hide Declared, Complete, Faultless, Distinct;
  }

  // ---------------------------------------------------------------- what a refusal says

  /** What is wrong with a record after these: its type again, its own fault, or its key again, in this order. */
  ghost function Cause(before: seq<Record>, r: Record): Status {
    if IsType(r.kind) && !MayRepeat(r.kind) && (exists x :: x in before && x.kind == r.kind) then DuplicateRecord
    else if !Faultless(r) then Fault(r.kind, r.value)
    else DuplicateKey
  }

  lemma CauseIs(before: seq<Record>, r: Record)
    requires SeenAfter(before).Some? && Admit(SeenAfter(before).value, r).0 != Ok
    ensures Admit(SeenAfter(before).value, r).0 == Cause(before, r)
  {
    AdmittedIffDeclared(before);
    TableIs(r.kind);
    if IsType(r.kind) { FaultIs(r.kind, r.value); }
    FaultlessIs(r);
    hide Fault, CheckRecord, Known, Repeated, SeenAfter, Faultless;
  }

  /**
   * A refusal for a record's own sake names the first record that cannot follow those before it, the offset it starts
   * at and what is wrong with it.
   */
  lemma RefusalNamesCause(blob: seq<byte>) returns (at: nat)
    requires Validate(blob).status !in {Ok, MissingRequired, Truncated, BlobTooLarge}
    ensures var r, rs := Validate(blob), Parse(blob).0;
      && at < |rs| && r.status == Cause(rs[..at], rs[at]) && r.kind == rs[at].kind && r.offset == |Blob(rs[..at])|
      && (forall i :: 0 <= i < at ==> Faultless(rs[i]))
      && (forall i, j :: 0 <= i < j < at ==> Distinct(rs[i], rs[j]))
      && (!Faultless(rs[at]) || exists i :: 0 <= i < at && !Distinct(rs[i], rs[at]))
  {
    hide Validate, Parse, Cause, SeenAfter, Admit, Blob, Faultless, Distinct, Declared;
    at := ReportsFirstRefusal(blob);
    var rs := Parse(blob).0;
    CauseIs(rs[..at], rs[at]);
    DeclaredIs(rs[..at]);
    DeclaredIs(rs[..at + 1]);
    forall i | 0 <= i < at ensures rs[..at][i] == rs[i] && rs[i] in rs[..at] {
    }
    FirstOffender(rs, at);
  }

  /** Faultless and distinct throughout. */
  ghost predicate Clean(rs: seq<Record>) {
    && (forall r :: r in rs ==> Faultless(r))
    && (forall i, j :: 0 <= i < j < |rs| ==> Distinct(rs[i], rs[j]))
  }

  lemma FirstOffender(rs: seq<Record>, at: nat)
    requires at < |rs| && Clean(rs[..at]) && !Clean(rs[..at + 1])
    ensures !Faultless(rs[at]) || exists i :: 0 <= i < at && !Distinct(rs[i], rs[at])
  {
    hide Faultless, Distinct;
    var a, b := rs[..at], rs[..at + 1];
    assert b == a + [rs[at]];
    if Faultless(rs[at]) && forall i :: 0 <= i < at ==> Distinct(rs[i], rs[at]) {
      forall i, j | 0 <= i < j < |b| ensures Distinct(b[i], b[j]) {
        assert b[i] == rs[i] && b[j] == rs[j];
        assert j < at ==> b[j] == a[j];
      }
    }
  }

  // ---------------------------------------------------------------- the other three reports

  function HowMany(rs: seq<Record>, kind: byte): nat {
    if rs == [] then 0 else HowMany(rs[..|rs| - 1], kind) + if rs[|rs| - 1].kind == kind then 1 else 0
  }

  function HowManyUnknown(rs: seq<Record>): nat {
    if rs == [] then 0 else HowManyUnknown(rs[..|rs| - 1]) + if IsType(rs[|rs| - 1].kind) then 0 else 1
  }

  /** The tallies after the first `k` records. */
  predicate Tallied(p: Report, rs: seq<Record>, k: nat)
    requires k <= |rs|
  {
    && p.status == Ok && p.kind == 0 && p.offset == 0
    && p.skipped == HowManyUnknown(rs[..k])
    && p.channels == HowMany(rs[..k], 0x10) && p.params == HowMany(rs[..k], 0x20)
  }

  lemma TallyNext(p: Report, rs: seq<Record>, k: nat)
    requires k < |rs| && Tallied(p, rs, k)
    ensures Tallied(CountRecord(p, rs[k]), rs, k + 1)
  {
    TableIs(rs[k].kind);
    assert rs[..k + 1][..k] == rs[..k];
    hide Known;
  }

  /** The lowest type that must occur and does not. */
  ghost predicate LowestMissing(rs: seq<Record>, kind: byte) {
    && MustOccur(kind) && (forall r :: r in rs ==> r.kind != kind)
    && forall lower: byte :: lower < kind && MustOccur(lower) ==> exists r :: r in rs && r.kind == lower
  }

  lemma {:induction false} MissingIsLowest(kinds: set<byte>, i: nat)
    requires i <= |TLV_INFO|
    requires forall j :: 0 <= j < i && TLV_INFO[j].required ==> TLV_INFO[j].kind in kinds
    ensures match Missing(kinds, i)
      case None => forall kind: byte :: MustOccur(kind) ==> kind in kinds
      case Some(kind) =>
        MustOccur(kind) && kind !in kinds && forall lower: byte :: lower < kind && MustOccur(lower) ==> lower in kinds
    decreases |TLV_INFO| - i
  {
    if i == |TLV_INFO| {
      forall kind: byte | MustOccur(kind) ensures kind in kinds {
        assert TLV_INFO[RowOf(kind)].required;
      }
    } else if TLV_INFO[i].required && TLV_INFO[i].kind !in kinds {
      forall lower: byte | lower < TLV_INFO[i].kind && MustOccur(lower) ensures lower in kinds {
        assert TLV_INFO[RowOf(lower)].required;
      }
    } else {
      MissingIsLowest(kinds, i + 1);
    }
  }

  /** The walk from record `k`, all before it admitted and tallied, when nothing after it is refused either. */
  lemma {:induction false} JudgeTallies(rs: seq<Record>, tail: seq<byte>, k: nat, seen: Seen, offset: nat, p: Report)
    requires Sized(rs) && k <= |rs| && SeenAfter(rs[..k]) == Some(seen) && SeenAfter(rs).Some?
    requires Tallied(p, rs, k) && offset == |Blob(rs[..k])|
    ensures var r, missing := Judge(rs, tail, k, seen, offset, p), Missing(SeenAfter(rs).value.kinds, 0);
      && r.skipped == HowManyUnknown(rs) && r.channels == HowMany(rs, 0x10) && r.params == HowMany(rs, 0x20)
      && (tail != [] ==> r.status == Truncated && r.kind == tail[0] && r.offset == |Blob(rs)|)
      && (tail == [] && missing.Some? ==>
        r.status == MissingRequired && r.kind == missing.value && r.offset == |Blob(rs)|)
      && (tail == [] && missing.None? ==> r.status == Ok && r.kind == 0 && r.offset == 0)
    decreases |rs| - k
  {
    hide Admit, CountRecord, Missing, HowMany, HowManyUnknown, Known;
    assert rs[..|rs|] == rs;
    if k < |rs| {
      var (st, seen') := Admit(seen, rs[k]);
      assert rs[..k + 1][..k] == rs[..k];
      BlobBack(rs[..k + 1]);
      TallyNext(p, rs, k);
      if st == Ok {
        JudgeTallies(rs, tail, k + 1, seen', offset + 2 + |rs[k].value|, CountRecord(p, rs[k]));
      } else {
        NeverAdmitted(rs, k + 1);
      }
    }
  }

  /**
   * When no record is refused: the report counts the records of unknown type, the channels and the parameters, and says
   * of a blob cut short where and in what it is cut, of an incomplete one the lowest type missing.
   */
  lemma ReportTells(blob: seq<byte>)
    requires Validate(blob).status in {Ok, MissingRequired, Truncated}
    ensures var r := Validate(blob); var (rs, tail) := Parse(blob);
      && r.skipped == HowManyUnknown(rs) && r.channels == HowMany(rs, 0x10) && r.params == HowMany(rs, 0x20)
      && (r.status == Truncated ==> tail != [] && r.kind == tail[0] && r.offset + |tail| == |blob|)
      && (r.status == MissingRequired ==> tail == [] && LowestMissing(rs, r.kind) && r.offset == |blob|)
      && (r.status == Ok ==> r.kind == 0 && r.offset == 0)
  {
    hide Judge, Parse, Missing, SeenAfter, Blob, HowMany, HowManyUnknown;
    var (rs, tail) := Parse(blob);
    BlobOfParse(blob);
    assert rs[..0] == [];
    NoneYet();
    NoBlob();
    NothingTallied(rs);
    JudgeFollows(rs, tail, 0, NOTHING_SEEN, 0, CLEAN);
    AdmittedIffDeclared(rs);
    JudgeTallies(rs, tail, 0, NOTHING_SEEN, 0, CLEAN);
    var kinds := SeenAfter(rs).value.kinds;
    MissingIsLowest(kinds, 0);
    OccursIs(SeenAfter(rs).value, rs);
    assert Blob(rs) + [] == Blob(rs);
    hide SeenIs, Declared;
  }

  lemma OccursIs(seen: Seen, rs: seq<Record>)
    requires SeenIs(seen, rs)
    ensures forall kind: byte :: MustOccur(kind) ==> (kind in seen.kinds <==> exists r :: r in rs && r.kind == kind)
  {
    hide Known;
    forall kind: byte | MustOccur(kind) ensures Known(kind) {
      TableIs(kind);
    }
  }

  lemma NothingTallied(rs: seq<Record>)
    ensures Tallied(CLEAN, rs, 0)
  {
    assert rs[..0] == [];
  }

  // ---------------------------------------------------------------- the writer

  /** Whether a record may follow these. */
  ghost predicate MayFollow(done: seq<Record>, r: Record) {
    Faultless(r) && forall x :: x in done ==> Distinct(x, r)
  }

  lemma MayFollowIs(seen: Seen, done: seq<Record>, r: Record)
    requires SeenIs(seen, done)
    ensures Admit(seen, r).0 == Ok <==> MayFollow(done, r)
  {
    hide Clash, Distinct, Faultless, Known, CheckRecord, Admit, SeenIs;
    AdmitIff(seen, done, r);
    FaultlessIs(r);
    forall x | x in done ensures Distinct(x, r) <==> !Clash(x, r) {
      DistinctIs(x, r);
    }
  }

  /**
   * After any attempts a writer takes a record exactly when it may follow those taken and fits in what is left of the
   * capacity or of the 2048 bytes; otherwise it says which of the two it is not.
   */
  lemma WriterDecides(cap: nat, rs: seq<Record>, r: Record)
    requires Sized(rs) && |r.value| < 256
    ensures var w, done := AppendAll(Fresh(cap), rs), Accepted(Fresh(cap), rs);
      Append(w, r).1 ==
        if !MayFollow(done, r) then Cause(done, r)
        else if |Blob(done)| + 2 + |r.value| <= cap && |Blob(done)| + 2 + |r.value| <= 2048 then Ok
        else if cap >= 2048 then BlobTooLarge
        else BufferTooSmall
  {
    hide Admit, AppendAll, Accepted, SeenAfter, MayFollow, Cause, Blob, SeenIs;
    var w, done := AppendAll(Fresh(cap), rs), Accepted(Fresh(cap), rs);
    WriterHolds(cap, rs);
    AdmittedIffDeclared(done);
    MayFollowIs(w.seen, done, r);
    if Admit(w.seen, r).0 != Ok { CauseIs(done, r); }
  }
}
