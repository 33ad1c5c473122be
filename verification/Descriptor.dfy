/** Module descriptors: type-length-value records, their checks, and the report a whole blob earns. */
module Descriptor {
  import opened Protocol
  import Utf8

  datatype Status =
    | Ok | Truncated | BlobTooLarge | BufferTooSmall
    | DuplicateRecord | DuplicateKey | MissingRequired
    | MalformedRecord | OutOfRange | InvalidUtf8 | StringTooLong

  /** One record; the length byte bounds the value. */
  datatype Record = Record(kind: byte, value: seq<byte>)

  datatype Info = Info(kind: byte, required: bool, repeated: bool, maxLen: nat)

  const TLV_PROTOCOL: byte := 0x01
  const TLV_MODULE_TYPE: byte := 0x02
  const TLV_NAME: byte := 0x03
  const TLV_MANUFACTURER: byte := 0x04
  const TLV_MODEL_ID: byte := 0x05
  const TLV_SERIAL: byte := 0x06
  const TLV_CHANNEL: byte := 0x10
  const TLV_SWITCHING: byte := 0x11
  const TLV_PARAM: byte := 0x20
  const TLV_PARAM_ENUM: byte := 0x21
  const TLV_AUDIO: byte := 0x30
  const TLV_POWER_LV: byte := 0x40
  const TLV_POWER_TUBE: byte := 0x41
  const TLV_VENDOR: byte := 0x7E

  /** The record table, sorted by type. */
  const TLV_INFO: seq<Info> := [
    Info(TLV_PROTOCOL, true, false, 0), Info(TLV_MODULE_TYPE, true, false, 0), Info(TLV_NAME, true, false, 24),
    Info(TLV_MANUFACTURER, true, false, 24), Info(TLV_MODEL_ID, true, false, 0), Info(TLV_SERIAL, false, false, 16),
    Info(TLV_CHANNEL, true, true, 0), Info(TLV_SWITCHING, true, false, 0), Info(TLV_PARAM, true, true, 0),
    Info(TLV_PARAM_ENUM, false, true, 0), Info(TLV_AUDIO, true, false, 0), Info(TLV_POWER_LV, true, false, 0),
    Info(TLV_POWER_TUBE, false, false, 0), Info(TLV_VENDOR, false, true, 0)]

  const MODULE_TYPE_MAX: byte := 0x0D
  const PARAM_KIND_MAX: byte := 5
  const PARAM_VALUE_MAX: nat := 4095
  const SETTLE_MS_MAX: nat := 5000
  const AUDIO_MVRMS_MAX: nat := 10000
  const P15_MA_MAX: nat := 150
  const N15_MA_MAX: nat := 150
  const P9_MA_MAX: nat := 500
  const P5_MA_MAX: nat := 1000
  const HEATER_MA_MAX: nat := 2000
  const BPLUS_V_MAX: nat := 300
  const BPLUS_MA_MAX: nat := 40

  function InfoFrom(kind: byte, i: nat): (r: Option<Info>)
    requires i <= |TLV_INFO|
    ensures r.Some? ==> r.value in TLV_INFO && r.value.kind == kind
    decreases |TLV_INFO| - i
  {
    if i == |TLV_INFO| then None
    else if TLV_INFO[i].kind == kind then Some(TLV_INFO[i])
    else InfoFrom(kind, i + 1)
  }

  function InfoOf(kind: byte): Option<Info> {
    InfoFrom(kind, 0)
  }

  predicate Known(kind: byte) {
    InfoOf(kind).Some?
  }

  predicate Repeated(kind: byte) {
    InfoOf(kind).Some? && InfoOf(kind).value.repeated
  }

  // ---------------------------------------------------------------- one record

  function Get16(v: seq<byte>, i: nat): nat
    requires i + 1 < |v|
  {
    var lo: int, hi: int := v[i], v[i + 1];
    lo + 256 * hi
  }

  function CheckString(kind: byte, value: seq<byte>): Status {
    var info := InfoOf(kind);
    if info.Some? && info.value.maxLen != 0 && |value| > info.value.maxLen then StringTooLong
    else if Utf8.Valid(value) then Ok
    else InvalidUtf8
  }

  function Fixed(value: seq<byte>, n: nat, inRange: bool): Status {
    if |value| != n then MalformedRecord else if inRange then Ok else OutOfRange
  }

  function CheckParam(value: seq<byte>): Status {
    if |value| < 5 then MalformedRecord
    else if !Utf8.Valid(value[5..]) then InvalidUtf8
    else if value[2] > PARAM_KIND_MAX then OutOfRange
    else if Get16(value, 3) > PARAM_VALUE_MAX then OutOfRange
    else Ok
  }

  function CheckPowerTube(value: seq<byte>): Status {
    Fixed(value, 11,
      |value| == 11 ==>
        && 1 <= value[0] <= 4 && Get16(value, 5) <= HEATER_MA_MAX
        && Get16(value, 7) <= BPLUS_V_MAX && value[10] <= BPLUS_MA_MAX)
  }

  function CheckPowerLv(value: seq<byte>): Status {
    Fixed(value, 8,
      |value| == 8 ==>
        && Get16(value, 0) <= P15_MA_MAX && Get16(value, 2) <= N15_MA_MAX
        && Get16(value, 4) <= P9_MA_MAX && Get16(value, 6) <= P5_MA_MAX)
  }

  function CheckAudio(value: seq<byte>): Status {
    Fixed(value, 6,
      |value| == 6 ==> value[1] <= 1 && Get16(value, 2) <= AUDIO_MVRMS_MAX && Get16(value, 4) <= AUDIO_MVRMS_MAX)
  }

  /** The per-record rules; an unknown type has none. */
  function CheckRecord(kind: byte, value: seq<byte>): Status {
    if kind == TLV_NAME || kind == TLV_MANUFACTURER || kind == TLV_SERIAL then CheckString(kind, value)
    else if kind == TLV_PROTOCOL then Fixed(value, 2, true)
    else if kind == TLV_MODULE_TYPE then Fixed(value, 1, |value| == 1 ==> 1 <= value[0] <= MODULE_TYPE_MAX)
    else if kind == TLV_MODEL_ID then Fixed(value, 6, true)
    else if kind == TLV_CHANNEL then
      if |value| < 1 then MalformedRecord else if Utf8.Valid(value[1..]) then Ok else InvalidUtf8
    else if kind == TLV_SWITCHING then Fixed(value, 3, |value| == 3 ==> Get16(value, 1) <= SETTLE_MS_MAX)
    else if kind == TLV_PARAM then CheckParam(value)
    else if kind == TLV_PARAM_ENUM then
      if |value| < 2 then MalformedRecord else if Utf8.Valid(value[2..]) then Ok else InvalidUtf8
    else if kind == TLV_AUDIO then CheckAudio(value)
    else if kind == TLV_POWER_LV then CheckPowerLv(value)
    else if kind == TLV_POWER_TUBE then CheckPowerTube(value)
    else if kind == TLV_VENDOR then if |value| >= 2 then Ok else MalformedRecord
    else Ok
  }

  /** A checked CHANNEL or PARAM has a first byte: its key. */
  lemma KeyedIsLong(kind: byte, value: seq<byte>)
    requires CheckRecord(kind, value) == Ok && (kind == TLV_CHANNEL || kind == TLV_PARAM)
    ensures value != []
  {
  }

  // ---------------------------------------------------------------- one record after others

  /** The bitmaps: types written, channel indices and parameter ids used. */
  datatype Seen = Seen(kinds: set<byte>, channels: set<byte>, params: set<byte>)

  const NOTHING_SEEN: Seen := Seen({}, {}, {})

  /** What one more record earns, and what is seen after it if that is Ok. */
  function Admit(seen: Seen, r: Record): (Status, Seen) {
    if !Known(r.kind) then (Ok, seen)
    else if !Repeated(r.kind) && r.kind in seen.kinds then (DuplicateRecord, seen)
    else if CheckRecord(r.kind, r.value) != Ok then (CheckRecord(r.kind, r.value), seen)
    else
      var s1 := seen.(kinds := seen.kinds + {r.kind});
      if r.kind == TLV_CHANNEL then
        KeyedIsLong(r.kind, r.value);
        if r.value[0] in seen.channels then (DuplicateKey, seen)
          else (Ok, s1.(channels := seen.channels + {r.value[0]}))
      else if r.kind == TLV_PARAM then
        KeyedIsLong(r.kind, r.value);
        if r.value[0] in seen.params then (DuplicateKey, seen) else (Ok, s1.(params := seen.params + {r.value[0]}))
      else (Ok, s1)
  }

  /** What a list of records leaves seen, if every one of them is admitted. */
  function SeenAfter(rs: seq<Record>): Option<Seen> {
    if rs == [] then Some(NOTHING_SEEN)
    else
      match SeenAfter(rs[..|rs| - 1])
      case None => None
      case Some(seen) =>
        var (st, seen') := Admit(seen, rs[|rs| - 1]);
        if st == Ok then Some(seen') else None
  }

  // ---------------------------------------------------------------- bytes

  predicate Sized(rs: seq<Record>) {
    forall r :: r in rs ==> |r.value| < 256
  }

  function RecordBytes(r: Record): (b: seq<byte>)
    requires |r.value| < 256
    ensures |b| == 2 + |r.value|
  {
    [r.kind, |r.value|] + r.value
  }

  function Blob(rs: seq<Record>): seq<byte>
    requires Sized(rs)
  {
    if rs == [] then [] else Blob(rs[..|rs| - 1]) + RecordBytes(rs[|rs| - 1])
  }

  /** The records a cursor yields, and the bytes it is left with when the last one is cut short. */
  function Parse(s: seq<byte>): (r: (seq<Record>, seq<byte>))
    ensures Sized(r.0)
    decreases |s|
  {
    if s == [] then ([], [])
    else if |s| < 2 || |s| - 2 < s[1] then ([], s)
    else
      var (rs, tail) := Parse(s[2 + s[1]..]);
      ([Record(s[0], s[2..2 + s[1]])] + rs, tail)
  }

  // ---------------------------------------------------------------- the whole blob

  datatype Report = Report(status: Status, kind: byte, offset: nat, skipped: nat, channels: nat, params: nat)

  function Missing(kinds: set<byte>, i: nat): (r: Option<byte>)
    requires i <= |TLV_INFO|
    decreases |TLV_INFO| - i
  {
    if i == |TLV_INFO| then None
    else if TLV_INFO[i].required && TLV_INFO[i].kind !in kinds then Some(TLV_INFO[i].kind)
    else Missing(kinds, i + 1)
  }

  function CountRecord(p: Report, r: Record): Report {
    if !Known(r.kind) then p.(skipped := p.skipped + 1)
    else if r.kind == TLV_CHANNEL then p.(channels := p.channels + 1)
    else if r.kind == TLV_PARAM then p.(params := p.params + 1)
    else p
  }

  /** The first record that is refused, else the cut-short one, else the first required type missing. */
  function Judge(rs: seq<Record>, tail: seq<byte>, k: nat, seen: Seen, offset: nat, p: Report): Report
    requires Sized(rs) && k <= |rs|
    decreases |rs| - k
  {
    if k == |rs| then
      if tail != [] then p.(status := Truncated, kind := tail[0], offset := offset)
      else match Missing(seen.kinds, 0)
        case Some(kind) => p.(status := MissingRequired, kind := kind, offset := offset)
        case None => p
    else
      var (st, seen') := Admit(seen, rs[k]);
      if st != Ok then p.(status := st, kind := rs[k].kind, offset := offset)
      else Judge(rs, tail, k + 1, seen', offset + 2 + |rs[k].value|, CountRecord(p, rs[k]))
  }

  const CLEAN: Report := Report(Ok, 0, 0, 0, 0, 0)

  function Validate(blob: seq<byte>): Report {
    if |blob| > MAX_DESCRIPTOR_BYTES then CLEAN.(status := BlobTooLarge)
    else
      var (rs, tail) := Parse(blob);
      Judge(rs, tail, 0, NOTHING_SEEN, 0, CLEAN)
  }

  // ---------------------------------------------------------------- parsing and printing

  lemma BlobBack(rs: seq<Record>)
    requires Sized(rs) && rs != []
    ensures Blob(rs) == Blob(rs[..|rs| - 1]) + RecordBytes(rs[|rs| - 1])
  {
  }

  lemma {:induction false} BlobFront(rs: seq<Record>)
    requires Sized(rs) && rs != []
    ensures Blob(rs) == RecordBytes(rs[0]) + Blob(rs[1..])
  {
    hide Blob, RecordBytes;
    var n := |rs| - 1;
    BlobBack(rs);
    NoBlob();
    if n == 0 {
      assert rs[..0] == [] && rs[1..] == [];
      assert [] + RecordBytes(rs[0]) == RecordBytes(rs[0]) == RecordBytes(rs[0]) + [];
    } else {
      BlobFront(rs[..n]);
      BlobBack(rs[1..]);
      assert rs[..n][1..] == rs[1..][..n - 1] && rs[1..][n - 1] == rs[n] && rs[..n][0] == rs[0];
      var a, b, c := RecordBytes(rs[0]), Blob(rs[1..][..n - 1]), RecordBytes(rs[n]);
      assert (a + b) + c == a + (b + c);
    }
  }

  lemma {:induction false} ParseBlob(rs: seq<Record>, tail: seq<byte>)
    requires Sized(rs) && Parse(tail) == ([], tail)
    ensures Parse(Blob(rs) + tail) == (rs, tail)
    decreases |rs|
  {
    hide Blob;
    if rs == [] {
      NoBlob();
      assert [] + tail == tail;
    } else {
      BlobFront(rs);
      ParseBlob(rs[1..], tail);
      var s, b := Blob(rs) + tail, RecordBytes(rs[0]);
      assert s == b + (Blob(rs[1..]) + tail);
      assert s[2..2 + s[1]] == rs[0].value && s[2 + s[1]..] == Blob(rs[1..]) + tail;
      assert rs == [rs[0]] + rs[1..];
    }
  }

  lemma NoBlob()
    ensures Blob([]) == []
  {
  }

  /** Cursor and printer are inverse: the records of a printed list are that list, and a parsed blob prints back. */
  lemma ParseOfBlob(rs: seq<Record>)
    requires Sized(rs)
    ensures Parse(Blob(rs)) == (rs, [])
  {
    ParseBlob(rs, []);
    assert Blob(rs) + [] == Blob(rs);
  }

  predicate Cut(s: seq<byte>) {
    s == [] || |s| < 2 || |s| - 2 < s[1]
  }

  lemma ParseStep(s: seq<byte>)
    ensures Cut(s) ==> Parse(s) == ([], s)
    ensures !Cut(s) ==>
      var (rs, tail) := Parse(s[2 + s[1]..]); Parse(s) == ([Record(s[0], s[2..2 + s[1]])] + rs, tail)
  {
  }

  lemma FrontOfBytes(s: seq<byte>)
    requires !Cut(s)
    ensures s == RecordBytes(Record(s[0], s[2..2 + s[1]])) + s[2 + s[1]..]
  {
  }

  lemma {:induction false} BlobOfParse(s: seq<byte>)
    ensures var (rs, tail) := Parse(s); Blob(rs) + tail == s && Parse(tail) == ([], tail)
    decreases |s|
  {
    hide Blob, Parse, RecordBytes;
    ParseStep(s);
    if Cut(s) {
      NoBlob();
      assert [] + s == s;
    } else {
      var r, rest := Record(s[0], s[2..2 + s[1]]), s[2 + s[1]..];
      BlobOfParse(rest);
      var (rs, tail) := Parse(rest);
      BlobFront([r] + rs);
      assert ([r] + rs)[1..] == rs;
      FrontOfBytes(s);
      JoinThree(RecordBytes(r), Blob(rs), tail);
    }
  }

  lemma JoinThree(a: seq<byte>, b: seq<byte>, c: seq<byte>)
    ensures (a + b) + c == a + (b + c)
  {
  }
}
