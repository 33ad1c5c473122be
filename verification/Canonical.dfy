/** The canonical text of a descriptor: printing records and parsing them, as functions. */
module Canonical {
  import opened Protocol
  import opened Text
  import opened Descriptor
  import opened DescriptorRules

  // ---------------------------------------------------------------- splitting outside quotes

  datatype Mode = Plain | Quoted | Escaped

  function Next(m: Mode, c: char): Mode {
    match m
    case Plain => if c == '"' then Quoted else Plain
    case Quoted => if c == '\\' then Escaped else if c == '"' then Plain else Quoted
    case Escaped => Quoted
  }

  /** The pieces between separators that stand outside quotes; `cur` is the piece begun. */
  function Scan(text: string, sep: char, m: Mode, cur: string): (r: (seq<string>, Mode))
    ensures r.0 != []
    decreases |text|
  {
    if text == "" then ([cur], m)
    else if m == Plain && text[0] == sep then
      var (ps, end) := Scan(text[1..], sep, Plain, "");
      ([cur] + ps, end)
    else Scan(text[1..], sep, Next(m, text[0]), cur + [text[0]])
  }

  function TrimLeft(s: string): string {
    if s != "" && s[0] == ' ' then TrimLeft(s[1..]) else s
  }

  function TrimRight(s: string): string {
    if s != "" && s[|s| - 1] == ' ' then TrimRight(s[..|s| - 1]) else s
  }

  function Trim(s: string): string {
    TrimRight(TrimLeft(s))
  }

  /** Every piece trimmed; the blank ones gone. */
  function Chunks(pieces: seq<string>): seq<string> {
    if pieces == [] then []
    else (if Trim(pieces[0]) == "" then [] else [Trim(pieces[0])]) + Chunks(pieces[1..])
  }

  /** The records of a text, or nothing if a quote is left open. */
  function SplitRecords(text: string): Option<seq<string>> {
    var (pieces, end) := Scan(text, '|', Plain, "");
    if end == Plain then Some(Chunks(pieces)) else None
  }

  function NonEmpty(pieces: seq<string>): seq<string> {
    if pieces == [] then [] else (if pieces[0] == "" then [] else [pieces[0]]) + NonEmpty(pieces[1..])
  }

  /** Where a token's first '=' is, or its length. */
  function EqualsAt(tok: string): (i: nat)
    ensures i <= |tok|
  {
    if tok == "" || tok[0] == '=' then 0 else 1 + EqualsAt(tok[1..])
  }

  /** Each token split at its first '='; a missing '=' or a repeated key is an error. */
  function KeyValues(toks: seq<string>, kv: map<string, string>): Option<map<string, string>>
    decreases |toks|
  {
    if toks == [] then Some(kv)
    else
      var i := EqualsAt(toks[0]);
      if i == |toks[0]| || toks[0][..i] in kv then None
      else KeyValues(toks[1..], kv[toks[0][..i] := toks[0][i + 1..]])
  }

  datatype Tokens = Tokens(name: string, kv: map<string, string>)

  function RecordTokens(chunk: string): Option<Tokens> {
    var toks := NonEmpty(Scan(chunk, ' ', Plain, "").0);
    if toks == [] then None
    else
      var kv := KeyValues(toks[1..], map[]);
      if kv.None? then None else Some(Tokens(toks[0], kv.value))
  }

  // ---------------------------------------------------------------- names

  datatype Entry = Entry(name: string, code: byte)

  const MODULE_TYPE_TABLE: seq<Entry> := [
    Entry("ANALOGUE_EFFECT", 0x01), Entry("SMART_ANALOGUE", 0x02), Entry("TUBE_PREAMP", 0x03), Entry("SS_PREAMP", 0x04),
    Entry("DSP_EFFECT", 0x05), Entry("HYBRID", 0x06), Entry("SIMULATION", 0x07), Entry("ROUTING_MIXER", 0x08),
    Entry("OUTPUT", 0x09), Entry("CONTROL", 0x0A), Entry("POWER", 0x0B), Entry("TUBE_POWER", 0x0C),
      Entry("DEVELOPMENT", 0x0D)]

  const PARAM_KIND_TABLE: seq<Entry> := [
    Entry("CONTINUOUS", 0), Entry("TOGGLE", 1), Entry("ENUM", 2), Entry("MOMENTARY", 3), Entry("TRIGGER", 4),
      Entry("READONLY", 5)]

  /** The name of a code, or the code in hexadecimal. */
  function NameOrHex(table: seq<Entry>, code: byte): string {
    if table == [] then Hex2(code) else if table[0].code == code then table[0].name else NameOrHex(table[1..], code)
  }

  function LookupName(table: seq<Entry>, tok: string): Option<nat> {
    if table == [] then None else if table[0].name == tok then Some(table[0].code as nat)
      else LookupName(table[1..], tok)
  }

  function ParseNamed(table: seq<Entry>, tok: string): Option<nat> {
    var code := LookupName(table, tok);
    if code.Some? then code else ParseUint(tok)
  }

  // ---------------------------------------------------------------- printing

  datatype Field = Field(key: string, value: string)

  function FieldText(f: Field): string {
    f.key + "=" + f.value
  }

  function FieldTexts(fields: seq<Field>): string {
    if fields == [] then "" else " " + FieldText(fields[0]) + FieldTexts(fields[1..])
  }

  function NameOf(kind: byte): string {
    if kind == TLV_PROTOCOL then "PROTOCOL"
    else if kind == TLV_MODULE_TYPE then "MODULE_TYPE"
    else if kind == TLV_NAME then "NAME"
    else if kind == TLV_MANUFACTURER then "MANUFACTURER"
    else if kind == TLV_MODEL_ID then "MODEL_ID"
    else if kind == TLV_SERIAL then "SERIAL"
    else if kind == TLV_CHANNEL then "CHANNEL"
    else if kind == TLV_SWITCHING then "SWITCHING"
    else if kind == TLV_PARAM then "PARAM"
    else if kind == TLV_PARAM_ENUM then "PARAM_ENUM"
    else if kind == TLV_AUDIO then "AUDIO"
    else if kind == TLV_POWER_LV then "POWER_LV"
    else if kind == TLV_POWER_TUBE then "POWER_TUBE"
    else if kind == TLV_VENDOR then "VENDOR"
    else "UNKNOWN"
  }

  /** A record whose value has the length its type demands. */
  predicate Printable(r: Record) {
    |r.value| < 256 && CheckRecord(r.kind, r.value) == Ok
  }

  function D(v: seq<byte>, i: nat): string
    requires i < |v|
  {
    Dec(v[i])
  }

  function D16(v: seq<byte>, i: nat): string
    requires i + 1 < |v|
  {
    Dec(Get16(v, i))
  }

  function H16(v: seq<byte>, i: nat): string
    requires i + 1 < |v|
  {
    Hex4(Get16(v, i))
  }

  function ShortFields(kind: byte, v: seq<byte>): seq<Field>
    requires CheckRecord(kind, v) == Ok
  {
    if kind == TLV_PROTOCOL then [Field("major", D(v, 0)), Field("minor", D(v, 1))]
    else if kind == TLV_MODULE_TYPE then [Field("mt", NameOrHex(MODULE_TYPE_TABLE, v[0]))]
    else if kind == TLV_NAME || kind == TLV_MANUFACTURER || kind == TLV_SERIAL then [Field("s", Quote(v))]
    else if kind == TLV_MODEL_ID then [Field("model", H16(v, 0)), Field("hw", H16(v, 2)), Field("fw", H16(v, 4))]
    else if kind == TLV_CHANNEL then [Field("idx", D(v, 0)), Field("s", Quote(v[1..]))]
    else if kind == TLV_SWITCHING then [Field("flags", Hex2(v[0])), Field("settle_ms", D16(v, 1))]
    else if kind == TLV_PARAM_ENUM then [Field("id", D(v, 0)), Field("idx", D(v, 1)), Field("s", Quote(v[2..]))]
    else []
  }

  function ParamFields(v: seq<byte>): seq<Field>
    requires |v| >= 5
  {
    [Field("id", D(v, 0)), Field("scope", Hex2(v[1])), Field("kind", NameOrHex(PARAM_KIND_TABLE, v[2])),
     Field("default", D16(v, 3)), Field("s", Quote(v[5..]))]
  }

  function PowerTubeFields(v: seq<byte>): seq<Field>
    requires |v| == 11
  {
    [Field("class", D(v, 0)), Field("tubes", D(v, 1)), Field("sections", D(v, 2)), Field("heater_nom", D16(v, 3)),
     Field("heater_max", D16(v, 5)), Field("bplus_v", D16(v, 7)), Field("bplus_exp", D(v, 9)),
       Field("bplus_max", D(v, 10))]
  }

  function FieldsOf(r: Record): seq<Field>
    requires Printable(r)
  {
    var v := r.value;
    if r.kind == TLV_PARAM then ParamFields(v)
    else if r.kind == TLV_AUDIO then
      [Field("io", Hex2(v[0])), Field("input_mode", D(v, 1)), Field("in_max", D16(v, 2)), Field("out_max", D16(v, 4))]
    else if r.kind == TLV_POWER_LV then
      [Field("p15", D16(v, 0)), Field("n15", D16(v, 2)), Field("p9", D16(v, 4)), Field("p5", D16(v, 6))]
    else if r.kind == TLV_POWER_TUBE then PowerTubeFields(v)
    else if r.kind == TLV_VENDOR then [Field("vendor", H16(v, 0)), Field("data", HexLower(v[2..]))]
    else if NameOf(r.kind) == "UNKNOWN" then [Field("type", Hex2(r.kind)), Field("data", HexLower(v))]
    else ShortFields(r.kind, v)
  }

  function RenderRecord(r: Record): string
    requires Printable(r)
  {
    NameOf(r.kind) + FieldTexts(FieldsOf(r))
  }

  predicate AllPrintable(rs: seq<Record>) {
    forall r :: r in rs ==> Printable(r)
  }

  function RenderRecords(rs: seq<Record>): string
    requires AllPrintable(rs)
  {
    if rs == [] then ""
    else if |rs| == 1 then RenderRecord(rs[0])
    else RenderRecord(rs[0]) + " | " + RenderRecords(rs[1..])
  }

  // ---------------------------------------------------------------- parsing one record

  datatype Parsed = Bad | Refused(status: Status) | Rec(record: Record)

  function Uint(kv: map<string, string>, key: string): Option<nat> {
    if key in kv then ParseUint(kv[key]) else None
  }

  function Named(kv: map<string, string>, key: string, table: seq<Entry>): Option<nat> {
    if key in kv then ParseNamed(table, kv[key]) else None
  }

  function Str(kv: map<string, string>, key: string): Option<seq<byte>> {
    if key in kv then
      var s := Unquote(kv[key]);
      if s.Some? && |s.value| <= 0xFF then s else None
    else None
  }

  function Hex(kv: map<string, string>, key: string): Option<seq<byte>> {
    if key in kv then ParseHex(kv[key]) else None
  }

  /** The record, unless keys are left over. */
  function Finish(kv: map<string, string>, keys: set<string>, p: Parsed): Parsed {
    if kv.Keys == keys then p else Bad
  }

  function Byte(n: nat): byte {
    n % 256
  }

  function Put16(n: nat): seq<byte> {
    [n % 256, n / 256 % 256]
  }

  function KindOf(name: string): Option<byte> {
    if name == "PROTOCOL" then Some(TLV_PROTOCOL)
    else if name == "MODULE_TYPE" then Some(TLV_MODULE_TYPE)
    else if name == "NAME" then Some(TLV_NAME)
    else if name == "MANUFACTURER" then Some(TLV_MANUFACTURER)
    else if name == "SERIAL" then Some(TLV_SERIAL)
    else if name == "MODEL_ID" then Some(TLV_MODEL_ID)
    else if name == "CHANNEL" then Some(TLV_CHANNEL)
    else if name == "SWITCHING" then Some(TLV_SWITCHING)
    else if name == "PARAM" then Some(TLV_PARAM)
    else if name == "PARAM_ENUM" then Some(TLV_PARAM_ENUM)
    else if name == "AUDIO" then Some(TLV_AUDIO)
    else if name == "POWER_LV" then Some(TLV_POWER_LV)
    else if name == "POWER_TUBE" then Some(TLV_POWER_TUBE)
    else if name == "VENDOR" then Some(TLV_VENDOR)
    else None
  }

  function ToProtocol(kv: map<string, string>): Parsed {
    var a, b := Uint(kv, "major"), Uint(kv, "minor");
    if a.None? || b.None? then Bad
    else Finish(kv, {"major", "minor"}, Rec(Record(TLV_PROTOCOL, [Byte(a.value), Byte(b.value)])))
  }

  function ToModuleType(kv: map<string, string>): Parsed {
    var a := Named(kv, "mt", MODULE_TYPE_TABLE);
    if a.None? then Bad else Finish(kv, {"mt"}, Rec(Record(TLV_MODULE_TYPE, [Byte(a.value)])))
  }

  function ToString(kind: byte, kv: map<string, string>): Parsed {
    var s := Str(kv, "s");
    if s.None? then Bad else Finish(kv, {"s"}, Rec(Record(kind, s.value)))
  }

  function ToModelId(kv: map<string, string>): Parsed {
    var a, b, c := Uint(kv, "model"), Uint(kv, "hw"), Uint(kv, "fw");
    if a.None? || b.None? || c.None? then Bad
    else Finish(kv, {"model", "hw", "fw"}, Rec(Record(TLV_MODEL_ID, Put16(a.value) + Put16(b.value) + Put16(c.value))))
  }

  function ToChannel(kv: map<string, string>): Parsed {
    var a, s := Uint(kv, "idx"), Str(kv, "s");
    if a.None? || s.None? then Bad
    else Finish(kv, {"idx", "s"}, if |s.value| > 254 then Refused(StringTooLong)
      else Rec(Record(TLV_CHANNEL, [Byte(a.value)] + s.value)))
  }

  function ToSwitching(kv: map<string, string>): Parsed {
    var a, b := Uint(kv, "flags"), Uint(kv, "settle_ms");
    if a.None? || b.None? then Bad
    else Finish(kv, {"flags", "settle_ms"}, Rec(Record(TLV_SWITCHING, [Byte(a.value)] + Put16(b.value))))
  }

  function ToParam(kv: map<string, string>): Parsed {
    var a, b, c, d, s := Uint(kv, "id"), Uint(kv, "scope"), Named(kv, "kind", PARAM_KIND_TABLE), Uint(kv, "default"),
      Str(kv, "s");
    if a.None? || b.None? || c.None? || d.None? || s.None? then Bad
    else if d.value > 0xFFFF then Refused(OutOfRange)
    else
      Finish(kv, {"id", "scope", "kind", "default", "s"},
        if |s.value| > 250 then Refused(StringTooLong)
        else Rec(Record(TLV_PARAM, [Byte(a.value), Byte(b.value), Byte(c.value)] + Put16(d.value) + s.value)))
  }

  function ToParamEnum(kv: map<string, string>): Parsed {
    var a, b, s := Uint(kv, "id"), Uint(kv, "idx"), Str(kv, "s");
    if a.None? || b.None? || s.None? then Bad
    else
      Finish(kv, {"id", "idx", "s"},
        if |s.value| > 253 then Refused(StringTooLong)
        else Rec(Record(TLV_PARAM_ENUM, [Byte(a.value), Byte(b.value)] + s.value)))
  }

  function ToAudio(kv: map<string, string>): Parsed {
    var a, b, c, d := Uint(kv, "io"), Uint(kv, "input_mode"), Uint(kv, "in_max"), Uint(kv, "out_max");
    if a.None? || b.None? || c.None? || d.None? then Bad
    else
      Finish(kv, {"io", "input_mode", "in_max", "out_max"},
        Rec(Record(TLV_AUDIO, [Byte(a.value), Byte(b.value)] + Put16(c.value) + Put16(d.value))))
  }

  function ToPowerLv(kv: map<string, string>): Parsed {
    var a, b, c, d := Uint(kv, "p15"), Uint(kv, "n15"), Uint(kv, "p9"), Uint(kv, "p5");
    if a.None? || b.None? || c.None? || d.None? then Bad
    else
      Finish(kv, {"p15", "n15", "p9", "p5"},
        Rec(Record(TLV_POWER_LV, Put16(a.value) + Put16(b.value) + Put16(c.value) + Put16(d.value))))
  }

  function ToPowerTube(kv: map<string, string>): Parsed {
    var a, b, c, d := Uint(kv, "class"), Uint(kv, "tubes"), Uint(kv, "sections"), Uint(kv, "heater_nom");
    var e, f, g, h := Uint(kv, "heater_max"), Uint(kv, "bplus_v"), Uint(kv, "bplus_exp"), Uint(kv, "bplus_max");
    if a.None? || b.None? || c.None? || d.None? || e.None? || f.None? || g.None? || h.None? then Bad
    else
      Finish(kv, {"class", "tubes", "sections", "heater_nom", "heater_max", "bplus_v", "bplus_exp", "bplus_max"},
        Rec(Record(TLV_POWER_TUBE,
          [Byte(a.value), Byte(b.value), Byte(c.value)] + Put16(d.value) + Put16(e.value) + Put16(f.value) +
          [Byte(g.value), Byte(h.value)])))
  }

  function ToVendor(kv: map<string, string>): Parsed {
    var a, s := Uint(kv, "vendor"), Hex(kv, "data");
    if a.None? || s.None? then Bad
    else if |s.value| > 253 then Refused(OutOfRange)
    else Finish(kv, {"vendor", "data"}, Rec(Record(TLV_VENDOR, Put16(a.value) + s.value)))
  }

  function ToUnknown(kv: map<string, string>): Parsed {
    var a, s := Uint(kv, "type"), Hex(kv, "data");
    if a.None? || s.None? then Bad
    else if |s.value| > 0xFF then Refused(OutOfRange)
    else Finish(kv, {"type", "data"}, Rec(Record(Byte(a.value), s.value)))
  }

  function ToRecord(t: Tokens): (p: Parsed)
    ensures p.Rec? ==> |p.record.value| < 256
  {
    if t.name == "UNKNOWN" then ToUnknown(t.kv)
    else match KindOf(t.name)
      case None => Bad
      case Some(kind) =>
        if kind == TLV_PROTOCOL then ToProtocol(t.kv)
        else if kind == TLV_MODULE_TYPE then ToModuleType(t.kv)
        else if kind == TLV_MODEL_ID then ToModelId(t.kv)
        else if kind == TLV_CHANNEL then ToChannel(t.kv)
        else if kind == TLV_SWITCHING then ToSwitching(t.kv)
        else if kind == TLV_PARAM then ToParam(t.kv)
        else if kind == TLV_PARAM_ENUM then ToParamEnum(t.kv)
        else if kind == TLV_AUDIO then ToAudio(t.kv)
        else if kind == TLV_POWER_LV then ToPowerLv(t.kv)
        else if kind == TLV_POWER_TUBE then ToPowerTube(t.kv)
        else if kind == TLV_VENDOR then ToVendor(t.kv)
        else ToString(kind, t.kv)
  }

  // ---------------------------------------------------------------- whole texts

  datatype Encoded = Encoded(bytes: seq<byte>) | BadRequest | Failed(status: Status)

  /** One chunk parsed and appended. */
  function AddRecord(w: Writer, chunk: string): (Writer, Encoded) {
    var toks := RecordTokens(chunk);
    if toks.None? then (w, BadRequest)
    else match ToRecord(toks.value)
      case Bad => (w, BadRequest)
      case Refused(st) => (w, Failed(st))
      case Rec(r) =>
        var (w', st) := Append(w, r);
        (w', if st == Ok then Encoded([]) else Failed(st))
  }

  function AddRecords(w: Writer, chunks: seq<string>): (Writer, Encoded)
    decreases |chunks|
  {
    if chunks == [] then (w, Encoded([]))
    else
      var (w', e) := AddRecord(w, chunks[0]);
      if e.Encoded? then AddRecords(w', chunks[1..]) else (w', e)
  }

  function EncodeDescriptor(text: string): Encoded {
    var chunks := SplitRecords(text);
    if chunks.None? then BadRequest
    else
      var (w, e) := AddRecords(Fresh(MAX_DESCRIPTOR_BYTES), chunks.value);
      if !e.Encoded? then e
      else if Validate(w.bytes).status != Ok then Failed(Validate(w.bytes).status)
      else Encoded(w.bytes)
  }

  lemma AcceptedIsPrintable(rs: seq<Record>)
    requires Sized(rs) && EachOk(rs)
    ensures AllPrintable(rs)
  {
    forall r | r in rs ensures Printable(r) {
      if !Known(r.kind) { UnknownIsUnchecked(r); }
    }
  }

  lemma UnknownIsUnchecked(r: Record)
    requires !Known(r.kind)
    ensures CheckRecord(r.kind, r.value) == Ok
  {
    forall i | 0 <= i < |TLV_INFO| ensures TLV_INFO[i].kind != r.kind {
      if TLV_INFO[i].kind == r.kind { FoundBy(r.kind, i); }
    }
    var t := TLV_INFO;
    assert t[0].kind == TLV_PROTOCOL && t[1].kind == TLV_MODULE_TYPE && t[2].kind == TLV_NAME;
    assert t[3].kind == TLV_MANUFACTURER;
    assert t[4].kind == TLV_MODEL_ID && t[5].kind == TLV_SERIAL && t[6].kind == TLV_CHANNEL;
    assert t[7].kind == TLV_SWITCHING;
    assert t[8].kind == TLV_PARAM && t[9].kind == TLV_PARAM_ENUM && t[10].kind == TLV_AUDIO;
    assert t[11].kind == TLV_POWER_LV;
    assert t[12].kind == TLV_POWER_TUBE && t[13].kind == TLV_VENDOR;
  }
}
