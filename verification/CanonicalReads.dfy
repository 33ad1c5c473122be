/** Exactly which texts are a record: its name, its keys and no others, and a value of the right sort behind each. */
module CanonicalReads {
  import opened Protocol
  import opened Text
  import opened Descriptor
  import opened Canonical
  import opened CanonicalForms
  import DescriptorRules

  /** What may stand behind a key: a number, a number or one of the names for it, a quoted string, or hex digits. */
  datatype Sort = Num | TypeCode | KindCode | Text | Bytes

  function Keys(name: string): Option<map<string, Sort>> {
    if name == "PROTOCOL" then Some(map["major" := Num, "minor" := Num])
    else if name == "MODULE_TYPE" then Some(map["mt" := TypeCode])
    else if name == "MODEL_ID" then Some(map["model" := Num, "hw" := Num, "fw" := Num])
    else if name == "CHANNEL" then Some(map["idx" := Num, "s" := Text])
    else if name == "SWITCHING" then Some(map["flags" := Num, "settle_ms" := Num])
    else if name == "PARAM" then Some(map["id" := Num, "scope" := Num, "kind" := KindCode, "default" := Num,
      "s" := Text])
    else if name == "PARAM_ENUM" then Some(map["id" := Num, "idx" := Num, "s" := Text])
    else if name == "AUDIO" then Some(map["io" := Num, "input_mode" := Num, "in_max" := Num, "out_max" := Num])
    else if name == "POWER_LV" then Some(map["p15" := Num, "n15" := Num, "p9" := Num, "p5" := Num])
    else if name == "POWER_TUBE" then Some(map["class" := Num, "tubes" := Num, "sections" := Num, "heater_nom" := Num,
      "heater_max" := Num, "bplus_v" := Num, "bplus_exp" := Num, "bplus_max" := Num])
    else if name == "VENDOR" then Some(map["vendor" := Num, "data" := Bytes])
    else if name == "UNKNOWN" then Some(map["type" := Num, "data" := Bytes])
    else if name == "NAME" || name == "MANUFACTURER" || name == "SERIAL" then Some(map["s" := Text])
    else None
  }

  predicate Suits(sort: Sort, s: string) {
    match sort
    case Num => ParseUint(s).Some?
    case TypeCode => s in MODULE_TYPES || ParseUint(s).Some?
    case KindCode => s in PARAM_KINDS || ParseUint(s).Some?
    case Text => Unquote(s).Some? && |Unquote(s).value| <= 255
    case Bytes => ParseHex(s).Some?
  }

  function TextLength(kv: map<string, string>, key: string): nat {
    if key in kv && Unquote(kv[key]).Some? then |Unquote(kv[key]).value| else 0
  }

  function BytesLength(kv: map<string, string>, key: string): nat {
    if key in kv && ParseHex(kv[key]).Some? then |ParseHex(kv[key]).value| else 0
  }

  function Value(kv: map<string, string>, key: string): nat {
    if key in kv && ParseUint(kv[key]).Some? then ParseUint(kv[key]).value else 0
  }

  /** What leaves room in 255 bytes for the fields before a text, and a default that is a 16-bit number. */
  predicate Fits(name: string, kv: map<string, string>) {
    && (name == "CHANNEL" ==> TextLength(kv, "s") <= 254)
    && (name == "PARAM" ==> TextLength(kv, "s") <= 250 && Value(kv, "default") <= 0xFFFF)
    && (name == "PARAM_ENUM" ==> TextLength(kv, "s") <= 253)
    && (name == "VENDOR" ==> BytesLength(kv, "data") <= 253)
    && (name == "UNKNOWN" ==> BytesLength(kv, "data") <= 255)
  }

  predicate WellMade(name: string, kv: map<string, string>) {
    var keys := Keys(name);
    && keys.Some? && kv.Keys == keys.value.Keys
    && (forall key :: key in keys.value && key in kv ==> Suits(keys.value[key], kv[key]))
    && Fits(name, kv)
  }

  /** A number's low byte, its two low bytes, a text and hex digits, as the value of a record holds them. */
  function Low(kv: map<string, string>, key: string): byte {
    Value(kv, key) % 256
  }

  function Two(kv: map<string, string>, key: string): seq<byte> {
    [Value(kv, key) % 256, Value(kv, key) / 256 % 256]
  }

  function TextOf(kv: map<string, string>, key: string): seq<byte> {
    if key in kv && Unquote(kv[key]).Some? then Unquote(kv[key]).value else []
  }

  function HexOf(kv: map<string, string>, key: string): seq<byte> {
    if key in kv && ParseHex(kv[key]).Some? then ParseHex(kv[key]).value else []
  }

  function IndexIn(names: seq<string>, s: string): (i: nat)
    ensures i <= |names| && (i < |names| ==> names[i] == s) && (s in names ==> i < |names|)
  {
    if names == [] || names[0] == s then 0 else 1 + IndexIn(names[1..], s)
  }

  /** The place of a name among those counted from `first`, or the low byte of a number. */
  function Code(names: seq<string>, first: nat, kv: map<string, string>, key: string): byte {
    if key in kv && kv[key] in names then (first + IndexIn(names, kv[key])) % 256 else Low(kv, key)
  }

  /** The record a well-made text stands for: numbers cut to their width, low byte first. */
  function Made(name: string, kv: map<string, string>): Record {
    if name == "PROTOCOL" then Record(0x01, [Low(kv, "major"), Low(kv, "minor")])
    else if name == "MODULE_TYPE" then Record(0x02, [Code(MODULE_TYPES, 1, kv, "mt")])
    else if name == "MODEL_ID" then Record(0x05, Two(kv, "model") + Two(kv, "hw") + Two(kv, "fw"))
    else if name == "CHANNEL" then Record(0x10, [Low(kv, "idx")] + TextOf(kv, "s"))
    else if name == "SWITCHING" then Record(0x11, [Low(kv, "flags")] + Two(kv, "settle_ms"))
    else if name == "PARAM" then
      Record(0x20, [Low(kv, "id"), Low(kv, "scope"), Code(PARAM_KINDS, 0, kv, "kind")] + Two(kv, "default") +
        TextOf(kv, "s"))
    else if name == "PARAM_ENUM" then Record(0x21, [Low(kv, "id"), Low(kv, "idx")] + TextOf(kv, "s"))
    else if name == "AUDIO" then
      Record(0x30, [Low(kv, "io"), Low(kv, "input_mode")] + Two(kv, "in_max") + Two(kv, "out_max"))
    else if name == "POWER_LV" then Record(0x40, Two(kv, "p15") + Two(kv, "n15") + Two(kv, "p9") + Two(kv, "p5"))
    else if name == "POWER_TUBE" then
      Record(0x41, [Low(kv, "class"), Low(kv, "tubes"), Low(kv, "sections")] + Two(kv, "heater_nom") +
        Two(kv, "heater_max") + Two(kv, "bplus_v") + [Low(kv, "bplus_exp"), Low(kv, "bplus_max")])
    else if name == "VENDOR" then Record(0x7E, Two(kv, "vendor") + HexOf(kv, "data"))
    else if name == "NAME" then Record(0x03, TextOf(kv, "s"))
    else if name == "MANUFACTURER" then Record(0x04, TextOf(kv, "s"))
    else if name == "SERIAL" then Record(0x06, TextOf(kv, "s"))
    else Record(Low(kv, "type"), HexOf(kv, "data"))
  }

  lemma ReadsProtocol(kv: map<string, string>)
    ensures ToProtocol(kv).Rec? <==> WellMade("PROTOCOL", kv)
    ensures ToProtocol(kv).Rec? ==> ToProtocol(kv).record == Made("PROTOCOL", kv)
  {
    hide ParseUint, Unquote, ParseHex;
    assert Keys("PROTOCOL") == Some(map["major" := Num, "minor" := Num]);
  }

  lemma ReadsModuleType(kv: map<string, string>)
    ensures ToModuleType(kv).Rec? <==> WellMade("MODULE_TYPE", kv)
    ensures ToModuleType(kv).Rec? ==> ToModuleType(kv).record == Made("MODULE_TYPE", kv)
  {
    hide ParseUint, Unquote, ParseHex, ParseNamed, IndexIn;
    assert Keys("MODULE_TYPE") == Some(map["mt" := TypeCode]);
    if "mt" in kv { TypeIs(kv["mt"]); }
  }

  lemma ReadsModelId(kv: map<string, string>)
    ensures ToModelId(kv).Rec? <==> WellMade("MODEL_ID", kv)
    ensures ToModelId(kv).Rec? ==> ToModelId(kv).record == Made("MODEL_ID", kv)
  {
    hide ParseUint, Unquote, ParseHex;
    assert Keys("MODEL_ID") == Some(map["model" := Num, "hw" := Num, "fw" := Num]);
  }

  lemma ReadsChannel(kv: map<string, string>)
    ensures ToChannel(kv).Rec? <==> WellMade("CHANNEL", kv)
    ensures ToChannel(kv).Rec? ==> ToChannel(kv).record == Made("CHANNEL", kv)
  {
    hide ParseUint, Unquote, ParseHex;
    assert Keys("CHANNEL") == Some(map["idx" := Num, "s" := Text]);
  }

  lemma ReadsSwitching(kv: map<string, string>)
    ensures ToSwitching(kv).Rec? <==> WellMade("SWITCHING", kv)
    ensures ToSwitching(kv).Rec? ==> ToSwitching(kv).record == Made("SWITCHING", kv)
  {
    hide ParseUint, Unquote, ParseHex;
    assert Keys("SWITCHING") == Some(map["flags" := Num, "settle_ms" := Num]);
  }

  lemma ReadsParam(kv: map<string, string>)
    ensures ToParam(kv).Rec? <==> WellMade("PARAM", kv)
    ensures ToParam(kv).Rec? ==> ToParam(kv).record == Made("PARAM", kv)
  {
    hide ParseUint, Unquote, ParseHex, ParseNamed, IndexIn;
    assert Keys("PARAM") == Some(map["id" := Num, "scope" := Num, "kind" := KindCode, "default" := Num, "s" := Text]);
    if "kind" in kv { KindIs(kv["kind"]); }
  }

  lemma ReadsParamEnum(kv: map<string, string>)
    ensures ToParamEnum(kv).Rec? <==> WellMade("PARAM_ENUM", kv)
    ensures ToParamEnum(kv).Rec? ==> ToParamEnum(kv).record == Made("PARAM_ENUM", kv)
  {
    hide ParseUint, Unquote, ParseHex;
    assert Keys("PARAM_ENUM") == Some(map["id" := Num, "idx" := Num, "s" := Text]);
  }

  lemma ReadsAudio(kv: map<string, string>)
    ensures ToAudio(kv).Rec? <==> WellMade("AUDIO", kv)
    ensures ToAudio(kv).Rec? ==> ToAudio(kv).record == Made("AUDIO", kv)
  {
    hide ParseUint, Unquote, ParseHex;
    assert Keys("AUDIO") == Some(map["io" := Num, "input_mode" := Num, "in_max" := Num, "out_max" := Num]);
  }

  lemma ReadsPowerLv(kv: map<string, string>)
    ensures ToPowerLv(kv).Rec? <==> WellMade("POWER_LV", kv)
    ensures ToPowerLv(kv).Rec? ==> ToPowerLv(kv).record == Made("POWER_LV", kv)
  {
    hide ParseUint, Unquote, ParseHex;
    assert Keys("POWER_LV") == Some(map["p15" := Num, "n15" := Num, "p9" := Num, "p5" := Num]);
  }

  lemma ReadsPowerTube(kv: map<string, string>)
    ensures ToPowerTube(kv).Rec? <==> WellMade("POWER_TUBE", kv)
    ensures ToPowerTube(kv).Rec? ==> ToPowerTube(kv).record == Made("POWER_TUBE", kv)
  {
    hide ParseUint, Unquote, ParseHex;
    assert Keys("POWER_TUBE") == Some(map["class" := Num, "tubes" := Num, "sections" := Num, "heater_nom" := Num,
      "heater_max" := Num, "bplus_v" := Num, "bplus_exp" := Num, "bplus_max" := Num]);
  }

  lemma ReadsVendor(kv: map<string, string>)
    ensures ToVendor(kv).Rec? <==> WellMade("VENDOR", kv)
    ensures ToVendor(kv).Rec? ==> ToVendor(kv).record == Made("VENDOR", kv)
  {
    hide ParseUint, Unquote, ParseHex;
    assert Keys("VENDOR") == Some(map["vendor" := Num, "data" := Bytes]);
  }

  lemma ReadsUnknown(kv: map<string, string>)
    ensures ToUnknown(kv).Rec? <==> WellMade("UNKNOWN", kv)
    ensures ToUnknown(kv).Rec? ==> ToUnknown(kv).record == Made("UNKNOWN", kv)
  {
    hide ParseUint, Unquote, ParseHex;
    assert Keys("UNKNOWN") == Some(map["type" := Num, "data" := Bytes]);
  }

  lemma NamedIs(table: seq<Entry>, names: seq<string>, first: nat, tok: string)
    requires |table| == |names| && first + |names| <= 256
    requires forall i :: 0 <= i < |names| ==> table[i].name == names[i] && table[i].code == first + i
    ensures ParseNamed(table, tok).Some? <==> tok in names || ParseUint(tok).Some?
    ensures ParseNamed(table, tok).Some? ==>
      ParseNamed(table, tok) == if tok in names then Some(first + IndexIn(names, tok)) else ParseUint(tok)
  {
    LookupIs(table, names, first, tok);
  }

  lemma TypeIs(tok: string)
    ensures ParseNamed(MODULE_TYPE_TABLE, tok).Some? <==> tok in MODULE_TYPES || ParseUint(tok).Some?
    ensures ParseNamed(MODULE_TYPE_TABLE, tok).Some? ==>
      ParseNamed(MODULE_TYPE_TABLE, tok) ==
        if tok in MODULE_TYPES then Some(1 + IndexIn(MODULE_TYPES, tok)) else ParseUint(tok)
    ensures IndexIn(MODULE_TYPES, tok) <= 13
  {
    hide ParseUint, ParseNamed, IndexIn;
    NamedIs(MODULE_TYPE_TABLE, MODULE_TYPES, 1, tok);
  }

  lemma KindIs(tok: string)
    ensures ParseNamed(PARAM_KIND_TABLE, tok).Some? <==> tok in PARAM_KINDS || ParseUint(tok).Some?
    ensures ParseNamed(PARAM_KIND_TABLE, tok).Some? ==>
      ParseNamed(PARAM_KIND_TABLE, tok) ==
        if tok in PARAM_KINDS then Some(IndexIn(PARAM_KINDS, tok)) else ParseUint(tok)
    ensures IndexIn(PARAM_KINDS, tok) <= 6
  {
    hide ParseUint, ParseNamed, IndexIn;
    NamedIs(PARAM_KIND_TABLE, PARAM_KINDS, 0, tok);
  }

  lemma {:induction false} LookupIs(table: seq<Entry>, names: seq<string>, first: nat, tok: string)
    requires |table| == |names| && first + |names| <= 256
    requires forall i :: 0 <= i < |names| ==> table[i].name == names[i] && table[i].code == first + i
    ensures LookupName(table, tok) == if tok in names then Some(first + IndexIn(names, tok)) else None
    decreases |table|
  {
    if table != [] { LookupIs(table[1..], names[1..], first + 1, tok); }
  }

  lemma ReadsText(name: string, kv: map<string, string>)
    requires name in {"NAME", "MANUFACTURER", "SERIAL"}
    ensures var kind := if name == "NAME" then 0x03 else if name == "MANUFACTURER" then 0x04 else 0x06;
      && (ToString(kind, kv).Rec? <==> WellMade(name, kv))
      && (ToString(kind, kv).Rec? ==> ToString(kind, kv).record == Made(name, kv))
  {
    hide ParseUint, Unquote, ParseHex;
    assert Keys(name) == Some(map["s" := Text]);
  }

  /** A name and its fields are a record exactly when they are well made, and then that record. */
  lemma ReadsExactly(t: Tokens)
    ensures ToRecord(t).Rec? <==> WellMade(t.name, t.kv)
    ensures ToRecord(t).Rec? ==> ToRecord(t).record == Made(t.name, t.kv)
  {
    var kv := t.kv;
    hide WellMade, Made, ToProtocol, ToModuleType, ToModelId, ToChannel, ToSwitching, ToParam, ToParamEnum;
    hide ToAudio, ToPowerLv, ToPowerTube, ToVendor, ToUnknown, ToString;
    if t.name == "UNKNOWN" {
      ReadsUnknown(kv);
    } else {
      match KindOf(t.name)
      case None => NoOtherName(t.name, kv);
      case Some(0x01) => ReadsProtocol(kv);
      case Some(0x02) => ReadsModuleType(kv);
      case Some(0x03) => ReadsText("NAME", kv);
      case Some(0x04) => ReadsText("MANUFACTURER", kv);
      case Some(0x05) => ReadsModelId(kv);
      case Some(0x06) => ReadsText("SERIAL", kv);
      case Some(0x10) => ReadsChannel(kv);
      case Some(0x11) => ReadsSwitching(kv);
      case Some(0x20) => ReadsParam(kv);
      case Some(0x21) => ReadsParamEnum(kv);
      case Some(0x30) => ReadsAudio(kv);
      case Some(0x40) => ReadsPowerLv(kv);
      case Some(0x41) => ReadsPowerTube(kv);
      case Some(_) => ReadsVendor(kv);
    }
  }

  lemma NoOtherName(name: string, kv: map<string, string>)
    ensures name != "UNKNOWN" && KindOf(name).None? ==> !WellMade(name, kv)
  {
  }
}
