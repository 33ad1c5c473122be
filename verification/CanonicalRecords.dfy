/** Every printed record reads back as itself, type by type. */
module CanonicalRecords {
  import opened Protocol
  import opened Text
  import opened Descriptor
  import opened Canonical
  import opened CanonicalTokens

  // ---------------------------------------------------------------- scalars

  lemma ByteBack(b: byte)
    ensures ParseUint(Dec(b)) == Some(b as nat) && ParseUint(Hex2(b)) == Some(b as nat) && Byte(b) == b
  {
    DecRoundTrip(b);
    Hex2RoundTrip(b);
  }

  lemma WordBack(v: seq<byte>, i: nat)
    requires i + 1 < |v|
    ensures Get16(v, i) < 65536 && Put16(Get16(v, i)) == v[i..i + 2]
    ensures ParseUint(D16(v, i)) == Some(Get16(v, i)) && ParseUint(H16(v, i)) == Some(Get16(v, i))
  {
    hide ParseUint, Dec, Hex4;
    Halves(v[i], v[i + 1]);
    DecRoundTrip(Get16(v, i));
    Hex4RoundTrip(Get16(v, i));
    assert v[i..i + 2] == [v[i], v[i + 1]];
  }

  lemma Halves(lo: int, hi: int)
    requires 0 <= lo < 256 && 0 <= hi < 256
    ensures lo + 256 * hi < 65536 && (lo + 256 * hi) % 256 == lo && (lo + 256 * hi) / 256 % 256 == hi
  {
  }

  lemma StringBack(v: seq<byte>)
    requires |v| < 256
    ensures var s := Unquote(Quote(v)); s == Some(v) && |s.value| <= 0xFF
  {
    QuoteRoundTrip(v);
  }

  // ---------------------------------------------------------------- what the fields are read as

  lemma KeysOne(a: Field)
    ensures Keys([a]) == {a.key}
  {
    assert forall f :: f in [a] <==> f == a;
  }

  lemma {:induction false} KeysFront(a: Field, fields: seq<Field>)
    ensures Keys([a] + fields) == {a.key} + Keys(fields)
  {
    assert a in [a] + fields;
  }

  lemma KeysTwo(a: Field, b: Field)
    ensures Keys([a, b]) == {a.key, b.key}
  {
    KeysOne(b);
    KeysFront(a, [b]);
    assert [a] + [b] == [a, b];
  }

  lemma KeysThree(a: Field, b: Field, c: Field)
    ensures Keys([a, b, c]) == {a.key, b.key, c.key}
  {
    KeysTwo(b, c);
    KeysFront(a, [b, c]);
    assert [a] + [b, c] == [a, b, c];
  }

  lemma KeysFour(a: Field, b: Field, c: Field, d: Field)
    ensures Keys([a, b, c, d]) == {a.key, b.key, c.key, d.key}
  {
    KeysThree(b, c, d);
    KeysFront(a, [b, c, d]);
    assert [a] + [b, c, d] == [a, b, c, d];
  }

  lemma KeysFive(a: Field, b: Field, c: Field, d: Field, e: Field)
    ensures Keys([a, b, c, d, e]) == {a.key, b.key, c.key, d.key, e.key}
  {
    KeysFour(b, c, d, e);
    KeysFront(a, [b, c, d, e]);
    assert [a] + [b, c, d, e] == [a, b, c, d, e];
  }

  lemma KeysEight(a: Field, b: Field, c: Field, d: Field, e: Field, f: Field, g: Field, h: Field)
    ensures Keys([a, b, c, d, e, f, g, h]) == {a.key, b.key, c.key, d.key, e.key, f.key, g.key, h.key}
  {
    hide Keys;
    KeysFour(a, b, c, d);
    KeysFour(e, f, g, h);
    KeysJoin([a, b, c, d], [e, f, g, h]);
    assert [a, b, c, d] + [e, f, g, h] == [a, b, c, d, e, f, g, h];
  }

  lemma KeysJoin(x: seq<Field>, y: seq<Field>)
    ensures Keys(x + y) == Keys(x) + Keys(y)
  {
    assert forall f :: f in x + y <==> f in x || f in y;
  }

  predicate DistinctKeys(fields: seq<Field>) {
    forall i, j :: 0 <= i < j < |fields| ==> fields[i].key != fields[j].key
  }

  lemma Read(fields: seq<Field>)
    requires DistinctKeys(fields)
    ensures var m := Extend(map[], fields);
      m.Keys == Keys(fields) && forall i :: 0 <= i < |fields| ==>
        fields[i].key in m && m[fields[i].key] == fields[i].value
  {
    ExtendHas(map[], fields);
  }

  lemma ProtocolBack(v: seq<byte>)
    requires CheckRecord(TLV_PROTOCOL, v) == Ok && |v| < 256
    ensures var fs := FieldsOf(Record(TLV_PROTOCOL, v));
      DistinctKeys(fs) && ToProtocol(Extend(map[], fs)) == Rec(Record(TLV_PROTOCOL, v))
  {
    hide ParseUint, Dec, Hex2, Hex4, Extend, Keys, Quote, Unquote, ParseHex, HexLower, Utf8.Valid, ParseNamed;
    hide NameOrHex, MODULE_TYPE_TABLE, PARAM_KIND_TABLE;
    var fs := FieldsOf(Record(TLV_PROTOCOL, v));
    assert "major"[1] != "minor"[1];
    Read(fs);
    KeysTwo(fs[0], fs[1]);
    assert fs == [fs[0], fs[1]];
    ByteBack(v[0]);
    ByteBack(v[1]);
    assert v == [v[0], v[1]];
  }

  lemma ModuleTypeBack(v: seq<byte>)
    requires CheckRecord(TLV_MODULE_TYPE, v) == Ok && |v| < 256
    ensures var fs := FieldsOf(Record(TLV_MODULE_TYPE, v));
      DistinctKeys(fs) && ToModuleType(Extend(map[], fs)) == Rec(Record(TLV_MODULE_TYPE, v))
  {
    hide ParseUint, Dec, Hex2, Hex4, Extend, Keys, Quote, Unquote, ParseHex, HexLower, Utf8.Valid, ParseNamed;
    hide NameOrHex, MODULE_TYPE_TABLE, PARAM_KIND_TABLE;
    var fs := FieldsOf(Record(TLV_MODULE_TYPE, v));
    Read(fs);
    KeysOne(fs[0]);
    assert fs == [fs[0]];
    ModuleTypeTable();
    NamedRoundTrip(MODULE_TYPE_TABLE, v[0]);
    assert v == [v[0]];
  }

  lemma ModelIdBack(v: seq<byte>)
    requires CheckRecord(TLV_MODEL_ID, v) == Ok && |v| < 256
    ensures var fs := FieldsOf(Record(TLV_MODEL_ID, v));
      DistinctKeys(fs) && ToModelId(Extend(map[], fs)) == Rec(Record(TLV_MODEL_ID, v))
  {
    hide ParseUint, Dec, Hex2, Hex4, Extend, Keys, Quote, Unquote, ParseHex, HexLower, Utf8.Valid, ParseNamed;
    hide NameOrHex, MODULE_TYPE_TABLE, PARAM_KIND_TABLE;
    var fs := FieldsOf(Record(TLV_MODEL_ID, v));
    assert "hw"[0] != "fw"[0];
    Read(fs);
    KeysThree(fs[0], fs[1], fs[2]);
    assert fs == [fs[0], fs[1], fs[2]];
    WordBack(v, 0);
    WordBack(v, 2);
    WordBack(v, 4);
    assert v == v[0..2] + v[2..4] + v[4..6];
  }

  lemma ChannelBack(v: seq<byte>)
    requires CheckRecord(TLV_CHANNEL, v) == Ok && |v| < 256
    ensures var fs := FieldsOf(Record(TLV_CHANNEL, v));
      DistinctKeys(fs) && ToChannel(Extend(map[], fs)) == Rec(Record(TLV_CHANNEL, v))
  {
    hide ParseUint, Dec, Hex2, Hex4, Extend, Keys, Quote, Unquote, ParseHex, HexLower, Utf8.Valid, ParseNamed;
    hide NameOrHex, MODULE_TYPE_TABLE, PARAM_KIND_TABLE;
    var fs := FieldsOf(Record(TLV_CHANNEL, v));
    Read(fs);
    KeysTwo(fs[0], fs[1]);
    assert fs == [fs[0], fs[1]];
    ByteBack(v[0]);
    StringBack(v[1..]);
    assert v == [v[0]] + v[1..];
  }

  lemma SwitchingBack(v: seq<byte>)
    requires CheckRecord(TLV_SWITCHING, v) == Ok && |v| < 256
    ensures var fs := FieldsOf(Record(TLV_SWITCHING, v));
      DistinctKeys(fs) && ToSwitching(Extend(map[], fs)) == Rec(Record(TLV_SWITCHING, v))
  {
    hide ParseUint, Dec, Hex2, Hex4, Extend, Keys, Quote, Unquote, ParseHex, HexLower, Utf8.Valid, ParseNamed;
    hide NameOrHex, MODULE_TYPE_TABLE, PARAM_KIND_TABLE;
    var fs := FieldsOf(Record(TLV_SWITCHING, v));
    Read(fs);
    KeysTwo(fs[0], fs[1]);
    assert fs == [fs[0], fs[1]];
    ByteBack(v[0]);
    WordBack(v, 1);
    assert v == [v[0]] + v[1..3];
  }

  lemma ParamBack(v: seq<byte>)
    requires CheckRecord(TLV_PARAM, v) == Ok && |v| < 256
    ensures var fs := FieldsOf(Record(TLV_PARAM, v));
      DistinctKeys(fs) && ToParam(Extend(map[], fs)) == Rec(Record(TLV_PARAM, v))
  {
    hide ParseUint, Dec, Hex2, Hex4, Extend, Keys, Quote, Unquote, ParseHex, HexLower, Utf8.Valid, ParseNamed;
    hide NameOrHex, MODULE_TYPE_TABLE, PARAM_KIND_TABLE;
    var fs := FieldsOf(Record(TLV_PARAM, v));
    Read(fs);
    KeysFive(fs[0], fs[1], fs[2], fs[3], fs[4]);
    assert fs == [fs[0], fs[1], fs[2], fs[3], fs[4]];
    ByteBack(v[0]);
    ByteBack(v[1]);
    ParamKindTable();
    NamedRoundTrip(PARAM_KIND_TABLE, v[2]);
    ByteBack(v[2]);
    WordBack(v, 3);
    StringBack(v[5..]);
    assert v == [v[0], v[1], v[2]] + v[3..5] + v[5..];
  }

  lemma ParamEnumBack(v: seq<byte>)
    requires CheckRecord(TLV_PARAM_ENUM, v) == Ok && |v| < 256
    ensures var fs := FieldsOf(Record(TLV_PARAM_ENUM, v));
      DistinctKeys(fs) && ToParamEnum(Extend(map[], fs)) == Rec(Record(TLV_PARAM_ENUM, v))
  {
    hide ParseUint, Dec, Hex2, Hex4, Extend, Keys, Quote, Unquote, ParseHex, HexLower, Utf8.Valid, ParseNamed;
    hide NameOrHex, MODULE_TYPE_TABLE, PARAM_KIND_TABLE;
    var fs := FieldsOf(Record(TLV_PARAM_ENUM, v));
    Read(fs);
    KeysThree(fs[0], fs[1], fs[2]);
    assert fs == [fs[0], fs[1], fs[2]];
    ByteBack(v[0]);
    ByteBack(v[1]);
    StringBack(v[2..]);
    assert v == [v[0], v[1]] + v[2..];
  }

  lemma AudioBack(v: seq<byte>)
    requires CheckRecord(TLV_AUDIO, v) == Ok && |v| < 256
    ensures var fs := FieldsOf(Record(TLV_AUDIO, v));
      DistinctKeys(fs) && ToAudio(Extend(map[], fs)) == Rec(Record(TLV_AUDIO, v))
  {
    hide ParseUint, Dec, Hex2, Hex4, Extend, Keys, Quote, Unquote, ParseHex, HexLower, Utf8.Valid, ParseNamed;
    hide NameOrHex, MODULE_TYPE_TABLE, PARAM_KIND_TABLE;
    var fs := FieldsOf(Record(TLV_AUDIO, v));
    Read(fs);
    KeysFour(fs[0], fs[1], fs[2], fs[3]);
    assert fs == [fs[0], fs[1], fs[2], fs[3]];
    ByteBack(v[0]);
    ByteBack(v[1]);
    WordBack(v, 2);
    WordBack(v, 4);
    assert v == [v[0], v[1]] + v[2..4] + v[4..6];
  }

  lemma PowerLvBack(v: seq<byte>)
    requires CheckRecord(TLV_POWER_LV, v) == Ok && |v| < 256
    ensures var fs := FieldsOf(Record(TLV_POWER_LV, v));
      DistinctKeys(fs) && ToPowerLv(Extend(map[], fs)) == Rec(Record(TLV_POWER_LV, v))
  {
    hide ParseUint, Dec, Hex2, Hex4, Extend, Keys, Quote, Unquote, ParseHex, HexLower, Utf8.Valid, ParseNamed;
    hide NameOrHex, MODULE_TYPE_TABLE, PARAM_KIND_TABLE;
    var fs := FieldsOf(Record(TLV_POWER_LV, v));
    assert "p15"[0] != "n15"[0] && "p9"[1] != "p5"[1];
    Read(fs);
    KeysFour(fs[0], fs[1], fs[2], fs[3]);
    assert fs == [fs[0], fs[1], fs[2], fs[3]];
    WordBack(v, 0);
    WordBack(v, 2);
    WordBack(v, 4);
    WordBack(v, 6);
    assert v == v[0..2] + v[2..4] + v[4..6] + v[6..8];
  }

  lemma PowerTubeFieldsBack(v: seq<byte>)
    requires |v| == 11
    ensures var fs := PowerTubeFields(v);
      DistinctKeys(fs) && ToPowerTube(Extend(map[], fs)) == Rec(Record(TLV_POWER_TUBE, v))
  {
    hide ParseUint, Dec, Hex2, Hex4, Get16, Put16, Extend, Keys;
    var fs := PowerTubeFields(v);
    assert "class"[0] != "tubes"[0] && "heater_nom"[7] != "heater_max"[7] && "bplus_exp"[6] != "bplus_max"[6];
    Read(fs);
    KeysEight(fs[0], fs[1], fs[2], fs[3], fs[4], fs[5], fs[6], fs[7]);
    assert fs == [fs[0], fs[1], fs[2], fs[3], fs[4], fs[5], fs[6], fs[7]];
    ByteBack(v[0]);
    ByteBack(v[1]);
    ByteBack(v[2]);
    WordBack(v, 3);
    WordBack(v, 5);
    WordBack(v, 7);
    ByteBack(v[9]);
    ByteBack(v[10]);
    assert v == [v[0], v[1], v[2]] + v[3..5] + v[5..7] + v[7..9] + [v[9], v[10]];
  }

  lemma PowerTubeBack(v: seq<byte>)
    requires CheckRecord(TLV_POWER_TUBE, v) == Ok && |v| < 256
    ensures var fs := FieldsOf(Record(TLV_POWER_TUBE, v));
      DistinctKeys(fs) && ToPowerTube(Extend(map[], fs)) == Rec(Record(TLV_POWER_TUBE, v))
  {
    hide PowerTubeFields, ToPowerTube, Extend;
    PowerTubeFieldsBack(v);
  }

  lemma VendorBack(v: seq<byte>)
    requires CheckRecord(TLV_VENDOR, v) == Ok && |v| < 256
    ensures var fs := FieldsOf(Record(TLV_VENDOR, v));
      DistinctKeys(fs) && ToVendor(Extend(map[], fs)) == Rec(Record(TLV_VENDOR, v))
  {
    hide ParseUint, Dec, Hex2, Hex4, Extend, Keys, Quote, Unquote, ParseHex, HexLower, Utf8.Valid, ParseNamed;
    hide NameOrHex, MODULE_TYPE_TABLE, PARAM_KIND_TABLE;
    var fs := FieldsOf(Record(TLV_VENDOR, v));
    Read(fs);
    KeysTwo(fs[0], fs[1]);
    assert fs == [fs[0], fs[1]];
    WordBack(v, 0);
    HexRoundTrip(v[2..]);
    assert v == v[0..2] + v[2..];
  }

  lemma StringsBack(kind: byte, v: seq<byte>)
    requires kind == TLV_NAME || kind == TLV_MANUFACTURER || kind == TLV_SERIAL
    requires CheckRecord(kind, v) == Ok && |v| < 256
    ensures var fs := FieldsOf(Record(kind, v));
      DistinctKeys(fs) && ToString(kind, Extend(map[], fs)) == Rec(Record(kind, v))
  {
    hide Extend, Keys, Quote, Unquote, Utf8.Valid;
    var fs := FieldsOf(Record(kind, v));
    Read(fs);
    KeysOne(fs[0]);
    assert fs == [fs[0]];
    StringBack(v);
  }

  lemma UnknownBack(kind: byte, v: seq<byte>)
    requires NameOf(kind) == "UNKNOWN" && CheckRecord(kind, v) == Ok && |v| < 256
    ensures var fs := FieldsOf(Record(kind, v));
      DistinctKeys(fs) && ToUnknown(Extend(map[], fs)) == Rec(Record(kind, v))
  {
    hide ParseUint, Hex2, Extend, Keys, ParseHex, HexLower, CheckRecord, NameOf;
    NotNamed(kind);
    var fs := FieldsOf(Record(kind, v));
    Read(fs);
    KeysTwo(fs[0], fs[1]);
    assert fs == [fs[0], fs[1]];
    ByteBack(kind);
    HexRoundTrip(v);
  }

  // ---------------------------------------------------------------- names

  predicate HasName(kind: byte) {
    || TLV_PROTOCOL <= kind <= TLV_SERIAL || kind == TLV_CHANNEL || kind == TLV_SWITCHING || kind == TLV_PARAM
    || kind == TLV_PARAM_ENUM
    || kind == TLV_AUDIO || kind == TLV_POWER_LV || kind == TLV_POWER_TUBE || kind == TLV_VENDOR
  }

  lemma NotNamed(kind: byte)
    ensures NameOf(kind) == "UNKNOWN" <==> !HasName(kind)
  {
  }

  lemma NameIsKind(kind: byte)
    ensures HasName(kind) ==> KindOf(NameOf(kind)) == Some(kind)
    ensures Capitals(NameOf(kind))
  {
    assert "PROTOCOL"[1] != "POWER_LV"[1] && "PROTOCOL"[0] != "MODEL_ID"[0] && "MODEL_ID"[0] != "POWER_LV"[0];
    assert "POWER_TUBE"[1] != "PARAM_ENUM"[1] && "SERIAL"[0] != "VENDOR"[0] && "PARAM"[0] != "AUDIO"[0];
  }

  lemma CapitalsAreWord(s: string)
    requires Capitals(s)
    ensures Word(s) && s != ""
  {
  }

  // ---------------------------------------------------------------- keys and values

  lemma ScalarsAreSolid(n: nat)
    ensures Solid(Dec(n)) && (n < 256 ==> Solid(Hex2(n))) && (n < 65536 ==> Solid(Hex4(n)))
  {
    DecIsWord(n);
    WordIsSolid(Dec(n));
    if n < 256 {
      Hex2IsWord(n);
      WordIsSolid(Hex2(n));
    }
    if n < 65536 {
      Hex4IsWord(n);
      WordIsSolid(Hex4(n));
    }
  }

  lemma NamesAreSolid(code: byte)
    ensures Solid(NameOrHex(MODULE_TYPE_TABLE, code)) && Solid(NameOrHex(PARAM_KIND_TABLE, code))
  {
    hide DistinctTable, WordTable, NameOrHex, Word, Solid, MODULE_TYPE_TABLE, PARAM_KIND_TABLE;
    ModuleTypeTable();
    ParamKindTable();
    NamedIsWord(MODULE_TYPE_TABLE, code);
    NamedIsWord(PARAM_KIND_TABLE, code);
    WordIsSolid(NameOrHex(MODULE_TYPE_TABLE, code));
    WordIsSolid(NameOrHex(PARAM_KIND_TABLE, code));
  }

  lemma BytesAreSolid(data: seq<byte>)
    ensures Solid(Quote(data)) && Solid(HexLower(data))
  {
    QuoteIsSolid(data);
    HexLowerIsWord(data);
    WordIsSolid(HexLower(data));
  }

  lemma ValuesAreSolid(r: Record)
    requires Printable(r)
    ensures forall i :: 0 <= i < |FieldsOf(r)| ==> Solid(FieldsOf(r)[i].value)
  {
    hide Solid, Dec, Hex2, Hex4, NameOrHex, MODULE_TYPE_TABLE, PARAM_KIND_TABLE, Quote, HexLower, Utf8.Valid;
    forall n: nat ensures Solid(Dec(n)) && (n < 256 ==> Solid(Hex2(n))) && (n < 65536 ==> Solid(Hex4(n))) {
      ScalarsAreSolid(n);
    }
    forall code: byte ensures Solid(NameOrHex(MODULE_TYPE_TABLE, code)) && Solid(NameOrHex(PARAM_KIND_TABLE, code)) {
      NamesAreSolid(code);
    }
    forall data: seq<byte> ensures Solid(Quote(data)) && Solid(HexLower(data)) { BytesAreSolid(data); }
  }

  /** Small letters, digits and underscores. */
  predicate Small(s: string) {
    forall i :: 0 <= i < |s| ==> 'a' <= s[i] <= 'z' || '0' <= s[i] <= '9' || s[i] == '_'
  }

  lemma SmallIsWord(s: string)
    requires Small(s)
    ensures Word(s)
  {
  }

  lemma FirstKeys()
    ensures Small("major") && Small("minor") && Small("mt") && Small("s") && Small("model") && Small("hw")
    ensures Small("fw") && Small("idx") && Small("flags") && Small("settle_ms") && Small("id")
  {
  }

  lemma MiddleKeys()
    ensures Small("scope") && Small("kind") && Small("default") && Small("io") && Small("input_mode") && Small("in_max")
    ensures Small("out_max") && Small("p15") && Small("n15") && Small("p9") && Small("p5")
  {
  }

  lemma LastKeys()
    ensures Small("class") && Small("tubes") && Small("sections") && Small("heater_nom")
    ensures Small("heater_max") && Small("bplus_v")
    ensures Small("bplus_exp") && Small("bplus_max") && Small("vendor") && Small("data") && Small("type")
  {
  }

  lemma KeysAreWords(r: Record)
    requires Printable(r)
    ensures forall i :: 0 <= i < |FieldsOf(r)| ==> Word(FieldsOf(r)[i].key)
  {
    hide Small, Word, Dec, Hex2, Hex4, NameOrHex, MODULE_TYPE_TABLE, PARAM_KIND_TABLE, Quote, HexLower, Utf8.Valid;
    FirstKeys();
    MiddleKeys();
    LastKeys();
    forall i | 0 <= i < |FieldsOf(r)| ensures Word(FieldsOf(r)[i].key) {
      assert Small(FieldsOf(r)[i].key);
      SmallIsWord(FieldsOf(r)[i].key);
    }
  }

  // ---------------------------------------------------------------- one record, whole

  /** Which reader a name selects, and that its fields read back. */
  lemma FieldsRoundTrip(r: Record)
    requires Printable(r)
    ensures DistinctKeys(FieldsOf(r)) && ToRecord(Tokens(NameOf(r.kind), Extend(map[], FieldsOf(r)))) == Rec(r)
  {
    hide Extend, FieldsOf, CheckRecord, NameOf, KindOf;
    hide ToProtocol, ToModuleType, ToModelId, ToChannel, ToSwitching, ToParam, ToParamEnum, ToAudio, ToPowerLv;
    hide ToPowerTube, ToVendor;
    hide ToUnknown, ToString;
    NotNamed(r.kind);
    NameIsKind(r.kind);
    var v := r.value;
    if !HasName(r.kind) {
      UnknownBack(r.kind, v);
    } else if r.kind == TLV_PROTOCOL {
      ProtocolBack(v);
    } else if r.kind == TLV_MODULE_TYPE {
      ModuleTypeBack(v);
    } else if r.kind == TLV_MODEL_ID {
      ModelIdBack(v);
    } else if r.kind == TLV_CHANNEL {
      ChannelBack(v);
    } else if r.kind == TLV_SWITCHING {
      SwitchingBack(v);
    } else if r.kind == TLV_PARAM {
      ParamBack(v);
    } else if r.kind == TLV_PARAM_ENUM {
      ParamEnumBack(v);
    } else if r.kind == TLV_AUDIO {
      AudioBack(v);
    } else if r.kind == TLV_POWER_LV {
      PowerLvBack(v);
    } else if r.kind == TLV_POWER_TUBE {
      PowerTubeBack(v);
    } else if r.kind == TLV_VENDOR {
      VendorBack(v);
    } else {
      StringsBack(r.kind, v);
    }
  }

  lemma FieldsAreGood(r: Record)
    requires Printable(r)
    ensures GoodFields(FieldsOf(r))
  {
    hide FieldsOf, Printable, Solid, Word;
    FieldsRoundTrip(r);
    ValuesAreSolid(r);
    KeysAreWords(r);
  }

  /** A printed record is read back as itself, whatever bytes its strings hold. */
  lemma RecordRoundTrip(r: Record)
    requires Printable(r)
    ensures var toks := RecordTokens(RenderRecord(r)); toks.Some? && ToRecord(toks.value) == Rec(r)
  {
    hide FieldsOf, Printable, GoodFields, Extend, RecordTokens, ToRecord, NameOf, FieldTexts, Word;
    FieldsAreGood(r);
    FieldsRoundTrip(r);
    NameIsKind(r.kind);
    CapitalsAreWord(NameOf(r.kind));
    TokensRoundTrip(NameOf(r.kind), FieldsOf(r));
  }
}
