/** What every record looks like in canonical text, and exactly which texts are a record. */
module CanonicalForms {
  import opened Protocol
  import opened Text
  import opened Descriptor
  import opened Canonical
  import DescriptorLaws
  import DescriptorRules

  // ---------------------------------------------------------------- printed

  function Joined(parts: seq<string>): string {
    if parts == [] then "" else parts[0] + Joined(parts[1..])
  }

  /** A 16-bit field in decimal, and in hexadecimal. */
  function Dec16(v: seq<byte>, i: nat): string
    requires i + 1 < |v|
  {
    Dec(DescriptorLaws.Field(v, i))
  }

  function Hex16(v: seq<byte>, i: nat): string
    requires i + 1 < |v|
  {
    Hex4(DescriptorLaws.Field(v, i))
  }

  /** The codes with names, in order from 1 and from 0. */
  const MODULE_TYPES: seq<string> := ["ANALOGUE_EFFECT", "SMART_ANALOGUE", "TUBE_PREAMP", "SS_PREAMP", "DSP_EFFECT",
    "HYBRID", "SIMULATION", "ROUTING_MIXER", "OUTPUT", "CONTROL", "POWER", "TUBE_POWER", "DEVELOPMENT"]

  const PARAM_KINDS: seq<string> := ["CONTINUOUS", "TOGGLE", "ENUM", "MOMENTARY", "TRIGGER", "READONLY"]

  lemma CodesHaveNames(r: Record)
    requires Printable(r)
    ensures r.kind == 0x02 ==> |r.value| == 1 && 1 <= r.value[0] <= 13
    ensures r.kind == 0x20 ==> |r.value| >= 5 && r.value[2] <= 5
  {
  }

  /** The text of a record: its name, then every value behind its key, as the canonical form lays them out. */
  function Parts(r: Record): seq<string>
    requires Printable(r)
  {
    CodesHaveNames(r);
    var v := r.value;
    match r.kind
    case 0x01 => ["PROTOCOL major=", Dec(v[0]), " minor=", Dec(v[1])]
    case 0x02 => ["MODULE_TYPE mt=", MODULE_TYPES[v[0] - 1]]
    case 0x03 => ["NAME s=", Quote(v)]
    case 0x04 => ["MANUFACTURER s=", Quote(v)]
    case 0x05 => ["MODEL_ID model=", Hex16(v, 0), " hw=", Hex16(v, 2), " fw=", Hex16(v, 4)]
    case 0x06 => ["SERIAL s=", Quote(v)]
    case 0x10 => ["CHANNEL idx=", Dec(v[0]), " s=", Quote(v[1..])]
    case 0x11 => ["SWITCHING flags=", Hex2(v[0]), " settle_ms=", Dec16(v, 1)]
    case 0x20 => ["PARAM id=", Dec(v[0]), " scope=", Hex2(v[1]), " kind=", PARAM_KINDS[v[2]],
      " default=", Dec16(v, 3), " s=", Quote(v[5..])]
    case 0x21 => ["PARAM_ENUM id=", Dec(v[0]), " idx=", Dec(v[1]), " s=", Quote(v[2..])]
    case 0x30 => ["AUDIO io=", Hex2(v[0]), " input_mode=", Dec(v[1]), " in_max=", Dec16(v, 2), " out_max=", Dec16(v, 4)]
    case 0x40 => ["POWER_LV p15=", Dec16(v, 0), " n15=", Dec16(v, 2), " p9=", Dec16(v, 4), " p5=", Dec16(v, 6)]
    case 0x41 => ["POWER_TUBE class=", Dec(v[0]), " tubes=", Dec(v[1]), " sections=", Dec(v[2]),
      " heater_nom=", Dec16(v, 3), " heater_max=", Dec16(v, 5), " bplus_v=", Dec16(v, 7),
      " bplus_exp=", Dec(v[9]), " bplus_max=", Dec(v[10])]
    case 0x7E => ["VENDOR vendor=", Hex16(v, 0), " data=", HexLower(v[2..])]
    case _ => ["UNKNOWN type=", Hex2(r.kind), " data=", HexLower(v)]
  }

  /** Key by key, the fields printed are these parts. */
  predicate Lays(fields: seq<Canonical.Field>, parts: seq<string>) {
    && |parts| == 2 * |fields|
    && forall i :: 0 <= i < |fields| ==>
      parts[2 * i] == " " + fields[i].key + "=" && parts[2 * i + 1] == fields[i].value
  }

  lemma {:induction false} LaidOut(fields: seq<Canonical.Field>, parts: seq<string>)
    requires Lays(fields, parts)
    ensures FieldTexts(fields) == Joined(parts)
    decreases |fields|
  {
    if fields != [] {
      var f, rest := fields[0], parts[1..][1..];
      assert parts[0] == parts[2 * 0] && parts[1] == parts[2 * 0 + 1];
      forall i | 0 <= i < |fields| - 1
        ensures rest[2 * i] == " " + fields[1..][i].key + "=" && rest[2 * i + 1] == fields[1..][i].value
      {
        assert rest[2 * i] == parts[2 * (i + 1)] && rest[2 * i + 1] == parts[2 * (i + 1) + 1];
      }
      LaidOut(fields[1..], rest);
      assert Joined(parts) == parts[0] + (parts[1] + Joined(rest));
      var a, b, c, d := " ", f.key, "=", f.value;
      assert " " + FieldText(f) == (" " + f.key + "=") + f.value;
      assert " " + FieldText(f) + FieldTexts(fields[1..]) == parts[0] + (parts[1] + Joined(rest));
    }
  }

  /** The record's name runs into its first key. */
  lemma NameFirst(name: string, sp: string, fields: seq<Canonical.Field>, parts: seq<string>)
    requires parts != [] && parts[0] == name + sp && Lays(fields, parts[0 := sp])
    ensures name + FieldTexts(fields) == Joined(parts)
  {
    LaidOut(fields, parts[0 := sp]);
    assert parts[0 := sp][1..] == parts[1..];
    assert (name + sp) + Joined(parts[1..]) == name + (sp + Joined(parts[1..]));
  }

  lemma TypeName(code: byte)
    requires 1 <= code <= 13
    ensures NameOrHex(MODULE_TYPE_TABLE, code) == MODULE_TYPES[code - 1]
  {
    var t := MODULE_TYPE_TABLE;
    Named(t, code, code - 1);
  }

  lemma KindName(code: byte)
    requires code <= 5
    ensures NameOrHex(PARAM_KIND_TABLE, code) == PARAM_KINDS[code]
  {
    Named(PARAM_KIND_TABLE, code, code);
  }

  lemma {:induction false} Named(table: seq<Entry>, code: byte, i: nat)
    requires i < |table| && table[i].code == code && forall j :: 0 <= j < i ==> table[j].code != code
    ensures NameOrHex(table, code) == table[i].name
    decreases i
  {
    if i > 0 { Named(table[1..], code, i - 1); }
  }

  lemma SameField(v: seq<byte>, i: nat)
    requires i + 1 < |v|
    ensures Get16(v, i) == DescriptorLaws.Field(v, i)
  {
  }

  lemma PrintsModule(r: Record)
    requires Printable(r) && r.kind in {0x01, 0x02, 0x05}
    ensures RenderRecord(r) == Joined(Parts(r))
  {
    hide Dec, Hex2, Hex4, HexLower, Quote, NameOrHex, Joined, FieldTexts, CheckRecord;
    CodesHaveNames(r);
    var v, parts, fields := r.value, Parts(r), FieldsOf(r);
    if r.kind == 0x01 {
      NameFirst("PROTOCOL", " major=", fields, parts);
    } else if r.kind == 0x02 {
      TypeName(v[0]);
      NameFirst("MODULE_TYPE", " mt=", fields, parts);
    } else {
      NameFirst("MODEL_ID", " model=", fields, parts);
    }
  }

  lemma PrintsNames(r: Record)
    requires Printable(r) && r.kind in {0x03, 0x04, 0x06}
    ensures RenderRecord(r) == Joined(Parts(r))
  {
    hide Dec, Hex2, Hex4, HexLower, Quote, NameOrHex, Joined, FieldTexts, CheckRecord;
    CodesHaveNames(r);
    var v, parts, fields := r.value, Parts(r), FieldsOf(r);
    if r.kind == 0x03 {
      NameFirst("NAME", " s=", fields, parts);
    } else if r.kind == 0x04 {
      NameFirst("MANUFACTURER", " s=", fields, parts);
    } else {
      NameFirst("SERIAL", " s=", fields, parts);
    }
  }

  lemma PrintsControls(r: Record)
    requires Printable(r) && r.kind in {0x10, 0x11, 0x21}
    ensures RenderRecord(r) == Joined(Parts(r))
  {
    hide Dec, Hex2, Hex4, HexLower, Quote, NameOrHex, Joined, FieldTexts, CheckRecord;
    CodesHaveNames(r);
    var v, parts, fields := r.value, Parts(r), FieldsOf(r);
    if r.kind == 0x10 {
      NameFirst("CHANNEL", " idx=", fields, parts);
    } else if r.kind == 0x11 {
      NameFirst("SWITCHING", " flags=", fields, parts);
    } else {
      NameFirst("PARAM_ENUM", " id=", fields, parts);
    }
  }

  lemma PrintsParam(r: Record)
    requires Printable(r) && r.kind == 0x20
    ensures RenderRecord(r) == Joined(Parts(r))
  {
    hide Dec, Hex2, Hex4, HexLower, Quote, NameOrHex, Joined, FieldTexts, CheckRecord;
    CodesHaveNames(r);
    var v, parts, fields := r.value, Parts(r), FieldsOf(r);
    KindName(v[2]);
    NameFirst("PARAM", " id=", fields, parts);
  }

  lemma PrintsAudio(r: Record)
    requires Printable(r) && r.kind == 0x30
    ensures RenderRecord(r) == Joined(Parts(r))
  {
    hide Dec, Hex2, Hex4, HexLower, Quote, NameOrHex, Joined, FieldTexts, CheckRecord;
    CodesHaveNames(r);
    var v, parts, fields := r.value, Parts(r), FieldsOf(r);
    NameFirst("AUDIO", " io=", fields, parts);
  }

  lemma PrintsPowerLv(r: Record)
    requires Printable(r) && r.kind == 0x40
    ensures RenderRecord(r) == Joined(Parts(r))
  {
    hide Dec, Hex2, Hex4, HexLower, Quote, NameOrHex, Joined, FieldTexts, CheckRecord;
    CodesHaveNames(r);
    var v, parts, fields := r.value, Parts(r), FieldsOf(r);
    NameFirst("POWER_LV", " p15=", fields, parts);
  }

  lemma LaysBoth(fields: seq<Canonical.Field>, parts: seq<string>, n: nat)
    requires n <= |fields| && |parts| == 2 * |fields|
    requires Lays(fields[..n], parts[..2 * n]) && Lays(fields[n..], parts[2 * n..])
    ensures Lays(fields, parts)
  {
    forall i | 0 <= i < |fields|
      ensures parts[2 * i] == " " + fields[i].key + "=" && parts[2 * i + 1] == fields[i].value
    {
      if i < n {
        assert parts[..2 * n][2 * i] == parts[2 * i] && parts[..2 * n][2 * i + 1] == parts[2 * i + 1];
        assert fields[..n][i] == fields[i];
      } else {
        var k := i - n;
        assert parts[2 * n..][2 * k] == parts[2 * i] && parts[2 * n..][2 * k + 1] == parts[2 * i + 1];
        assert fields[n..][k] == fields[i];
      }
    }
  }

  lemma TubeFront(v: seq<byte>)
    requires |v| == 11
    ensures Lays(PowerTubeFields(v)[..4],
      [" class=", Dec(v[0]), " tubes=", Dec(v[1]), " sections=", Dec(v[2]), " heater_nom=", Dec16(v, 3)])
  {
    hide Dec;
  }

  lemma TubeBack(v: seq<byte>)
    requires |v| == 11
    ensures Lays(PowerTubeFields(v)[4..], [" heater_max=", Dec16(v, 5), " bplus_v=", Dec16(v, 7),
      " bplus_exp=", Dec(v[9]), " bplus_max=", Dec(v[10])])
  {
    hide Dec;
  }

  lemma PrintsPowerTube(r: Record)
    requires Printable(r) && r.kind == 0x41
    ensures RenderRecord(r) == Joined(Parts(r))
  {
    hide Dec, Joined, FieldTexts, Lays, PowerTubeFields;
    var v, fields := r.value, FieldsOf(r);
    TubeFront(v);
    TubeBack(v);
    var laid := Parts(r)[0 := " class="];
    assert laid[..8] ==
      [" class=", Dec(v[0]), " tubes=", Dec(v[1]), " sections=", Dec(v[2]), " heater_nom=", Dec16(v, 3)];
    assert laid[8..] == [" heater_max=", Dec16(v, 5), " bplus_v=", Dec16(v, 7), " bplus_exp=", Dec(v[9]),
      " bplus_max=", Dec(v[10])];
    TubeHasEight(v);
    LaysBoth(fields, laid, 4);
    NameFirst("POWER_TUBE", " class=", fields, Parts(r));
  }

  lemma TubeHasEight(v: seq<byte>)
    requires |v| == 11
    ensures |PowerTubeFields(v)| == 8
  {
  }

  lemma PrintsVendor(r: Record)
    requires Printable(r) && r.kind == 0x7E
    ensures RenderRecord(r) == Joined(Parts(r))
  {
    hide Dec, Hex2, Hex4, HexLower, Quote, NameOrHex, Joined, FieldTexts, CheckRecord;
    CodesHaveNames(r);
    var v, parts, fields := r.value, Parts(r), FieldsOf(r);
    NameFirst("VENDOR", " vendor=", fields, parts);
  }

  lemma PrintsUnknown(r: Record)
    requires Printable(r) && !DescriptorLaws.IsType(r.kind)
    ensures RenderRecord(r) == Joined(Parts(r))
  {
    hide Dec, Hex2, Hex4, HexLower, Quote, NameOrHex, Joined, FieldTexts, CheckRecord;
    CodesHaveNames(r);
    var v, parts, fields := r.value, Parts(r), FieldsOf(r);
    NameFirst("UNKNOWN", " type=", fields, parts);
  }

  /** Every record prints as its parts, whatever its values. */
  lemma PrintsAs(r: Record)
    requires Printable(r)
    ensures RenderRecord(r) == Joined(Parts(r))
  {
    hide Parts, RenderRecord, Joined, Printable;
    if !DescriptorLaws.IsType(r.kind) { PrintsUnknown(r); }
    if r.kind in {0x01, 0x02, 0x05} { PrintsModule(r); }
    if r.kind in {0x03, 0x04, 0x06} { PrintsNames(r); }
    if r.kind in {0x10, 0x11, 0x21} { PrintsControls(r); }
    if r.kind == 0x20 { PrintsParam(r); }
    if r.kind == 0x30 { PrintsAudio(r); }
    if r.kind == 0x40 { PrintsPowerLv(r); }
    if r.kind == 0x41 { PrintsPowerTube(r); }
    if r.kind == 0x7E { PrintsVendor(r); }
  }

  // ---------------------------------------------------------------- a whole text

  function AllParts(rs: seq<Record>): seq<string>
    requires AllPrintable(rs)
  {
    if rs == [] then []
    else
      assert rs[0] in rs;
      Parts(rs[0]) + (if |rs| == 1 then [] else [" | "] + AllParts(rs[1..]))
  }

  lemma {:induction false} JoinedBoth(a: seq<string>, b: seq<string>)
    ensures Joined(a + b) == Joined(a) + Joined(b)
    decreases |a|
  {
    if a == [] {
      assert [] + b == b;
    } else {
      assert (a + b)[0] == a[0] && (a + b)[1..] == a[1..] + b;
      JoinedBoth(a[1..], b);
    }
  }

  /** The text of a descriptor is its records' parts, a bar between blanks between each record and the next. */
  lemma {:induction false} TextIs(rs: seq<Record>)
    requires AllPrintable(rs)
    ensures RenderRecords(rs) == Joined(AllParts(rs))
    decreases |rs|
  {
    hide Parts, RenderRecord, Printable;
    if rs != [] {
      assert rs[0] in rs;
      PrintsAs(rs[0]);
      var first, rest := Parts(rs[0]), rs[1..];
      if |rs| == 1 {
        assert first + [] == first;
      } else {
        TextIs(rest);
        JoinedBoth(first, [" | "] + AllParts(rest));
        JoinedBoth([" | "], AllParts(rest));
        assert Joined([" | "]) == " | " + "" == " | ";
      }
    }
  }
}
