/** Printed records fall apart again into exactly the pieces they were printed from. */
module CanonicalTokens {
  import opened Protocol
  import opened Text
  import opened Descriptor
  import opened Canonical

  // ---------------------------------------------------------------- what the scanner passes through

  /** The mode after `p`, if no separator in it stands outside quotes. */
  function Through(p: string, sep: char, m: Mode): Option<Mode>
    decreases |p|
  {
    if p == "" then Some(m)
    else if m == Plain && p[0] == sep then None
    else Through(p[1..], sep, Next(m, p[0]))
  }

  /** A piece no scan for `sep` can break, and that leaves no quote open. */
  predicate Whole(p: string, sep: char) {
    Through(p, sep, Plain) == Some(Plain)
  }

  lemma {:induction false} ThroughAppend(a: string, b: string, sep: char, m: Mode)
    requires Through(a, sep, m).Some?
    ensures Through(a + b, sep, m) == Through(b, sep, Through(a, sep, m).value)
    decreases |a|
  {
    if a == "" {
      assert "" + b == b;
    } else {
      assert (a + b)[0] == a[0] && (a + b)[1..] == a[1..] + b;
      ThroughAppend(a[1..], b, sep, Next(m, a[0]));
    }
  }

  lemma WholeAppend(a: string, b: string, sep: char)
    requires Whole(a, sep) && Whole(b, sep)
    ensures Whole(a + b, sep)
  {
    ThroughAppend(a, b, sep, Plain);
  }

  lemma {:induction false} ScanThrough(p: string, rest: string, sep: char, m: Mode, cur: string)
    requires Through(p, sep, m).Some?
    ensures Scan(p + rest, sep, m, cur) == Scan(rest, sep, Through(p, sep, m).value, cur + p)
    decreases |p|
  {
    if p == "" {
      assert "" + rest == rest && cur + "" == cur;
    } else {
      assert (p + rest)[0] == p[0] && (p + rest)[1..] == p[1..] + rest;
      ScanThrough(p[1..], rest, sep, Next(m, p[0]), cur + [p[0]]);
      assert cur + [p[0]] + p[1..] == cur + p;
    }
  }

  // ---------------------------------------------------------------- words and quoted strings

  /** No quote, separator or equals sign. */
  predicate Word(s: string) {
    forall c :: c in s ==> c != '"' && c != ' ' && c != '|' && c != '='
  }

  lemma {:induction false} WordIsWhole(s: string, sep: char)
    requires (forall c :: c in s ==> c != '"' && c != sep)
    ensures Whole(s, sep)
    decreases |s|
  {
    if s != "" {
      assert s[0] in s && forall c :: c in s[1..] ==> c in s;
      WordIsWhole(s[1..], sep);
    }
  }

  lemma DigitIsWord(n: nat, upper: bool)
    requires n < 16
    ensures var c := Digit(n, upper); c != '"' && c != '\\' && c != ' ' && c != '|' && c != '='
  {
  }

  predicate NoEscape(s: string) {
    forall c :: c in s ==> c != '"' && c != '\\'
  }

  lemma {:induction false} PlainStays(s: string, sep: char)
    requires NoEscape(s)
    ensures Through(s, sep, Quoted) == Some(Quoted)
    decreases |s|
  {
    if s != "" {
      assert s[0] in s && forall c :: c in s[1..] ==> c in s;
      PlainStays(s[1..], sep);
    }
  }

  lemma EscapeStays(s: string, sep: char)
    requires |s| >= 2 && s[0] == '\\' && NoEscape(s[2..])
    ensures Through(s, sep, Quoted) == Some(Quoted)
  {
    PlainStays(s[2..], sep);
    assert s[1..][1..] == s[2..];
  }

  lemma QuoteByteStays(b: byte, sep: char)
    ensures Through(QuoteByte(b), sep, Quoted) == Some(Quoted)
  {
    hide Through, Digit;
    var q := QuoteByte(b);
    DigitIsWord(b / 16, false);
    DigitIsWord(b % 16, false);
    if |q| == 1 {
      PlainStays(q, sep);
    } else {
      EscapeStays(q, sep);
    }
  }

  lemma {:induction false} QuoteBodyStays(data: seq<byte>, sep: char)
    ensures Through(QuoteBody(data), sep, Quoted) == Some(Quoted)
  {
    hide QuoteByte;
    if data != [] {
      QuoteByteStays(data[0], sep);
      QuoteBodyStays(data[1..], sep);
      ThroughAppend(QuoteByte(data[0]), QuoteBody(data[1..]), sep, Quoted);
    }
  }

  /** A quoted string may hold any bytes: separators in it do not count. */
  lemma QuoteIsWhole(data: seq<byte>, sep: char)
    requires sep != '"'
    ensures Whole(Quote(data), sep)
  {
    hide QuoteBody;
    QuoteBodyStays(data, sep);
    assert "\""[1..] == "";
    ThroughAppend("\"", QuoteBody(data), sep, Plain);
    ThroughAppend("\"" + QuoteBody(data), "\"", sep, Plain);
  }

  // ---------------------------------------------------------------- printed scalars are words

  lemma {:induction false} DecIsWord(n: nat)
    ensures Word(Dec(n)) && Dec(n) != ""
  {
    if n < 10 {
      DigitIsWord(n, true);
    } else {
      DecIsWord(n / 10);
      DigitIsWord(n % 10, true);
    }
  }

  lemma Hex2IsWord(n: nat)
    requires n < 256
    ensures Word(Hex2(n))
  {
    DigitIsWord(n / 16, true);
    DigitIsWord(n % 16, true);
  }

  lemma Hex4IsWord(n: nat)
    requires n < 65536
    ensures Word(Hex4(n))
  {
    DigitIsWord(n / 16 / 16 / 16, true);
    DigitIsWord(n / 16 / 16 % 16, true);
    DigitIsWord(n / 16 % 16, true);
    DigitIsWord(n % 16, true);
  }

  lemma {:induction false} HexLowerIsWord(data: seq<byte>)
    ensures Word(HexLower(data))
  {
    if data != [] {
      DigitIsWord(data[0] / 16, false);
      DigitIsWord(data[0] % 16, false);
      HexLowerIsWord(data[1..]);
    }
  }

  predicate WordTable(table: seq<Entry>) {
    forall e :: e in table ==> Word(e.name) && e.name != "" && 'A' <= e.name[0] <= 'Z'
  }

  lemma {:induction false} NamedIsWord(table: seq<Entry>, code: byte)
    requires WordTable(table)
    ensures Word(NameOrHex(table, code))
  {
    if table == [] {
      Hex2IsWord(code);
    } else {
      NamedIsWord(table[1..], code);
    }
  }

  /** One name per code, one code per name. */
  predicate DistinctTable(table: seq<Entry>) {
    forall i, j :: 0 <= i < j < |table| ==> table[i].name != table[j].name && table[i].code != table[j].code
  }

  lemma {:induction false} LookupIsName(table: seq<Entry>, code: byte)
    requires DistinctTable(table) && WordTable(table)
    ensures (exists e :: e in table && e.code == code) ==>
      LookupName(table, NameOrHex(table, code)) == Some(code as nat)
    ensures (exists e :: e in table && e.code == code) ==> exists e :: e in table && e.name == NameOrHex(table, code)
    ensures !(exists e :: e in table && e.code == code) ==> NameOrHex(table, code) == Hex2(code)
  {
    if table != [] {
      LookupIsName(table[1..], code);
      if table[0].code != code && exists e :: e in table && e.code == code {
        var e :| e in table && e.code == code;
        assert e in table[1..];
        var x :| x in table[1..] && x.name == NameOrHex(table[1..], code);
        var k :| 0 <= k < |table| - 1 && table[1..][k] == x;
        assert table[k + 1] == x && table[0].name != table[k + 1].name;
        assert x in table;
      } else if table[0].code == code {
        assert table[0] in table;
      }
    }
  }

  lemma {:induction false} HexIsNoName(table: seq<Entry>, code: byte)
    requires WordTable(table)
    ensures LookupName(table, Hex2(code)) == None
  {
    if table != [] {
      assert table[0] in table && Hex2(code)[0] == '0';
      HexIsNoName(table[1..], code);
    }
  }

  /** A named code, or one printed in hexadecimal, parses back to itself. */
  lemma NamedRoundTrip(table: seq<Entry>, code: byte)
    requires DistinctTable(table) && WordTable(table)
    ensures ParseNamed(table, NameOrHex(table, code)) == Some(code as nat)
  {
    hide NameOrHex, LookupName, Hex2;
    LookupIsName(table, code);
    HexIsNoName(table, code);
    Hex2RoundTrip(code);
  }

  /** A name in capitals. */
  predicate Capitals(s: string) {
    s != "" && 'A' <= s[0] <= 'Z' && forall i :: 0 <= i < |s| ==> 'A' <= s[i] <= 'Z' || s[i] == '_'
  }

  lemma CapitalsAreWords(table: seq<Entry>)
    requires forall i :: 0 <= i < |table| ==> Capitals(table[i].name)
    ensures WordTable(table)
  {
    forall e | e in table ensures Word(e.name) && e.name != "" && 'A' <= e.name[0] <= 'Z' {
      var i :| 0 <= i < |table| && table[i] == e;
      assert Capitals(table[i].name);
    }
  }

  /** What tells the names of a table apart: length and first letter. */
  function Mark(s: string): (nat, char)
    requires s != ""
  {
    (|s|, s[0])
  }

  predicate Marked(table: seq<Entry>, marks: seq<(nat, char)>) {
    |table| == |marks| && forall i :: 0 <= i < |table| ==> table[i].name != "" && Mark(table[i].name) == marks[i]
  }

  predicate Different(marks: seq<(nat, char)>) {
    forall i, j :: 0 <= i < j < |marks| ==> marks[i] != marks[j]
  }

  predicate DifferentCodes(table: seq<Entry>) {
    forall i, j :: 0 <= i < j < |table| ==> table[i].code < table[j].code
  }

  lemma MarkedIsDistinct(table: seq<Entry>, marks: seq<(nat, char)>)
    requires Marked(table, marks) && Different(marks) && DifferentCodes(table)
    ensures DistinctTable(table)
  {
    forall i, j | 0 <= i < j < |table| ensures table[i].name != table[j].name && table[i].code != table[j].code {
      assert marks[i] != marks[j];
    }
  }

  const MODULE_TYPE_MARKS: seq<(nat, char)> := [
    (15, 'A'), (14, 'S'), (11, 'T'), (9, 'S'), (10, 'D'), (6, 'H'), (10, 'S'), (13, 'R'),
    (6, 'O'), (7, 'C'), (5, 'P'), (10, 'T'), (11, 'D')]

  lemma ModuleTypeMarked()
    ensures Marked(MODULE_TYPE_TABLE, MODULE_TYPE_MARKS)
  {
  }

  lemma ModuleTypeDistinct()
    ensures DistinctTable(MODULE_TYPE_TABLE)
  {
    ModuleTypeMarked();
    ModuleTypeDifferent();
    ModuleTypeCodes();
    MarkedIsDistinct(MODULE_TYPE_TABLE, MODULE_TYPE_MARKS);
  }

  lemma ModuleTypeDifferent()
    ensures Different(MODULE_TYPE_MARKS)
  {
  }

  lemma ModuleTypeCodes()
    ensures DifferentCodes(MODULE_TYPE_TABLE)
  {
    forall i | 0 <= i < |MODULE_TYPE_TABLE| ensures MODULE_TYPE_TABLE[i].code == i + 1 {
    }
  }

  lemma ModuleTypeNames()
    ensures var t := MODULE_TYPE_TABLE;
      && t[0].name == "ANALOGUE_EFFECT" && t[1].name == "SMART_ANALOGUE" && t[2].name == "TUBE_PREAMP"
        && t[3].name == "SS_PREAMP"
      && t[4].name == "DSP_EFFECT" && t[5].name == "HYBRID" && t[6].name == "SIMULATION" && t[7].name == "ROUTING_MIXER"
      && t[8].name == "OUTPUT" && t[9].name == "CONTROL" && t[10].name == "POWER" && t[11].name == "TUBE_POWER"
      && t[12].name == "DEVELOPMENT"
  {
  }

  lemma FirstCapitals()
    ensures Capitals("ANALOGUE_EFFECT") && Capitals("SMART_ANALOGUE")
    ensures Capitals("TUBE_PREAMP") && Capitals("SS_PREAMP")
    ensures Capitals("DSP_EFFECT") && Capitals("HYBRID")
  {
  }

  lemma OtherCapitals()
    ensures Capitals("SIMULATION") && Capitals("ROUTING_MIXER") && Capitals("OUTPUT") && Capitals("CONTROL")
    ensures Capitals("POWER") && Capitals("TUBE_POWER") && Capitals("DEVELOPMENT")
  {
  }

  lemma ModuleTypeCapitals()
    ensures forall i :: 0 <= i < |MODULE_TYPE_TABLE| ==> Capitals(MODULE_TYPE_TABLE[i].name)
  {
    hide Capitals;
    ModuleTypeNames();
    FirstCapitals();
    OtherCapitals();
  }

  lemma ModuleTypeTable()
    ensures DistinctTable(MODULE_TYPE_TABLE) && WordTable(MODULE_TYPE_TABLE)
  {
    hide Capitals;
    ModuleTypeDistinct();
    ModuleTypeCapitals();
    CapitalsAreWords(MODULE_TYPE_TABLE);
  }

  const PARAM_KIND_MARKS: seq<(nat, char)> := [(10, 'C'), (6, 'T'), (4, 'E'), (9, 'M'), (7, 'T'), (8, 'R')]

  lemma ParamKindDistinct()
    ensures DistinctTable(PARAM_KIND_TABLE)
  {
    assert Marked(PARAM_KIND_TABLE, PARAM_KIND_MARKS);
    MarkedIsDistinct(PARAM_KIND_TABLE, PARAM_KIND_MARKS);
  }

  lemma ParamKindCapitals()
    ensures forall i :: 0 <= i < |PARAM_KIND_TABLE| ==> Capitals(PARAM_KIND_TABLE[i].name)
  {
    assert Capitals("CONTINUOUS") && Capitals("TOGGLE") && Capitals("ENUM");
    assert Capitals("MOMENTARY") && Capitals("TRIGGER") && Capitals("READONLY");
  }

  lemma ParamKindTable()
    ensures DistinctTable(PARAM_KIND_TABLE) && WordTable(PARAM_KIND_TABLE)
  {
    hide Capitals;
    ParamKindDistinct();
    ParamKindCapitals();
    CapitalsAreWords(PARAM_KIND_TABLE);
  }

  // ---------------------------------------------------------------- fields

  /** A value no scan can break, with no space at its end. */
  predicate Solid(v: string) {
    Whole(v, ' ') && Whole(v, '|') && (v != "" ==> v[|v| - 1] != ' ')
  }

  predicate GoodField(f: Field) {
    Word(f.key) && Solid(f.value)
  }

  predicate GoodFields(fields: seq<Field>) {
    && (forall f :: f in fields ==> GoodField(f))
    && (forall i, j :: 0 <= i < j < |fields| ==> fields[i].key != fields[j].key)
  }

  lemma WordIsSolid(v: string)
    requires Word(v)
    ensures Solid(v)
  {
    WordIsWhole(v, ' ');
    WordIsWhole(v, '|');
    assert v != "" ==> v[|v| - 1] in v;
  }

  lemma QuoteIsSolid(data: seq<byte>)
    ensures Solid(Quote(data))
  {
    QuoteIsWhole(data, ' ');
    QuoteIsWhole(data, '|');
  }

  lemma FieldIsWhole(f: Field, sep: char)
    requires GoodField(f) && (sep == ' ' || sep == '|')
    ensures Whole(FieldText(f), sep) && FieldText(f) != "" && FieldText(f)[|FieldText(f)| - 1] != ' '
  {
    hide Through;
    assert forall c :: c in f.key + "=" ==> c in f.key || c == '=';
    WordIsWhole(f.key + "=", sep);
    WholeAppend(f.key + "=", f.value, sep);
  }

  function Texts(fields: seq<Field>): seq<string> {
    if fields == [] then [] else [FieldText(fields[0])] + Texts(fields[1..])
  }

  /** The token list of a printed record is its name and its fields. */
  lemma {:induction false} ScanFields(cur: string, fields: seq<Field>)
    requires forall f :: f in fields ==> GoodField(f)
    ensures Scan(FieldTexts(fields), ' ', Plain, cur) == ([cur] + Texts(fields), Plain)
    decreases |fields|
  {
    hide GoodField;
    if fields == [] {
      assert [cur] + [] == [cur];
    } else {
      var f, rest := FieldText(fields[0]), FieldTexts(fields[1..]);
      var text := FieldTexts(fields);
      FieldIsWhole(fields[0], ' ');
      ScanFields(f, fields[1..]);
      ScanThrough(f, rest, ' ', Plain, "");
      assert text == " " + f + rest && text[0] == ' ' && text[1..] == f + rest;
      assert "" + f == f;
      assert [cur] + ([f] + Texts(fields[1..])) == [cur] + Texts(fields);
    }
  }

  lemma {:induction false} NoneEmpty(fields: seq<Field>)
    requires forall f :: f in fields ==> GoodField(f)
    ensures NonEmpty(Texts(fields)) == Texts(fields)
    decreases |fields|
  {
    hide GoodField;
    if fields != [] {
      NoneEmpty(fields[1..]);
      FieldIsWhole(fields[0], ' ');
      var ts := Texts(fields);
      assert ts[0] == FieldText(fields[0]) && ts[1..] == Texts(fields[1..]);
    }
  }

  lemma {:induction false} EqualsAfterKey(key: string, rest: string)
    requires Word(key)
    ensures EqualsAt(key + "=" + rest) == |key|
    decreases |key|
  {
    var tok := key + "=" + rest;
    if key == "" {
      assert tok[0] == '=';
    } else {
      assert tok[0] == key[0] && key[0] in key && tok[1..] == key[1..] + "=" + rest;
      assert forall c :: c in key[1..] ==> c in key;
      EqualsAfterKey(key[1..], rest);
    }
  }

  function Extend(kv: map<string, string>, fields: seq<Field>): map<string, string>
    decreases |fields|
  {
    if fields == [] then kv else Extend(kv[fields[0].key := fields[0].value], fields[1..])
  }

  lemma {:induction false} KeyValuesExtend(kv: map<string, string>, fields: seq<Field>)
    requires GoodFields(fields) && forall f :: f in fields ==> f.key !in kv
    ensures KeyValues(Texts(fields), kv) == Some(Extend(kv, fields))
    decreases |fields|
  {
    hide GoodField, EqualsAt;
    if fields != [] {
      var f, tok := fields[0], FieldText(fields[0]);
      assert GoodField(f);
      KeyIsWord(f);
      EqualsAfterKey(f.key, f.value);
      assert tok[..|f.key|] == f.key && tok[|f.key| + 1..] == f.value;
      var ts := Texts(fields);
      assert ts[0] == tok && ts[1..] == Texts(fields[1..]);
      forall g | g in fields[1..] ensures g.key !in kv[f.key := f.value] {
        var k :| 0 <= k < |fields| - 1 && fields[1..][k] == g;
        assert fields[k + 1] == g && fields[0].key != fields[k + 1].key;
      }
      KeyValuesExtend(kv[f.key := f.value], fields[1..]);
    }
  }

  lemma KeyIsWord(f: Field)
    requires GoodField(f)
    ensures Word(f.key)
  {
  }

  function Keys(fields: seq<Field>): set<string> {
    set f | f in fields :: f.key
  }

  lemma {:induction false} ExtendHas(kv: map<string, string>, fields: seq<Field>)
    requires forall i, j :: 0 <= i < j < |fields| ==> fields[i].key != fields[j].key
    ensures var m := Extend(kv, fields);
      && m.Keys == kv.Keys + Keys(fields)
      && (forall k :: k in kv && k !in Keys(fields) ==> m[k] == kv[k])
      && (forall i :: 0 <= i < |fields| ==> m[fields[i].key] == fields[i].value)
    decreases |fields|
  {
    if fields != [] {
      var f := fields[0];
      ExtendHas(kv[f.key := f.value], fields[1..]);
      assert forall i :: 0 < i < |fields| ==> fields[i] == fields[1..][i - 1];
      assert Keys(fields) == {f.key} + Keys(fields[1..]);
      assert f.key !in Keys(fields[1..]);
    }
  }

  /** Printing a name and fields and reading the tokens back. */
  lemma TokensRoundTrip(name: string, fields: seq<Field>)
    requires Word(name) && name != "" && GoodFields(fields)
    ensures RecordTokens(name + FieldTexts(fields)) == Some(Tokens(name, Extend(map[], fields)))
  {
    hide GoodField, Scan, NonEmpty, KeyValues, Through;
    WordIsWhole(name, ' ');
    ScanThrough(name, FieldTexts(fields), ' ', Plain, "");
    assert "" + name == name;
    ScanFields(name, fields);
    NoneEmpty(fields);
    OneMore(name, Texts(fields));
    KeyValuesExtend(map[], fields);
    assert ([name] + Texts(fields))[1..] == Texts(fields);
  }

  lemma OneMore(name: string, pieces: seq<string>)
    requires name != ""
    ensures NonEmpty([name] + pieces) == [name] + NonEmpty(pieces)
  {
    assert ([name] + pieces)[1..] == pieces;
  }
}
