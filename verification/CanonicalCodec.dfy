/** The printer's and parser's loops, proved against the functions whose round trip is the law. */
module CanonicalCodec {
  import opened Protocol
  import opened Text
  import opened Descriptor
  import opened DescriptorRules
  import opened DescriptorCodec
  import opened Canonical
  import opened CanonicalRoundTrip

  // ---------------------------------------------------------------- scalars

  method HexOf(data: seq<byte>) returns (s: string)
    ensures s == HexLower(data)
  {
    s := "";
    var i := 0;
    assert data[0..] == data;
    while i < |data|
      invariant 0 <= i <= |data| && s + HexLower(data[i..]) == HexLower(data)
    {
      ghost var before := s;
      assert data[i..][0] == data[i] && data[i..][1..] == data[i + 1..];
      s := s + [Digit(data[i] / 16, false)];
      s := s + [Digit(data[i] % 16, false)];
      assert s == before + HexByte(data[i]);
      i := i + 1;
    }
  }

  lemma ParseHexStep(text: string, i: nat, high: Option<nat>)
    requires i < |text| && (high.Some? ==> high.value < 16)
    ensures var v := HexValue(text[i]);
      ParseHexFrom(text[i..], high) ==
        if text[i] == ' ' then ParseHexFrom(text[i + 1..], high)
        else if v.None? then None
        else if high.None? then ParseHexFrom(text[i + 1..], v)
        else Before([high.value * 16 + v.value], ParseHexFrom(text[i + 1..], None))
  {
    assert text[i..][0] == text[i] && text[i..][1..] == text[i + 1..];
  }

  method HexBytes(text: string) returns (r: Option<seq<byte>>)
    ensures r == ParseHex(text)
  {
    var data: seq<byte> := [];
    var high: Option<nat> := None;
    var i := 0;
    assert text[0..] == text;
    BeforeNothing(ParseHex(text));
    while i < |text|
      invariant 0 <= i <= |text| && (high.Some? ==> high.value < 16)
      invariant Before(data, ParseHexFrom(text[i..], high)) == ParseHex(text)
    {
      ParseHexStep(text, i, high);
      hide ParseHexFrom, ParseHex;
      if text[i] != ' ' {
        var v := HexValue(text[i]);
        if v.None? { return None; }
        if high.None? {
          high := v;
        } else {
          var b := high.value * 16 + v.value;
          BeforeTwice(data, [b], ParseHexFrom(text[i + 1..], None));
          data := data + [b];
          high := None;
        }
      }
      i := i + 1;
    }
    r := if high.None? then Some(data) else None;
    assert text[i..] == "" && data + [] == data;
  }

  lemma BeforeTwice(a: seq<byte>, b: seq<byte>, r: Option<seq<byte>>)
    ensures Before(a, Before(b, r)) == Before(a + b, r)
  {
    if r.Some? { assert a + (b + r.value) == a + b + r.value; }
  }

  lemma BeforeNothing(r: Option<seq<byte>>)
    ensures Before([], r) == r
  {
    if r.Some? { assert [] + r.value == r.value; }
  }

  method QuoteStr(data: seq<byte>) returns (q: string)
    ensures q == Quote(data)
  {
    hide QuoteByte;
    q := "\"";
    var i := 0;
    assert data[0..] == data;
    while i < |data|
      invariant 0 <= i <= |data| && q + QuoteBody(data[i..]) == "\"" + QuoteBody(data)
    {
      assert data[i..][0] == data[i] && data[i..][1..] == data[i + 1..];
      q := q + QuoteByte(data[i]);
      i := i + 1;
    }
    assert q == "\"" + QuoteBody(data);
    q := q + "\"";
  }

  method UnquoteStr(q: string) returns (r: Option<seq<byte>>)
    ensures r == Unquote(q)
  {
    if |q| < 2 || q[0] != '"' || q[|q| - 1] != '"' { return None; }
    var data: seq<byte> := [];
    var i := 1;
    BeforeNothing(UnquoteFrom(q, 1));
    while i + 1 < |q|
      invariant 1 <= i < |q| && Before(data, UnquoteFrom(q, i)) == Unquote(q)
      decreases |q| - i
    {
      hide ParseHex, Unquote;
      if q[i] != '\\' {
        BeforeTwice(data, [q[i] as int % 256], UnquoteFrom(q, i + 1));
        data := data + [q[i] as int % 256];
        i := i + 1;
        continue;
      }
      if i + 2 >= |q| { return None; }
      if q[i + 1] == '"' || q[i + 1] == '\\' {
        BeforeTwice(data, [q[i + 1] as int % 256], UnquoteFrom(q, i + 2));
        data := data + [q[i + 1] as int % 256];
        i := i + 2;
      } else if q[i + 1] == 'x' && i + 4 < |q| {
        var b := HexBytes(q[i + 2..i + 4]);
        if b.None? || |b.value| != 1 { return None; }
        BeforeTwice(data, b.value, UnquoteFrom(q, i + 4));
        assert b.value == [b.value[0]];
        data := data + [b.value[0]];
        i := i + 4;
      } else {
        return None;
      }
    }
    assert data + [] == data;
    return Some(data);
  }

  // ---------------------------------------------------------------- the tokenisers

  function ModeOf(quoted: bool, escaped: bool): Mode {
    if !quoted then Plain else if escaped then Escaped else Quoted
  }

  lemma ScanStep(text: string, i: nat, sep: char, m: Mode, cur: string)
    requires i < |text|
    ensures var whole := Scan(text[i..], sep, m, cur);
      if m == Plain && text[i] == sep then
        var rest := Scan(text[i + 1..], sep, Plain, ""); whole == ([cur] + rest.0, rest.1)
      else whole == Scan(text[i + 1..], sep, Next(m, text[i]), cur + [text[i]])
  {
    assert text[i..][0] == text[i] && text[i..][1..] == text[i + 1..];
  }

  /** What has been cut off so far, and what the scan will make of the rest. */
  ghost predicate Scanned(text: string, sep: char, pieces: seq<string>, i: nat, m: Mode, cur: string) {
    && i <= |text|
    && var rest := Scan(text[i..], sep, m, cur);
       Scan(text, sep, Plain, "") == (pieces + rest.0, rest.1)
  }

  lemma ScannedStart(text: string, sep: char)
    ensures Scanned(text, sep, [], 0, Plain, "")
  {
    hide Scan;
    assert text[0..] == text;
    var rest := Scan(text, sep, Plain, "");
    assert [] + rest.0 == rest.0;
  }

  lemma ScannedCut(text: string, sep: char, pieces: seq<string>, i: nat, cur: string)
    requires Scanned(text, sep, pieces, i, Plain, cur) && i < |text| && text[i] == sep
    ensures Scanned(text, sep, pieces + [cur], i + 1, Plain, "")
  {
    ScanStep(text, i, sep, Plain, cur);
    hide Scan;
    var rest := Scan(text[i + 1..], sep, Plain, "");
    assert pieces + ([cur] + rest.0) == pieces + [cur] + rest.0;
  }

  lemma ScannedPass(text: string, sep: char, pieces: seq<string>, i: nat, m: Mode, cur: string)
    requires Scanned(text, sep, pieces, i, m, cur) && i < |text| && !(m == Plain && text[i] == sep)
    ensures Scanned(text, sep, pieces, i + 1, Next(m, text[i]), cur + [text[i]])
  {
    ScanStep(text, i, sep, m, cur);
    hide Scan;
  }

  lemma ScannedEnd(text: string, sep: char, pieces: seq<string>, m: Mode, cur: string)
    requires Scanned(text, sep, pieces, |text|, m, cur)
    ensures Scan(text, sep, Plain, "") == (pieces + [cur], m)
  {
    assert text[|text|..] == "";
  }

  method SplitText(text: string) returns (r: Option<seq<string>>)
    ensures r == SplitRecords(text)
  {
    hide Scan, Scanned, Chunks;
    var pieces: seq<string> := [];
    var cur, quoted, escaped := "", false, false;
    ScannedStart(text, '|');
    var i := 0;
    while i < |text|
      invariant 0 <= i <= |text| && (escaped ==> quoted) && Scanned(text, '|', pieces, i, ModeOf(quoted, escaped), cur)
    {
      var ch := text[i];
      if !quoted && ch == '|' {
        ScannedCut(text, '|', pieces, i, cur);
        pieces, cur := pieces + [cur], "";
      } else {
        ScannedPass(text, '|', pieces, i, ModeOf(quoted, escaped), cur);
        cur := cur + [ch];
        quoted, escaped := Turn(quoted, escaped, ch);
      }
      i := i + 1;
    }
    ScannedEnd(text, '|', pieces, ModeOf(quoted, escaped), cur);
    if quoted { return None; }
    var trimmed := TrimAll(pieces + [cur]);
    return Some(trimmed);
  }

  /** The two flags after one more character. */
  method Turn(quoted: bool, escaped: bool, ch: char) returns (q: bool, e: bool)
    requires escaped ==> quoted
    ensures (e ==> q) && ModeOf(q, e) == Next(ModeOf(quoted, escaped), ch)
  {
    q, e := quoted, escaped;
    if quoted {
      if escaped { e := false; } else if ch == '\\' { e := true; } else if ch == '"' { q := false; }
    } else if ch == '"' {
      q := true;
    }
  }

  method TrimAll(pieces: seq<string>) returns (r: seq<string>)
    ensures r == Chunks(pieces)
  {
    hide Trim;
    r := [];
    assert pieces[0..] == pieces;
    var i := 0;
    while i < |pieces|
      invariant 0 <= i <= |pieces| && r + Chunks(pieces[i..]) == Chunks(pieces)
    {
      assert pieces[i..][0] == pieces[i] && pieces[i..][1..] == pieces[i + 1..];
      var t := Trim(pieces[i]);
      if t != "" { r := r + [t]; }
      i := i + 1;
    }
  }

  lemma {:induction false} NonEmptyJoin(a: seq<string>, b: seq<string>)
    ensures NonEmpty(a + b) == NonEmpty(a) + NonEmpty(b)
    decreases |a|
  {
    if a == [] {
      assert a + b == b;
    } else {
      assert (a + b)[0] == a[0] && (a + b)[1..] == a[1..] + b;
      NonEmptyJoin(a[1..], b);
    }
  }

  /** The words of one record, blanks between them dropped. */
  method Words(chunk: string) returns (toks: seq<string>)
    ensures toks == NonEmpty(Scan(chunk, ' ', Plain, "").0)
  {
    hide Scan, Scanned;
    toks := [];
    ghost var pieces: seq<string> := [];
    var cur, quoted, escaped := "", false, false;
    ScannedStart(chunk, ' ');
    var i := 0;
    while i < |chunk|
      invariant 0 <= i <= |chunk| && (escaped ==> quoted)
      invariant Scanned(chunk, ' ', pieces, i, ModeOf(quoted, escaped), cur)
      invariant toks == NonEmpty(pieces)
    {
      var ch := chunk[i];
      if !quoted && ch == ' ' {
        ScannedCut(chunk, ' ', pieces, i, cur);
        NonEmptyJoin(pieces, [cur]);
        if cur != "" { toks := toks + [cur]; }
        pieces, cur := pieces + [cur], "";
      } else {
        ScannedPass(chunk, ' ', pieces, i, ModeOf(quoted, escaped), cur);
        cur := cur + [ch];
        quoted, escaped := Turn(quoted, escaped, ch);
      }
      i := i + 1;
    }
    ScannedEnd(chunk, ' ', pieces, ModeOf(quoted, escaped), cur);
    NonEmptyJoin(pieces, [cur]);
    if cur != "" { toks := toks + [cur]; }
  }

  method TokensOf(chunk: string) returns (r: Option<Tokens>)
    ensures r == RecordTokens(chunk)
  {
    hide Scan, NonEmpty, EqualsAt;
    var toks := Words(chunk);
    if toks == [] { return None; }
    var kv: map<string, string> := map[];
    var i := 1;
    while i < |toks|
      invariant 1 <= i <= |toks| && KeyValues(toks[1..], map[]) == KeyValues(toks[i..], kv)
    {
      assert toks[i..][0] == toks[i] && toks[i..][1..] == toks[i + 1..];
      var eq := EqualsAt(toks[i]);
      if eq == |toks[i]| || toks[i][..eq] in kv { return None; }
      kv := kv[toks[i][..eq] := toks[i][eq + 1..]];
      i := i + 1;
    }
    assert toks[i..] == [];
    return Some(Tokens(toks[0], kv));
  }

  // ---------------------------------------------------------------- whole descriptors

  lemma {:induction false} RenderMore(rs: seq<Record>, r: Record)
    requires AllPrintable(rs) && Printable(r)
    ensures AllPrintable(rs + [r])
    ensures RenderRecords(rs + [r]) == if rs == [] then RenderRecord(r) else RenderRecords(rs) + " | " + RenderRecord(r)
    decreases |rs|
  {
    hide RenderRecord, Printable;
    if rs == [] {
      assert [] + [r] == [r];
    } else {
      var all := rs + [r];
      assert all[0] == rs[0] && all[1..] == rs[1..] + [r];
      RenderMore(rs[1..], r);
      if |rs| == 1 {
        assert all[1..] == [r];
      } else {
        var a, b, c, d := RenderRecord(rs[0]), RenderRecords(rs[1..]), " | ", RenderRecord(r);
        assert a + c + (b + c + d) == a + c + b + c + d;
      }
    }
  }

  method RenderText(blob: seq<byte>) returns (p: Printed)
    ensures p == RenderDescriptor(blob)
  {
    hide Validate, Parse, RenderRecord, RenderRecords, Printable;
    var report := ValidateDescriptor(blob);
    if report.status != Ok { return NotValid(report.status); }
    ValidIsPrintable(blob);
    ghost var (rs, tail) := Parse(blob);
    ghost var k := 0;
    var out, first := "", true;
    var c := new RecordCursor(blob);
    assert blob[0..] == blob && rs[0..] == rs && rs[..0] == [];
    NothingRendered();
    while c.pos < |blob|
      invariant c.Valid() && fresh(c) && c.blob == blob && k <= |rs| && Parse(blob[c.pos..]) == (rs[k..], tail)
      invariant AllPrintable(rs[..k]) && out == RenderRecords(rs[..k]) && first == (k == 0)
      decreases |blob| - c.pos
    {
      var st, r := c.Next();
      if st != Ok || r.None? { break; }
      RenderMore(rs[..k], rs[k]);
      assert rs[..k + 1] == rs[..k] + [rs[k]] && rs[k..][0] == rs[k] && rs[k..][1..] == rs[k + 1..];
      if !first { out := out + " | "; }
      out, first := out + RenderRecord(r.value), false;
      k := k + 1;
    }
    NothingParses();
    assert blob[|blob|..] == [] && rs[k..] == [];
    assert k == |rs| && rs[..k] == rs;
    return Printed(out);
  }

  lemma NothingParses()
    ensures Parse([]) == ([], [])
  {
  }

  lemma NothingRendered()
    ensures RenderRecords([]) == ""
  {
  }

  method EncodeText(text: string) returns (e: Encoded)
    ensures e == EncodeDescriptor(text)
  {
    hide Validate, AddRecord, SplitRecords, DescriptorRules.Append;
    var chunks := SplitText(text);
    if chunks.None? { return BadRequest; }
    var buf := new byte[MAX_DESCRIPTOR_BYTES];
    var w := new DescriptorWriter(buf);
    var i := 0;
    assert chunks.value[0..] == chunks.value;
    while i < |chunks.value|
      invariant 0 <= i <= |chunks.value| && w.Valid() && fresh(w.Repr())
      invariant AddRecords(Fresh(MAX_DESCRIPTOR_BYTES), chunks.value) == AddRecords(w.Value(), chunks.value[i..])
    {
      assert chunks.value[i..][0] == chunks.value[i] && chunks.value[i..][1..] == chunks.value[i + 1..];
      var one := EncodeChunk(w, chunks.value[i]);
      if !one.Encoded? { return one; }
      i := i + 1;
    }
    assert chunks.value[i..] == [];
    var report := w.Finish();
    if report.status != Ok { return Failed(report.status); }
    return Encoded(w.buf[..w.size]);
  }

  method EncodeChunk(w: DescriptorWriter, chunk: string) returns (e: Encoded)
    requires w.Valid()
    modifies w`size, w.buf, w.kinds, w.channels, w.params
    ensures w.Valid() && (w.Value(), e) == AddRecord(old(w.Value()), chunk)
  {
    hide DescriptorRules.Append, RecordTokens, ToRecord;
    var toks := TokensOf(chunk);
    if toks.None? { return BadRequest; }
    match ToRecord(toks.value)
    case Bad => return BadRequest;
    case Refused(st) => return Failed(st);
    case Rec(r) =>
      var st := w.Append(r);
      return if st == Ok then Encoded([]) else Failed(st);
  }
}
