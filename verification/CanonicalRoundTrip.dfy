/** The text of a valid descriptor encodes back to that descriptor, byte for byte. */
module CanonicalRoundTrip {
  import opened Protocol
  import opened Text
  import opened Descriptor
  import opened DescriptorRules
  import opened Canonical
  import opened CanonicalTokens
  import opened CanonicalRecords

  // ---------------------------------------------------------------- a printed record among others

  lemma {:induction false} FieldTextsAreWhole(fields: seq<Field>)
    requires forall f :: f in fields ==> GoodField(f)
    ensures Whole(FieldTexts(fields), '|')
    ensures fields != [] ==> FieldTexts(fields) != "" && FieldTexts(fields)[|FieldTexts(fields)| - 1] != ' '
    decreases |fields|
  {
    hide GoodField, Whole, FieldText;
    if fields == [] {
      NothingIsWhole();
    } else {
      var f, rest := FieldText(fields[0]), FieldTexts(fields[1..]);
      FieldIsWhole(fields[0], '|');
      FieldTextsAreWhole(fields[1..]);
      BlankIsWhole();
      WholeAppend(" ", f, '|');
      WholeAppend(" " + f, rest, '|');
    }
  }

  lemma NothingIsWhole()
    ensures Whole("", '|')
  {
  }

  lemma BlankIsWhole()
    ensures Whole(" ", '|')
  {
    assert " "[1..] == "";
  }

  /** A record's text: one piece for the splitter, with nothing for the trimmer to take. */
  predicate Compact(s: string) {
    Whole(s, '|') && s != "" && s[0] != ' ' && s[|s| - 1] != ' '
  }

  lemma RecordIsCompact(r: Record)
    requires Printable(r)
    ensures Compact(RenderRecord(r))
  {
    hide FieldsOf, Printable, NameOf, FieldTexts, Whole, GoodField;
    FieldsAreGood(r);
    NameIsKind(r.kind);
    CapitalsAreWord(NameOf(r.kind));
    WordHasNoSpace(NameOf(r.kind));
    WordIsWhole(NameOf(r.kind), '|');
    FieldTextsAreWhole(FieldsOf(r));
    WholeAppend(NameOf(r.kind), FieldTexts(FieldsOf(r)), '|');
    var n, t := NameOf(r.kind), FieldTexts(FieldsOf(r));
    assert n[0] in n && n[|n| - 1] in n && RenderRecord(r) == n + t;
    if FieldsOf(r) == [] { NoFieldsNoText(); }
  }

  lemma WordHasNoSpace(s: string)
    requires Word(s)
    ensures forall c :: c in s ==> c != '"' && c != ' ' && c != '|'
  {
  }

  lemma NoFieldsNoText()
    ensures FieldTexts([]) == ""
  {
  }

  predicate Blank(s: string) {
    s == "" || s == " "
  }

  lemma TrimLeftAround(a: string, s: string)
    requires s != "" && s[0] != ' ' && Blank(a)
    ensures TrimLeft(a + s) == s
  {
    if a == " " {
      assert (a + s)[0] == ' ' && (a + s)[1..] == s;
    } else {
      assert a + s == s;
    }
  }

  lemma TrimRightAround(s: string, b: string)
    requires s != "" && s[|s| - 1] != ' ' && Blank(b)
    ensures TrimRight(s + b) == s
  {
    if b == " " {
      assert (s + b)[|s|] == ' ' && (s + b)[..|s|] == s;
    } else {
      assert s + b == s;
    }
  }

  lemma TrimAround(a: string, s: string, b: string)
    requires s != "" && s[0] != ' ' && s[|s| - 1] != ' ' && Blank(a) && Blank(b)
    ensures Trim(a + s + b) == s
  {
    hide TrimLeft, TrimRight;
    TrimLeftAround(a, s + b);
    assert a + s + b == a + (s + b);
    TrimRightAround(s, b);
  }

  // ---------------------------------------------------------------- all the records

  function Rendered(rs: seq<Record>): seq<string>
    requires AllPrintable(rs)
  {
    if rs == [] then [] else [RenderRecord(rs[0])] + Rendered(rs[1..])
  }

  lemma ScanSeparator(cur: string, rest: string)
    ensures var all, after := Scan(" | " + rest, '|', Plain, cur), Scan(rest, '|', Plain, " ");
      all == ([cur + " "] + after.0, after.1)
  {
    var tail := " | " + rest;
    assert tail[0] == ' ' && tail[1..] == "| " + rest;
    assert ("| " + rest)[0] == '|' && ("| " + rest)[1..] == " " + rest;
    assert (" " + rest)[0] == ' ' && (" " + rest)[1..] == rest;
    assert Scan(tail, '|', Plain, cur) == Scan("| " + rest, '|', Plain, cur + " ");
    assert Scan(" " + rest, '|', Plain, "") == Scan(rest, '|', Plain, "" + " ");
    assert "" + " " == " ";
  }

  /** Past one record and the separator after it. */
  lemma ScanRecord(cur: string, s: string, rest: string)
    requires Compact(s) && Blank(cur)
    ensures var all, after := Scan(s + " | " + rest, '|', Plain, cur), Scan(rest, '|', Plain, " ");
      all.1 == after.1 && Chunks(all.0) == [s] + Chunks(after.0)
  {
    hide Through, Trim, Chunks, Scan;
    ScanThrough(s, " | " + rest, '|', Plain, cur);
    assert s + " | " + rest == s + (" | " + rest);
    ScanSeparator(cur + s, rest);
    TwoPiece(cur + s + " ", Scan(rest, '|', Plain, " ").0);
    TrimAround(cur, s, " ");
  }

  lemma TwoPiece(p: string, ps: seq<string>)
    ensures Chunks([p] + ps) == (if Trim(p) == "" then [] else [Trim(p)]) + Chunks(ps)
  {
    assert ([p] + ps)[1..] == ps;
  }

  lemma ScanLast(cur: string, s: string)
    requires Compact(s) && Blank(cur)
    ensures var (ps, end) := Scan(s, '|', Plain, cur); end == Plain && Chunks(ps) == [s]
  {
    hide Through, Trim;
    ScanThrough(s, "", '|', Plain, cur);
    assert s + "" == s;
    TrimAround(cur, s, "");
    assert cur + s + "" == cur + s;
  }

  lemma {:induction false} SplitFrom(cur: string, rs: seq<Record>)
    requires AllPrintable(rs) && rs != [] && Blank(cur)
    ensures var (ps, end) := Scan(RenderRecords(rs), '|', Plain, cur); end == Plain && Chunks(ps) == Rendered(rs)
    decreases |rs|
  {
    hide RenderRecord, Printable, Chunks, Scan, Compact;
    var s := RenderRecord(rs[0]);
    RecordIsCompact(rs[0]);
    if |rs| == 1 {
      ScanLast(cur, s);
    } else {
      assert AllPrintable(rs[1..]);
      ScanRecord(cur, s, RenderRecords(rs[1..]));
      SplitFrom(" ", rs[1..]);
    }
  }

  /** The records of a printed descriptor are split at exactly the right bars, those in strings left alone. */
  lemma SplitRoundTrip(rs: seq<Record>)
    requires AllPrintable(rs)
    ensures SplitRecords(RenderRecords(rs)) == Some(Rendered(rs))
  {
    hide RenderRecord, Printable;
    if rs == [] {
      assert Chunks([""]) == [];
    } else {
      hide Scan, Chunks, RenderRecords, Rendered;
      SplitFrom("", rs);
    }
  }

  // ---------------------------------------------------------------- the writer at the other end

  lemma AddOne(w: Writer, r: Record)
    requires Printable(r) && Append(w, r).1 == Ok
    ensures AddRecord(w, RenderRecord(r)) == (Append(w, r).0, Encoded([]))
  {
    hide RenderRecord, Printable, Append, RecordTokens, ToRecord;
    RecordRoundTrip(r);
  }

  lemma {:induction false} AddAll(rs: seq<Record>, k: nat)
    requires Sized(rs) && AllPrintable(rs) && k <= |rs|
    requires forall i :: 0 <= i < |rs| ==> Append(AppendAll(Fresh(MAX_DESCRIPTOR_BYTES), rs[..i]), rs[i]).1 == Ok
    ensures AllPrintable(rs[k..])
    ensures AddRecords(AppendAll(Fresh(MAX_DESCRIPTOR_BYTES), rs[..k]), Rendered(rs[k..])) ==
      (AppendAll(Fresh(MAX_DESCRIPTOR_BYTES), rs), Encoded([]))
    decreases |rs| - k
  {
    hide Printable, Append, AppendAll, RenderRecord, AddRecord;
    var f := Fresh(MAX_DESCRIPTOR_BYTES);
    if k == |rs| {
      assert rs[..k] == rs && rs[k..] == [];
    } else {
      var w := AppendAll(f, rs[..k]);
      AddOne(w, rs[k]);
      AddAll(rs, k + 1);
      assert rs[..k + 1] == rs[..k] + [rs[k]];
      AppendAllStep(f, rs[..k], rs[k]);
      assert rs[k..][0] == rs[k] && rs[k..][1..] == rs[k + 1..];
      var all := Rendered(rs[k..]);
      assert all[0] == RenderRecord(rs[k]) && all[1..] == Rendered(rs[k + 1..]);
    }
  }

  // ---------------------------------------------------------------- the law

  lemma ValidIsPrintable(blob: seq<byte>)
    requires Validate(blob).status == Ok
    ensures AllPrintable(Parse(blob).0)
  {
    hide Validate, Parse, Apart, Complete, EachOk;
    ValidIff(blob);
    AcceptedIsPrintable(Parse(blob).0);
  }

  datatype Printed = Printed(text: string) | NotValid(status: Status)

  /** The text of a blob, or why there is none. */
  function RenderDescriptor(blob: seq<byte>): Printed {
    if Validate(blob).status != Ok then NotValid(Validate(blob).status)
    else
      ValidIsPrintable(blob);
      Printed(RenderRecords(Parse(blob).0))
  }

  /** Printing and parsing are inverse on every blob the validator accepts. */
  lemma TextRoundTrip(blob: seq<byte>)
    requires Validate(blob).status == Ok
    ensures RenderDescriptor(blob).Printed? && EncodeDescriptor(RenderDescriptor(blob).text) == Encoded(blob)
  {
    hide Validate, Parse, Printable, AppendAll, Append, AddRecords, SplitRecords, RenderRecords, Rendered;
    var rs := Parse(blob).0;
    ValidIsPrintable(blob);
    ValidIff(blob);
    ValidIsRebuilt(blob, MAX_DESCRIPTOR_BYTES);
    SplitRoundTrip(rs);
    AddAll(rs, 0);
    assert rs[..0] == [] && rs[0..] == rs;
    AppendNothing(Fresh(MAX_DESCRIPTOR_BYTES));
  }

  /**
   * Whatever text is accepted, its blob has a text, and that text means the same: the printed form is the canonical
   * one.
   */
  lemma CanonicalForm(text: string)
    requires EncodeDescriptor(text).Encoded?
    ensures var blob := EncodeDescriptor(text).bytes;
      RenderDescriptor(blob).Printed? && EncodeDescriptor(RenderDescriptor(blob).text) == EncodeDescriptor(text)
  {
    hide Validate, Parse, AddRecords, SplitRecords, RenderDescriptor;
    TextRoundTrip(EncodeDescriptor(text).bytes);
  }
}
