/** Exactly which texts encode, and to what. */
module CanonicalTexts {
  import opened Protocol
  import opened Text
  import opened Descriptor
  import opened DescriptorRules
  import opened Canonical
  import opened CanonicalReads
  import DescriptorLaws

  // ---------------------------------------------------------------- keys and values

  /** A token's key is what stands before its first '=', its value all that stands behind. */
  predicate Splits(tok: string, key: string, value: string) {
    '=' !in key && tok == key + "=" + value
  }

  lemma {:induction false} EqualsIsFirst(tok: string)
    ensures var i := EqualsAt(tok); (forall k :: 0 <= k < i ==> tok[k] != '=') && (i < |tok| ==> tok[i] == '=')
  {
    if tok != "" && tok[0] != '=' { EqualsIsFirst(tok[1..]); }
  }

  lemma CutAt(tok: string, i: nat)
    requires i < |tok| && tok[i] == '=' && forall k :: 0 <= k < i ==> tok[k] != '='
    ensures '=' in tok && Splits(tok, tok[..i], tok[i + 1..])
  {
    var eq := [tok[i]];
    assert eq == "=";
    assert tok == tok[..i] + eq + tok[i + 1..];
  }

  lemma FirstEquals(tok: string)
    ensures EqualsAt(tok) < |tok| <==> '=' in tok
    ensures EqualsAt(tok) < |tok| ==> Splits(tok, tok[..EqualsAt(tok)], tok[EqualsAt(tok) + 1..])
  {
    EqualsIsFirst(tok);
    hide EqualsAt, Splits;
    if EqualsAt(tok) < |tok| {
      CutAt(tok, EqualsAt(tok));
    }
  }

  function KeyOf(tok: string): string {
    tok[..EqualsAt(tok)]
  }

  predicate HasKey(toks: seq<string>, key: string) {
    exists i :: 0 <= i < |toks| && KeyOf(toks[i]) == key
  }

  /** Every token has a key and a value, and no key comes twice or is already there. */
  predicate Keyed(toks: seq<string>, kv: map<string, string>) {
    && (forall i :: 0 <= i < |toks| ==> '=' in toks[i] && KeyOf(toks[i]) !in kv)
    && (forall i, j :: 0 <= i < j < |toks| ==> KeyOf(toks[i]) != KeyOf(toks[j]))
  }

  lemma {:induction false} KeyValuesIff(toks: seq<string>, kv: map<string, string>)
    ensures KeyValues(toks, kv).Some? <==> Keyed(toks, kv)
    ensures KeyValues(toks, kv).Some? ==>
      && (forall k :: k in kv ==> k in KeyValues(toks, kv).value && KeyValues(toks, kv).value[k] == kv[k])
      && (forall i :: 0 <= i < |toks| ==> KeyOf(toks[i]) in KeyValues(toks, kv).value)
      && (forall i :: 0 <= i < |toks| ==> Splits(toks[i], KeyOf(toks[i]), KeyValues(toks, kv).value[KeyOf(toks[i])]))
      && (forall k :: k in KeyValues(toks, kv).value ==> k in kv || HasKey(toks, k))
    decreases |toks|
  {
    hide EqualsAt, Splits;
    if toks != [] {
      FirstEquals(toks[0]);
      var i := EqualsAt(toks[0]);
      if i < |toks[0]| && toks[0][..i] !in kv {
        var kv1 := kv[toks[0][..i] := toks[0][i + 1..]];
        KeyValuesIff(toks[1..], kv1);
        KeyedNext(toks, kv, kv1);
      }
    }
  }

  lemma KeyedNext(toks: seq<string>, kv: map<string, string>, kv1: map<string, string>)
    requires toks != [] && '=' in toks[0] && KeyOf(toks[0]) !in kv && kv1.Keys == kv.Keys + {KeyOf(toks[0])}
    ensures Keyed(toks, kv) <==> Keyed(toks[1..], kv1)
    ensures forall k :: HasKey(toks, k) <==> k == KeyOf(toks[0]) || HasKey(toks[1..], k)
  {
    hide KeyOf;
    var rest := toks[1..];
    forall i | 0 <= i < |rest| ensures rest[i] == toks[i + 1] {
    }
    forall i | 1 <= i < |toks| ensures toks[i] == rest[i - 1] {
    }
    assert Keyed(toks, kv) ==> Keyed(rest, kv1);
    if Keyed(rest, kv1) {
      forall i, j | 0 <= i < j < |toks| ensures KeyOf(toks[i]) != KeyOf(toks[j]) {
        assert toks[j] == rest[j - 1];
        if i > 0 { assert toks[i] == rest[i - 1]; }
      }
    }
  }

  // ---------------------------------------------------------------- a whole text

  /** The record a piece of text is, if it is one. */
  function ReadRecord(chunk: string): Option<Record> {
    var toks := RecordTokens(chunk);
    if toks.Some? && WellMade(toks.value.name, toks.value.kv) then Some(Made(toks.value.name, toks.value.kv)) else None
  }

  function ReadAll(chunks: seq<string>): Option<seq<Record>> {
    if chunks == [] then Some([])
    else
      var first, rest := ReadRecord(chunks[0]), ReadAll(chunks[1..]);
      if first.Some? && rest.Some? then Some([first.value] + rest.value) else None
  }

  lemma AddOne(w: Writer, chunk: string)
    ensures var (w', e) := AddRecord(w, chunk); var r := ReadRecord(chunk);
      && (r.Some? ==> |r.value.value| < 256)
      && (e.Encoded? <==> r.Some? && Append(w, r.value).1 == Ok)
      && (e.Encoded? ==> w' == Append(w, r.value).0)
  {
    hide Append, WellMade, Made, ToRecord, RecordTokens;
    var toks := RecordTokens(chunk);
    if toks.Some? { ReadsExactly(toks.value); }
  }

  /** These records can stand in one descriptor, in this order, and fit. */
  predicate CanStand(rs: seq<Record>) {
    Sized(rs) && SeenAfter(rs).Some? && |Blob(rs)| <= MAX_DESCRIPTOR_BYTES
  }

  lemma AppendIff(w: Writer, done: seq<Record>, r: Record)
    requires Sized(done) && |r.value| < 256 && Holds(w, MAX_DESCRIPTOR_BYTES, done) && |w.bytes| <= w.cap
    ensures Append(w, r).1 == Ok <==> CanStand(done + [r])
    ensures Append(w, r).1 == Ok ==>
      Holds(Append(w, r).0, MAX_DESCRIPTOR_BYTES, done + [r]) && |Append(w, r).0.bytes| <= w.cap
  {
    hide Admit;
    assert (done + [r])[..|done|] == done;
    BlobBack(done + [r]);
  }

  lemma StandsNot(done: seq<Record>, rest: seq<Record>)
    requires !CanStand(done) && Sized(done)
    ensures !CanStand(done + rest)
  {
    hide Blob, SeenAfter;
    assert (done + rest)[..|done|] == done;
    if Sized(done + rest) { BlobGrows(done + rest, |done|); }
    if SeenAfter(done).None? { NeverAdmitted(done + rest, |done|); }
  }

  lemma {:induction false} AddAllIff(w: Writer, chunks: seq<string>, done: seq<Record>)
    requires Sized(done) && Holds(w, MAX_DESCRIPTOR_BYTES, done) && |w.bytes| <= w.cap
    ensures var (w', e) := AddRecords(w, chunks); var rs := ReadAll(chunks);
      && (e.Encoded? ==> rs.Some? && Sized(done + rs.value) && w'.bytes == Blob(done + rs.value))
      && (e.Encoded? <==> rs.Some? && (chunks == [] || CanStand(done + rs.value)))
    decreases |chunks|
  {
    hide AddRecord, ReadRecord, Append, CanStand, Blob, SeenAfter;
    if chunks == [] {
      assert done + [] == done;
    } else {
      AddOne(w, chunks[0]);
      var r := ReadRecord(chunks[0]);
      if r.Some? {
        AppendIff(w, done, r.value);
        if AddRecord(w, chunks[0]).1.Encoded? {
          AddAllIff(Append(w, r.value).0, chunks[1..], done + [r.value]);
        }
        var rest := ReadAll(chunks[1..]);
        if rest.Some? {
          assert done + ([r.value] + rest.value) == (done + [r.value]) + rest.value;
          if !CanStand(done + [r.value]) { StandsNot(done + [r.value], rest.value); }
          if rest.value == [] { assert done + [r.value] + [] == done + [r.value]; }
        }
      }
    }
  }

  lemma ValidStands(rs: seq<Record>)
    requires Sized(rs) && Validate(Blob(rs)).status == Ok
    ensures CanStand(rs)
  {
    hide Validate, Declared, Complete, Blob, SeenAfter;
    ParseOfBlob(rs);
    ValidIff(Blob(rs));
    AdmittedIffDeclared(rs);
  }

  lemma NothingHeld()
    ensures Holds(Fresh(MAX_DESCRIPTOR_BYTES), MAX_DESCRIPTOR_BYTES, [])
  {
    NoBlob();
  }

  /**
   * A text encodes exactly when its quotes are closed, every piece between bars is a well-made record, and the records
   * are a proper descriptor of at most 2048 bytes; it encodes to their bytes.
   */
  lemma EncodesIff(text: string)
    ensures var e, chunks := EncodeDescriptor(text), SplitRecords(text);
      && (e.Encoded? <==>
        chunks.Some? && ReadAll(chunks.value).Some? && var rs := ReadAll(chunks.value).value;
          Sized(rs) && |Blob(rs)| <= 2048 && DescriptorLaws.Proper(rs))
      && (e.Encoded? ==> Sized(ReadAll(chunks.value).value) && e.bytes == Blob(ReadAll(chunks.value).value))
  {
    hide SplitRecords, AddRecords, ReadAll, Validate, Blob, DescriptorLaws.Proper, Holds, CanStand;
    var chunks := SplitRecords(text);
    if chunks.Some? {
      NothingHeld();
      AddAllIff(Fresh(MAX_DESCRIPTOR_BYTES), chunks.value, []);
      var read := ReadAll(chunks.value);
      if read.Some? && Sized(read.value) {
        var rs := read.value;
        assert [] + rs == rs;
        BlobIsValid(rs);
        if Validate(Blob(rs)).status == Ok { ValidStands(rs); }
      }
    }
  }

  lemma BlobIsValid(rs: seq<Record>)
    requires Sized(rs)
    ensures Validate(Blob(rs)).status == Ok <==> |Blob(rs)| <= 2048 && DescriptorLaws.Proper(rs)
  {
    hide Validate, DescriptorLaws.Proper, Declared, Complete, Blob;
    ParseOfBlob(rs);
    ValidIff(Blob(rs));
    DescriptorLaws.ProperIs(rs);
  }
}
