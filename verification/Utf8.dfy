/** UTF-8 well-formedness: the lead-byte table accepts exactly the encodings of Unicode scalar values. */
module Utf8 {
  import opened Protocol

  // ---------------------------------------------------------------- the encoding, section 3 of RFC 3629

  /** A code point that is not a surrogate. */
  predicate Scalar(c: nat) {
    c < 0xD800 || 0xE000 <= c <= 0x10FFFF
  }

  function Tail(x: nat): byte {
    0x80 + x % 64
  }

  function Encode(c: nat): (s: seq<byte>)
    requires Scalar(c)
  {
    if c < 0x80 then [c]
    else if c < 0x800 then [0xC0 + c / 64, Tail(c)]
    else if c < 0x10000 then [0xE0 + c / 4096, Tail(c / 64), Tail(c)]
    else [0xF0 + c / 262144, Tail(c / 4096), Tail(c / 64), Tail(c)]
  }

  predicate Scalars(cs: seq<nat>) {
    forall c :: c in cs ==> Scalar(c)
  }

  function EncodeAll(cs: seq<nat>): seq<byte>
    requires Scalars(cs)
  {
    if cs == [] then [] else Encode(cs[0]) + EncodeAll(cs[1..])
  }

  // ---------------------------------------------------------------- the check, by lead byte

  /** How long a sequence with this lead byte is, and what its second byte may be; 0 for no lead byte. */
  datatype Lead = Lead(len: nat, lo: byte, hi: byte)

  function LeadOf(c: byte): Lead {
    if c < 0x80 then Lead(1, 0, 0)
    else if 0xC2 <= c <= 0xDF then Lead(2, 0x80, 0xBF)
    else if c == 0xE0 then Lead(3, 0xA0, 0xBF)
    else if 0xE0 < c <= 0xEC then Lead(3, 0x80, 0xBF)
    else if c == 0xED then Lead(3, 0x80, 0x9F)
    else if 0xED < c <= 0xEF then Lead(3, 0x80, 0xBF)
    else if c == 0xF0 then Lead(4, 0x90, 0xBF)
    else if 0xF0 < c <= 0xF3 then Lead(4, 0x80, 0xBF)
    else if c == 0xF4 then Lead(4, 0x80, 0x8F)
    else Lead(0, 0, 0)
  }

  /** One well-formed sequence at the front. */
  predicate WellFormed(s: seq<byte>) {
    s != [] &&
    var l := LeadOf(s[0]);
    && 1 <= l.len <= |s|
    && (l.len > 1 ==> l.lo <= s[1] <= l.hi)
    && forall k :: 2 <= k < l.len ==> 0x80 <= s[k] <= 0xBF
  }

  predicate Valid(s: seq<byte>)
    decreases |s|
  {
    s == [] || (WellFormed(s) && Valid(s[LeadOf(s[0]).len..]))
  }

  method Utf8Valid(s: seq<byte>) returns (ok: bool)
    ensures ok <==> Valid(s)
  {
    var i := 0;
    while i < |s|
      invariant 0 <= i <= |s| && (Valid(s) <==> Valid(s[i..]))
    {
      var c := s[i];
      assert s[i..][0] == c;
      if c < 0x80 {
        assert s[i..][1..] == s[i + 1..];
        i := i + 1;
        continue;
      }
      var len := 0;
      var lo, hi := 0x80, 0xBF;
      if 0xC2 <= c <= 0xDF {
        len := 2;
      } else if c == 0xE0 {
        len, lo := 3, 0xA0;
      } else if 0xE0 < c <= 0xEC {
        len := 3;
      } else if c == 0xED {
        len, hi := 3, 0x9F;
      } else if 0xED < c <= 0xEF {
        len := 3;
      } else if c == 0xF0 {
        len, lo := 4, 0x90;
      } else if 0xF0 < c <= 0xF3 {
        len := 4;
      } else if c == 0xF4 {
        len, hi := 4, 0x8F;
      } else {
        return false;
      }
      assert LeadOf(c) == Lead(len, lo, hi);
      if |s| - i < len { return false; }
      if s[i + 1] < lo || s[i + 1] > hi {
        assert s[i..][1] == s[i + 1];
        return false;
      }
      var k := 2;
      while k < len
        invariant 2 <= k <= len && forall j :: 2 <= j < k ==> 0x80 <= s[i..][j] <= 0xBF
      {
        assert s[i..][k] == s[i + k];
        if s[i + k] < 0x80 || s[i + k] > 0xBF { return false; }
        k := k + 1;
      }
      assert s[i..][1] == s[i + 1];
      assert WellFormed(s[i..]) && s[i..][len..] == s[i + len..];
      i := i + len;
    }
    return true;
  }

  // ---------------------------------------------------------------- one sequence, both ways

  /** What a byte adds above the bits that mark its class. */
  function Bits(b: byte, base: nat): nat {
    if b >= base then b as int - base else 0
  }

  /** Six bits at a time, lead byte first. */
  function Six(high: nat, b: byte): nat {
    64 * high + Bits(b, 0x80)
  }

  /** The code point a well-formed sequence stands for. */
  function CodePoint(s: seq<byte>): (c: nat)
    requires WellFormed(s)
    ensures Scalar(c)
  {
    var l := LeadOf(s[0]).len;
    if l == 1 then s[0]
    else if l == 2 then Six(Bits(s[0], 0xC0), s[1])
    else if l == 3 then Six(Six(Bits(s[0], 0xE0), s[1]), s[2])
    else Six(Six(Six(Bits(s[0], 0xF0), s[1]), s[2]), s[3])
  }

  lemma SixSplits(high: nat, b: byte)
    requires 0x80 <= b <= 0xBF
    ensures Six(high, b) / 64 == high && Tail(Six(high, b)) == b
  {
  }

  lemma Nested(c: nat)
    ensures c / 4096 == (c / 64) / 64 && c / 262144 == ((c / 64) / 64) / 64
  {
  }

  lemma EncodeForms(c: nat)
    requires Scalar(c)
    ensures 0x80 <= c < 0x800 ==> Encode(c) == [0xC0 + c / 64, Tail(c)]
    ensures 0x800 <= c < 0x10000 ==> Encode(c) == [0xE0 + c / 64 / 64, Tail(c / 64), Tail(c)]
    ensures 0x10000 <= c ==> Encode(c) == [0xF0 + c / 64 / 64 / 64, Tail(c / 64 / 64), Tail(c / 64), Tail(c)]
  {
    Nested(c);
  }

  lemma TwoRoundTrip(s: seq<byte>)
    requires WellFormed(s) && LeadOf(s[0]).len == 2
    ensures Encode(CodePoint(s)) == s[..2]
  {
    EncodeForms(CodePoint(s));
    SixSplits(Bits(s[0], 0xC0), s[1]);
    hide Encode, Tail;
  }

  lemma ThreeRoundTrip(s: seq<byte>)
    requires WellFormed(s) && LeadOf(s[0]).len == 3
    ensures Encode(CodePoint(s)) == s[..3]
  {
    EncodeForms(CodePoint(s));
    SixSplits(Six(Bits(s[0], 0xE0), s[1]), s[2]);
    SixSplits(Bits(s[0], 0xE0), s[1]);
    hide Encode, Tail;
  }

  lemma FourRoundTrip(s: seq<byte>)
    requires WellFormed(s) && LeadOf(s[0]).len == 4
    ensures Encode(CodePoint(s)) == s[..4]
  {
    EncodeForms(CodePoint(s));
    SixSplits(Six(Six(Bits(s[0], 0xF0), s[1]), s[2]), s[3]);
    SixSplits(Six(Bits(s[0], 0xF0), s[1]), s[2]);
    SixSplits(Bits(s[0], 0xF0), s[1]);
    hide Encode, Tail;
  }

  /** Encoding the code point gives the sequence back. */
  lemma CodePointRoundTrip(s: seq<byte>)
    requires WellFormed(s)
    ensures Encode(CodePoint(s)) == s[..LeadOf(s[0]).len]
  {
    var l := LeadOf(s[0]).len;
    if l == 2 {
      TwoRoundTrip(s);
    } else if l == 3 {
      ThreeRoundTrip(s);
    } else if l == 4 {
      FourRoundTrip(s);
    }
  }

  /** The table accepts every scalar value's encoding, and takes exactly it. */
  lemma EncodeIsWellFormed(c: nat, rest: seq<byte>)
    requires Scalar(c)
    ensures WellFormed(Encode(c) + rest) && LeadOf((Encode(c) + rest)[0]).len == |Encode(c)|
  {
    EncodeFits(c);
    hide LeadOf, Encode;
    var s, all := Encode(c), Encode(c) + rest;
    assert forall k :: 0 <= k < |s| ==> all[k] == s[k];
  }

  lemma EncodeFits(c: nat)
    requires Scalar(c)
    ensures var s := Encode(c); WellFormed(s) && LeadOf(s[0]).len == |s|
  {
    if c < 0x800 {
    } else if c < 0x10000 {
    } else {
    }
  }

  // ---------------------------------------------------------------- whole strings

  lemma {:induction false} EncodedIsValid(cs: seq<nat>)
    requires Scalars(cs)
    ensures Valid(EncodeAll(cs))
  {
    hide WellFormed, LeadOf, Encode;
    if cs != [] {
      EncodedIsValid(cs[1..]);
      EncodeIsWellFormed(cs[0], EncodeAll(cs[1..]));
      NotEmpty(cs[0]);
      assert EncodeAll(cs)[|Encode(cs[0])|..] == EncodeAll(cs[1..]);
    }
  }

  lemma NotEmpty(c: nat)
    requires Scalar(c)
    ensures Encode(c) != []
  {
  }

  function Decode(s: seq<byte>): (cs: seq<nat>)
    requires Valid(s)
    ensures Scalars(cs)
    decreases |s|
  {
    if s == [] then [] else [CodePoint(s)] + Decode(s[LeadOf(s[0]).len..])
  }

  lemma {:induction false} ValidIsEncoded(s: seq<byte>)
    requires Valid(s)
    ensures EncodeAll(Decode(s)) == s
    decreases |s|
  {
    hide LeadOf, Encode, CodePoint;
    if s != [] {
      var n := LeadOf(s[0]).len;
      ValidIsEncoded(s[n..]);
      CodePointRoundTrip(s);
      assert Decode(s)[1..] == Decode(s[n..]);
      assert s == s[..n] + s[n..];
    }
  }

  /** A byte string is accepted exactly when it encodes some sequence of Unicode scalar values. */
  lemma ValidIffEncodesScalars(s: seq<byte>)
    ensures Valid(s) <==> exists cs: seq<nat> :: Scalars(cs) && EncodeAll(cs) == s
  {
    hide Valid, EncodeAll, Decode;
    if Valid(s) {
      ValidIsEncoded(s);
      assert Scalars(Decode(s)) && EncodeAll(Decode(s)) == s;
    }
    if cs: seq<nat> :| Scalars(cs) && EncodeAll(cs) == s { EncodedIsValid(cs); }
  }
}
