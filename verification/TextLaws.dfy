/** Exactly which texts are hexadecimal bytes. */
module TextLaws {
  import opened Protocol
  import opened Text

  function Dense(text: string): string {
    if text == "" then "" else (if text[0] == ' ' then "" else [text[0]]) + Dense(text[1..])
  }

  predicate HexDigits(s: string) {
    forall c :: c in s ==> '0' <= c <= '9' || 'a' <= c <= 'f' || 'A' <= c <= 'F'
  }

  /** Two digits to the byte, the higher first. */
  predicate Spells(s: string, data: seq<byte>) {
    |s| == 2 * |data| && forall i :: 0 <= i < |data| ==>
      HexValue(s[2 * i]).Some? && HexValue(s[2 * i + 1]).Some? &&
      data[i] == 16 * HexValue(s[2 * i]).value + HexValue(s[2 * i + 1]).value
  }

  lemma DigitIff(c: char)
    ensures HexValue(c).Some? <==> '0' <= c <= '9' || 'a' <= c <= 'f' || 'A' <= c <= 'F'
  {
  }

  lemma {:induction false} BlanksIgnored(text: string, high: Option<nat>)
    requires high.Some? ==> high.value < 16
    ensures ParseHexFrom(text, high) == ParseHexFrom(Dense(text), high)
    decreases |text|
  {
    if text != "" {
      if text[0] == ' ' {
        assert "" + Dense(text[1..]) == Dense(text[1..]);
        BlanksIgnored(text[1..], high);
      } else {
        var d := [text[0]] + Dense(text[1..]);
        assert d[0] == text[0] && d[1..] == Dense(text[1..]);
        BlanksIgnored(text[1..], None);
        if HexValue(text[0]).Some? { BlanksIgnored(text[1..], HexValue(text[0])); }
      }
    }
  }

  lemma {:induction false} PairsParse(s: string)
    requires ' ' !in s
    ensures ParseHexFrom(s, None).Some? <==> HexDigits(s) && |s| % 2 == 0
    ensures ParseHexFrom(s, None).Some? ==> Spells(s, ParseHexFrom(s, None).value)
    decreases |s|
  {
    hide ParseHexFrom, HexValue, HexDigits, Spells;
    if |s| == 0 {
      assert s == "";
      Nothing();
    } else if |s| == 1 {
      assert s[0] in s && s == [s[0]];
      OneDigit(s[0]);
    } else {
      var rest := s[2..];
      assert s == [s[0], s[1]] + rest;
      PairsParse(rest);
      OnePair(s);
      TwoMore(s, rest);
      if ParseHexFrom(s, None).Some? { SpellsNext(s, ParseHexFrom(rest, None).value); }
    }
  }

  lemma Nothing()
    ensures ParseHexFrom("", None) == Some([]) && HexDigits("") && Spells("", [])
  {
  }

  lemma OneDigit(c: char)
    requires c != ' '
    ensures ParseHexFrom([c], None).None?
  {
    hide HexValue;
    assert [c][1..] == "";
  }

  lemma TwoMore(s: string, rest: string)
    requires |s| >= 2 && s == [s[0], s[1]] + rest
    ensures HexDigits(s) <==> HexValue(s[0]).Some? && HexValue(s[1]).Some? && HexDigits(rest)
  {
    DigitIff(s[0]);
    DigitIff(s[1]);
    assert s[0] in s && s[1] in s && forall c :: c in rest ==> c in s;
    hide HexValue;
  }

  lemma OnePair(s: string)
    requires |s| >= 2 && ' ' !in s
    ensures ParseHexFrom(s, None) ==
      if HexValue(s[0]).Some? && HexValue(s[1]).Some? && ParseHexFrom(s[2..], None).Some? then
        Some([HexValue(s[0]).value * 16 + HexValue(s[1]).value] + ParseHexFrom(s[2..], None).value)
      else None
  {
    assert s[0] in s && s[1] in s;
    assert s[1..][0] == s[1] && s[1..][1..] == s[2..];
  }

  lemma SpellsNext(s: string, data: seq<byte>)
    requires |s| >= 2 && Spells(s[2..], data) && HexValue(s[0]).Some? && HexValue(s[1]).Some?
    ensures Spells(s, [HexValue(s[0]).value * 16 + HexValue(s[1]).value] + data)
  {
    hide HexValue;
    var all: seq<byte> := [HexValue(s[0]).value * 16 + HexValue(s[1]).value] + data;
    forall i | 0 <= i < |all|
      ensures HexValue(s[2 * i]).Some? && HexValue(s[2 * i + 1]).Some? &&
        all[i] == 16 * HexValue(s[2 * i]).value + HexValue(s[2 * i + 1]).value
    {
      if i > 0 {
        assert s[2 * i] == s[2..][2 * (i - 1)] && s[2 * i + 1] == s[2..][2 * (i - 1) + 1] && all[i] == data[i - 1];
      }
    }
  }

  lemma {:induction false} NoBlanks(text: string)
    ensures ' ' !in Dense(text)
  {
    if text != "" { NoBlanks(text[1..]); }
  }

  /** Blanks anywhere aside, a text is bytes exactly when it is an even number of hexadecimal digits, of either case. */
  lemma HexIff(text: string)
    ensures ParseHex(text).Some? <==> HexDigits(Dense(text)) && |Dense(text)| % 2 == 0
    ensures ParseHex(text).Some? ==> Spells(Dense(text), ParseHex(text).value)
  {
    hide ParseHexFrom, Dense, HexDigits, Spells;
    BlanksIgnored(text, None);
    NoBlanks(text);
    PairsParse(Dense(text));
  }
}
