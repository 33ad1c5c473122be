/** Scalars of the canonical text: decimal and hexadecimal numbers, hex strings and quoted strings, both ways. */
module Text {
  import opened Protocol

  // ---------------------------------------------------------------- digits

  function Digit(n: nat, upper: bool): (c: char)
    requires n < 16
  {
    if n < 10 then '0' + n as char else if upper then 'A' + (n - 10) as char else 'a' + (n - 10) as char
  }

  function HexValue(c: char): (r: Option<nat>)
    ensures r.Some? ==> r.value < 16
  {
    if '0' <= c <= '9' then Some((c - '0') as nat)
    else if 'a' <= c <= 'f' then Some((c - 'a') as nat + 10)
    else if 'A' <= c <= 'F' then Some((c - 'A') as nat + 10)
    else None
  }

  lemma DigitIsValue(n: nat, upper: bool)
    requires n < 16
    ensures HexValue(Digit(n, upper)) == Some(n)
    ensures n < 10 ==> '0' <= Digit(n, upper) <= '9' && (Digit(n, upper) == '0' <==> n == 0)
  {
  }

  // ---------------------------------------------------------------- hex strings

  function HexByte(b: byte): (s: string)
    ensures |s| == 2
  {
    [Digit(b / 16, false), Digit(b % 16, false)]
  }

  function HexLower(data: seq<byte>): string {
    if data == [] then "" else HexByte(data[0]) + HexLower(data[1..])
  }

  /** Pairs of digits, spaces ignored; `high` is a digit still waiting for its partner. */
  function ParseHexFrom(text: string, high: Option<nat>): (r: Option<seq<byte>>)
    requires high.Some? ==> high.value < 16
    decreases |text|
  {
    if text == "" then if high.None? then Some([]) else None
    else if text[0] == ' ' then ParseHexFrom(text[1..], high)
    else
      var v := HexValue(text[0]);
      if v.None? then None
      else if high.None? then ParseHexFrom(text[1..], v)
      else
        var rest := ParseHexFrom(text[1..], None);
        if rest.None? then None else Some([high.value * 16 + v.value] + rest.value)
  }

  function ParseHex(text: string): Option<seq<byte>> {
    ParseHexFrom(text, None)
  }

  lemma HexByteParses(b: byte, rest: string)
    ensures ParseHexFrom(HexByte(b) + rest, None) ==
      var r := ParseHexFrom(rest, None); if r.None? then None else Some([b] + r.value)
  {
    DigitIsValue(b / 16, false);
    DigitIsValue(b % 16, false);
    var text := HexByte(b) + rest;
    assert text[0] == Digit(b / 16, false) && text[1..][0] == Digit(b % 16, false) && text[1..][1..] == rest;
    assert text[0] != ' ' && text[1] != ' ';
    assert ParseHexFrom(text, None) == ParseHexFrom(text[1..], Some(b / 16));
  }

  /** Printing bytes in hex and parsing them back. */
  lemma {:induction false} HexRoundTrip(data: seq<byte>)
    ensures ParseHex(HexLower(data)) == Some(data)
  {
    hide ParseHexFrom, HexByte;
    if data == [] {
      ParseNothing();
    } else {
      HexRoundTrip(data[1..]);
      HexByteParses(data[0], HexLower(data[1..]));
      assert data == [data[0]] + data[1..];
    }
  }

  lemma ParseNothing()
    ensures ParseHexFrom("", None) == Some([])
  {
  }

  // ---------------------------------------------------------------- quoted strings

  function QuoteByte(b: byte): (s: string)
    ensures 1 <= |s| <= 4
  {
    if b == 0x22 then "\\\""
    else if b == 0x5C then "\\\\"
    else if 0x20 <= b <= 0x7E then [b as char]
    else "\\x" + HexByte(b)
  }

  function QuoteBody(data: seq<byte>): string {
    if data == [] then "" else QuoteByte(data[0]) + QuoteBody(data[1..])
  }

  function Quote(data: seq<byte>): string {
    "\"" + QuoteBody(data) + "\""
  }

  /** The bytes between position `i` and the closing quote. */
  function UnquoteFrom(q: string, i: nat): (r: Option<seq<byte>>)
    requires i < |q|
    decreases |q| - i
  {
    if i + 1 >= |q| then Some([])
    else if q[i] != '\\' then Before([q[i] as int % 256], UnquoteFrom(q, i + 1))
    else if i + 2 >= |q| then None
    else if q[i + 1] == '"' || q[i + 1] == '\\' then Before([q[i + 1] as int % 256], UnquoteFrom(q, i + 2))
    else if q[i + 1] == 'x' && i + 4 < |q| then
      var b := ParseHex(q[i + 2..i + 4]);
      if b.None? || |b.value| != 1 then None else Before(b.value, UnquoteFrom(q, i + 4))
    else None
  }

  function Before(a: seq<byte>, r: Option<seq<byte>>): Option<seq<byte>> {
    if r.None? then None else Some(a + r.value)
  }

  function Unquote(q: string): Option<seq<byte>> {
    if |q| < 2 || q[0] != '"' || q[|q| - 1] != '"' then None else UnquoteFrom(q, 1)
  }

  /** What the scanner sees of a string that starts `i` characters in. */
  lemma Around(pre: string, s: string, rest: string)
    ensures var q := pre + s + rest;
      |q| == |pre| + |s| + |rest| && q[|pre|..|pre| + |s|] == s && forall k :: 0 <= k < |s| ==> q[|pre| + k] == s[k]
  {
  }

  lemma UnquotePlain(q: string, i: nat, b: byte)
    requires i + 1 < |q| && 0x20 <= b <= 0x7E && b != 0x22 && b != 0x5C && q[i] == b as char
    ensures UnquoteFrom(q, i) == Before([b], UnquoteFrom(q, i + 1))
  {
  }

  lemma UnquoteEscape(q: string, i: nat, b: byte)
    requires i + 2 < |q| && (b == 0x22 || b == 0x5C) && q[i] == '\\' && q[i + 1] == b as char
    ensures UnquoteFrom(q, i) == Before([b], UnquoteFrom(q, i + 2))
  {
  }

  lemma UnquoteHex(q: string, i: nat, b: byte)
    requires i + 4 < |q| && q[i] == '\\' && q[i + 1] == 'x' && q[i + 2..i + 4] == HexByte(b)
    ensures UnquoteFrom(q, i) == Before([b], UnquoteFrom(q, i + 4))
  {
    hide ParseHexFrom, HexByte;
    HexByteParses(b, "");
    ParseNothing();
    assert HexByte(b) + "" == HexByte(b) && [b] + [] == [b];
  }

  lemma UnquoteByte(pre: string, b: byte, rest: string)
    requires rest != ""
    ensures var q := pre + QuoteByte(b) + rest;
      UnquoteFrom(q, |pre|) == Before([b], UnquoteFrom(q, |pre| + |QuoteByte(b)|))
  {
    hide UnquoteFrom, HexByte;
    var q, i := pre + QuoteByte(b) + rest, |pre|;
    Around(pre, QuoteByte(b), rest);
    if b == 0x22 || b == 0x5C {
      UnquoteEscape(q, i, b);
    } else if 0x20 <= b <= 0x7E {
      UnquotePlain(q, i, b);
    } else {
      assert q[i + 2..i + 4] == q[i..i + 4][2..4] == HexByte(b);
      UnquoteHex(q, i, b);
    }
  }

  lemma {:induction false} UnquoteRest(pre: string, data: seq<byte>)
    ensures UnquoteFrom(pre + QuoteBody(data) + "\"", |pre|) == Some(data)
    decreases |data|
  {
    hide QuoteByte;
    if data == [] {
      assert pre + "" + "\"" == pre + "\"";
    } else {
      var b, rest := data[0], QuoteBody(data[1..]) + "\"";
      UnquoteByte(pre, b, rest);
      UnquoteRest(pre + QuoteByte(b), data[1..]);
      assert pre + (QuoteByte(b) + QuoteBody(data[1..])) + "\"" == pre + QuoteByte(b) + rest;
      assert pre + QuoteByte(b) + QuoteBody(data[1..]) + "\"" == pre + QuoteByte(b) + rest;
      assert data == [b] + data[1..];
    }
  }

  /** Any bytes at all, quotes, backslashes and non-ASCII included, survive quoting. */
  lemma QuoteRoundTrip(data: seq<byte>)
    ensures Unquote(Quote(data)) == Some(data)
  {
    hide QuoteBody, UnquoteFrom;
    UnquoteRest("\"", data);
  }

  // ---------------------------------------------------------------- numbers

  function Dec(n: nat): string {
    if n < 10 then [Digit(n, true)] else Dec(n / 10) + [Digit(n % 10, true)]
  }

  function Hex2(n: nat): string
    requires n < 256
  {
    "0x" + [Digit(n / 16, true), Digit(n % 16, true)]
  }

  function Hex4(n: nat): string
    requires n < 65536
  {
    "0x" + [Digit(n / 16 / 16 / 16, true), Digit(n / 16 / 16 % 16, true), Digit(n / 16 % 16, true), Digit(n % 16, true)]
  }

  predicate Space(c: char) {
    c == ' ' || '\t' <= c <= '\r' || c == 0 as char
  }

  /** The value of a string of digits in a base; nothing for an empty string or a foreign digit. */
  function Number(s: string, base: nat): Option<nat> {
    if s == "" then None
    else
      var last := HexValue(s[|s| - 1]);
      if last.None? || last.value >= base then None
      else if |s| == 1 then last
      else
        var high := Number(s[..|s| - 1], base);
        if high.None? then None else Some(high.value * base + last.value)
  }

  const UINT_MAX: nat := 0xFFFFFFFF

  /** Decimal without leading zeros, or 0x and hexadecimal; an optional plus sign. */
  function ParseUint(tok: string): Option<nat> {
    if tok == "" || tok[0] == '-' || (exists c :: c in tok && Space(c)) then None
    else
      var body := if tok[0] == '+' then tok[1..] else tok;
      var v :=
        if |body| > 2 && body[0] == '0' && (body[1] == 'x' || body[1] == 'X') then Number(body[2..], 16)
        else if |body| > 1 && body[0] == '0' && (exists c :: c in body && c != '0') then None
        else Number(body, 10);
      if v.None? || v.value > UINT_MAX then None else v
  }

  predicate Digits(s: string) {
    forall c :: c in s ==> '0' <= c <= '9'
  }

  lemma {:induction false} DecParses(n: nat)
    ensures Number(Dec(n), 10) == Some(n) && Digits(Dec(n)) && Dec(n) != ""
    ensures n > 0 ==> Dec(n)[0] != '0'
    ensures n < 10 ==> |Dec(n)| == 1
  {
    if n < 10 {
      DigitIsValue(n, true);
    } else {
      DecParses(n / 10);
      DigitIsValue(n % 10, true);
      var high := Dec(n / 10);
      assert Dec(n)[..|high|] == high;
      assert n == (n / 10) * 10 + n % 10;
    }
  }

  lemma DecRoundTrip(n: nat)
    requires n <= UINT_MAX
    ensures ParseUint(Dec(n)) == Some(n)
  {
    DecParses(n);
    hide Dec, Number;
    var s := Dec(n);
    assert s[0] in s;
  }

  /** A hexadecimal token parses to what its digits stand for. */
  lemma HexToken(s: string)
    requires s != "" && Number(s, 16).Some? && Number(s, 16).value <= UINT_MAX
    requires forall c :: c in s ==> !Space(c)
    ensures ParseUint("0x" + s) == Number(s, 16)
  {
    hide Number;
    var tok := "0x" + s;
    assert tok[2..] == s && tok[0] == '0' && tok[1] == 'x';
    assert forall c :: c in tok ==> c == '0' || c == 'x' || c in s;
  }

  lemma TwoDigits(a: nat, b: nat)
    requires a < 16 && b < 16
    ensures Number([Digit(a, true), Digit(b, true)], 16) == Some(a * 16 + b)
  {
    DigitIsValue(a, true);
    DigitIsValue(b, true);
    assert [Digit(a, true), Digit(b, true)][..1] == [Digit(a, true)];
  }

  lemma FourDigits(a: nat, b: nat, c: nat, d: nat)
    requires a < 16 && b < 16 && c < 16 && d < 16
    ensures Number([Digit(a, true), Digit(b, true), Digit(c, true), Digit(d, true)],
      16) == Some(((a * 16 + b) * 16 + c) * 16 + d)
  {
    var s := [Digit(a, true), Digit(b, true), Digit(c, true), Digit(d, true)];
    TwoDigits(a, b);
    DigitIsValue(c, true);
    DigitIsValue(d, true);
    assert s[..3][..2] == [Digit(a, true), Digit(b, true)];
    assert Number(s[..3], 16) == Some((a * 16 + b) * 16 + c);
  }

  lemma DigitIsNoSpace(n: nat)
    requires n < 16
    ensures !Space(Digit(n, true))
  {
  }

  lemma Hex2RoundTrip(n: nat)
    requires n < 256
    ensures ParseUint(Hex2(n)) == Some(n)
  {
    TwoDigits(n / 16, n % 16);
    DigitIsNoSpace(n / 16);
    DigitIsNoSpace(n % 16);
    HexToken([Digit(n / 16, true), Digit(n % 16, true)]);
  }

  lemma Hex4RoundTrip(n: nat)
    requires n < 65536
    ensures ParseUint(Hex4(n)) == Some(n)
  {
    var a, b, c, d := n / 16 / 16 / 16, n / 16 / 16 % 16, n / 16 % 16, n % 16;
    assert n == ((a * 16 + b) * 16 + c) * 16 + d;
    hide Digit, Number, Space, ParseUint;
    FourDigits(a, b, c, d);
    DigitIsNoSpace(a);
    DigitIsNoSpace(b);
    DigitIsNoSpace(c);
    DigitIsNoSpace(d);
    HexToken([Digit(a, true), Digit(b, true), Digit(c, true), Digit(d, true)]);
  }
}
