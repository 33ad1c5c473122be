/** Bytes and texts the project publishes, reproduced. */
module GoldenVectors {
  import opened Protocol
  import Crc16
  import opened Frame
  import opened Text

  // ---------------------------------------------------------------- the CRC

  /** One byte of a message further. */
  lemma Next(d: seq<byte>, i: nat, c: bv16, c': bv16)
    requires i < |d| && Crc16.Crc(d[..i]) == c && Crc16.Feed(c, d[i]) == c'
    ensures Crc16.Crc(d[..i + 1]) == c'
  {
    hide Crc16.Feed;
    assert d[..i + 1][..i] == d[..i];
  }

  lemma NoBytes(d: seq<byte>)
    ensures Crc16.Crc(d[..0]) == 0xFFFF && d[..|d|] == d
  {
  }

  lemma CheckValueSteps()
    ensures Crc16.Feed(0xFFFF, 0x31) == 0xC782
    ensures Crc16.Feed(0xC782, 0x32) == 0x3DBA
    ensures Crc16.Feed(0x3DBA, 0x33) == 0x5BCE
    ensures Crc16.Feed(0x5BCE, 0x34) == 0x5349
    ensures Crc16.Feed(0x5349, 0x35) == 0x4560
    ensures Crc16.Feed(0x4560, 0x36) == 0x2EF4
    ensures Crc16.Feed(0x2EF4, 0x37) == 0x7718
    ensures Crc16.Feed(0x7718, 0x38) == 0xA12B
    ensures Crc16.Feed(0xA12B, 0x39) == 0x29B1
  {
  }

  /** The published check value: the CRC of "123456789". */
  lemma CheckValue()
    ensures Crc16.Crc([0x31, 0x32, 0x33, 0x34, 0x35, 0x36, 0x37, 0x38, 0x39]) == 0x29B1
  {
    hide Crc16.Crc, Crc16.Feed;
    var d: seq<byte> := [0x31, 0x32, 0x33, 0x34, 0x35, 0x36, 0x37, 0x38, 0x39];
    CheckValueSteps();
    NoBytes(d);
    Next(d, 0, 0xFFFF, 0xC782); Next(d, 1, 0xC782, 0x3DBA); Next(d, 2, 0x3DBA, 0x5BCE); Next(d, 3, 0x5BCE, 0x5349);
    Next(d, 4, 0x5349, 0x4560); Next(d, 5, 0x4560, 0x2EF4); Next(d, 6, 0x2EF4, 0x7718); Next(d, 7, 0x7718, 0xA12B);
    Next(d, 8, 0xA12B, 0x29B1);
  }

  // ---------------------------------------------------------------- frames

  lemma {:induction false} NothingToStuff(data: seq<byte>)
    requires FLAG !in data && ESC !in data
    ensures Stuff(data) == data
  {
    if data != [] { NothingToStuff(data[..|data| - 1]); }
  }

  lemma WireIs(f: Fields, d: seq<byte>, lo: byte, hi: byte)
    requires |f.payload| < 256 && Body(f) == d && Crc16.Lo(Crc16.Crc(d)) == lo && Crc16.Hi(Crc16.Crc(d)) == hi
    requires FLAG !in d + [lo, hi] && ESC !in d + [lo, hi]
    ensures Encode(f) == [0x7E] + d + [lo, hi] + [0x7E]
  {
    hide Crc16.Crc, Stuff, Body;
    NothingToStuff(d + [lo, hi]);
    assert [0x7E] + (d + [lo, hi]) + [0x7E] == [0x7E] + d + [lo, hi] + [0x7E];
  }

  /** What has to be escaped, and how. */
  lemma Escapes()
    ensures Stuff([0x7E, 0x7D]) == [0x7D, 0x5E, 0x7D, 0x5D]
  {
    assert [0x7E, 0x7D][..1] == [0x7E] && [0x7E][..0] == [];
    assert Stuff([0x7E]) == [] + [0x7D, 0x5E] == [0x7D, 0x5E];
    assert Stuff([0x7E, 0x7D]) == Stuff([0x7E]) + [0x7D, 0x5D];
  }

  lemma PingRequestSteps()
    ensures Crc16.Feed(0xFFFF, 0x01) == 0xF1D1
    ensures Crc16.Feed(0xF1D1, 0x00) == 0x2E3E
    ensures Crc16.Feed(0x2E3E, 0x00) == 0xFBAC
    ensures Crc16.Feed(0xFBAC, 0x05) == 0xA2D1
    ensures Crc16.Feed(0xA2D1, 0x01) == 0x5489
    ensures Crc16.Feed(0x5489, 0x01) == 0x8350
    ensures Crc16.Feed(0x8350, 0x00) == 0xF1EB
    ensures Crc16.Feed(0xF1EB, 0x00) == 0x143E
    ensures Crc16.Feed(0x143E, 0x00) == 0x6CB5
  {
  }

  /** A request as it goes out: tests/vectors/frame_ping_req.json. */
  lemma PingRequest()
    ensures Encode(Fields(1, 0, false, false, 0, [0x01, 0x01, 0x00, 0x00, 0x00])) ==
      [0x7E, 0x01, 0x00, 0x00, 0x05, 0x01, 0x01, 0x00, 0x00, 0x00, 0xB5, 0x6C, 0x7E]
  {
    hide Crc16.Crc, Crc16.Feed, Stuff;
    var d: seq<byte> := [0x01, 0x00, 0x00, 0x05, 0x01, 0x01, 0x00, 0x00, 0x00];
    PingRequestSteps();
    NoBytes(d);
    Next(d, 0, 0xFFFF, 0xF1D1); Next(d, 1, 0xF1D1, 0x2E3E); Next(d, 2, 0x2E3E, 0xFBAC); Next(d, 3, 0xFBAC, 0xA2D1);
    Next(d, 4, 0xA2D1, 0x5489); Next(d, 5, 0x5489, 0x8350); Next(d, 6, 0x8350, 0xF1EB); Next(d, 7, 0xF1EB, 0x143E);
    Next(d, 8, 0x143E, 0x6CB5);
    var f := Fields(1, 0, false, false, 0, [0x01, 0x01, 0x00, 0x00, 0x00]);
    assert Body(f) == d;
    assert Crc16.Lo(0x6CB5) == 0xB5 && Crc16.Hi(0x6CB5) == 0x6C;
    hide Body, Crc16.Lo, Crc16.Hi, Ctrl;
    WireIs(f, d, 0xB5, 0x6C);
  }

  lemma PingResponseSteps()
    ensures Crc16.Feed(0xFFFF, 0x00) == 0xE1F0
    ensures Crc16.Feed(0xE1F0, 0x01) == 0x0D2E
    ensures Crc16.Feed(0x0D2E, 0x51) == 0xB579
    ensures Crc16.Feed(0xB579, 0x05) == 0xDEDB
    ensures Crc16.Feed(0xDEDB, 0x01) == 0xE192
    ensures Crc16.Feed(0xE192, 0x01) == 0x6F2E
    ensures Crc16.Feed(0x6F2E, 0x00) == 0xB349
    ensures Crc16.Feed(0xB349, 0x01) == 0xCE99
    ensures Crc16.Feed(0xCE99, 0x00) == 0xA182
  {
  }

  /** A response, with its number: tests/vectors/frame_response.json. */
  lemma PingResponse()
    ensures Encode(Fields(0, 1, true, false, 5, [0x01, 0x01, 0x00, 0x01, 0x00])) ==
      [0x7E, 0x00, 0x01, 0x51, 0x05, 0x01, 0x01, 0x00, 0x01, 0x00, 0x82, 0xA1, 0x7E]
  {
    hide Crc16.Crc, Crc16.Feed, Stuff;
    var d: seq<byte> := [0x00, 0x01, 0x51, 0x05, 0x01, 0x01, 0x00, 0x01, 0x00];
    PingResponseSteps();
    NoBytes(d);
    Next(d, 0, 0xFFFF, 0xE1F0); Next(d, 1, 0xE1F0, 0x0D2E); Next(d, 2, 0x0D2E, 0xB579); Next(d, 3, 0xB579, 0xDEDB);
    Next(d, 4, 0xDEDB, 0xE192); Next(d, 5, 0xE192, 0x6F2E); Next(d, 6, 0x6F2E, 0xB349); Next(d, 7, 0xB349, 0xCE99);
    Next(d, 8, 0xCE99, 0xA182);
    var f := Fields(0, 1, true, false, 5, [0x01, 0x01, 0x00, 0x01, 0x00]);
    assert Body(f) == d;
    assert Crc16.Lo(0xA182) == 0x82 && Crc16.Hi(0xA182) == 0xA1;
    hide Body, Crc16.Lo, Crc16.Hi, Ctrl;
    WireIs(f, d, 0x82, 0xA1);
  }

  lemma LastRetrySteps()
    ensures Crc16.Feed(0xFFFF, 0x01) == 0xF1D1
    ensures Crc16.Feed(0xF1D1, 0x00) == 0x2E3E
    ensures Crc16.Feed(0x2E3E, 0xF2) == 0x34F1
    ensures Crc16.Feed(0x34F1, 0x05) == 0xD772
    ensures Crc16.Feed(0xD772, 0x01) == 0xD9BB
    ensures Crc16.Feed(0xD9BB, 0x01) == 0xF175
    ensures Crc16.Feed(0xF175, 0x00) == 0x8A3E
    ensures Crc16.Feed(0x8A3E, 0x00) == 0x0EC2
    ensures Crc16.Feed(0x0EC2, 0x00) == 0x23CE
  {
  }

  /** The retry bit and the highest number: tests/vectors/frame_retry.json. */
  lemma LastRetry()
    ensures Encode(Fields(1, 0, false, true, 15, [0x01, 0x01, 0x00, 0x00, 0x00])) ==
      [0x7E, 0x01, 0x00, 0xF2, 0x05, 0x01, 0x01, 0x00, 0x00, 0x00, 0xCE, 0x23, 0x7E]
  {
    hide Crc16.Crc, Crc16.Feed, Stuff;
    var d: seq<byte> := [0x01, 0x00, 0xF2, 0x05, 0x01, 0x01, 0x00, 0x00, 0x00];
    LastRetrySteps();
    NoBytes(d);
    Next(d, 0, 0xFFFF, 0xF1D1); Next(d, 1, 0xF1D1, 0x2E3E); Next(d, 2, 0x2E3E, 0x34F1); Next(d, 3, 0x34F1, 0xD772);
    Next(d, 4, 0xD772, 0xD9BB); Next(d, 5, 0xD9BB, 0xF175); Next(d, 6, 0xF175, 0x8A3E); Next(d, 7, 0x8A3E, 0x0EC2);
    Next(d, 8, 0x0EC2, 0x23CE);
    var f := Fields(1, 0, false, true, 15, [0x01, 0x01, 0x00, 0x00, 0x00]);
    assert Body(f) == d;
    assert Crc16.Lo(0x23CE) == 0xCE && Crc16.Hi(0x23CE) == 0x23;
    hide Body, Crc16.Lo, Crc16.Hi, Ctrl;
    WireIs(f, d, 0xCE, 0x23);
  }

  // ---------------------------------------------------------------- scalars of the canonical text

  /** As they stand in tests/vectors/descriptor_sample.json. */
  lemma Numbers()
    ensures Dec(0) == "0" && Dec(4095) == "4095"
    ensures Dec(20) == "20"
  {
    assert Dec(4095) == Dec(409) + "5" && Dec(409) == Dec(40) + "9" && Dec(40) == Dec(4) + "0";
  }

  lemma HexNumbers()
    ensures Hex2(0xFF) == "0xFF" && Hex2(0x03) == "0x03" && Hex4(0x1234) == "0x1234" && Hex4(0x0103) == "0x0103"
    ensures HexLower([0x00, 0x7F, 0xA9]) == "007fa9"
  {
  }

  /** Printable bytes stand for themselves; a quote, a backslash and all others are escaped. */
  lemma Quoted()
    ensures Quote([0x4D, 0x69, 0x64]) == "\"Mid\""
    ensures QuoteByte(0x22) == "\\\"" && QuoteByte(0x5C) == "\\\\"
    ensures QuoteByte(0x0A) == "\\x0a" && QuoteByte(0xE9) == "\\xe9"
  {
  }
}
