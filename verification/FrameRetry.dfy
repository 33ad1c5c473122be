/** The retry bit can lengthen a frame: it changes the CRC, and with it what needs escaping. */
module FrameRetry {
  import opened Protocol
  import C = Crc16
  import opened Frame

  lemma Fed(c: bv16, b: byte, s: seq<bv16>)
    requires |s| == 9 && C.Mix(c, b) == s[0] && forall i :: 0 <= i < 8 ==> C.Shift(s[i]) == s[i + 1]
    ensures C.Feed(c, b) == s[8]
  {
    hide C.Shift, C.Mix;
    var i := 0;
    while i < 8
      invariant 0 <= i <= 8 && C.Shifts(s[0], i) == s[i]
    {
      i := i + 1;
    }
  }

  lemma DestinationFed()
    ensures C.Feed(0xFFFF, 3) == 0xD193
  {
    var s: seq<bv16> := [0xFCFF, 0xE9DF, 0xC39F, 0x971F, 0x3E1F, 0x7C3E, 0xF87C, 0xE0D9, 0xD193];
    Fed(0xFFFF, 3, s);
  }

  lemma SourceFed()
    ensures C.Feed(0xD193, 0) == 0x485C
  {
    var s: seq<bv16> := [0xD193, 0xB307, 0x762F, 0xEC5E, 0xC89D, 0x811B, 0x1217, 0x242E, 0x485C];
    Fed(0xD193, 0, s);
  }

  lemma FirstControlFed()
    ensures C.Feed(0x485C, 0) == 0x95CC
  {
    var s: seq<bv16> := [0x485C, 0x90B8, 0x3151, 0x62A2, 0xC544, 0x9AA9, 0x2573, 0x4AE6, 0x95CC];
    Fed(0x485C, 0, s);
  }

  lemma RetryControlFed()
    ensures C.Feed(0x485C, 2) == 0xB58E
  {
    var s: seq<bv16> := [0x4A5C, 0x94B8, 0x3951, 0x72A2, 0xE544, 0xDAA9, 0xA573, 0x5AC7, 0xB58E];
    Fed(0x485C, 2, s);
  }

  lemma FirstLengthFed()
    ensures C.Feed(0x95CC, 0) == 0x1F1C
  {
    var s: seq<bv16> := [0x95CC, 0x3BB9, 0x7772, 0xEEE4, 0xCDE9, 0x8BF3, 0x07C7, 0x0F8E, 0x1F1C];
    Fed(0x95CC, 0, s);
  }

  lemma RetryLengthFed()
    ensures C.Feed(0xB58E, 0) == 0x797E
  {
    var s: seq<bv16> := [0xB58E, 0x7B3D, 0xF67A, 0xFCD5, 0xE98B, 0xC337, 0x964F, 0x3CBF, 0x797E];
    Fed(0xB58E, 0, s);
  }

  lemma CrcOfFour(a: byte, b: byte, c: byte, d: byte)
    ensures C.Crc([a, b, c, d]) == C.Feed(C.Feed(C.Feed(C.Feed(0xFFFF, a), b), c), d)
  {
    hide C.Feed, C.Crc;
    NoCrc();
    CrcBack([], a);
    CrcBack([a], b);
    CrcBack([a, b], c);
    CrcBack([a, b, c], d);
    assert [] + [a] == [a] && [a] + [b] == [a, b] && [a, b] + [c] == [a, b, c] && [a, b, c] + [d] == [a, b, c, d];
  }

  lemma NoCrc()
    ensures C.Crc([]) == 0xFFFF
  {
  }

  lemma CrcBack(data: seq<byte>, b: byte)
    ensures C.Crc(data + [b]) == C.Feed(C.Crc(data), b)
  {
    hide C.Feed;
    assert (data + [b])[..|data|] == data;
  }

  lemma BitsOfCrcs()
    ensures C.Lo(0x1F1C) == 0x1C && C.Hi(0x1F1C) == 0x1F && C.Lo(0x797E) == 0x7E && C.Hi(0x797E) == 0x79
  {
  }

  lemma StuffSix(s: seq<byte>)
    requires |s| == 6
    ensures |Stuff(s)| ==
      |StuffByte(s[0])| + |StuffByte(s[1])| + |StuffByte(s[2])| + |StuffByte(s[3])|
      + |StuffByte(s[4])| + |StuffByte(s[5])|
  {
    hide Stuff, StuffByte;
    StuffNone();
    var i := 0;
    while i < 6
      invariant 0 <= i <= 6 && |Stuff(s[..i])| == Sizes(s, i)
    {
      StuffNext(s, i);
      i := i + 1;
    }
    assert s[..6] == s;
    assert Sizes(s, 2) == |StuffByte(s[0])| + |StuffByte(s[1])|;
    assert Sizes(s, 4) == Sizes(s, 2) + |StuffByte(s[2])| + |StuffByte(s[3])|;
  }

  lemma StuffNone()
    ensures Stuff([]) == []
  {
  }

  function Sizes(s: seq<byte>, n: nat): nat
    requires n <= |s|
  {
    if n == 0 then 0 else Sizes(s, n - 1) + |StuffByte(s[n - 1])|
  }

  /** An empty request to backplane 3: its retry is one byte longer on the wire than its first attempt. */
  lemma RetryCanBeLonger()
    ensures var first, again := Fields(3, 0, false, false, 0, []), Fields(3, 0, false, true, 0, []);
      |Encode(again)| == |Encode(first)| + 1
  {
    hide C.Crc, C.Feed, C.Lo, C.Hi, Stuff;
    var first, again := Fields(3, 0, false, false, 0, []), Fields(3, 0, false, true, 0, []);
    assert Body(first) == [3, 0, 0, 0] && Body(again) == [3, 0, 2, 0];
    CrcOfFour(3, 0, 0, 0);
    CrcOfFour(3, 0, 2, 0);
    DestinationFed();
    SourceFed();
    FirstControlFed();
    RetryControlFed();
    FirstLengthFed();
    RetryLengthFed();
    BitsOfCrcs();
    StuffSix(Unstuffed(first));
    StuffSix(Unstuffed(again));
  }
}
