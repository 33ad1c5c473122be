/** Between integers and bit vectors. */
module Bytes {
  import opened Protocol

  lemma ByteRoundTrip(b: byte)
    ensures (b as bv8) as int == b
  {
  }
}

/** CRC-16/CCITT-FALSE, and what it detects. */
module Crc16 {
  import opened Protocol
  import opened Bytes

  function Wide(b: byte): bv16 {
    (b as bv8) as bv16
  }

  function Enter(c: bv16, w: bv16): bv16 {
    c ^ (w << 8)
  }

  /** The next byte enters at the top of the register. */
  function Mix(c: bv16, b: byte): bv16 {
    Enter(c, Wide(b))
  }

  /** One bit of the shift register. */
  function Shift(c: bv16): bv16 {
    if c & 0x8000 != 0 then (c << 1) ^ 0x1021 else c << 1
  }

  function Shifts(c: bv16, n: nat): bv16 {
    if n == 0 then c else Shift(Shifts(c, n - 1))
  }

  /** One byte. */
  function Feed(c: bv16, b: byte): bv16 {
    Shifts(Mix(c, b), 8)
  }

  function Crc(data: seq<byte>, init: bv16 := 0xFFFF): bv16 {
    if data == [] then init else Feed(Crc(data[..|data| - 1], init), data[|data| - 1])
  }

  method Crc16CcittFalse(d: seq<byte>) returns (crc: bv16)
    ensures crc == Crc(d)
  {
    crc := 0xFFFF;
    var i := 0;
    while i < |d|
      invariant 0 <= i <= |d| && crc == Crc(d[..i])
    {
      crc := Mix(crc, d[i]);
      ghost var mixed := crc;
      var b := 0;
      while b < 8
        invariant 0 <= b <= 8 && crc == Shifts(mixed, b)
      {
        crc := Shift(crc);
        b := b + 1;
      }
      i := i + 1;
      assert d[..i][..i - 1] == d[..i - 1];
    }
    assert d[..i] == d;
  }

  // ---------------------------------------------------------------- 16-bit facts

  function Diff(x: bv16, y: bv16): bv16 { x ^ y }
  function Half(d: bv16): bv16 { d >> 1 }
  predicate Even(d: bv16) { d & 1 == 0 }
  predicate LowClear(d: bv16) { d & 0xFF == 0 }
  predicate HighClear(d: bv16) { d & 0xFF00 == 0 }

  function Unshift(c: bv16): bv16 {
    if c & 1 != 0 then ((c ^ 0x1021) >> 1) | 0x8000 else c >> 1
  }

  lemma BitsUnshiftLow(c: bv16)
    requires c & 0x8000 == 0
    ensures (c << 1) & 1 == 0 && (c << 1) >> 1 == c
  {
  }

  lemma BitsUnshiftHigh(c: bv16)
    requires c & 0x8000 != 0
    ensures ((c << 1) ^ 0x1021) & 1 != 0 && ((((c << 1) ^ 0x1021) ^ 0x1021) >> 1) | 0x8000 == c
  {
  }

  lemma BitsApartEven(x: bv16, y: bv16)
    ensures (x >> 1) ^ (y >> 1) == (x ^ y) >> 1
  {
  }

  lemma BitsApartOdd(x: bv16, y: bv16)
    requires x & 1 != 0 && y & 1 != 0
    ensures (((x ^ 0x1021) >> 1) | 0x8000) ^ (((y ^ 0x1021) >> 1) | 0x8000) == (x ^ y) >> 1
  {
  }

  lemma BitsSameParity(x: bv16, y: bv16)
    requires (x ^ y) & 1 == 0
    ensures x & 1 != 0 <==> y & 1 != 0
  {
  }

  lemma BitsLowByte(d: bv16)
    requires d & 0xFF == 0
    ensures d & 1 == 0 && (d >> 1) & 1 == 0 && ((d >> 1) >> 1) & 1 == 0 && (((d >> 1) >> 1) >> 1) & 1 == 0
    ensures ((((d >> 1) >> 1) >> 1) >> 1) & 1 == 0 && (((((d >> 1) >> 1) >> 1) >> 1) >> 1) & 1 == 0
    ensures ((((((d >> 1) >> 1) >> 1) >> 1) >> 1) >> 1) & 1 == 0
    ensures (((((((d >> 1) >> 1) >> 1) >> 1) >> 1) >> 1) >> 1) & 1 == 0
    ensures (((((((((d >> 1) >> 1) >> 1) >> 1) >> 1) >> 1) >> 1) >> 1)) & 0xFF00 == 0
  {
  }

  lemma BitsEnterState(c: bv16, d: bv16, w: bv16)
    requires c ^ (w << 8) == d ^ (w << 8)
    ensures c == d
  {
  }

  lemma BitsEnterByte(c: bv16, v: bv16, w: bv16)
    requires c ^ (v << 8) == c ^ (w << 8) && v & 0xFF00 == 0 && w & 0xFF00 == 0
    ensures v == w
  {
  }

  lemma BitsEnterApart(c: bv16, v: bv16, w: bv16)
    ensures ((c ^ (v << 8)) ^ (c ^ (w << 8))) & 0xFF == 0
  {
  }

  lemma BitsEqualBelowTop(c: bv16, d: bv16, v: bv16, w: bv16)
    requires c ^ (v << 8) == d ^ (w << 8)
    ensures (c ^ d) & 0xFF == 0
  {
  }

  lemma BitsWide(x: bv8, y: bv8)
    ensures (x as bv16) & 0xFF00 == 0
    ensures x as bv16 == y as bv16 ==> x == y
  {
  }

  lemma BitsBothClear(x: bv16, y: bv16)
    requires (x ^ y) & 0xFF == 0 && (x ^ y) & 0xFF00 == 0
    ensures x == y
  {
  }

  // ---------------------------------------------------------------- the same facts about the named steps

  lemma WideInjective(a: byte, b: byte)
    ensures HighClear(Wide(a)) && HighClear(Wide(b))
    ensures Wide(a) == Wide(b) ==> a == b
  {
    BitsWide(a as bv8, b as bv8);
    ByteRoundTrip(a);
    ByteRoundTrip(b);
  }

  lemma EnterInjective(c: bv16, d: bv16, w: bv16)
    requires Enter(c, w) == Enter(d, w)
    ensures c == d
  {
    BitsEnterState(c, d, w);
  }

  lemma EnterInjectiveInByte(c: bv16, v: bv16, w: bv16)
    requires Enter(c, v) == Enter(c, w) && HighClear(v) && HighClear(w)
    ensures v == w
  {
    BitsEnterByte(c, v, w);
  }

  lemma EnterApart(c: bv16, v: bv16, w: bv16)
    ensures LowClear(Diff(Enter(c, v), Enter(c, w)))
  {
    BitsEnterApart(c, v, w);
  }

  lemma EnterEqualBelowTop(c: bv16, d: bv16, v: bv16, w: bv16)
    requires Enter(c, v) == Enter(d, w)
    ensures LowClear(Diff(c, d))
  {
    BitsEqualBelowTop(c, d, v, w);
  }

  lemma MixInjectiveInByte(c: bv16, a: byte, b: byte)
    requires Mix(c, a) == Mix(c, b)
    ensures a == b
  {
    WideInjective(a, b);
    EnterInjectiveInByte(c, Wide(a), Wide(b));
  }

  lemma BothClear(x: bv16, y: bv16)
    requires LowClear(Diff(x, y)) && HighClear(Diff(x, y))
    ensures x == y
  {
    BitsBothClear(x, y);
  }

  lemma EightHalves(d: bv16)
    requires LowClear(d)
    ensures Even(d) && Even(Half(d)) && Even(Half(Half(d))) && Even(Half(Half(Half(d))))
    ensures Even(Half(Half(Half(Half(d))))) && Even(Half(Half(Half(Half(Half(d))))))
    ensures Even(Half(Half(Half(Half(Half(Half(d))))))) && Even(Half(Half(Half(Half(Half(Half(Half(d))))))))
    ensures HighClear(Half(Half(Half(Half(Half(Half(Half(Half(d)))))))))
  {
    BitsLowByte(d);
  }

  lemma UnshiftApart(x: bv16, y: bv16)
    requires Even(Diff(x, y))
    ensures Diff(Unshift(x), Unshift(y)) == Half(Diff(x, y))
  {
    BitsSameParity(x, y);
    if x & 1 != 0 { BitsApartOdd(x, y); } else { BitsApartEven(x, y); }
  }

  // ---------------------------------------------------------------- the step is a bijection

  lemma ShiftBijective(c: bv16)
    ensures Unshift(Shift(c)) == c
  {
    if c & 0x8000 != 0 { BitsUnshiftHigh(c); } else { BitsUnshiftLow(c); }
  }

  lemma {:induction false} ShiftsInjective(c: bv16, d: bv16, n: nat)
    requires Shifts(c, n) == Shifts(d, n)
    ensures c == d
  {
    if n > 0 {
      ShiftBijective(Shifts(c, n - 1));
      ShiftBijective(Shifts(d, n - 1));
      ShiftsInjective(c, d, n - 1);
    }
  }

  /** For a fixed byte, different states stay different. */
  lemma FeedInjectiveInState(c: bv16, d: bv16, b: byte)
    requires Feed(c, b) == Feed(d, b)
    ensures c == d
  {
    ShiftsInjective(Mix(c, b), Mix(d, b), 8);
    EnterInjective(c, d, Wide(b));
  }

  /** For a fixed state, different bytes give different states. */
  lemma FeedInjectiveInByte(c: bv16, a: byte, b: byte)
    requires Feed(c, a) == Feed(c, b)
    ensures a == b
  {
    ShiftsInjective(Mix(c, a), Mix(c, b), 8);
    MixInjectiveInByte(c, a, b);
  }

  lemma ShiftsApart(p: bv16, q: bv16, n: nat)
    requires Even(Diff(Shifts(p, n + 1), Shifts(q, n + 1)))
    ensures Diff(Shifts(p, n), Shifts(q, n)) == Half(Diff(Shifts(p, n + 1), Shifts(q, n + 1)))
  {
    UnshiftApart(Shifts(p, n + 1), Shifts(q, n + 1));
    ShiftBijective(Shifts(p, n));
    ShiftBijective(Shifts(q, n));
  }

  /** If eight shifts of two states agree in the low byte, the states agree in the high byte. */
  lemma ShiftsAgreeLow(p: bv16, q: bv16)
    requires LowClear(Diff(Shifts(p, 8), Shifts(q, 8)))
    ensures HighClear(Diff(p, q))
  {
    EightHalves(Diff(Shifts(p, 8), Shifts(q, 8)));
    ShiftsApart(p, q, 7);
    ShiftsApart(p, q, 6);
    ShiftsApart(p, q, 5);
    ShiftsApart(p, q, 4);
    ShiftsApart(p, q, 3);
    ShiftsApart(p, q, 2);
    ShiftsApart(p, q, 1);
    ShiftsApart(p, q, 0);
  }

  /** For a fixed state, two bytes are an injection into the state. */
  lemma TwoBytesInjective(c: bv16, a1: byte, a2: byte, b1: byte, b2: byte)
    requires Feed(Feed(c, a1), a2) == Feed(Feed(c, b1), b2)
    ensures a1 == b1 && a2 == b2
  {
    ShiftsInjective(Mix(Feed(c, a1), a2), Mix(Feed(c, b1), b2), 8);
    EnterEqualBelowTop(Feed(c, a1), Feed(c, b1), Wide(a2), Wide(b2));
    ShiftsAgreeLow(Mix(c, a1), Mix(c, b1));
    EnterApart(c, Wide(a1), Wide(b1));
    BothClear(Mix(c, a1), Mix(c, b1));
    MixInjectiveInByte(c, a1, b1);
    FeedInjectiveInByte(Feed(c, a1), a2, b2);
  }

  // ---------------------------------------------------------------- messages of any length

  lemma {:induction false} CrcAppend(a: seq<byte>, b: seq<byte>, init: bv16)
    ensures Crc(a + b, init) == Crc(b, Crc(a, init))
  {
    if b == [] {
      assert a + b == a;
    } else {
      assert (a + b)[..|a + b| - 1] == a + b[..|b| - 1];
      CrcAppend(a, b[..|b| - 1], init);
    }
  }

  lemma {:induction false} CrcInjectiveInState(data: seq<byte>, c: bv16, d: bv16)
    requires Crc(data, c) == Crc(data, d)
    ensures c == d
  {
    if data != [] {
      var n := |data| - 1;
      FeedInjectiveInState(Crc(data[..n], c), Crc(data[..n], d), data[n]);
      CrcInjectiveInState(data[..n], c, d);
    }
  }

  lemma CrcOne(d: seq<byte>, c: bv16)
    requires |d| == 1
    ensures Crc(d, c) == Feed(c, d[0])
  {
    assert d[..0] == [];
  }

  /** One or two bytes, from one state, are determined by the CRC they lead to. */
  lemma ShortInjective(m1: seq<byte>, m2: seq<byte>, c: bv16)
    requires |m1| == |m2| && 1 <= |m1| <= 2 && Crc(m1, c) == Crc(m2, c)
    ensures m1 == m2
  {
    CrcOne(m1[..1], c);
    CrcOne(m2[..1], c);
    if |m1| == 1 {
      assert m1[..1] == m1 && m2[..1] == m2;
      FeedInjectiveInByte(c, m1[0], m2[0]);
    } else {
      TwoBytesInjective(c, m1[0], m1[1], m2[0], m2[1]);
    }
  }

  /** Cut in three, a message that has the CRC of another one agrees with it in the middle if it does at both ends. */
  lemma MiddleDetermined(front: seq<byte>, mid1: seq<byte>, mid2: seq<byte>, back: seq<byte>)
    requires |mid1| == |mid2| && 1 <= |mid1| <= 2 && Crc(front + (mid1 + back)) == Crc(front + (mid2 + back))
    ensures mid1 == mid2
  {
    hide Feed, Crc;
    var c := Crc(front);
    CrcAppend(front, mid1 + back, 0xFFFF);
    CrcAppend(front, mid2 + back, 0xFFFF);
    CrcAppend(mid1, back, c);
    CrcAppend(mid2, back, c);
    CrcInjectiveInState(back, Crc(mid1, c), Crc(mid2, c));
    ShortInjective(mid1, mid2, c);
  }

  lemma CutInThree(m1: seq<byte>, m2: seq<byte>, i: nat, j: nat)
    requires |m1| == |m2| && i <= j <= |m1| && forall k :: 0 <= k < |m1| && !(i <= k < j) ==> m1[k] == m2[k]
    ensures m1 == m1[..i] + (m1[i..j] + m1[j..]) && m2 == m1[..i] + (m2[i..j] + m1[j..])
  {
    assert m1[..i] == m2[..i] && m1[j..] == m2[j..];
  }

  /** Two messages of one length that differ only within two adjacent bytes have different CRCs. */
  lemma BurstDetected(m1: seq<byte>, m2: seq<byte>, i: nat)
    requires |m1| == |m2| && i < |m1| && m1 != m2
    requires forall k :: 0 <= k < |m1| && k != i && k != i + 1 ==> m1[k] == m2[k]
    ensures Crc(m1) != Crc(m2)
  {
    hide Feed, Crc;
    var j := if i + 2 <= |m1| then i + 2 else |m1|;
    CutInThree(m1, m2, i, j);
    if Crc(m1) == Crc(m2) { MiddleDetermined(m1[..i], m1[i..j], m2[i..j], m1[j..]); }
  }

  // ---------------------------------------------------------------- the CRC on the wire, low byte first

  function Lo(c: bv16): byte {
    ((c & 0xFF) as bv8) as int
  }

  function Hi(c: bv16): byte {
    ((c >> 8) as bv8) as int
  }

  function Join(lo: byte, hi: byte): bv16 {
    Wide(lo) | (Wide(hi) << 8)
  }

  lemma BitsJoin(c: bv16)
    ensures (((c & 0xFF) as bv8) as bv16) | ((((c >> 8) as bv8) as bv16) << 8) == c
  {
  }

  lemma BackToBits(x: bv8)
    ensures 0 <= x as int < 256 && ((x as int) as bv8) == x
  {
  }

  lemma JoinSplit(c: bv16)
    ensures Join(Lo(c), Hi(c)) == c
  {
    BackToBits((c & 0xFF) as bv8);
    BackToBits((c >> 8) as bv8);
    BitsJoin(c);
  }

  lemma BitsSplit(x: bv8, y: bv8)
    ensures (((x as bv16) | ((y as bv16) << 8)) & 0xFF) as bv8 == x
    ensures (((x as bv16) | ((y as bv16) << 8)) >> 8) as bv8 == y
  {
  }

  lemma SplitJoin(lo: byte, hi: byte)
    ensures Lo(Join(lo, hi)) == lo && Hi(Join(lo, hi)) == hi
  {
    ByteRoundTrip(lo);
    ByteRoundTrip(hi);
    BitsSplit(lo as bv8, hi as bv8);
  }
}
