/** Sets of bytes as eight words of 32 bits, updated in place. */
module Bitmap {
  import opened Protocol

  const WORDS: nat := 8

  function Bit(word: bv32, k: bv8): bool
    requires k < 32
  {
    (word >> k) & 1 == 1
  }

  function With(word: bv32, k: bv8): bv32
    requires k < 32
  {
    word | (1 << k)
  }

  /** The place of a byte in its word. */
  function Place(i: byte): (k: bv8)
    ensures k < 32
  {
    PlaceFits(i % 32);
    (i % 32) as bv8
  }

  lemma PlaceFits(i: nat)
    requires i < 32
    ensures i as bv8 < 32 && (i as bv8) as int == i
  {
  }

  lemma PlaceTells(i: byte, j: byte)
    requires i / 32 == j / 32 && Place(i) == Place(j)
    ensures i == j
  {
    PlaceFits(i % 32);
    PlaceFits(j % 32);
  }

  function Holds(words: seq<bv32>, i: byte): bool
    requires |words| == WORDS
  {
    Bit(words[i / 32], Place(i))
  }

  /** The bytes whose bits are set. */
  function Members(words: seq<bv32>): set<byte>
    requires |words| == WORDS
  {
    set i: byte | 0 <= i < 256 && Holds(words, i)
  }

  lemma SetOne(word: bv32, k: bv8, j: bv8)
    requires k < 32 && j < 32
    ensures Bit(With(word, k), j) <==> j == k || Bit(word, j)
  {
  }

  lemma SetMember(words: seq<bv32>, i: byte)
    requires |words| == WORDS
    ensures Members(words[i / 32 := With(words[i / 32], Place(i))]) == Members(words) + {i}
  {
    hide Bit, With, Place;
    var w := i / 32;
    var words' := words[w := With(words[w], Place(i))];
    forall j: byte ensures Holds(words', j) <==> j == i || Holds(words, j) {
      SetOne(words[w], Place(i), Place(j));
      if j / 32 == w && Place(j) == Place(i) { PlaceTells(i, j); }
    }
  }

  lemma NoBit(k: bv8)
    requires k < 32
    ensures !Bit(0, k)
  {
  }

  lemma NoMembers(words: seq<bv32>)
    requires |words| == WORDS && forall w :: 0 <= w < WORDS ==> words[w] == 0
    ensures Members(words) == {}
  {
    hide Bit;
    forall i: byte ensures !Holds(words, i) { NoBit(Place(i)); }
  }

  ghost function Of(bits: array<bv32>): set<byte>
    requires bits.Length == WORDS
    reads bits
  {
    Members(bits[..])
  }

  method Test(bits: array<bv32>, i: byte) returns (b: bool)
    requires bits.Length == WORDS
    ensures b <==> i in Of(bits)
  {
    b := Bit(bits[i / 32], Place(i));
    assert b == Holds(bits[..], i);
  }

  method Set(bits: array<bv32>, i: byte)
    requires bits.Length == WORDS
    modifies bits
    ensures Of(bits) == old(Of(bits)) + {i}
  {
    hide Bit, With, Place, Members;
    SetMember(bits[..], i);
    var w := i / 32;
    ghost var was := bits[..];
    bits[w] := With(bits[w], Place(i));
    assert bits[..] == was[w := With(was[w], Place(i))];
  }

  method Empty() returns (bits: array<bv32>)
    ensures fresh(bits) && bits.Length == WORDS && Of(bits) == {}
  {
    bits := new bv32[WORDS](i => 0);
    NoMembers(bits[..]);
  }
}
