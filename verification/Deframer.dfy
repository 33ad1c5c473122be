/** The byte-at-a-time deframer: one fixed accumulator and counters, proved against Frame.Feed. */
module Deframer {
  import opened Protocol
  import opened Crc16
  import opened Frame

  lemma CountedNone(s: DeframerStats)
    ensures Counted(s, []) == s
  {
  }

  lemma CountedOne(s: DeframerStats, e: Event)
    ensures Counted(s, [e]) == match e
      case Delivered(_) => s.(delivered := s.delivered + 1)
      case Discarded(BadCrc) => s.(badCrc := s.badCrc + 1)
      case Discarded(BadLength) => s.(badLength := s.badLength + 1)
      case Discarded(BadEscape) => s.(badEscape := s.badEscape + 1)
      case Discarded(TooLong) => s.(tooLong := s.tooLong + 1)
      case Discarded(Reserved) => s.(reserved := s.reserved + 1)
  {
    assert [e][..0] == [];
  }

  lemma CountedEach(s: DeframerStats)
    ensures forall reason :: Counted(s, [Discarded(reason)]) == match reason
      case BadCrc => s.(badCrc := s.badCrc + 1)
      case BadLength => s.(badLength := s.badLength + 1)
      case BadEscape => s.(badEscape := s.badEscape + 1)
      case TooLong => s.(tooLong := s.tooLong + 1)
      case Reserved => s.(reserved := s.reserved + 1)
  {
    forall reason { CountedOne(s, Discarded(reason)); }
  }

  class Deframer {
    var mode: Mode
    var buf: array<byte>
    var len: nat
    var stats: DeframerStats

    ghost predicate Valid()
      reads this, buf
    {
      && buf.Length == MAX_UNSTUFFED
      && len <= MAX_UNSTUFFED
      && (mode == Hunting ==> len == 0)
    }

    ghost function Value(): (s: State)
      requires Valid()
      reads this, buf
      ensures StateOk(s)
    {
      State(mode, buf[..len])
    }

    constructor ()
      ensures Valid() && fresh(buf) && Value() == IDLE && stats == DeframerStats(0, 0, 0, 0, 0, 0)
    {
      mode := Hunting;
      buf := new byte[MAX_UNSTUFFED];
      len := 0;
      stats := DeframerStats(0, 0, 0, 0, 0, 0);
    }

    method Reset()
      requires Valid()
      modifies this`mode, this`len
      ensures Valid() && Value() == IDLE
    {
      mode := Hunting;
      len := 0;
    }

    method AppendByte(b: byte)
      requires Valid() && mode != Hunting
      modifies this`mode, this`len, this`stats, buf
      ensures Valid()
      ensures Append(old(Value()), b) == (if mode == Hunting then (Value(), [Discarded(TooLong)])
        else (State(InFrame, Value().buf), []))
      ensures mode == Hunting ==> stats == Counted(old(stats), [Discarded(TooLong)])
      ensures mode != Hunting ==> stats == old(stats) && mode == old(mode)
    {
      if len >= MAX_UNSTUFFED {
        stats := stats.(tooLong := stats.tooLong + 1);
        mode := Hunting;
        len := 0;
        return;
      }
      buf[len] := b;
      len := len + 1;
      assert buf[..len] == buf[..len - 1] + [b];
    }

    method OnEscapedByte(b: byte)
      requires Valid() && mode == Escaped && b != FLAG
      modifies this`mode, this`len, this`stats, buf
      ensures Valid()
      ensures Value() == Frame.Feed(old(Value()), b).0
      ensures stats == Counted(old(stats), Frame.Feed(old(Value()), b).1)
    {
      if b == FLAG_ESCAPED {
        AppendByte(FLAG);
      } else if b == ESC_ESCAPED {
        AppendByte(ESC);
      } else {
        stats := stats.(badEscape := stats.badEscape + 1);
        mode := Hunting;
        len := 0;
        return;
      }
      if mode != Hunting {
        mode := InFrame;
      }
    }

    method OnFlag() returns (got: Option<Fields>)
      requires Valid()
      modifies this`mode, this`len, this`stats
      ensures Valid()
      ensures Value() == Frame.Feed(old(Value()), FLAG).0
      ensures stats == Counted(old(stats), Frame.Feed(old(Value()), FLAG).1)
      ensures got == FrameIn(Frame.Feed(old(Value()), FLAG).1)
    {
      hide Check;
      if mode == Escaped {
        CountedOne(stats, Discarded(BadEscape));
        stats := stats.(badEscape := stats.badEscape + 1);
        mode := InFrame;
        len := 0;
        return None;
      }
      var n := len;
      len := 0;
      mode := InFrame;
      got := CloseFrame(n);
    }

    /** What the accumulated bytes are worth: a frame, a discard for its reason, or nothing if there are none. */
    method CloseFrame(n: nat) returns (got: Option<Fields>)
      requires Valid() && n <= buf.Length
      modifies this`stats
      ensures Valid() && stats == Counted(old(stats), Check(buf[..n])) && got == FrameIn(Check(buf[..n]))
    {
      hide Crc, Join, Counted;
      ghost var b, was := buf[..n], stats;
      CountedNone(stats);
      if n == 0 { return None; }
      CountedEach(stats);
      if n < HEADER_LEN + CRC_LEN {
        stats := stats.(badLength := stats.badLength + 1);
        return None;
      }
      var dst, src, ctrl, length := buf[0], buf[1], buf[2], buf[3];
      if length != n - (HEADER_LEN + CRC_LEN) {
        stats := stats.(badLength := stats.badLength + 1);
        return None;
      }
      assert buf[..n - CRC_LEN] == b[..n - CRC_LEN];
      var expectedCrc := Join(buf[n - CRC_LEN], buf[n - CRC_LEN + 1]);
      var actualCrc := Crc16CcittFalse(buf[..n - CRC_LEN]);
      if actualCrc != expectedCrc {
        stats := stats.(badCrc := stats.badCrc + 1);
        return None;
      }
      if dst == ADDR_RESERVED {
        stats := stats.(reserved := stats.reserved + 1);
        return None;
      }
      assert buf[HEADER_LEN..n - CRC_LEN] == b[HEADER_LEN..n - CRC_LEN];
      var f := Fields(dst, src, ctrl % 2 == 1, (ctrl / 2) % 2 == 1, ctrl / 16, buf[HEADER_LEN..n - CRC_LEN]);
      CountedOne(stats, Delivered(f));
      stats := stats.(delivered := stats.delivered + 1);
      return Some(f);
    }

    method Feed(b: byte) returns (got: Option<Fields>)
      requires Valid()
      modifies this`mode, this`len, this`stats, buf
      ensures Valid()
      ensures Value() == Frame.Feed(old(Value()), b).0
      ensures stats == Counted(old(stats), Frame.Feed(old(Value()), b).1)
      ensures got == FrameIn(Frame.Feed(old(Value()), b).1)
    {
      if b == FLAG {
        got := OnFlag();
        return;
      }
      if mode == Hunting { return None; }
      if mode == Escaped {
        OnEscapedByte(b);
        return None;
      }
      if b == ESC {
        mode := Escaped;
        return None;
      }
      AppendByte(b);
      return None;
    }
  }
}
