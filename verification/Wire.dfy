/** The byte-level transport the link engines drive. */
module Wire {
  import opened Protocol

  /** A received byte and the instant of its start bit. */
  datatype Rx = Rx(value: byte, start: nat)

  /** One transmission: its bytes, its first start bit and its final stop bit. */
  datatype Tx = Tx(bytes: seq<byte>, start: nat, end: nat)

  /** Time for the longest frame the codec can produce. */
  function MaxFrame(byteTime: nat): nat {
    MAX_WIRE * byteTime
  }

  /** The bytes alone. */
  function Values(bytes: seq<Rx>): (v: seq<byte>)
    ensures |v| == |bytes|
  {
    seq(|bytes|, i requires 0 <= i < |bytes| => bytes[i].value)
  }

  /** In order of start instant. */
  predicate InOrder(bytes: seq<Rx>) {
    forall i, j :: 0 <= i < j < |bytes| ==> bytes[i].start <= bytes[j].start
  }

  /**
   * A wire at one instant: the bytes already on it that nobody has read, and everything this
   * station has put on it. What other stations do between two polls is the environment's business.
   */
  class ByteWire {
    const byteTime: nat
    var rx: seq<Rx>
    var sent: seq<Tx>

    constructor (byteTime: nat)
      ensures this.byteTime == byteTime && rx == [] && sent == []
    {
      this.byteTime := byteTime;
      rx, sent := [], [];
    }

    method Receive() returns (got: Option<Rx>)
      modifies this`rx
      ensures got == if old(rx) == [] then None else Some(old(rx)[0])
      ensures rx == if old(rx) == [] then [] else old(rx)[1..]
    {
      if rx == [] { return None; }
      got := Some(rx[0]);
      rx := rx[1..];
    }

    method Transmit(bytes: seq<byte>, now: nat) returns (end: nat)
      modifies this`sent
      ensures end == now + |bytes| * byteTime
      ensures sent == old(sent) + [Tx(bytes, now, end)]
    {
      end := now + |bytes| * byteTime;
      sent := sent + [Tx(bytes, now, end)];
    }
  }
}
