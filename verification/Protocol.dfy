/** Protocol constants of OMGP v1 and the value types every layer shares. */
module Protocol {

  /** uint8_t. */
  type byte = x: int | 0 <= x < 256

  datatype Option<+T> = None | Some(value: T)

  // Trunk timing (microseconds) and bit rates.
  const BIT_RATE: nat := 1000000
  const BIT_RATE_FALLBACK: nat := 115200
  const T_TURN_MIN: nat := 20
  const T_TURN_MAX: nat := 100
  const T_RESP: nat := 200
  const T_GAP: nat := 50
  const T_POLL: nat := 2000
  const RETRIES: nat := 2
  const SUSPECT_AFTER_FAILURES: nat := 3
  const OFFLINE_AFTER_SUSPECT_MS: nat := 1000

  // Framing.
  const FLAG: byte := 0x7E
  const ESC: byte := 0x7D
  const FLAG_ESCAPED: byte := 0x5E // FLAG xor 0x20
  const ESC_ESCAPED: byte := 0x5D  // ESC xor 0x20
  const HEADER_LEN: nat := 4
  const CRC_LEN: nat := 2
  const MAX_L3_MESSAGE: nat := 64
  const MAX_UNSTUFFED: nat := HEADER_LEN + MAX_L3_MESSAGE + CRC_LEN
  const MAX_WIRE: nat := 2 + 2 * MAX_UNSTUFFED

  // Addressing.
  const ADDR_HOST: byte := 0
  const ADDR_BACKPLANE_MIN: byte := 1
  const ADDR_BACKPLANE_MAX: byte := 15
  const ADDR_COUNT: nat := 16
  const ADDR_RESERVED: byte := 0xFF
  const ADDR_MODULE_MIN: byte := 0x10
  const ADDR_MODULE_MAX: byte := 0x7F
  const MODULE_IDS: nat := ADDR_MODULE_MAX - ADDR_MODULE_MIN + 1

  // Limits of the host core.
  const MAX_NODES: nat := 128
  const MAX_DESCRIPTOR_BYTES: nat := 2048
  const MAX_SLOTS: nat := 232

  /** Ten bits per byte at 8N1, in whole microseconds. */
  function ByteTime(bitRate: nat): nat
    requires bitRate != 0
  {
    10000000 / bitRate
  }
}
