/** Wire-level vocabulary of the Elan KTF2K touch controller: bytes, frames and
    the opcode, command and value constants of drivers/input/touchscreen/ektf2k.c.
    Bytes are unsigned (the driver runs on ARM, where `char` is unsigned) and are
    held as their values 0..255; the driver's masks and shifts on them are the
    arithmetic functions below, each checked against the bit operation it stands for. */
module Wire {

  newtype byte = b: int | 0 <= b < 256

  /** A buffer exchanged on the bus: a 4-byte command frame, a 4-byte hello or a 25-byte report. */
  type Frame = seq<byte>

  datatype Option<+T> = None | Some(value: T)

  // Data messages
  const DATA_HELLO: byte := 0x55

  // Types (marker byte) of solicited messages
  const RESPONSE: byte := 0x52
  const REQUEST: byte := 0x53
  const WRITE: byte := 0x54

  // Commands of solicited messages
  const FW_VER: byte := 0x00
  const POWER_STATE: byte := 0x50
  const FINGER_STATE: byte := 0x51
  const HEIGHT: byte := 0x60
  const WIDTH: byte := 0x63
  const PACKET_STATE: byte := 0x8E

  // Opcodes of unsolicited messages
  const NOISE: byte := 0x40
  const REPORT: byte := 0x5D
  const CALIB: byte := 0x66

  // Values
  const VAL_NOISY: byte := 0x41
  const VAL_PKT_ON: byte := 0x00
  const VAL_PKT_OFF: byte := 0x01
  const VAL_PWR_NORMAL: byte := 0x01
  const VAL_PWR_SLEEP: byte := 0x00
  const VAL_FINGER_ON: byte := 0x01
  const VAL_FINGER_OFF: byte := 0x00

  /** Range of the C `int` the driver computes in. */
  const INT_MIN: int := -0x8000_0000
  const INT_MAX: int := 0x7FFF_FFFF

  predicate IsInt32(v: int) {
    INT_MIN <= v <= INT_MAX
  }

  /** `b & 0x07` */
  function Low3(b: byte): (r: int)
    ensures 0 <= r < 8
  {
    b as int % 8
  }

  /** `b & 0x0F` */
  function LowNibble(b: byte): (r: int)
    ensures 0 <= r < 16
  {
    b as int % 16
  }

  /** `b & 0xF0`: the high nibble, left in place. */
  function HighBits(b: byte): (r: int)
    ensures 0 <= r <= 0xF0 && r % 16 == 0
  {
    (b as int / 16) * 16
  }

  /** `b & (1 << 3)` */
  function Bit3(b: byte): (r: int)
    ensures r == 0 || r == 8
  {
    (b as int / 8) % 2 * 8
  }

  /** `b | (v << 3)` for a one-bit v. */
  function SetBit3(b: byte, v: byte): (r: byte)
    requires v <= 1
    ensures Bit3(r) == if v == 1 then 8 else Bit3(b)
    ensures r as int - Bit3(r) == b as int - Bit3(b)
  {
    if Bit3(b) == 8 || v == 0 then b
    else
      assert (b as int + 8) / 8 == b as int / 8 + 1;
      b + 8
  }

  /** A byte made of a high and a low nibble splits back into the two. */
  lemma NibbleSplit(high: int, low: int)
    requires 0 <= high < 16 && 0 <= low < 16
    ensures (high * 16 + low) / 16 == high && (high * 16 + low) % 16 == low
  {
  }

  /** Each function above computes its bit operation: for every `bv8` value x
      the results agree on the unsigned value of x. */
  lemma Low3IsMask(x: bv8)
    ensures Low3(x as int as byte) == (x & 0x07) as int
  {
  }

  lemma LowNibbleIsMask(x: bv8)
    ensures LowNibble(x as int as byte) == (x & 0x0F) as int
  {
  }

  lemma HighBitsIsMask(x: bv8)
    ensures HighBits(x as int as byte) == (x & 0xF0) as int
  {
  }

  lemma Bit3IsMask(x: bv8)
    ensures Bit3(x as int as byte) == (x & (1 << 3)) as int
  {
  }

  lemma SetBit3IsOr(x: bv8, v: bv8)
    requires v <= 1
    ensures SetBit3(x as int as byte, v as int as byte) as int == (x | (v << 3)) as int
  {
  }
}
