/** The fixed-width integers of the firmware, as subsets of the mathematical integers, and the C conversions into
    them. */
module MachineInts {

  type byte = x: int | 0 <= x < 0x100
  type uint16 = x: int | 0 <= x < 0x1_0000
  type uint32 = x: int | 0 <= x < 0x1_0000_0000
  type int16 = x: int | -0x8000 <= x < 0x8000

  /** Conversion to uint8_t keeps the low eight bits. */
  function U8(x: int): byte {
    x % 0x100
  }

  /** Conversion to uint16_t keeps the low sixteen bits. */
  function U16(x: int): uint16 {
    x % 0x1_0000
  }

  function U32(x: int): uint32 {
    x % 0x1_0000_0000
  }

  /** Conversion to int16_t reads the low sixteen bits as two's complement. */
  function I16(x: int): int16 {
    var u := U16(x);
    if u < 0x8000 then u else u - 0x1_0000
  }

  /** A byte read as a two's complement int8_t. */
  function I8(b: byte): int {
    if b < 0x80 then b else b - 0x100
  }

  /** C division of integers truncates toward zero. */
  function TruncDiv(a: int, b: int): int
    requires b > 0
  {
    if a >= 0 then a / b else -((-a) / b)
  }
}
