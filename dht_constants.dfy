/** Integer widths and the configuration constants of the libDHT header. */
module DhtConstants {

  /** `uint8_t`: a sensor pin, a sensor type code, a byte of the frame. */
  type uint8 = x: int | 0 <= x < 0x100

  /** `uint16_t`: the minimum re-read interval in milliseconds. */
  type uint16 = x: int | 0 <= x < 0x1_0000

  /** `unsigned long` on the driver's targets: a 32-bit millisecond clock. */
  type uint32 = x: int | 0 <= x < 0x1_0000_0000

  const TWO_POW_32: int := 0x1_0000_0000

  /** The number of 1-microsecond spins the driver waited for one half-cycle
      of the data line; the spin loop gives up when it reaches 255. */
  type SpinCount = c: int | 0 <= c <= 255

  /** A half-cycle whose spin count reaches this value is a timeout. */
  const SPIN_TIMEOUT: SpinCount := 255

  /** A high pulse longer than this many spins is a '1' (about 70 us);
      a '0' lasts 26-28 us. */
  const ONE_DURATION_THRESH_US: int := 30

  /** How many transitions the capture loop is meant to cover:
      a four-transition preamble, then two per bit, then a spare. */
  const MAXTIMINGS: int := 85

  /** Sensor type codes. The AM2301 shares the DHT21 code. */
  const DHT11: uint8 := 11
  const DHT22: uint8 := 22
  const DHT21: uint8 := 21
  const AM2301: uint8 := 21

  /** Minimum re-read intervals in milliseconds; the first is the default. */
  const DSHEET_READ_INTERVAL: uint16 := 2000
  const LONG_READ_INTERVAL: uint16 := 4000

  /** Length of the driver's frame buffer `m_data`: five frame bytes and a
      spare that absorbs bits past the fortieth. */
  const BUFFER_LENGTH: int := 6

  /** `x <<= 1` on a `uint8_t`: the top bit falls off. */
  function ShiftLeft1(x: uint8): uint8
  {
    (x * 2) % 0x100
  }

  /** `x |= 1` on a `uint8_t`: set the lowest bit. */
  function SetLowBit(x: uint8): uint8
  {
    if x % 2 == 0 then x + 1 else x
  }

  /** `x & 0x7F`: the low seven bits. */
  function Low7(x: uint8): uint8
  {
    x % 0x80
  }

  /** `x & 0x80` is non-zero: bit 7 is set. */
  predicate Bit7(x: uint8)
  {
    x >= 0x80
  }

  /** Bits in a complete frame: four payload bytes and a checksum byte. */
  const FRAME_BITS: int := 40
}
