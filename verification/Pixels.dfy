/** Machine integers and the renderer-independent pixel values. */
module Pixels {
  // Arithmetic on these types is checked against their range, so every member
  // that computes with them is free of overflow and unsigned underflow.
  newtype uint8 = x: int | 0 <= x < 0x100
  newtype uint16 = x: int | 0 <= x < 0x1_0000
  newtype uint32 = x: int | 0 <= x < 0x1_0000_0000
  newtype uint64 = x: int | 0 <= x < 0x1_0000_0000_0000_0000

  /** `std::size_t` on the 32-bit target. */
  type size = uint32

  const MAX_LED_COUNT: size := 300
  const DEFAULT_LED_COUNT: size := 100
  /** How many pixels a lit frame covers; fixed before the first write. */
  type ActiveLength = n: size | DEFAULT_LED_COUNT <= n <= MAX_LED_COUNT witness DEFAULT_LED_COUNT

  const BRIGHTNESS_CEILING: uint8 := 16
  const TURN_LED_COUNT: size := 35
  const BRAKE_LED_COUNT: size := 30

  datatype Rgb = Rgb(red: uint8, green: uint8, blue: uint8)

  const BLACK := Rgb(0, 0, 0)

  /** A complete frame buffer as a value. */
  type Frame = s: seq<Rgb> | |s| == 300 witness seq(300, _ => Rgb(0, 0, 0))

  const BLACK_FRAME: Frame := BlackFrame()

  function BlackFrame(): (r: Frame)
    ensures forall p :: 0 <= p < 300 ==> r[p] == BLACK
  {
    seq(300, _ => BLACK)
  }

  /** Every channel of `x` is at most the same channel of `y`. */
  predicate Dimmer(x: Rgb, y: Rgb) {
    x.red <= y.red && x.green <= y.green && x.blue <= y.blue
  }
}
