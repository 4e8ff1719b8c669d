/** 8-bit samples, the `unsigned char` the image and the channel buffers hold. */
module Samples {

  /** One 8-bit unsigned channel sample. */
  type Sample = x: int | 0 <= x < 256

  /** Channel slots inside a 3-byte pixel, in the order the image library stores them. */
  const Blue: nat := 0
  const Green: nat := 1
  const Red: nat := 2

  /** The conversion of an `int` to `unsigned char`: reduction modulo 2^8. */
  function Narrow(v: int): (s: Sample)
    ensures 0 <= v < 256 ==> s == v
    ensures (s - v) % 256 == 0
  {
    v % 256
  }
}
