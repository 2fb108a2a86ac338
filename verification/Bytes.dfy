/** Bytes of numbers. */
module Bytes {

  type Octet = x: int | 0 <= x < 256

  /** How many numbers n bytes can spell. */
  function Base(n: nat): (r: int)
    ensures r > 0
  {
    if n == 0 then 1 else 256 * Base(n - 1)
  }

  /** Byte k of v, counted from the least significant. */
  function Digit(v: int, k: nat): Octet
    decreases k, v
  {
    if k == 0 then v % 256 else Digit(v / 256, k - 1)
  }
}
