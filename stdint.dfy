/** Fixed-width integer types of the C sources. */
module Stdint {
  /** `uint8_t`: register selectors, data bytes, status codes, scores, the game mode. */
  type Uint8 = x: int | 0 <= x < 256

  /** A `uint8_t` with C's modulo-256 wrap-around, as `++` and `--` on one produce. */
  function Wrap8(x: int): (r: Uint8)
    ensures 0 <= x < 256 ==> r == x
    ensures (r - x) % 256 == 0
  {
    x % 256
  }
}
