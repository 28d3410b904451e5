/** Shared value types: byte strings, identifiers and fixed-width integers. */
module Primitives {

  /** A byte string. */
  type Bin = seq<int>

  /** A 256-bit hash; only equality and the zero value matter to the block tree. */
  type U256 = nat

  const U256_ZERO: U256 := 0

  /** A 160-bit account identifier. */
  type U160 = nat

  type PlotID = (int, int)

  type U64 = x: int | 0 <= x < 0x1_0000_0000_0000_0000

  type I64 = x: int | -0x8000_0000_0000_0000 <= x < 0x8000_0000_0000_0000

  /** Keep the low 64 bits, as release-build unsigned arithmetic does. */
  function WrapU64(x: int): U64 {
    x % 0x1_0000_0000_0000_0000
  }

  /** Keep the low 64 bits and read them as two's complement. */
  function WrapI64(x: int): I64 {
    (x + 0x8000_0000_0000_0000) % 0x1_0000_0000_0000_0000 - 0x8000_0000_0000_0000
  }

  datatype Option<+T> = None | Some(value: T)

  datatype Result<+T> = Ok(value: T) | Err(error: Error)

  datatype Error = NotFound | MissingPrevious | Duplicate | InvalidMutation | InvalidSigner | NotEnoughShares
}
