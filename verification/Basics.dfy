/** Failure-carrying results shared by every component. */
module Basics {
  datatype Option<+T> = None | Some(value: T)

  datatype Result<+T, +E> = Ok(value: T) | Err(error: E)

  type Byte = b: nat | b < 256

  const U32_MAX: nat := 0xffff_ffff
  const U64_MAX: nat := 0xffff_ffff_ffff_ffff

  /** All the money there may be, in satoshis. */
  const MAX_MONEY: nat := 21_000_000 * 100_000_000

  /** Nanoseconds in a second. */
  const NANOS: nat := 1_000_000_000

  function Min(a: nat, b: nat): nat {
    if a <= b then a else b
  }
}
