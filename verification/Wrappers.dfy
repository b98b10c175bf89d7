/** The failure-compatible datatypes and the saturating arithmetic every component shares. */
module Wrappers {
  datatype Option<+T> = None | Some(value: T)

  datatype Result<+T, +E> = Ok(value: T) | Err(error: E)

  type Positive = n: nat | n >= 1 witness 1

  const MIB: nat := 1024 * 1024

  const U32_MAX: nat := 0xFFFF_FFFF
  const U64_MAX: nat := 0xFFFF_FFFF_FFFF_FFFF

  /** Rust's `u64::saturating_add`. */
  function SatAdd(a: nat, b: nat): nat {
    if a + b <= U64_MAX then a + b else U64_MAX
  }

  /** Rust's `u64::saturating_mul`. */
  function SatMul(a: nat, b: nat): nat {
    if a * b <= U64_MAX then a * b else U64_MAX
  }

  /** Rust's `saturating_sub` on unsigned values. */
  function SatSub(a: nat, b: nat): nat {
    if a >= b then a - b else 0
  }
}
