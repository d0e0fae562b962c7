/** Machine integers and result types shared by every module. */
module Bytes {

  /** One octet. */
  type Byte = b: int | 0 <= b < 256

  const U64_MAX: nat := 0xffff_ffff_ffff_ffff

  /** A 64-bit unsigned integer. */
  type U64 = x: int | 0 <= x <= U64_MAX

  datatype Option<+T> = None | Some(value: T)

  datatype Result<+T, +E> = Ok(value: T) | Err(error: E)

  /** Rust's `u64::saturating_add`. */
  function SatAdd(a: nat, b: nat): nat {
    if a + b > U64_MAX then U64_MAX else a + b
  }

  /** Rust's `u64::saturating_sub`. */
  function SatSub(a: nat, b: nat): nat {
    if a < b then 0 else a - b
  }

  function Min(a: nat, b: nat): nat {
    if a <= b then a else b
  }
}
