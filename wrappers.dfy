/** Failure-carrying values shared by every module of the model. */
module Wrappers {

  datatype Option<T> = None | Some(value: T)

  datatype Result<T, E> = Ok(value: T) | Err(error: E)

  /** The largest value of Rust's `u64`. */
  const U64_MAX: nat := 0xFFFF_FFFF_FFFF_FFFF

  /** The largest value of Rust's `u32`. */
  const U32_MAX: nat := 0xFFFF_FFFF

  type U64 = x: nat | x <= U64_MAX
  type U32 = x: nat | x <= U32_MAX
}
