/** Primitive types of the formatter: Rust's `u32` and `Option`. */
module Prelude {

  /** An unsigned 32-bit integer, the type of the indentation level and of the indentation widths. */
  newtype u32 = x: int | 0 <= x < 0x1_0000_0000

  datatype Option<T> = None | Some(value: T)

  /** `a * b` on `u32` in a release build, which keeps the low 32 bits of the product. */
  function WrappingMul(a: u32, b: u32): (r: u32)
    ensures b == 0 ==> r == 0
    ensures b == 1 ==> r == a
  {
    ((a as int * b as int) % 0x1_0000_0000) as u32
  }
}
