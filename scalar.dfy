/**
 * The unsigned machine integers that `Vec2<T>` is instantiated with (`u16` for the
 * constants, `usize` for tile sizes and flat indices). A value is a `nat` no larger
 * than its type's maximum. Arithmetic follows Rust's debug-build semantics: an
 * addition, subtraction or multiplication whose exact result leaves `0..=MAX`
 * panics, and so does a division by zero.
 */
module Scalar {

  const U16_MAX: nat := 0xFFFF
  /** `usize::MAX` on a 64-bit target. */
  const USIZE_MAX: nat := 0xFFFF_FFFF_FFFF_FFFF

  type U16 = n: nat | n <= U16_MAX

  /** The panics of Rust's integer operators ("attempt to add with overflow", ...). */
  datatype Panic = AddOverflow | SubOverflow | MulOverflow | DivisionByZero

  /** The outcome of an expression that may panic. */
  datatype Checked<T> = Value(value: T) | Panicked(panic: Panic)

  /** `a + b` on an unsigned type whose maximum is `max`. */
  function Plus(a: nat, b: nat, max: nat): Checked<nat> {
    if a + b <= max then Value(a + b) else Panicked(AddOverflow)
  }

  /** `a - b` on an unsigned type: there is no value below zero. */
  function Minus(a: nat, b: nat): Checked<nat> {
    if b <= a then Value(a - b) else Panicked(SubOverflow)
  }

  /** `a * b` on an unsigned type whose maximum is `max`. */
  function Times(a: nat, b: nat, max: nat): Checked<nat> {
    if a * b <= max then Value(a * b) else Panicked(MulOverflow)
  }

  /** `a / b` on an unsigned type: truncating, which for non-negative operands is Dafny's `/`. */
  function Quotient(a: nat, b: nat): Checked<nat> {
    if b == 0 then Panicked(DivisionByZero) else Value(a / b)
  }
}
