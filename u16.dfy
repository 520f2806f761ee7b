/**
 * Rust's `u16`, with the two saturating operations and the checked
 * conversion from `usize` that the help popup uses.
 */
module U16 {
  import opened Wrappers

  const U16_MAX: int := 0xFFFF

  newtype u16 = x: int | 0 <= x <= 0xFFFF

  /** `a.saturating_add(b)`: the sum, or `u16::MAX` when the sum does not fit. */
  function SaturatingAdd(a: u16, b: u16): (r: u16)
    ensures a as int + b as int <= U16_MAX ==> r as int == a as int + b as int
    ensures a as int + b as int > U16_MAX ==> r as int == U16_MAX
  {
    if a as int + b as int <= U16_MAX then a + b else U16_MAX as u16
  }

  /** `a.saturating_sub(b)`: the difference, or 0 when it would be negative. */
  function SaturatingSub(a: u16, b: u16): (r: u16)
    ensures r <= a
    ensures b <= a ==> r == a - b
    ensures a < b ==> r == 0
  {
    if b <= a then a - b else 0
  }

  /** `usize::saturating_sub(n, 1)`. */
  function SaturatingDecrement(n: nat): (r: nat)
    ensures n == 0 ==> r == 0
    ensures n > 0 ==> r + 1 == n
  {
    if n == 0 then 0 else n - 1
  }

  /** `u16::try_from(n)`: fails exactly when `n` exceeds `u16::MAX`. */
  function TryFrom(n: nat): (r: Option<u16>)
    ensures r.Some? <==> n <= U16_MAX
    ensures r.Some? ==> r.value as int == n
  {
    if n <= U16_MAX then Some(n as u16) else None
  }

  function Min(a: u16, b: u16): (r: u16)
    ensures r <= a && r <= b && (r == a || r == b)
  {
    if a <= b then a else b
  }

  function Max(a: u16, b: u16): (r: u16)
    ensures a <= r && b <= r && (r == a || r == b)
  {
    if a <= b then b else a
  }
}
