/** Values shared by every component: optional and failing results, and the
    fixed-width integer facts the server relies on. */
module Basics {
  datatype Option<+T> = None | Some(value: T)

  datatype Result<+T, +E> = Ok(value: T) | Err(error: E)

  const I64_MAX: int := 0x7FFF_FFFF_FFFF_FFFF
  const I64_MIN: int := -0x8000_0000_0000_0000
  const I32_MAX: int := 0x7FFF_FFFF
  const I32_MIN: int := -0x8000_0000

  type I64 = n: int | I64_MIN <= n <= I64_MAX

  predicate IsI64(n: int) { I64_MIN <= n <= I64_MAX }

  predicate IsI32(n: int) { I32_MIN <= n <= I32_MAX }

  function Min(a: int, b: int): int { if a <= b then a else b }

  function Max(a: int, b: int): int { if a <= b then b else a }

  function Clamp(n: int, low: int, high: int): int
    requires low <= high
  {
    Min(Max(n, low), high)
  }

  /** `i64::saturating_add` for a non-negative increment. */
  function SaturatingAdd(a: int, b: nat): int { Min(a + b, I64_MAX) }
}
