/** Fixed-width C integer types used by the modelled code, written out explicitly. */
module Machine {

  /** 2^64, the modulus of `uint64_t` (the `nanosec` type of interruptible.c). */
  const U64: int := 0x1_0000_0000_0000_0000

  /** 2^32, the modulus of `uint32_t` and of `unsigned int` on the targeted platforms. */
  const U32: int := 0x1_0000_0000

  /** `UINT_MAX`: the largest value of an `unsigned int`. */
  const UINT_MAX: int := U32 - 1

  /** `USHRT_MAX`: the largest value of an `unsigned short`. */
  const USHRT_MAX: int := 0xFFFF

  const INT64_MIN: int := -0x8000_0000_0000_0000
  const INT64_MAX: int := 0x7FFF_FFFF_FFFF_FFFF

  type u64 = x: int | 0 <= x < U64
  type u32 = x: int | 0 <= x < U32
  type u16 = x: int | 0 <= x <= USHRT_MAX

  /** True when `x` is representable as a signed 64-bit integer (`int_least64_t`, `time_t`). */
  predicate InInt64(x: int) {
    INT64_MIN <= x <= INT64_MAX
  }

  /** Unsigned 64-bit subtraction `a - b`, which wraps modulo 2^64. */
  function Sub64(a: u64, b: u64): (r: u64)
    ensures a >= b ==> r == a - b
    ensures a < b ==> r == U64 - (b - a)
  {
    (a - b) % U64
  }

  /** Unsigned 64-bit increment `a += 1`, which wraps to 0 after 2^64 - 1. */
  function Inc64(a: u64): (r: u64)
    ensures a < U64 - 1 ==> r == a + 1
    ensures a == U64 - 1 ==> r == 0
  {
    (a + 1) % U64
  }
}
