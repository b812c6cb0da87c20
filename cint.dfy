/**
 * The C integer types the firmware computes with, and the conversions C
 * applies between them. Dafny integers are unbounded, so every wrap-around,
 * truncating cast and truncating division is written out here once and used
 * by name everywhere else.
 */
module CInt {

  const U16_MOD: int := 0x1_0000
  const U32_MOD: int := 0x1_0000_0000
  const U64_MOD: int := 0x1_0000_0000_0000_0000

  type byte = x: int | 0 <= x < 0x100
  type u16 = x: int | 0 <= x < 0x1_0000
  type u32 = x: int | 0 <= x < 0x1_0000_0000
  type u64 = x: int | 0 <= x < 0x1_0000_0000_0000_0000
  type i16 = x: int | -0x8000 <= x < 0x8000
  type i32 = x: int | -0x8000_0000 <= x < 0x8000_0000

  /** Conversion of an integer value to uint8_t (reduction modulo 2^8) */
  function ToU8(x: int): byte { x % 0x100 }

  /** Conversion of an integer value to uint16_t (reduction modulo 2^16) */
  function ToU16(x: int): u16 { x % U16_MOD }

  /** Conversion of an integer value to uint32_t (reduction modulo 2^32) */
  function ToU32(x: int): u32 { x % U32_MOD }

  /** Conversion of an integer value to uint64_t (reduction modulo 2^64) */
  function ToU64(x: int): u64 { x % U64_MOD }

  /** Conversion to int16_t as the target compilers do it: keep the low 16 bits
      and read them in two's complement */
  function ToI16(x: int): i16 {
    var y := x % U16_MOD;
    if y < 0x8000 then y else y - U16_MOD
  }

  /** C's `/` on signed operands with a positive divisor: truncates toward zero */
  function CDiv(a: int, b: int): int
    requires b > 0
  {
    if a >= 0 then a / b else -((-a) / b)
  }

  /** C's `%` on a signed left operand and a positive divisor: takes the sign of `a` */
  function CRem(a: int, b: int): int
    requires b > 0
  {
    a - b * CDiv(a, b)
  }

  /** C's remainder is the Euclidean one of |a|, with the sign of `a` */
  lemma CRemValue(a: int, b: int)
    requires b > 0
    ensures CRem(a, b) == if a >= 0 then a % b else -((-a) % b)
  {
    if a >= 0 {
      assert a == (a / b) * b + a % b;
    } else {
      var y := -a;
      assert y == (y / b) * b + y % b;
    }
  }

  /** The int16_t cast gives back every value that already fits, so a
      subtraction that wrapped in uint64_t comes back as the negative difference */
  lemma ToI16Exact(x: int, k: int)
    requires -0x8000 <= x < 0x8000
    ensures ToI16(x + k * U16_MOD) == x
  {
    assert (x + k * U16_MOD) % U16_MOD == x % U16_MOD;
  }

  /** Reduction modulo m commutes with an affine step: multiplying a
      wrapped value by k and adding c tracks the unbounded computation */
  lemma ModAffine(x: int, k: int, c: int, m: int)
    requires m > 0
    ensures ((x % m) * k + c) % m == (x * k + c) % m
  {
    var q := x / m;
    assert x == q * m + x % m;
    assert x * k + c == (x % m) * k + c + (q * k) * m;
    ModAddMultiple((x % m) * k + c, q * k, m);
  }

  lemma ModAddMultiple(a: int, j: int, m: int)
    requires m > 0
    ensures (a + j * m) % m == a % m
  {
    var q := a / m;
    assert a == q * m + a % m;
    assert a + j * m == (q + j) * m + a % m;
    DivModUnique(a + j * m, q + j, a % m, m);
  }

  /** Euclidean division is determined by quotient and remainder */
  lemma DivModUnique(x: int, q: int, r: int, m: int)
    requires m > 0 && 0 <= r < m && x == q * m + r
    ensures x / m == q && x % m == r
  {
    var q', r' := x / m, x % m;
    assert x == q' * m + r';
    assert (q - q') * m == r' - r;
    MulAwayFromZero(q - q', m);
  }

  lemma MulAwayFromZero(d: int, m: int)
    requires m > 0
    ensures d >= 1 ==> d * m >= m
    ensures d <= -1 ==> d * m <= -m
  {
  }
}
