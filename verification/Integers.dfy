/** Fixed-width integers of the C++ and Go sources, and the C++ division operators. */
module Integers {

  const TWO_8: int := 0x100
  const TWO_16: int := 0x1_0000
  const TWO_32: int := 0x1_0000_0000
  const TWO_63: int := 0x8000_0000_0000_0000
  const TWO_64: int := 0x1_0000_0000_0000_0000

  const I64_MAX: int := 0x7fff_ffff_ffff_ffff
  const I64_MIN: int := -0x8000_0000_0000_0000

  type U8 = x: int | 0 <= x < 0x100
  type U16 = x: int | 0 <= x < 0x1_0000
  type U32 = x: int | 0 <= x < 0x1_0000_0000
  type U64 = x: int | 0 <= x < 0x1_0000_0000_0000_0000
  type I64 = x: int | -0x8000_0000_0000_0000 <= x <= 0x7fff_ffff_ffff_ffff

  datatype Option<+T> = None | Some(value: T)

  datatype Result<+T, +E> = Ok(value: T) | Err(error: E)

  /** C++ `/` on signed integers: the quotient rounded toward zero. */
  function TruncDiv(n: int, d: int): int
    requires d > 0
  {
    if n >= 0 then n / d else -((-n) / d)
  }

  /** C++ `%` on signed integers: the remainder that goes with `TruncDiv`. */
  function TruncMod(n: int, d: int): int
    requires d > 0
  {
    if n >= 0 then n % d else -((-n) % d)
  }

  /** Quotient and remainder are the only pair that recombines to `n` with a remainder
      smaller than `d` in magnitude whose sign never opposes that of `n`. */
  lemma TruncUnique(n: int, d: int, q: int, r: int)
    requires d > 0
    ensures q * d + r == n && -d < r < d && (n > 0 ==> r >= 0) && (n < 0 ==> r <= 0) && (n == 0 ==> r == 0)
      <==> q == TruncDiv(n, d) && r == TruncMod(n, d)
  {
    if n >= 0 {
      EuclidUnique(n, d, q, r);
    } else {
      EuclidUnique(-n, d, -q, -r);
      assert (-q) * d == -(q * d);
    }
  }

  lemma EuclidUnique(n: int, d: int, q: int, r: int)
    requires d > 0
    ensures q * d + r == n && 0 <= r < d <==> q == n / d && r == n % d
  {
    DivMod(n, d);
    if q * d + r == n && 0 <= r < d {
      var k := q - n / d;
      Distribute(q, n / d, d);
      if k >= 1 {
        MulAtLeast(k, d);
      } else if k <= -1 {
        MulAtLeast(-k, d);
      }
    }
  }

  lemma DivMod(n: int, d: int)
    requires d > 0
    ensures (n / d) * d + n % d == n && 0 <= n % d < d
  {
  }

  lemma Distribute(a: int, b: int, d: int)
    ensures (a - b) * d == a * d - b * d
    ensures (b - a) * d == b * d - a * d
    ensures (-(a - b)) * d == b * d - a * d
  {
  }

  lemma MulAtLeast(k: int, d: int)
    requires k >= 1 && d > 0
    ensures k * d >= d
  {
  }

  /** The bit pattern of a signed 64-bit integer read as unsigned (`std::bit_cast`, and the
      modular `static_cast`). */
  function ToUnsigned(v: I64): (u: U64) {
    if v >= 0 then v else v + TWO_64
  }

  function ToSigned(u: U64): (v: I64) {
    if u < TWO_63 then u else u - TWO_64
  }
}
