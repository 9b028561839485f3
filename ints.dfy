/**
 * Fixed-width integers of the Swift wrapper and Swift's integer division.
 * Swift traps on overflow instead of wrapping, so a width shows up as a
 * range that an operation must stay inside, not as a modulus.
 */
module Ints {
  /** Swift `UInt32` (also C `uint32_t`). */
  type u32 = x: int | 0 <= x < 0x1_0000_0000

  /** Swift `Int32`. */
  type i32 = x: int | -0x8000_0000 <= x < 0x8000_0000

  /** `x` is representable as a Swift `Int` (64 bits on every Apple target). */
  predicate InInt64(x: int) {
    -0x8000_0000_0000_0000 <= x < 0x8000_0000_0000_0000
  }

  /**
   * Swift's `/` on signed integers rounds toward zero, unlike Dafny's
   * Euclidean division: `-7 / 2` is `-3` in Swift.
   */
  function TruncDiv(a: int, b: int): (q: int)
    requires b > 0
    ensures a >= 0 ==> 0 <= q && q * b <= a < q * b + b
    ensures a < 0 ==> q <= 0 && q * b - b < a <= q * b
  {
    if a >= 0 then
      DivMod(a, b);
      a / b
    else
      DivMod(-a, b);
      assert -((-a) / b) * b == -((-a) / b * b);
      -((-a) / b)
  }

  /** Euclidean division of a non-negative number, spelled out for the solver. */
  lemma DivMod(a: int, b: int)
    requires a >= 0 && b > 0
    ensures a == a / b * b + a % b && 0 <= a % b < b && a / b >= 0
  {
  }

  lemma TruncDivExamples()
    ensures TruncDiv(-7, 2) == -3 && TruncDiv(7, 2) == 3 && TruncDiv(-8, 8) == -1
  {
  }

  /** Quotient and remainder are determined by `m == q * n + r` with `0 <= r < n`. */
  lemma DivModUnique(m: int, n: int, q: int, r: int)
    requires n > 0 && m == q * n + r && 0 <= r < n
    ensures q == m / n && r == m % n
  {
    var q0, r0 := m / n, m % n;
    assert m == q0 * n + r0 && 0 <= r0 < n;
    assert (q - q0) * n == q * n - q0 * n;
    assert (q - q0) * n == r0 - r;
    if q > q0 {
      MulMonotone(1, q - q0, n);
    } else if q < q0 {
      MulMonotone(1, q0 - q, n);
    }
  }

  lemma MulMonotone(a: int, b: int, n: int)
    requires a <= b && n >= 0
    ensures a * n <= b * n
  {
    assert b * n - a * n == (b - a) * n;
  }
}
