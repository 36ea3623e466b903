/** The integer arithmetic of JavaScript's `Math.floor`, `Math.round`,
    `Math.max`, `Math.ceil` and the truncating `%` operator, on exact integers
    and rationals (floating-point error is not modelled). */
module JsMath {

  function Max(a: int, b: int): (m: int)
    ensures m >= a && m >= b && (m == a || m == b)
  {
    if a >= b then a else b
  }

  function Min(a: int, b: int): (m: int)
    ensures m <= a && m <= b && (m == a || m == b)
  {
    if a <= b then a else b
  }

  lemma DivBounds(a: int, b: int)
    requires b > 0
    ensures (a / b) * b <= a < (a / b) * b + b
  {
  }

  lemma MulMonotone(x: int, y: int, d: int)
    requires d > 0 && x <= y
    ensures x * d <= y * d
  {
  }

  /** `Math.floor(n / d)` for a positive divisor. */
  function FloorDiv(n: int, d: int): (q: int)
    requires d > 0
    ensures q * d <= n < q * d + d
  {
    DivBounds(n, d);
    n / d
  }

  /** `Math.ceil(n / d)` for a positive divisor. */
  function CeilDiv(n: int, d: int): (q: int)
    requires d > 0
    ensures q * d - d < n <= q * d
  {
    DivBounds(n + d - 1, d);
    (n + d - 1) / d
  }

  /** `n % d` in JavaScript: the remainder takes the sign of the dividend. */
  function TruncMod(n: int, d: int): (r: int)
    requires d > 0
    ensures n >= 0 ==> 0 <= r < d && r == n - FloorDiv(n, d) * d
    ensures n < 0 ==> -d < r <= 0 && r == n + FloorDiv(-n, d) * d
  {
    if n >= 0 then n % d else -((-n) % d)
  }

  /** `Math.round(n / d)`: the nearest integer to the rational n/d, with
      halves rounded towards positive infinity. */
  function RoundDiv(n: int, d: int): (r: int)
    requires d != 0
    ensures d > 0 ==> (2 * r - 1) * d <= 2 * n < (2 * r + 1) * d
    ensures d < 0 ==> (2 * r - 1) * -d <= -2 * n < (2 * r + 1) * -d
    decreases if d > 0 then 0 else 1
  {
    if d > 0 then
      DivBounds(2 * n + d, 2 * d);
      (2 * n + d) / (2 * d)
    else
      RoundDiv(-n, -d)
  }

  /** The bounds in RoundDiv's contract pin the rounded value down: any
      integer within half a unit (halves rounding up) is the result. */
  lemma {:induction false} RoundDivUnique(n: int, d: int, r: int)
    requires d > 0
    requires (2 * r - 1) * d <= 2 * n < (2 * r + 1) * d
    ensures r == RoundDiv(n, d)
  {
    var q := RoundDiv(n, d);
    if r < q {
      MulMonotone(2 * r + 1, 2 * q - 1, d);
    } else if r > q {
      MulMonotone(2 * q + 1, 2 * r - 1, d);
    }
  }

  /** Dividing an exact multiple rounds to the quotient. */
  lemma {:induction false} RoundDivExact(k: int, d: int)
    requires d > 0
    ensures RoundDiv(k * d, d) == k
  {
    assert (2 * k - 1) * d <= 2 * (k * d) < (2 * k + 1) * d;
    RoundDivUnique(k * d, d, k);
  }

  /** Rounding is monotone in the numerator. */
  lemma {:induction false} RoundDivMonotone(n: int, m: int, d: int)
    requires d > 0 && n <= m
    ensures RoundDiv(n, d) <= RoundDiv(m, d)
  {
    var a, b := RoundDiv(n, d), RoundDiv(m, d);
    if a > b {
      MulMonotone(2 * b + 1, 2 * a - 1, d);
    }
  }

  /** The rounded mean of values that all lie in [lo, hi] lies in [lo, hi]. */
  lemma RoundedMeanWithin(sum: int, n: int, lo: int, hi: int)
    requires n > 0 && n * lo <= sum <= n * hi
    ensures lo <= RoundDiv(sum, n) <= hi
  {
    RoundDivExact(lo, n);
    RoundDivExact(hi, n);
    RoundDivMonotone(lo * n, sum, n);
    RoundDivMonotone(sum, hi * n, n);
  }
}
