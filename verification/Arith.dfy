/** Division facts used throughout. */
module Arith {

  function Min(a: nat, b: nat): nat {
    if a < b then a else b
  }

  function Max(a: nat, b: nat): nat {
    if a < b then b else a
  }

  lemma MulMonotone(a: nat, b: nat, d: nat)
    requires a <= b
    ensures a * d <= b * d
  {
  }

  /** Quotient and remainder are determined by the equation they satisfy. */
  lemma DivModUnique(n: nat, d: nat, q: nat, r: nat)
    requires n == d * q + r && r < d
    ensures n / d == q && n % d == r
  {
    assert n == d * (n / d) + n % d;
    if n / d < q {
      MulMonotone(n / d + 1, q, d);
    } else if n / d > q {
      MulMonotone(q + 1, n / d, d);
    }
  }

  /** `n` rounded down to a multiple of `d`, but to no less than `d`. */
  function RoundDown(n: nat, d: nat): (r: nat)
    requires d > 0
    ensures d <= r && r % d == 0
    ensures r <= n || r == d
    ensures n < r + d
  {
    var q := if n / d == 0 then 1 else n / d;
    MulMonotone(1, q, d);
    DivModUnique(q * d, d, q, 0);
    q * d
  }

  lemma MultipleOf(a: nat, b: nat, d: nat)
    requires d > 0 && b % d == 0
    ensures (a * b) % d == 0
  {
    assert a * b == d * (a * (b / d)) + 0;
    DivModUnique(a * b, d, a * (b / d), 0);
  }

  lemma Distribute(a: nat, b: nat, d: nat)
    ensures (a + b) * d == a * d + b * d
  {
  }

  lemma QuotientBelow(n: nat, rows: nat, cols: nat)
    requires n < rows * cols
    ensures cols > 0 && n / cols < rows && n % cols < cols
  {
    if cols > 0 && n / cols >= rows {
      MulMonotone(rows, n / cols, cols);
    }
  }

  lemma TimesFour(n: nat, w: nat)
    ensures n * (4 * w) == 4 * (n * w)
  {
  }
}
