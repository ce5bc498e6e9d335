/** `Math.round` of a quotient of naturals, which the detectors report. */
module Exact {

  /** `Math.round(x / n)` for `x >= 0` and `n > 0`: `⌊(2x + n) / 2n⌋`. */
  function Round(x: nat, n: nat): nat
    requires n > 0
  {
    Quot(2 * x + n, 2 * n)
  }

  /** `⌊a / b⌋`, as the number of times `b` can be taken from `a`. */
  function Quot(a: nat, b: nat): nat
    requires b > 0
    decreases a
  {
    if a < b then 0 else 1 + Quot(a - b, b)
  }

  /** The quotient and the remainder: `a == b·q + m` with `0 <= m < b`. */
  lemma {:induction false} QuotRem(a: nat, b: nat)
    requires b > 0
    ensures b * Quot(a, b) <= a < b * Quot(a, b) + b
  {
    if a >= b {
      QuotRem(a - b, b);
      assert b * Quot(a, b) == b * Quot(a - b, b) + b;
    }
  }

  /** The rounded quotient is the integer nearest to `x / n`, halves going upwards:
      `r − 1/2 <= x / n < r + 1/2`. */
  lemma RoundNearest(x: nat, n: nat)
    requires n > 0
    ensures var r := Round(x, n);
            2 * x < (2 * r + 1) * n && (2 * r - 1) * n <= 2 * x
  {
    var a, b := 2 * x + n, 2 * n;
    QuotRem(a, b);
    Bracket(x, n, Quot(a, b), a - b * Quot(a, b));
  }

  lemma Bracket(x: nat, n: nat, r: int, m: int)
    requires n > 0 && 2 * x + n == 2 * n * r + m && 0 <= m < 2 * n
    ensures 2 * x < (2 * r + 1) * n && (2 * r - 1) * n <= 2 * x
  {
    assert (2 * r + 1) * n == 2 * n * r + n;
    assert (2 * r - 1) * n == 2 * n * r - n;
  }

  /** A quotient between `lo` and `hi` rounds to an integer between them. */
  lemma RoundBetween(x: nat, n: nat, lo: int, hi: int)
    requires n > 0 && lo * n <= x <= hi * n
    ensures lo <= Round(x, n) <= hi
  {
    RoundNearest(x, n);
    var r := Round(x, n);
    if r < lo {
      MulLe(2 * r + 1, 2 * lo - 1, n);
    }
    if r > hi {
      MulLe(2 * hi + 1, 2 * r - 1, n);
    }
  }

  lemma MulLe(a: int, b: int, n: nat)
    requires a <= b
    ensures a * n <= b * n
  {
  }
}
