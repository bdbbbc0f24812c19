/** Facts about quotients and remainders that the number lemmas share. */
module DivMod {

  lemma MulNonNegative(x: int, y: int)
    requires x >= 0 && y >= 0
    ensures x * y >= 0
  {}

  lemma MulMonotone(x: int, y: int, d: int)
    requires x <= y && d >= 0
    ensures x * d <= y * d
  {
    MulNonNegative(y - x, d);
    assert (y - x) * d == y * d - x * d;
  }

  lemma MulSmall(x: int, d: int)
    requires d > 0 && -d < x * d < d
    ensures x == 0
  {
    if x >= 1 {
      MulMonotone(1, x, d);
    } else if x <= -1 {
      MulMonotone(x, -1, d);
    }
  }

  /** Quotient and remainder are determined by their defining equation. */
  lemma ModUnique(a: int, d: int, q: int, r: int)
    requires d > 0 && a == q * d + r && 0 <= r < d
    ensures a / d == q && a % d == r
  {
    var q', r' := a / d, a % d;
    assert a == q' * d + r';
    assert (q - q') * d == q * d - q' * d == r' - r;
    MulSmall(q - q', d);
  }

  lemma DivModEquation(a: int, d: int)
    requires d > 0
    ensures a == (a / d) * d + a % d && 0 <= a % d < d
  {}
}
