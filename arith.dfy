/** Small facts about real multiplication and division that the solver does not find
    on its own. */
module Arith {

  lemma MulNonNegative(x: real, y: real)
    requires x >= 0.0 && y >= 0.0
    ensures x * y >= 0.0
  {
  }

  lemma MulPositive(x: real, y: real)
    requires x > 0.0 && y > 0.0
    ensures x * y > 0.0
  {
  }

  lemma DivNonNegative(x: real, n: real)
    requires x >= 0.0 && n > 0.0
    ensures x / n >= 0.0
  {
  }

  lemma DivCancels(x: real, n: real)
    requires n != 0.0
    ensures (x / n) * n == x
  {
  }

  lemma DivBetween(s: real, n: real, lo: real, hi: real)
    requires n > 0.0 && n * lo <= s <= n * hi
    ensures lo <= s / n <= hi
  {
    DivNonNegative(s - n * lo, n);
    DivNonNegative(n * hi - s, n);
    assert (s - n * lo) / n == s / n - lo;
    assert (n * hi - s) / n == hi - s / n;
  }

  lemma DivShift(s: real, n: real, c: real)
    requires n != 0.0
    ensures (s - n * c) / n == s / n - c
  {
    var q := s / n;
    assert q * n == s;
    assert (q - c) * n == s - n * c;
  }

  lemma MulNonZero(x: real, y: real)
    requires x != 0.0 && y != 0.0
    ensures x * y != 0.0
  {
  }

  lemma MulNonPositive(x: real, y: real)
    requires x >= 0.0 && y <= 0.0
    ensures x * y <= 0.0
  {
    MulNonNegative(x, -y);
  }
}
