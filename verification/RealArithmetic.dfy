/** The few facts about products and quotients of reals that means and rates need. */
module RealArithmetic {
  lemma OneMoreTimes(a: real, n: real)
    ensures a * (n + 1.0) == a * n + a
  {
  }

  lemma QuotientTimes(x: real, y: real)
    requires y > 0.0
    ensures x / y * y == x
  {
  }

  lemma ScaledOrder(a: real, b: real, y: real)
    requires y > 0.0
    ensures a <= b <==> a * y <= b * y
  {
  }

  lemma QuotientBetween(low: real, sum: real, high: real, n: real)
    requires n > 0.0
    requires low * n <= sum <= high * n
    ensures low <= sum / n <= high
  {
    QuotientTimes(sum, n);
    ScaledOrder(low, sum / n, n);
    ScaledOrder(sum / n, high, n);
  }
}
