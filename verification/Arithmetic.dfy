/** Facts about floor division and products that the solver needs one at a time. */
module Arithmetic {

  lemma FloorBounds(n: int, d: int)
    requires d > 0
    ensures n / d * d <= n < n / d * d + d
  {
  }

  lemma Scale(k: int, x: int, y: int)
    requires 0 <= k && x <= y
    ensures x * k <= y * k
  {
  }

  lemma FloorAtLeast(n: int, d: int, f: int)
    requires d > 0 && f * d <= n
    ensures f <= n / d
  {
    FloorBounds(n, d);
    var q := n / d;
    assert f * d < (q + 1) * d;
    if f >= q + 1 {
      Scale(d, q + 1, f);
    }
  }

  lemma FloorUnique(n: int, d: int, q: int)
    requires d > 0 && q * d <= n < q * d + d
    ensures n / d == q
  {
    FloorBounds(n, d);
    MultipleBetween(n / d - q, d);
  }

  lemma MultipleBetween(k: int, d: int)
    requires d > 0 && -d < k * d < d
    ensures k == 0
  {
  }
}
