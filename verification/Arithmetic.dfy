/** Multiples and remainders. */
module Arithmetic {

  lemma NonNegativeProduct(a: nat, b: nat)
    ensures a * b >= 0
  {
  }

  lemma {:induction false} FarProduct(a: nat, d: int)
    ensures d != 0 ==> a * d >= a || a * d <= 0 - a
    decreases if d < 0 then 0 - d else d
  {
    if d > 1 {
      FarProduct(a, d - 1);
      assert a * d == a * (d - 1) + a;
      NonNegativeProduct(a, d - 1);
    } else if d < -1 {
      FarProduct(a, d + 1);
      assert a * d == a * (d + 1) - a;
      NonNegativeProduct(a, 0 - (d + 1));
      assert a * (0 - (d + 1)) == 0 - a * (d + 1);
    }
  }

  /** Quotient and remainder are determined by their equation. */
  lemma DivUnique(x: int, a: nat, q: int, r: int)
    requires a > 0 && x == a * q + r && 0 <= r < a
    ensures x / a == q && x % a == r
  {
    var q', r' := x / a, x % a;
    assert x == a * q' + r';
    assert a * (q - q') == r' - r;
    FarProduct(a, q - q');
  }

  lemma MulMod(q: int, a: nat)
    requires a > 0
    ensures (q * a) % a == 0
  {
    assert q * a == a * q + 0;
    DivUnique(q * a, a, q, 0);
  }

  /** Products of bounded factors are bounded. */
  lemma ProductMonotone(x: nat, y: nat, m: nat, n: nat)
    requires x <= m && y <= n
    ensures x * y <= m * n
  {
    NonNegativeProduct(m - x, y);
    NonNegativeProduct(m, n - y);
    assert (m - x) * y == m * y - x * y;
    assert m * (n - y) == m * n - m * y;
  }
}
