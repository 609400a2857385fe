/** Division facts that the other modules share. */
module Arithmetic {

  /** A multiple of `n` that is not zero is at least `n` away from it. */
  lemma Multiple(n: nat, d: int)
    requires n > 0 && d != 0
    ensures n * d >= n || n * d + n <= 0
  {
    if d > 0 {
      assert n * (d - 1) >= 0;
    } else {
      assert n * (-1 - d) >= 0;
    }
  }

  /** Quotient and remainder are unique. */
  lemma DivMod(d: nat, q: nat, r: nat, n: nat)
    requires d > 0 && r < d && n == d * q + r
    ensures n / d == q && n % d == r
  {
    var q' := n / d;
    if q' != q {
      assert d * (q' - q) == d * q' - d * q;
      Multiple(d, q' - q);
    }
  }
}
