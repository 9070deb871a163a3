/** Two facts about division that the solver does not find by itself. */
module Arithmetic {
  lemma MulGrows(d: int, n: nat)
    requires d > 0
    ensures d * n >= n
  {}

  /** Quotient and remainder are unique. */
  lemma DivMod(b: nat, m: nat, q: nat, r: nat)
    requires m > 0 && b == q * m + r && r < m
    ensures b / m == q && b % m == r
  {
    var d := b / m - q;
    assert d * m == r - b % m;
    if d > 0 {
      MulGrows(d, m);
    } else if d < 0 {
      MulGrows(-d, m);
    }
  }
}
