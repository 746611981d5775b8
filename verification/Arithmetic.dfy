// Quotients, remainders and multiples when the divisor is not a constant.
module Arithmetic {
  function Min(a: int, b: int): int {
    if a < b then a else b
  }

  lemma DivModDef(n: nat, d: nat)
    requires d > 0
    ensures n == n / d * d + n % d && 0 <= n % d < d && n / d >= 0
  {
  }

  lemma Larger(q: nat, p: nat, d: nat)
    requires q < p
    ensures q * d + d <= p * d
  {
    var k := p - q - 1;
    assert (q + 1 + k) * d == q * d + d + k * d;
    assert k * d >= 0;
  }

  lemma Unique(q: nat, r: nat, p: nat, s: nat, d: nat)
    requires r < d && s < d && q * d + r == p * d + s
    ensures q == p && r == s
  {
    if q < p {
      Larger(q, p, d);
    } else if p < q {
      Larger(p, q, d);
    }
  }

  // The quotient and remainder of a number written as q * d + r.
  lemma DivModUnique(n: nat, d: nat, q: nat, r: nat)
    requires d > 0 && r < d && n == q * d + r
    ensures n / d == q && n % d == r
  {
    DivModDef(n, d);
    Unique(n / d, n % d, q, r, d);
  }

  lemma MultipleMod(q: nat, d: nat)
    requires d > 0
    ensures q * d % d == 0
  {
    DivModUnique(q * d, d, q, 0);
  }
}
