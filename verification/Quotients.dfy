/** Facts about quotients and remainders, kept apart from the division operators. */
module Quotients {
  lemma Mono(a: nat, b: nat, d: nat)
    requires a <= b
    ensures a * d <= b * d
  {
  }

  lemma QuotientUnique(p: nat, a: nat, q: nat, b: nat, d: nat)
    requires p * d + a == q * d + b && a < d && b < d
    ensures p == q && a == b
  {
    if p < q {
      Mono(p + 1, q, d);
    } else if q < p {
      Mono(q + 1, p, d);
    }
  }

  lemma Euclid(x: nat, d: nat)
    requires d > 0
    ensures x == x / d * d + x % d && x % d < d
  {
  }

  lemma DivMod(q: nat, d: nat, o: nat)
    requires o < d
    ensures (q * d + o) / d == q && (q * d + o) % d == o
  {
    var x := q * d + o;
    Euclid(x, d);
    QuotientUnique(x / d, x % d, q, o, d);
  }

  lemma SameQuotient(x: nat, k: nat, d: nat)
    requires d > 0 && x % d + k < d
    ensures (x + k) / d == x / d && (x + k) % d == x % d + k
  {
    Euclid(x, d);
    DivMod(x / d, d, x % d + k);
  }

  lemma QuotientBelow(x: nat, n: nat, d: nat)
    requires d > 0 && x <= n * d
    ensures x / d <= n
  {
    Euclid(x, d);
    if x / d > n {
      Mono(n + 1, x / d, d);
    }
  }
}
