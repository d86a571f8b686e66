/** Quotients and remainders of products. */
module Arithmetic {
  lemma TimesGrows(a: nat, b: nat, m: nat)
    ensures a <= b ==> a * m <= b * m
  {
  }

  lemma Division(q: nat, m: nat, low: nat)
    requires low < m
    ensures (q * m + low) / m == q && (q * m + low) % m == low
  {
    var n := q * m + low;
    var d := n / m;
    assert d * m <= n < (d + 1) * m;
    TimesGrows(d + 1, q, m);
    TimesGrows(q + 1, d, m);
  }

  function Quotient(n: nat, w: nat): (q: nat)
    requires w > 0
    ensures q * w <= n < q * w + w
  {
    n / w
  }

  function Remainder(n: nat, w: nat): (r: nat)
    requires w > 0
    ensures r < w && r <= n && (n < w ==> r == n)
  {
    n % w
  }

  lemma Euclid(n: nat, w: nat) returns (q: nat)
    requires w > 0
    ensures n == q * w + n % w
  {
    q := n / w;
  }

  /** Whole multiples do not count. */
  lemma Multiples(q: nat, r: nat, p: nat)
    requires p > 0
    ensures (q * p + r) % p == r % p
  {
    var c := Euclid(r, p);
    Together(q, c, p, r % p);
    Division(q + c, p, r % p);
  }

  lemma Together(q: nat, c: nat, p: nat, r: nat)
    ensures q * p + (c * p + r) == (q + c) * p + r
  {
  }
}
