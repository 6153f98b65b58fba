/** The few facts about products and quotients that the exact-arithmetic proofs need. */
module Arithmetic {

  lemma {:induction false} MulLe(a: nat, b: nat, p: nat)
    requires a <= b
    ensures a * p <= b * p
  {
  }

  lemma {:induction false} MulSucc(a: nat, p: nat)
    ensures (a + 1) * p == a * p + p
  {
  }

  lemma {:induction false} DivBounds(a: nat, m: nat)
    requires m > 0
    ensures (a / m) * m <= a < (a / m) * m + m
  {
  }

  /** Quotient and remainder are the only ones. */
  lemma {:induction false} DivUnique(q: nat, hi: nat, lo: nat, m: nat)
    requires m > 0 && lo < m && q == hi * m + lo
    ensures q / m == hi && q % m == lo
  {
    var k := q / m;
    DivBounds(q, m);
    if k < hi {
      MulLe(k + 1, hi, m);
      MulSucc(k, m);
    } else if hi < k {
      MulLe(hi + 1, k, m);
      MulSucc(hi, m);
    }
  }

  lemma {:induction false} DivMod(n: nat, m: nat) returns (q: nat, r: nat)
    requires m > 0
    ensures q == n / m && r == n % m && r < m && n == q * m + r
  {
    q, r := n / m, n % m;
  }

  lemma {:induction false} DivModSucc(n: nat, m: nat)
    requires m > 0
    ensures (n + 1) % m == if n % m + 1 == m then 0 else n % m + 1
    ensures (n + 1) / m == if n % m + 1 == m then n / m + 1 else n / m
  {
    var q, r := DivMod(n, m);
    MulSucc(q, m);
    if r + 1 == m {
      DivUnique(n + 1, q + 1, 0, m);
    } else {
      DivUnique(n + 1, q, r + 1, m);
    }
  }
}
