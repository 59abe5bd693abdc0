/** Division facts shared by the planner and the index arithmetic. */
module Arithmetic {
  function Times(a: nat, b: nat): nat {
    a * b
  }

  function Quotient(a: nat, b: nat): nat
    requires b > 0
  {
    a / b
  }

  function Remainder(a: nat, b: nat): (r: nat)
    requires b > 0
    ensures r < b
  {
    a % b
  }

  lemma {:induction false} MulMonotone(m: nat, a: nat, b: nat)
    requires a <= b
    ensures m * a <= m * b
    decreases b - a
  {
    if a < b {
      MulMonotone(m, a, b - 1);
      assert m * b == m * (b - 1) + m;
    }
  }

  lemma QuotientBound(m: nat, q: nat, r: nat, p: nat, t: nat)
    requires r < m && m * p + t == m * q + r
    ensures p <= q
  {
    assert m * (q + 1) == m * q + m;
    if q < p {
      MulMonotone(m, q + 1, p);
    }
  }

  /** Quotient and remainder are determined by the division equation. */
  lemma QuotientOnce(n: nat, m: nat, q: nat, r: nat)
    requires m > 0 && n == m * q + r && r < m
    ensures n / m == q && n % m == r
  {
    var p, t := n / m, n % m;
    assert n == m * p + t;
    QuotientBound(m, q, r, p, t);
    QuotientBound(m, p, t, q, r);
  }

  lemma MultipleOf(m: nat, q: nat)
    requires m > 0
    ensures (m * q) % m == 0
  {
    QuotientOnce(m * q, m, q, 0);
  }

  function Pow2(n: nat): (r: nat)
    ensures r > 0
  {
    if n == 0 then 1 else 2 * Pow2(n - 1)
  }

  lemma {:induction false} Pow2Sum(a: nat, b: nat)
    ensures Pow2(a + b) == Pow2(a) * Pow2(b)
    decreases a
  {
    if a > 0 {
      Pow2Sum(a - 1, b);
      assert Pow2(a + b) == 2 * (Pow2(a - 1) * Pow2(b));
    }
  }

  lemma {:induction false} Pow2Monotone(a: nat, b: nat)
    requires a <= b
    ensures Pow2(a) <= Pow2(b)
    decreases b - a
  {
    if a < b {
      Pow2Monotone(a, b - 1);
    }
  }
}
