/** Facts about multiplication and division by a positive number that the other modules need. */
module Arith {

  lemma MulMonotone(x: int, y: int, a: nat)
    ensures x <= y ==> x * a <= y * a
  {
  }

  /** Quotient and remainder are determined by the division equation. */
  lemma DivModUnique(x: int, q: int, r: int, a: nat)
    requires a > 0 && x == q * a + r && 0 <= r < a
    ensures x / a == q && x % a == r
  {
    var p := x / a;
    assert (q - p) * a == x % a - r;
    MulMonotone(1, q - p, a);
    MulMonotone(q - p, -1, a);
  }

  lemma DivMonotone(x: int, y: int, a: nat)
    requires a > 0 && x <= y
    ensures x / a <= y / a
  {
    MulMonotone(y / a + 1, x / a, a);
  }

  /** The product `n * a`, written as repeated addition to keep multiplication out of other proofs. */
  function Times(n: nat, a: nat): nat {
    if n == 0 then 0 else Times(n - 1, a) + a
  }

  lemma {:induction false} TimesIsProduct(n: nat, a: nat)
    ensures Times(n, a) == n * a
  {
    if n > 0 {
      TimesIsProduct(n - 1, a);
    }
  }

  lemma {:induction false} TimesSum(m: nat, n: nat, a: nat)
    ensures Times(m + n, a) == Times(m, a) + Times(n, a)
  {
    if n > 0 {
      TimesSum(m, n - 1, a);
    }
  }

  lemma TimesMonotone(m: nat, n: nat, a: nat)
    requires m <= n
    ensures Times(m, a) <= Times(n, a)
  {
    TimesSum(m, n - m, a);
  }

  lemma TimesLess(m: nat, n: nat, a: nat)
    requires Times(m, a) < Times(n, a)
    ensures m < n
  {
    if n <= m {
      TimesMonotone(n, m, a);
    }
  }

  lemma TimesAtMost(m: nat, n: nat, a: nat)
    requires a > 0 && Times(m, a) <= Times(n, a)
    ensures m <= n
  {
    if n < m {
      TimesMonotone(n + 1, m, a);
    }
  }

  lemma TimesDivision(x: nat, a: nat)
    requires a > 0
    ensures x == Times(x / a, a) + x % a
  {
    TimesIsProduct(x / a, a);
  }

  lemma TimesSpan(base: nat, x: nat, n: nat, limit: nat, a: nat)
    requires x + n <= limit
    ensures Times(base + (x + n), a) == Times(base + x, a) + Times(n, a) <= Times(base + limit, a)
  {
    TimesSum(base + x, n, a);
    assert base + (x + n) == base + x + n;
    TimesMonotone(base + (x + n), base + limit, a);
  }
}
