/** Facts about products and quotients that the solver needs to be told. */
module Arithmetic {

  lemma DivAdd(x: nat, b: nat, m: nat)
    requires m > 0
    ensures (x % m + b) / m + x / m == (x + b) / m && (x % m + b) % m == (x + b) % m
  {
    var q, r := x / m, x % m;
    var q2, r2 := (r + b) / m, (r + b) % m;
    DivisionOf(x, m);
    DivisionOf(r + b, m);
    Distribute(m, q, q2);
    Quotient(x + b, m, q + q2, r2);
  }

  lemma DivisionOf(x: nat, m: nat)
    requires m > 0
    ensures x == m * (x / m) + x % m
  {
  }

  lemma Quotient(x: nat, m: nat, q: nat, r: nat)
    requires r < m && x == q * m + r
    ensures x / m == q && x % m == r
  {
    var q1, r1 := x / m, x % m;
    assert q1 * m + r1 == x;
    if q1 > q {
      MulMore(q1, q, m);
    } else if q1 < q {
      MulMore(q, q1, m);
    }
  }

  lemma MulMore(a: nat, b: nat, m: nat)
    requires a > b
    ensures a * m >= b * m + m
  {
    Distribute(m, b + 1, a - b - 1);
    Distribute(m, b, 1);
  }

  lemma Distribute(k: nat, a: nat, b: nat)
    ensures k * (a + b) == k * a + k * b
  {
  }

  lemma RemainderAtMost(x: nat, m: nat)
    requires m > 0
    ensures x % m <= x
  {
    if x < m { Quotient(x, m, 0, x); }
  }
}
