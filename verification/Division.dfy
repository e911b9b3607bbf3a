/** Division with remainder for a divisor that is not a constant. */
module Division {

  lemma {:induction false} ProductMonotone(a: nat, b: nat, m: nat)
    requires a <= b
    ensures a * m <= b * m
  {
    if a == b {
    } else {
      ProductMonotone(a, b - 1, m);
      assert b * m == (b - 1) * m + m;
    }
  }

  lemma BiggerQuotient(d: nat, q: nat, m: nat, r: nat)
    requires d < q && r < m
    ensures d * m + r < q * m
  {
    ProductMonotone(d + 1, q, m);
    assert (d + 1) * m == d * m + m;
  }

  lemma DivisionIs(x: nat, m: nat, q: nat, t: nat)
    requires t < m && x == q * m + t
    ensures x / m == q && x % m == t
  {
    var d, r := x / m, x % m;
    assert x == d * m + r;
    if d < q {
      BiggerQuotient(d, q, m, r);
    } else if q < d {
      BiggerQuotient(q, d, m, t);
    }
  }

  lemma QuotientOf(q: nat, m: nat, t: nat)
    requires t < m
    ensures (q * m + t) / m == q
  {
    DivisionIs(q * m + t, m, q, t);
  }
}
