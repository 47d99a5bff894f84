/** Products, quotients and powers of ten. */
module Numbers {
  import opened Data

  lemma ScaleMonotone(a: nat, b: nat, p: nat)
    requires a <= b
    ensures a * p <= b * p
  {
  }

  lemma DivideAndMultiply(m: int, p: int)
    requires p > 0
    ensures m == (m / p) * p + m % p && 0 <= m % p < p
  {
  }

  lemma NegativeQuotient(q: int, p: int)
    requires p > 0 && q < 0
    ensures q * p <= -p
  {
    ScaleMonotone(1, -q, p);
    assert (-q) * p == -(q * p);
  }

  lemma QuotientBounds(q: int, p: int, r: int)
    requires p > 0 && 0 <= r < p && q * p + r >= 0
    ensures 0 <= q <= q * p + r && r <= q * p + r
  {
    if q < 0 {
      NegativeQuotient(q, p);
    } else if q > 0 {
      ScaleMonotone(1, p, q);
      assert p * q == q * p;
    }
  }

  lemma Parts(m: nat, p: nat)
    requires p > 0
    ensures 0 <= m / p <= m && 0 <= m % p < p && m % p <= m
    ensures m == (m / p) * p + m % p
  {
    DivideAndMultiply(m, p);
    QuotientBounds(m / p, p, m % p);
  }

  lemma {:induction false} Pow10Add(m: nat, n: nat)
    ensures Pow10(m + n) == Pow10(m) * Pow10(n)
  {
    if m > 0 { Pow10Add(m - 1, n); }
  }

  lemma {:induction false} Pow10Grows(m: nat, n: nat)
    requires m < n
    ensures Pow10(m) < Pow10(n)
  {
    if m + 1 < n { Pow10Grows(m, n - 1); }
  }

  lemma DivisionIsUnique(m: int, q: int, r: int, p: int)
    requires p > 0 && m == q * p + r && 0 <= r < p
    ensures m / p == q && m % p == r
  {
    DivideAndMultiply(m, p);
    var d := m / p - q;
    assert d * p == (m / p) * p - q * p;
    if d < 0 { NegativeQuotient(d, p); } else if d > 0 { ScaleMonotone(1, d, p); }
  }

  lemma NextQuotient(m: nat, p: nat)
    requires p > 0
    ensures m % p + 1 < p ==> (m + 1) / p == m / p && (m + 1) % p == m % p + 1
    ensures m % p + 1 == p ==> (m + 1) / p == m / p + 1 && (m + 1) % p == 0
  {
    DivideAndMultiply(m, p);
    if m % p + 1 < p {
      DivisionIsUnique(m + 1, m / p, m % p + 1, p);
    } else {
      assert (m / p + 1) * p == (m / p) * p + p;
      DivisionIsUnique(m + 1, m / p + 1, 0, p);
    }
  }

  lemma ScaleUp(a: nat, b: nat, p: nat)
    requires a < b && p > 0
    ensures a * p < b * p
  {
  }

  lemma ReassociateIntegers(x: int, y: int, z: int)
    ensures x * y * z == x * (y * z)
  {
  }

  lemma SameIntegerProduct(x: int, y: int, d: int)
    requires d > 0
    ensures x * d == y * d <==> x == y
  {
    assert (x - y) * d == x * d - y * d;
  }

  lemma {:induction false} ProductAsReal(x: int, y: nat)
    ensures (x * y) as real == x as real * y as real
  {
    if y > 0 {
      ProductAsReal(x, y - 1);
      assert x * y == x * (y - 1) + x;
      assert x as real * y as real == x as real * (y - 1) as real + x as real;
    }
  }

  lemma Reassociate(x: real, y: real, z: real)
    ensures x * (y * z) == x * y * z
  {
  }

  lemma CancelQuotient(x: real, d: real, e: real)
    requires d > 0.0
    ensures x / d * (d * e) == x * e
  {
    var q := x / d;
    assert q * d == x;
    Reassociate(q, d, e);
  }

  lemma FractionInUnits(digits: int, scale: nat, n: nat)
    requires scale <= n
    ensures digits as real / Pow10(scale) as real * Pow10(n) as real == (digits * Pow10(n - scale)) as real
  {
    hide Pow10;
    var d, e := Pow10(scale), Pow10(n - scale);
    Pow10Add(scale, n - scale);
    assert Pow10(n) == d * e;
    ProductAsReal(d, e);
    ProductAsReal(digits, e);
    CancelQuotient(digits as real, d as real, e as real);
  }

  lemma WholeInUnits(digits: int, zeros: nat, n: nat)
    ensures (digits * Pow10(zeros)) as real * Pow10(n) as real == (digits * Pow10(n + zeros)) as real
  {
    hide Pow10;
    Pow10Add(zeros, n);
    ProductAsReal(digits * Pow10(zeros), Pow10(n));
    ReassociateIntegers(digits, Pow10(zeros), Pow10(n));
  }

  lemma SameProduct(x: real, y: real, d: real)
    requires d > 0.0
    ensures x * d == y * d <==> x == y
  {
    assert (x - y) * d == x * d - y * d;
  }

  lemma QuotientTimes(x: real, d: real)
    requires d > 0.0
    ensures x / d * d == x
  {
  }

  lemma NegatedProduct(x: int, y: int)
    ensures (0 - x) * y == 0 - x * y
  {
  }
}
