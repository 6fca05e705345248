/** Products and quotients, proved once. */
module Arithmetic {

  function Pow2(n: nat): (p: nat)
    ensures p > 0
  {
    if n == 0 then 1 else 2 * Pow2(n - 1)
  }

  lemma {:induction false} MulAtLeast(k: nat, d: nat)
    requires k >= 1
    ensures k * d >= d
  {
    if k > 1 {
      MulAtLeast(k - 1, d);
      assert k * d == (k - 1) * d + d;
    }
  }

  /** Multiples of `size` are at least `size` apart. */
  lemma NextMultiple(m: nat, n: nat, size: nat)
    ensures (m + 1) * size == m * size + size
    ensures m < n ==> m * size + size <= n * size
  {
    if m < n {
      MulAtLeast(n - m, size);
      assert (n - m) * size == n * size - m * size;
    }
  }

  /** Quotient and remainder are unique. */
  lemma DivMod(q: nat, d: nat, r: nat)
    requires r < d
    ensures (q * d + r) / d == q && (q * d + r) % d == r
  {
    var x := q * d + r;
    var a, b := x / d, x % d;
    assert x == d * a + b;
    Unique(q, r, a, b, d);
  }

  lemma Unique(q: nat, r: nat, a: nat, b: nat, d: nat)
    requires q * d + r == d * a + b && r < d && b < d
    ensures q == a && r == b
  {
    if a > q {
      NextMultiple(q, a, d);
    } else if q > a {
      NextMultiple(a, q, d);
    }
  }

  lemma MulAssoc(a: nat, b: nat, c: nat)
    ensures a * (b * c) == (a * b) * c == (a * c) * b
  {
  }

  lemma MulDistributes(a: nat, b: nat, c: nat)
    ensures (a + b) * c == a * c + b * c && c * (a + b) == c * a + c * b
  {
  }

  lemma Regroup(a: nat, b: nat, r: nat, d: nat, e: nat)
    ensures d * (e * a + b) + r == a * (e * d) + (b * d + r)
  {
    MulDistributes(e * a, b, d);
    MulAssoc(d, e, a);
    MulAssoc(a, e, d);
  }

  /** Dividing twice is dividing by the product. */
  lemma DivDiv(v: nat, d: nat, e: nat)
    requires d > 0 && e > 0
    ensures e * d > 0 && v / (e * d) == v / d / e
  {
    MulAtLeast(e, d);
    var q, r, a, b := Divide(v, d, e);
    Regroup(a, b, r, d, e);
    NextMultiple(b, e, d);
    DivMod(a, e * d, b * d + r);
  }

  lemma Divide(v: nat, d: nat, e: nat) returns (q: nat, r: nat, a: nat, b: nat)
    requires d > 0 && e > 0
    ensures v == d * q + r && r < d && q == v / d
    ensures q == e * a + b && b < e && a == q / e
  {
    q, r := v / d, v % d;
    a, b := q / e, q % e;
  }

  /** One more binary digit of a remainder. */
  lemma ModDouble(v: nat, p: nat)
    requires p > 0
    ensures v % (2 * p) == v % p + (if (v / p) % 2 == 1 then p else 0)
  {
    var q, r, a, b := Divide(v, p, 2);
    Regroup(a, b, r, p, 2);
    DivMod(a, 2 * p, b * p + r);
    DivMod(q, p, r);
  }
}
