/** Facts about multiplication, quotients and remainders that several modules need. */
module Arithmetic {

  lemma MulMono(s: nat, a: nat, b: nat)
    requires a <= b
    ensures s * a <= s * b
  {
  }

  lemma DivModOf(x: nat, m: nat, q: nat, r: nat)
    requires m > 0 && x == m * q + r && r < m
    ensures x % m == r && x / m == q
  {
    var q', r' := x / m, x % m;
    assert m * q' + r' == m * q + r;
    if q' < q { MulMono(m, q' + 1, q); }
    else if q < q' { MulMono(m, q + 1, q'); }
  }

  lemma AddMultiple(a: nat, k: nat, m: nat)
    requires m > 0
    ensures (a + m * k) % m == a % m
  {
    DivModOf(a + m * k, m, a / m + k, a % m);
  }

  /** Two numbers less than `m` apart have different remainders. */
  lemma RemaindersDiffer(a: nat, b: nat, m: nat)
    requires m > 0 && a < b < a + m
    ensures a % m != b % m
  {
    if a % m == b % m {
      var d := b / m - a / m;
      assert m * d == b - a;
      MulMono(m, 1, d);
    }
  }

  lemma RemainderOfRemainder(x: nat, m: nat, c: nat)
    requires m > 0 && c > 0
    ensures m * c > 0 && x % (m * c) % m == x % m
  {
    var q, y := x / (m * c), x % (m * c);
    assert x == m * c * q + y;
    assert m * c * q == m * (c * q);
    AddMultiple(y, c * q, m);
  }

  lemma Parts(x: nat, m: nat) returns (q: nat, r: nat)
    requires m > 0
    ensures q == x / m && r == x % m && x == m * q + r && r < m
  {
    q, r := x / m, x % m;
  }

  lemma NextRemainder(x: nat, m: nat)
    requires m > 0
    ensures (x + 1) % m == (x % m + 1) % m
  {
    var q, r := Parts(x, m);
    AddMultiple(r + 1, q, m);
  }

  lemma DivDiv(x: nat, a: nat, b: nat)
    requires a > 0 && b > 0
    ensures a * b > 0 && x / a / b == x / (a * b)
  {
    var q, r := Parts(x, a);
    var e, d := Parts(q, b);
    DivParts(x, a, b, e, d, r);
  }

  lemma DivParts(x: nat, a: nat, b: nat, e: nat, d: nat, r: nat)
    requires x == a * (b * e + d) + r && r < a && d < b
    ensures a * b > 0 && x / (a * b) == e
  {
    Nested(a, b, e, d);
    MulMono(a, d + 1, b);
    assert a * (d + 1) == a * d + a;
    DivModOf(x, a * b, e, a * d + r);
  }

  lemma QuotientOfRemainder(x: nat, s: nat, c: nat)
    requires s > 0 && c > 0
    ensures s * c > 0 && x % (s * c) / s == x / s % c
  {
    var n, k := Parts(x, s);
    var e, d := Parts(n, c);
    QuotientParts(x, s, c, e, d, k);
  }

  lemma QuotientParts(x: nat, s: nat, c: nat, e: nat, d: nat, k: nat)
    requires x == s * (c * e + d) + k && k < s && d < c
    ensures s * c > 0 && x % (s * c) / s == d
  {
    Nested(s, c, e, d);
    MulMono(s, d + 1, c);
    assert s * (d + 1) == s * d + s;
    DivModOf(x, s * c, e, s * d + k);
    DivModOf(s * d + k, s, d, k);
  }

  lemma Nested(s: nat, c: nat, e: nat, d: nat)
    ensures s * (c * e + d) == s * c * e + s * d
  {
  }
}
