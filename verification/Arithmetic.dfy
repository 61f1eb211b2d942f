/** Multiplication and division facts that the solver does not find itself. */
module Arithmetic {

  lemma MultiplyLeq(a: int, b: int, c: nat)
    requires a <= b
    ensures a * c <= b * c
  {
  }

  lemma MultiplyAssociates(x: int, q: int, p: int)
    ensures x * (p * q) == (x * q) * p
  {
  }

  lemma Distribute(a: int, c: int)
    ensures (a + 1) * c == a * c + c
  {
  }

  lemma DivisionIs(v: nat, d: nat)
    requires d > 0
    ensures v == v / d * d + v % d && 0 <= v % d < d && (d <= v ==> v / d >= 1)
  {
    assert v / d == 0 ==> v == v % d;
  }

  lemma Divided(value: nat, q: nat)
    requires q > 0
    ensures value / q * q <= value < (value / q + 1) * q
  {
  }

  lemma QuotientIs(d: nat, n: nat, range: nat, r: nat)
    requires r < range && n * range <= d * range + r < n * range + range
    ensures d == n
  {
    Distribute(d, range);
    Distribute(n, range);
    if d + 1 <= n { MultiplyLeq(d + 1, n, range); }
    if n + 1 <= d { MultiplyLeq(n + 1, d, range); }
  }

  lemma RemainderIs(v: nat, n: nat, range: nat)
    requires range > 0 && n * range <= v < n * range + range
    ensures v % range == v - n * range
  {
    DivisionIs(v, range);
    QuotientIs(v / range, n, range, v % range);
  }

  lemma DivideTwice(v: nat, a: nat, b: nat)
    requires a > 0 && b > 0
    ensures a * b > 0 && v / a / b == v / (a * b)
  {
    var q := v / a;
    var c := q / b;
    Divided(v, a);
    Divided(q, b);
    MultiplyLeq(c * b, q, a);
    MultiplyLeq(q + 1, (c + 1) * b, a);
    MultiplyAssociates(c, b, a);
    MultiplyAssociates(c + 1, b, a);
    assert b * a == a * b;
    Distribute(c, a * b);
    DivisionIs(v, a * b);
    QuotientIs(v / (a * b), c, a * b, v % (a * b));
  }
}
