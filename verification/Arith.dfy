// Facts about quotients and remainders that the solver does not find by itself.
module Arith {

  lemma MultipleSize(a: int, d: int)
    requires a > 0
    ensures d >= 1 ==> a * d >= a
    ensures d <= -1 ==> a * d <= -a
  {
  }

  lemma SmallMultipleIsZero(a: int, d: int)
    requires a > 0 && -a < a * d < a
    ensures d == 0
  {
    MultipleSize(a, d);
  }

  lemma DivModUnique(x: int, a: int, q: int, m: int)
    requires a > 0 && 0 <= m < a && x == a * q + m
    ensures x / a == q && x % a == m
  {
    var q', m' := x / a, x % a;
    assert x == a * q' + m';
    assert a * (q - q') == m' - m;
    SmallMultipleIsZero(a, q - q');
  }

  lemma MultipleMod(q: int, a: int)
    requires a > 0
    ensures (a * q) % a == 0
  {
    DivModUnique(a * q, a, q, 0);
  }

  lemma MultipleSum(x: int, y: int, a: int)
    requires a > 0 && x % a == 0 && y % a == 0
    ensures (x + y) % a == 0 && (x - y) % a == 0
  {
    var p, q := x / a, y / a;
    assert x == a * p && y == a * q;
    assert x + y == a * (p + q) && x - y == a * (p - q);
    MultipleMod(p + q, a);
    MultipleMod(p - q, a);
  }

  lemma ProductLess(k: nat, n: nat, s: nat)
    requires k < n && s > 0
    ensures k * s < n * s
  {
    MultipleSize(s, n - k);
    assert n * s == k * s + (n - k) * s;
  }

  lemma DivOrder(a: nat, b: nat, c: nat)
    requires c > 0 && a <= b
    ensures a / c <= b / c
  {
    var p, q := a / c, b / c;
    assert a == c * p + a % c && b == c * q + b % c;
    assert c * (p - q) == a - b + b % c - a % c;
    MultipleSize(c, p - q);
  }
}
