/** Division facts with non-constant divisors, proved once. */
module Arith {

  lemma DivUnique(a: int, d: int, k: int, r: int)
    requires d > 0 && a == d * k + r && 0 <= r < d
    ensures a / d == k && a % d == r
  {
    var k', r' := a / d, a % d;
    assert a == d * k' + r' && 0 <= r' < d;
    assert d * (k' - k) == r - r' by { MulDist(d, k', -k); }
    MulBelow(d, k' - k, r - r');
  }

  lemma MulDist(a: int, b: int, c: int)
    ensures a * (b + c) == a * b + a * c
  {
  }

  lemma MulBelow(d: int, q: int, r: int)
    requires d > 0 && d * q == r && -d < r < d
    ensures q == 0
  {
    if q >= 1 { MulMono(d, 1, q); }
    if q <= -1 { MulMono(d, q, -1); }
  }

  lemma MulMono(d: int, a: int, b: int)
    requires d >= 0 && a <= b
    ensures d * a <= d * b
  {
  }

  lemma DivDiv(a: int, c: int, m: int)
    requires c > 0 && m > 0
    ensures c * m > 0 && a / (c * m) == a / c / m
  {
    var q, t := a / c, a % c;
    var k, r := q / m, q % m;
    assert a == c * q + t && q == m * k + r;
    MulDist(c, m * k, r);
    assert c * (m * k) == (c * m) * k;
    MulMono(c, r + 1, m);
    MulDist(c, r, 1);
    MulMono(c, 0, r);
    MulMono(c, 1, m);
    DivUnique(a, c * m, k, c * r + t);
  }

  /** A product that loops step through; hidden where only the steps matter. */
  function Times(d: nat, y: nat): nat {
    d * y
  }

  lemma TimesStart(d: nat, h: nat)
    ensures Times(d, 0) == 0 && Times(d, h) == d * h
  {
  }

  lemma TimesNext(d: nat, y: nat, h: nat)
    requires y < h
    ensures Times(d, y + 1) == Times(d, y) + d <= d * h
    ensures Times(d, y) == d * y && Times(d, y + 1) == d * (y + 1)
  {
    MulDist(d, y, 1);
    MulMono(d, y + 1, h);
  }

  lemma ModAdd(x: int, d: int, k: int)
    requires d > 0
    ensures (x + d * k) % d == x % d
  {
    MulDist(d, x / d, k);
    DivUnique(x + d * k, d, x / d + k, x % d);
  }

  lemma MulAssocInt(a: int, b: int, c: int)
    ensures (a * b) * c == a * (b * c)
  {
  }

  lemma Distributes(a: int, b: int, c: int)
    ensures (a + b) * c == a * c + b * c
  {
  }

  lemma MulSwap(a: int, b: int, c: int)
    ensures a * (b * c) == b * (a * c)
  {
  }

  lemma MulRange(a: int, b: int, m: int, n: int)
    requires -m <= a <= m && -n <= b <= n
    ensures -(m * n) <= a * b <= m * n
  {
    var x, y := if a < 0 then -a else a, if b < 0 then -b else b;
    MulMono(x, y, n);
    MulMono(n, x, m);
    assert x * y <= m * n;
    assert a * b == x * y || a * b == -(x * y);
  }

  lemma MulComm(a: int, b: int)
    ensures a * b == b * a
  {
  }
}
