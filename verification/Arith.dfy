/**
 Elementary integer functions, and the few facts about division, remainders and squares that the other modules need.
 */
module Arith {

  function Abs(v: int): (r: int)
    ensures r >= 0
  {
    if v < 0 then -v else v
  }

  function Min(a: int, b: int): int {
    if a < b then a else b
  }

  function Max(a: int, b: int): int {
    if a < b then b else a
  }

  function Clamp(v: int, lo: int, hi: int): int {
    if v < lo then lo else if v > hi then hi else v
  }

  /** To the nearest integer, halves away from zero. */
  function Round(v: real): int {
    if v >= 0.0 then (v + 0.5).Floor else -((-v + 0.5).Floor)
  }

  lemma MulIsFar(x: int, d: int)
    requires d > 0
    ensures x >= 1 ==> x * d >= d
    ensures x <= -1 ==> x * d <= -d
  {
    if x >= 1 {
      assert (x - 1) * d >= 0;
    } else if x <= -1 {
      assert (-x - 1) * d >= 0;
    }
  }

  lemma DivModUnique(n: int, d: int, q: int, r: int)
    requires d > 0 && n == q * d + r && 0 <= r < d
    ensures n / d == q && n % d == r
  {
    var x := n / d - q;
    assert x * d == (n / d) * d - q * d;
    MulIsFar(x, d);
  }

  lemma ModPeriod(a: int, n: int)
    requires n > 0
    ensures (a + n) % n == a % n
  {
    assert (a / n + 1) * n == a / n * n + n;
    DivModUnique(a + n, n, a / n + 1, a % n);
  }

  lemma ModNext(a: int, n: int)
    requires n > 0
    ensures (a + 1) % n == if a % n + 1 == n then 0 else a % n + 1
  {
    if a % n + 1 == n {
      assert (a / n + 1) * n == a / n * n + n;
      DivModUnique(a + 1, n, a / n + 1, 0);
    } else {
      DivModUnique(a + 1, n, a / n, a % n + 1);
    }
  }

  lemma ModSame(a: int, b: int, n: int)
    requires n > 0 && a <= b < a + n
    ensures a % n == b % n <==> a == b
  {
    if a % n == b % n {
      var x := b / n - a / n;
      assert x * n == b / n * n - a / n * n;
      MulIsFar(x, n);
    }
  }

  lemma ProductIsPositive(x: real, y: real)
    requires x > 0.0 && y > 0.0
    ensures x * y > 0.0
  {}

  lemma SquareGrows(a: real, r: real)
    requires r >= 0.0
    ensures a > r ==> a * a > r * r
  {
    if a > r {
      ProductIsPositive(a - r, a + r);
      assert a * a == r * r + (a - r) * (a + r);
    }
  }

  lemma SquareBound(a: real, r: real)
    requires a * a <= r * r && r >= 0.0
    ensures -r <= a <= r
  {
    SquareGrows(a, r);
    SquareGrows(-a, r);
    assert (-a) * (-a) == a * a;
  }

  lemma SquareIsSmall(a: real, r: real)
    requires -r <= a <= r
    ensures a * a <= r * r
  {
    var b := if a >= 0.0 then a else -a;
    assert b * b == a * a;
    assert (r - b) * (r + b) >= 0.0;
    assert (r - b) * (r + b) == r * r - b * b;
  }
}
