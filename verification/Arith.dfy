/**
 The few facts of non-linear arithmetic that the solver needs to be told.
 */
module Arith {

  lemma Distribute(n: int, q: int, u: int)
    ensures n * q + n * u == n * (q + u)
  {
  }

  lemma MulLe(a: int, b: int, n: nat)
    requires a <= b
    ensures a * n <= b * n
  {
    Distribute(n, a, b - a);
  }

  lemma MulLt(a: int, b: int, n: nat)
    requires a * n < b * n
    ensures a < b
  {
    if a >= b { MulLe(b, a, n); }
  }

  // Quotient and remainder are determined by x == n * q + r.
  lemma DivUnique(x: nat, n: nat, q: int, r: nat)
    requires r < n && x == n * q + r
    ensures x % n == r && x / n == q
  {
    var d := q - x / n;
    Distribute(n, x / n, d);
    assert x % n - r == n * d;
    assert d >= 1 ==> n * d >= n;
    assert d <= -1 ==> n * d + n <= 0;
  }

  lemma ModMod(x: nat, a: nat, b: nat)
    requires a > 0 && b > 0
    ensures a * b > 0 && (x % (a * b)) % b == x % b
  {
    var q, r := x / (a * b), x % (a * b);
    var u, w := r / b, r % b;
    assert x == b * (a * q + u) + w by {
      assert (a * b) * q == b * (a * q);
      Distribute(b, a * q, u);
    }
    DivUnique(x, b, a * q + u, w);
  }

  lemma DivLe(x: nat, n: nat)
    requires n > 0
    ensures x / n * n <= x < x / n * n + n
  {
  }

  lemma SmallMod(x: nat, n: nat)
    requires x < n
    ensures x % n == x
  {
  }

  lemma ModLe(x: nat, n: nat)
    requires n > 0
    ensures x % n <= x
  {
  }

  lemma AtMostCeil(k: nat, x: nat, f: nat)
    requires f > 0 && k * f <= x + f - 1
    ensures k <= x / f + 1
  {
    DivLe(x, f);
    Distribute(f, x / f, 2);
    MulLt(k, x / f + 2, f);
  }

  // Reducing a sum takes nothing from the reduced first term but the second.
  lemma SumMod(x: nat, y: nat, n: nat)
    requires n > 0
    ensures (x + y) % n <= x % n + y
  {
    var q, z := x / n, x % n + y;
    var u, r := z / n, z % n;
    assert x + y == n * q + z && z == n * u + r;
    Distribute(n, q, u);
    DivUnique(x + y, n, q + u, r);
    ModLe(z, n);
  }

  lemma NextMod(x: nat, m: nat)
    requires m > 0
    ensures (x + 1) % m == if x % m + 1 < m then x % m + 1 else 0
  {
    var q, r := x / m, x % m;
    if r + 1 < m {
      DivUnique(x + 1, m, q, r + 1);
    } else {
      Distribute(m, q, 1);
      DivUnique(x + 1, m, q + 1, 0);
    }
  }
}
