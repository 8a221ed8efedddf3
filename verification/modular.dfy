/** Powers and congruences. */
module Modular {

  function Pow(b: int, e: nat): int {
    if e == 0 then 1 else b * Pow(b, e - 1)
  }

  lemma {:induction false} PowNonNegative(b: nat, e: nat)
    ensures Pow(b, e) >= 0
    ensures b > 0 ==> Pow(b, e) > 0
  {
    if e > 0 { PowNonNegative(b, e - 1); }
  }

  lemma {:induction false} PowAdd(b: int, m: nat, n: nat)
    ensures Pow(b, m + n) == Pow(b, m) * Pow(b, n)
  {
    if m > 0 {
      PowAdd(b, m - 1, n);
      assert b * (Pow(b, m - 1) * Pow(b, n)) == (b * Pow(b, m - 1)) * Pow(b, n);
    }
  }

  lemma {:induction false} PowTimes(b: int, m: nat, n: nat)
    ensures m * n >= 0 && Pow(Pow(b, m), n) == Pow(b, m * n)
  {
    if n > 0 {
      PowTimes(b, m, n - 1);
      assert m * n == m + m * (n - 1);
      PowAdd(b, m, m * (n - 1));
    }
  }

  /** Quotient and remainder are unique. */
  lemma RemainderUnique(y: int, d: int, r: int, n: int)
    requires n > 0 && y == d * n + r && 0 <= r < n
    ensures y % n == r
  {
    var q, s := y / n, y % n;
    assert y == q * n + s;
    assert (d - q) * n == s - r && (q - d) * n == r - s;
    if d > q {
      MulMonotone(1, d - q, n);
    } else if d < q {
      MulMonotone(1, q - d, n);
    }
  }

  lemma MulMonotone(a: int, b: int, n: int)
    requires a <= b && n >= 0
    ensures a * n <= b * n
  {
  }

  lemma AddMultiple(x: int, q: int, n: int)
    requires n > 0
    ensures (x + q * n) % n == x % n
  {
    var d, r := x / n, x % n;
    assert x == d * n + r;
    assert x + q * n == (d + q) * n + r;
    RemainderUnique(x + q * n, d + q, r, n);
  }

  lemma ModSum(a: int, b: int, n: int)
    requires n > 0
    ensures (a % n + b) % n == (a + b) % n
    ensures (a % n - b) % n == (a - b) % n
  {
    var q := a / n;
    assert a == q * n + a % n;
    AddMultiple(a % n + b, q, n);
    AddMultiple(a % n - b, q, n);
  }

  lemma ModProduct(a: int, b: int, n: int)
    requires n > 0
    ensures ((a % n) * b) % n == (a * b) % n
  {
    var q, r := a / n, a % n;
    assert a == q * n + r;
    assert a * b == r * b + (q * b) * n by { assert (q * n) * b == (q * b) * n; }
    AddMultiple(r * b, q * b, n);
  }

  lemma {:induction false} ModPow(b: int, e: nat, n: int)
    requires n > 0
    ensures Pow(b % n, e) % n == Pow(b, e) % n
  {
    if e > 0 {
      ModPow(b, e - 1, n);
      var r, x, y := b % n, Pow(b % n, e - 1), Pow(b, e - 1);
      ModProduct(b, x, n);
      assert (r * x) % n == (b * x) % n;
      ModProduct(x, b, n);
      ModProduct(y, b, n);
      assert (x % n) * b == (y % n) * b;
      assert x * b == b * x && y * b == b * y;
    }
  }

  lemma SameProduct(a: int, b: int, c: int, d: int, n: int)
    requires n > 0 && a % n == c % n && b % n == d % n
    ensures (a * b) % n == (c * d) % n
  {
    ModProduct(a, b, n);
    ModProduct(c, b, n);
    Commute(c, b);
    ModProduct(b, c, n);
    ModProduct(d, c, n);
    Commute(d, c);
  }

  lemma Commute(a: int, b: int)
    ensures a * b == b * a
  {
  }

  lemma SamePower(a: int, b: int, e: nat, n: int)
    requires n > 0 && a % n == b % n
    ensures Pow(a, e) % n == Pow(b, e) % n
  {
    ModPow(a, e, n);
    ModPow(b, e, n);
  }

  /** Raising both sides of p = g^e to the power m. */
  lemma RaiseBoth(p: int, g: int, e: nat, m: nat, n: int)
    requires n > 0 && p % n == Pow(g, e) % n
    ensures e * m >= 0 && Pow(p, m) % n == Pow(g, e * m) % n
  {
    SamePower(p, Pow(g, e), m, n);
    PowTimes(g, e, m);
  }

  lemma ModOfMod(a: int, n: int)
    requires n > 0
    ensures (a % n) % n == a % n
  {
    RemainderUnique(a % n, 0, a % n, n);
  }
}
