// Congruences, powers and Fermat's little theorem.
module Fermat {
  import opened Divisibility

  ghost predicate Cong(a: int, b: int, m: int) {
    Divides(m, a - b)
  }

  function Pow(b: int, e: nat): int
    decreases e
  {
    if e == 0 then 1 else b * Pow(b, e - 1)
  }

  // ---- congruences ------------------------------------------------------------------------

  lemma CongSame(a: int, m: int)
    ensures Cong(a, a, m)
  {
    DividesZero(m);
  }

  lemma CongBack(a: int, b: int, m: int)
    requires Cong(a, b, m)
    ensures Cong(b, a, m)
  {
    DividesZero(m);
    DividesSum(m, 0, a - b);
  }

  lemma CongThrough(a: int, b: int, c: int, m: int)
    requires Cong(a, b, m) && Cong(b, c, m)
    ensures Cong(a, c, m)
  {
    DividesSum(m, a - b, b - c);
  }

  lemma CongSum(a: int, b: int, c: int, d: int, m: int)
    requires Cong(a, b, m) && Cong(c, d, m)
    ensures Cong(a + c, b + d, m)
  {
    DividesSum(m, a - b, c - d);
  }

  lemma CongProduct(a: int, b: int, c: int, d: int, m: int)
    requires Cong(a, b, m) && Cong(c, d, m)
    ensures Cong(a * c, b * d, m)
  {
    DividesProduct(m, a - b, c);
    DividesProduct(m, c - d, b);
    DividesSum(m, (a - b) * c, b * (c - d));
    Difference(a, b, c, d);
  }

  lemma Difference(a: int, b: int, c: int, d: int)
    ensures (a - b) * c + b * (c - d) == a * c - b * d
  {
  }

  lemma {:induction false} CongPow(a: int, b: int, e: nat, m: int)
    requires Cong(a, b, m)
    ensures Cong(Pow(a, e), Pow(b, e), m)
    decreases e
  {
    if e == 0 {
      CongSame(1, m);
    } else {
      CongPow(a, b, e - 1, m);
      CongProduct(a, b, Pow(a, e - 1), Pow(b, e - 1), m);
    }
  }

  lemma CongMod(a: int, m: int)
    requires m > 0
    ensures Cong(a % m, a, m) && Cong(a, a % m, m)
  {
    DivMod(a, m);
    DividesBy(m, a - a % m, a / m);
    CongBack(a, a % m, m);
  }

  // Numbers below the modulus are congruent only when equal.
  lemma CongEqual(a: int, b: int, m: int)
    requires Cong(a, b, m) && 0 <= a < m && 0 <= b < m
    ensures a == b
  {
    var k := Quotient(m, a - b);
    if a >= b {
      Bounded(m, k);
    } else {
      CongBack(a, b, m);
      var l := Quotient(m, b - a);
      Bounded(m, l);
    }
  }

  lemma ModOf(a: int, b: int, m: int)
    requires Cong(a, b, m) && m > 0
    ensures a % m == b % m
  {
    CongMod(a, m);
    CongMod(b, m);
    CongThrough(a % m, a, b, m);
    CongThrough(a % m, b, b % m, m);
    CongEqual(a % m, b % m, m);
  }

  // ---- powers -----------------------------------------------------------------------------

  lemma {:induction false} PowSum(b: int, m: nat, n: nat)
    ensures Pow(b, m + n) == Pow(b, m) * Pow(b, n)
    decreases m
  {
    if m > 0 {
      PowSum(b, m - 1, n);
      Associate(b, Pow(b, m - 1), Pow(b, n));
    }
  }

  lemma {:induction false} PowProduct(b: int, m: nat, n: nat)
    requires m * n >= 0
    ensures Pow(b, m * n) == Pow(Pow(b, m), n)
    decreases n
  {
    if n == 0 {
      assert m * n == 0;
    } else {
      Distribute(m, n - 1, 1);
      NonNegative(m, n - 1);
      PowProduct(b, m, n - 1);
      PowSum(b, m, m * (n - 1));
    }
  }

  lemma NonNegative(a: nat, b: nat)
    ensures a * b >= 0
  {
  }

  lemma {:induction false} PowOfOne(e: nat)
    ensures Pow(1, e) == 1
    decreases e
  {
    if e > 0 {
      PowOfOne(e - 1);
    }
  }

  lemma PowDivisible(d: int, b: int, e: nat)
    requires Divides(d, b) && e > 0
    ensures Divides(d, Pow(b, e))
  {
    DividesProduct(d, b, Pow(b, e - 1));
  }

  // What pow(b, e, n) computes.
  function PowMod(b: int, e: nat, n: nat): (r: int)
    requires n > 0
    ensures 0 <= r < n
  {
    DivMod(Pow(b, e), n);
    Pow(b, e) % n
  }

  // ---- the binomial theorem --------------------------------------------------------------------

  function Choose(n: nat, k: nat): nat {
    if k == 0 then 1 else if n == 0 then 0 else Choose(n - 1, k - 1) + Choose(n - 1, k)
  }

  // The first j terms of (1 + x)^n.
  function Terms(n: nat, x: int, j: nat): int
    decreases j
  {
    if j == 0 then 0 else Terms(n, x, j - 1) + Choose(n, j - 1) * Pow(x, j - 1)
  }

  lemma {:induction false} ChooseAbove(n: nat, k: nat)
    requires k > n
    ensures Choose(n, k) == 0
    decreases n
  {
    if n > 0 {
      ChooseAbove(n - 1, k - 1);
      ChooseAbove(n - 1, k);
    }
  }

  lemma {:induction false} ChooseAll(n: nat)
    ensures Choose(n, n) == 1
    decreases n
  {
    if n > 0 {
      ChooseAll(n - 1);
      ChooseAbove(n - 1, n);
    }
  }

  lemma {:induction false} Pascal(n: nat, x: int, j: nat)
    ensures Terms(n + 1, x, j + 1) == Terms(n, x, j + 1) + x * Terms(n, x, j)
    decreases j
  {
    if j == 0 {
      assert Terms(n + 1, x, 1) == Terms(n + 1, x, 0) + Choose(n + 1, 0) * Pow(x, 0);
      assert Terms(n, x, 1) == Terms(n, x, 0) + Choose(n, 0) * Pow(x, 0);
    } else {
      Pascal(n, x, j - 1);
      PascalTerm(Choose(n, j), Choose(n, j - 1), x, Pow(x, j - 1), Terms(n, x, j - 1));
    }
  }

  lemma PascalTerm(c: int, d: int, x: int, p: int, t: int)
    ensures (d + c) * (x * p) + x * t == c * (x * p) + x * (t + d * p)
  {
  }

  lemma {:induction false} Binomial(x: int, n: nat)
    ensures Pow(1 + x, n) == Terms(n, x, n + 1)
    decreases n
  {
    if n == 0 {
      assert Terms(0, x, 1) == Terms(0, x, 0) + Choose(0, 0) * Pow(x, 0);
    } else {
      Binomial(x, n - 1);
      Pascal(n - 1, x, n);
      ChooseAbove(n - 1, n);
      assert Terms(n - 1, x, n + 1) == Terms(n - 1, x, n) + Choose(n - 1, n) * Pow(x, n);
      assert 0 * Pow(x, n) == 0;
      OnePlus(x, Terms(n - 1, x, n));
    }
  }

  lemma OnePlus(x: int, t: int)
    ensures (1 + x) * t == t + x * t
  {
  }

  lemma {:induction false} Absorption(n: nat, k: nat)
    requires n >= 1 && k >= 1
    ensures k * Choose(n, k) == n * Choose(n - 1, k - 1)
    decreases n
  {
    if n == 1 {
      if k > 1 {
        ChooseAbove(1, k);
        ChooseAbove(0, k - 1);
        assert k * 0 == 0;
      }
    } else {
      Absorption(n - 1, k);
      if k == 1 {
        assert Choose(n, 1) == Choose(n - 1, 0) + Choose(n - 1, 1);
      } else {
        Absorption(n - 1, k - 1);
        AbsorptionStep(n, k, Choose(n - 1, k - 1), Choose(n - 1, k), Choose(n - 2, k - 2), Choose(n - 2, k - 1));
      }
    }
  }

  lemma AbsorptionStep(n: int, k: int, a: int, b: int, c: int, d: int)
    requires (k - 1) * a == (n - 1) * c && k * b == (n - 1) * d && a == c + d
    ensures k * (a + b) == n * a
  {
    assert k * (a + b) == (k - 1) * a + a + k * b;
    assert (n - 1) * c + (n - 1) * d == (n - 1) * (c + d);
  }

  // A prime divides its binomial coefficients but the first and the last.
  lemma PrimeChoose(p: int, k: nat)
    requires Prime(p) && 0 < k < p
    ensures Divides(p, Choose(p, k))
  {
    Absorption(p, k);
    DividesBy(p, k * Choose(p, k), Choose(p - 1, k - 1));
    Euclid(p, k, Choose(p, k));
    if Divides(p, k) {
      DivisorBound(p, k);
    }
  }

  lemma {:induction false} MiddleTerms(p: int, x: int, j: nat)
    requires Prime(p) && 1 <= j <= p
    ensures Cong(Terms(p, x, j), 1, p)
    decreases j
  {
    if j == 1 {
      assert Terms(p, x, 1) == Terms(p, x, 0) + Choose(p, 0) * Pow(x, 0);
      CongSame(1, p);
    } else {
      MiddleTerms(p, x, j - 1);
      PrimeChoose(p, j - 1);
      DividesProduct(p, Choose(p, j - 1), Pow(x, j - 1));
      DividesSum(p, Terms(p, x, j - 1) - 1, Choose(p, j - 1) * Pow(x, j - 1));
    }
  }

  // ---- Fermat's little theorem -------------------------------------------------------------------

  lemma FreshmansDream(p: int, x: int)
    requires Prime(p)
    ensures Cong(Pow(1 + x, p), 1 + Pow(x, p), p)
  {
    Binomial(x, p);
    MiddleTerms(p, x, p);
    ChooseAll(p);
    CongSame(Pow(x, p), p);
    CongSum(Terms(p, x, p), 1, Pow(x, p), Pow(x, p), p);
  }

  lemma {:induction false} FermatAny(p: int, x: nat)
    requires Prime(p)
    ensures Cong(Pow(x, p), x, p)
    decreases x
  {
    if x == 0 {
      CongSame(0, p);
    } else {
      FermatAny(p, x - 1);
      FreshmansDream(p, x - 1);
      CongSame(1, p);
      CongSum(1, 1, Pow(x - 1, p), x - 1, p);
      CongThrough(Pow(x, p), 1 + Pow(x - 1, p), x, p);
    }
  }

  lemma FermatLittle(p: int, x: nat)
    requires Prime(p) && !Divides(p, x)
    ensures Cong(Pow(x, p - 1), 1, p)
  {
    FermatAny(p, x);
    Distribute(x, Pow(x, p - 1), 1);
    Euclid(p, x, Pow(x, p - 1) - 1);
  }

  // Modulo a prime only 1 and -1 square to 1.
  lemma SquareRoots(p: int, x: int)
    requires Prime(p) && Cong(x * x, 1, p)
    ensures Cong(x, 1, p) || Cong(x, -1, p)
  {
    assert x * x - 1 == (x - 1) * (x + 1);
    Euclid(p, x - 1, x + 1);
  }
}
