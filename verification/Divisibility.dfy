// Divisors, greatest common divisors and primes.
module Divisibility {
  function Times(a: int, b: int): int {
    a * b
  }

  ghost predicate Divides(d: int, n: int) {
    exists k :: n == Times(d, k)
  }

  lemma DividesBy(d: int, n: int, k: int)
    requires n == d * k
    ensures Divides(d, n)
  {
    assert n == Times(d, k);
  }

  lemma Quotient(d: int, n: int) returns (k: int)
    requires Divides(d, n)
    ensures n == d * k
  {
    k :| n == Times(d, k);
  }

  lemma DivMod(n: int, m: int)
    requires m > 0
    ensures n == m * (n / m) + n % m && 0 <= n % m < m
  {
  }

  lemma Distribute(a: int, b: int, c: int)
    ensures a * (b + c) == a * b + a * c && a * (b - c) == a * b - a * c
  {
  }

  lemma Associate(a: int, b: int, c: int)
    ensures (a * b) * c == a * (b * c)
  {
  }

  lemma Commute(a: int, b: int)
    ensures a * b == b * a
  {
  }

  // A product with a factor of at least one is at least as large.
  lemma Grows(a: int, b: int)
    requires a >= 0 && b >= 1
    ensures a * b >= a
  {
  }

  lemma Bounded(a: int, k: int)
    requires a > 0 && 0 <= a * k < a
    ensures k == 0
  {
    if k >= 1 {
      Grows(a, k);
    } else if k <= -1 {
      Grows(a, -k);
    }
  }

  lemma DividesIsMod(d: int, n: int)
    requires d > 0
    ensures Divides(d, n) <==> n % d == 0
  {
    DivMod(n, d);
    if n % d == 0 {
      DividesBy(d, n, n / d);
    }
    if Divides(d, n) {
      var k := Quotient(d, n);
      Distribute(d, k, n / d);
      Bounded(d, k - n / d);
    }
  }

  lemma DividesZero(d: int)
    ensures Divides(d, 0)
  {
    DividesBy(d, 0, 0);
  }

  lemma DividesSum(d: int, a: int, b: int)
    requires Divides(d, a) && Divides(d, b)
    ensures Divides(d, a + b) && Divides(d, a - b)
  {
    var k := Quotient(d, a);
    var l := Quotient(d, b);
    Distribute(d, k, l);
    DividesBy(d, a + b, k + l);
    DividesBy(d, a - b, k - l);
  }

  lemma DividesProduct(d: int, a: int, b: int)
    requires Divides(d, a)
    ensures Divides(d, a * b) && Divides(d, b * a)
  {
    var k := Quotient(d, a);
    Associate(d, k, b);
    Commute(a, b);
    DividesBy(d, a * b, k * b);
  }

  lemma DividesThrough(d: int, a: int, b: int)
    requires Divides(d, a) && Divides(a, b)
    ensures Divides(d, b)
  {
    var k := Quotient(a, b);
    DividesProduct(d, a, k);
  }

  lemma DivisorBound(d: int, n: int)
    requires Divides(d, n) && n > 0 && d > 0
    ensures d <= n
  {
    var k := Quotient(d, n);
    if k <= 0 {
      Grows(d, 1 - k);
      Distribute(d, 1, k);
    } else {
      Grows(d, k);
    }
  }

  // ---- greatest common divisors --------------------------------------------------------

  function Gcd(a: nat, b: nat): nat
    decreases b
  {
    if b == 0 then a else (DivMod(a, b); Gcd(b, a % b))
  }

  // It is a combination of the two.
  lemma {:induction false} Bezout(a: nat, b: nat) returns (x: int, y: int)
    ensures Gcd(a, b) == a * x + b * y
    decreases b
  {
    if b == 0 {
      x, y := 1, 0;
    } else {
      DivMod(a, b);
      var x1, y1 := Bezout(b, a % b);
      x, y := y1, x1 - (a / b) * y1;
      Combination(a, b, a / b, a % b, x1, y1);
    }
  }

  lemma Combination(a: int, b: int, q: int, r: int, x: int, y: int)
    requires a == b * q + r
    ensures b * x + r * y == a * y + b * (x - q * y)
  {
    Distribute(b, x, q * y);
    Associate(b, q, y);
    Commute(a, y);
    Commute(r, y);
    Commute(b * q, y);
    Distribute(y, b * q, r);
  }

  lemma {:induction false} GcdDivides(a: nat, b: nat)
    ensures Divides(Gcd(a, b), a) && Divides(Gcd(a, b), b)
    decreases b
  {
    if b == 0 {
      DividesBy(a, a, 1);
      DividesZero(a);
    } else {
      DivMod(a, b);
      GcdDivides(b, a % b);
      DividesProduct(Gcd(a, b), b, a / b);
      DividesSum(Gcd(a, b), b * (a / b), a % b);
    }
  }

  // Any common divisor divides it.
  lemma GcdGreatest(d: int, a: nat, b: nat)
    requires Divides(d, a) && Divides(d, b)
    ensures Divides(d, Gcd(a, b))
  {
    var x, y := Bezout(a, b);
    DividesProduct(d, a, x);
    DividesProduct(d, b, y);
    DividesSum(d, a * x, b * y);
  }

  lemma GcdPositive(a: nat, b: nat)
    requires a > 0 || b > 0
    ensures Gcd(a, b) > 0
  {
    GcdDivides(a, b);
    if Gcd(a, b) == 0 {
      var k := Quotient(0, a);
      var l := Quotient(0, b);
    }
  }

  // ---- primes ----------------------------------------------------------------------------

  ghost predicate Prime(p: int) {
    p >= 2 && forall d :: 2 <= d < p ==> !Divides(d, p)
  }

  // Euclid's lemma: a prime that divides a product divides a factor.
  lemma Euclid(p: int, a: int, b: int)
    requires Prime(p) && Divides(p, a * b)
    ensures Divides(p, a) || Divides(p, b)
  {
    var m := if a < 0 then -a else a;
    var g := Gcd(p, m);
    GcdDivides(p, m);
    GcdPositive(p, m);
    DivisorBound(g, p);
    if g == p {
      if a < 0 {
        DividesProduct(p, m, -1);
      }
    } else {
      var x, y := Bezout(p, m);
      var s := if a < 0 then -y else y;
      assert 1 == p * x + a * s;
      Reduced(p, a, b, x, s);
    }
  }

  lemma Reduced(p: int, a: int, b: int, x: int, y: int)
    requires 1 == p * x + a * y && Divides(p, a * b)
    ensures Divides(p, b)
  {
    DividesBy(p, p, 1);
    DividesProduct(p, p, x * b);
    DividesProduct(p, a * b, y);
    DividesSum(p, p * (x * b), (a * b) * y);
    Associate(p, x, b);
    Exchange(a, b, y);
    OneTimes(p * x, a * y, b);
  }

  lemma Exchange(a: int, b: int, y: int)
    ensures (a * b) * y == (a * y) * b
  {
    Associate(a, b, y);
    Commute(b, y);
    Associate(a, y, b);
  }

  lemma OneTimes(q: int, r: int, b: int)
    requires q + r == 1
    ensures q * b + r * b == b
  {
    Distribute(b, q, r);
    Commute(b, q);
    Commute(b, r);
    assert b * (q + r) == b * 1;
  }

  // Two distinct primes that divide a number divide it together.
  lemma BothDivide(p: int, q: int, n: int)
    requires Prime(p) && Prime(q) && p != q && Divides(p, n) && Divides(q, n)
    ensures Divides(p * q, n)
  {
    var k := Quotient(p, n);
    Euclid(q, p, k);
    if Divides(q, p) {
      DivisorBound(q, p);
    }
    var l := Quotient(q, k);
    Associate(p, q, l);
    DividesBy(p * q, n, l);
  }
}
