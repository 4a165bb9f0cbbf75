// RSA keys: the inverse they are built on, and what raising to their exponents does
// (exchangesim/tls/rsa.py; sections 5.1.2 and 5.2 of RFC 8017).
module RsaKeys {
  import opened Options
  import opened Divisibility
  import opened Fermat

  // ---- inverses -------------------------------------------------------------------------

  ghost predicate Combines(g: int, a: int, b: int, x: int, y: int) {
    g == a * x + b * y
  }

  lemma EuclidStep(a: int, b: int, g: int, r: int, x: int, y: int, s: int, t: int, q: int)
    requires Combines(g, a, b, x, y) && Combines(r, a, b, s, t)
    ensures Combines(g - q * r, a, b, x - q * s, y - q * t)
  {
    assert q * r == a * (q * s) + b * (q * t) by {
      Distribute(q, a * s, b * t);
      Reorder(q, a, s);
      Reorder(q, b, t);
    }
    Distribute(a, x, q * s);
    Distribute(b, y, q * t);
  }

  lemma Reorder(q: int, a: int, s: int)
    ensures q * (a * s) == a * (q * s)
  {
  }

  // The extended Euclidean algorithm, for the first coefficient.
  method ExtendedGcd(a: nat, b: nat) returns (g: nat, x: int, ghost y: int)
    ensures g == Gcd(a, b) && Combines(g, a, b, x, y)
  {
    var r: nat := b;
    g := a;
    x, y := 1, 0;
    var s := 0;
    ghost var t := 1;
    while r != 0
      invariant Gcd(g, r) == Gcd(a, b)
      invariant Combines(g, a, b, x, y) && Combines(r, a, b, s, t)
      decreases r
    {
      var q := g / r;
      DivMod(g, r);
      EuclidStep(a, b, g, r, x, y, s, t, q);
      Commute(q, r);
      g, r := r, g - q * r;
      x, s := s, x - q * s;
      y, t := t, y - q * t;
    }
  }

  ghost predicate IsInverse(x: int, a: int, m: int) {
    0 <= x < m && Cong(a * x, 1, m)
  }

  // The inverse of a modulo m, when there is one; otherwise the program raises.
  method ModInv(a: int, m: nat) returns (r: Option<int>)
    requires m > 0
    ensures r.Some? <==> Gcd(a % m, m) == 1
    ensures r.Some? ==> IsInverse(r.value, a, m)
  {
    DivMod(a, m);
    var g, x, y := ExtendedGcd(a % m, m);
    if g != 1 {
      return None;
    }
    r := Some(x % m);
    DivMod(x, m);
    InverseFound(a, m, x, y);
  }

  lemma InverseFound(a: int, m: nat, x: int, y: int)
    requires m > 0 && Combines(1, a % m, m, x, y)
    ensures Cong(a * (x % m), 1, m)
  {
    CongMod(a, m);
    CongMod(x, m);
    CongProduct(a, a % m, x % m, x, m);
    DividesBy(m, (a % m) * x - 1, -y);
    CongThrough(a * (x % m), (a % m) * x, 1, m);
  }

  // There is only one.
  lemma InverseUnique(a: int, m: int, x: int, y: int)
    requires m > 0 && IsInverse(x, a, m) && IsInverse(y, a, m)
    ensures x == y
  {
    CongSame(y, m);
    CongSame(x, m);
    CongProduct(a * x, 1, y, y, m);
    CongProduct(a * y, 1, x, x, m);
    assert (a * x) * y == (a * y) * x;
    CongBack((a * x) * y, y, m);
    CongThrough(y, (a * x) * y, x, m);
    CongEqual(y, x, m);
  }

  // A number with an inverse has no divisor in common with the modulus.
  lemma InverseMeansCoprime(a: nat, m: nat, x: int)
    requires m > 0 && Cong(a * x, 1, m)
    ensures Gcd(a, m) == 1
  {
    var g := Gcd(a, m);
    GcdDivides(a, m);
    GcdPositive(a, m);
    DividesProduct(g, a, x);
    DividesThrough(g, m, a * x - 1);
    DividesSum(g, a * x, a * x - 1);
    DivisorBound(g, 1);
  }

  // ---- the least common multiple --------------------------------------------------------------

  function Lcm(a: nat, b: nat): (l: nat)
    requires a > 0 && b > 0
    ensures l > 0
  {
    CofactorPositive(a, b);
    Grows(b, a / Gcd(a, b));
    Commute(b, a / Gcd(a, b));
    a / Gcd(a, b) * b
  }

  lemma CofactorPositive(a: nat, b: nat)
    requires a > 0 && b > 0
    ensures Gcd(a, b) > 0 && a / Gcd(a, b) >= 1 && a == Gcd(a, b) * (a / Gcd(a, b))
  {
    var g := Gcd(a, b);
    GcdPositive(a, b);
    GcdDivides(a, b);
    DividesIsMod(g, a);
    DivMod(a, g);
    PositiveFactor(g, a / g);
  }

  lemma PositiveFactor(g: nat, k: int)
    requires g * k > 0
    ensures k > 0
  {
  }

  lemma LcmIs(a: nat, b: nat)
    requires a > 0 && b > 0
    ensures Divides(a, Lcm(a, b)) && Divides(b, Lcm(a, b))
  {
    var g := Gcd(a, b);
    GcdPositive(a, b);
    GcdDivides(a, b);
    DividesIsMod(g, a);
    DivMod(a, g);
    var k := a / g;
    var l := Quotient(g, b);
    Commute(k, b);
    DividesBy(b, k * b, k);
    MultipleOf(k, g, l);
    DividesBy(a, k * b, l);
  }

  lemma MultipleOf(k: int, g: int, l: int)
    ensures k * (g * l) == (g * k) * l
  {
  }

  // Every common multiple is a multiple of it.
  lemma LcmLeast(a: nat, b: nat, n: int)
    requires a > 0 && b > 0 && Divides(a, n) && Divides(b, n)
    ensures Divides(Lcm(a, b), n)
  {
    var g := Gcd(a, b);
    GcdPositive(a, b);
    GcdDivides(a, b);
    DividesIsMod(g, a);
    DivMod(a, g);
    var k := a / g;
    var x, y := Bezout(a, b);
    var s := Quotient(a, n);
    var t := Quotient(b, n);
    LcmFactor(g, a, b, k, x, y, s, t, n);
    DividesBy(k * b, n, x * t + y * s);
  }

  lemma LcmFactor(g: int, a: int, b: int, k: int, x: int, y: int, s: int, t: int, n: int)
    requires g > 0 && g == a * x + b * y && a == g * k && n == a * s && n == b * t
    ensures n == (k * b) * (x * t + y * s)
  {
    assert g * n == (a * x) * (b * t) + (b * y) * (a * s) by {
      assert g * n == (a * x) * n + (b * y) * n;
    }
    assert (a * x) * (b * t) + (b * y) * (a * s) == (a * b) * (x * t + y * s);
    assert (a * b) * (x * t + y * s) == g * ((k * b) * (x * t + y * s)) by {
      assert a * b == g * (k * b);
      Associate(g, k * b, x * t + y * s);
    }
    Cancel(g, n, (k * b) * (x * t + y * s));
  }

  lemma Cancel(g: int, a: int, b: int)
    requires g > 0 && g * a == g * b
    ensures a == b
  {
    Distribute(g, a, b);
    if a > b {
      Grows(g, a - b);
    } else if b > a {
      Grows(g, b - a);
      Distribute(g, b, a);
    }
  }

  // ---- keys ---------------------------------------------------------------------------------------

  datatype Key = Key(n: nat, e: nat, d: int, p: nat, q: nat, dp: int, dq: int, qinv: int)

  // The equations a generated key satisfies.
  ghost predicate Generated(k: Key) {
    && Prime(k.p) && Prime(k.q) && k.p != k.q && k.n == k.p * k.q && k.e >= 1
    && IsInverse(k.d, k.e, Lcm(k.p - 1, k.q - 1))
    && k.dp == k.d % (k.p - 1) && k.dq == k.d % (k.q - 1) && IsInverse(k.qinv, k.q, k.p)
  }

  lemma PrimesCoprime(p: nat, q: nat)
    requires Prime(p) && Prime(q) && p != q
    ensures Gcd(q % p, p) == 1
  {
    var r := q % p;
    DivMod(q, p);
    var g := Gcd(r, p);
    GcdDivides(r, p);
    GcdPositive(r, p);
    DivisorBound(g, p);
    if g == p {
      DividesIsMod(p, q);
      if r > 0 {
        DivisorBound(p, r);
      }
      DivisorBound(p, q);
    }
  }

  lemma TotientAbove(p: nat, q: nat)
    requires Prime(p) && Prime(q) && p != q
    ensures Lcm(p - 1, q - 1) >= 2
  {
    LcmIs(p - 1, q - 1);
    DivisorBound(p - 1, Lcm(p - 1, q - 1));
    DivisorBound(q - 1, Lcm(p - 1, q - 1));
  }

  // A key from two distinct primes; none when the exponent has no inverse, in which case
  // the program draws again.
  method MakeKey(p: nat, q: nat, e: nat) returns (r: Option<Key>)
    requires Prime(p) && Prime(q) && p != q && e >= 1
    ensures r.Some? <==> Gcd(e % Lcm(p - 1, q - 1), Lcm(p - 1, q - 1)) == 1
    ensures r.Some? ==> Generated(r.value) && r.value.p == p && r.value.q == q && r.value.e == e
  {
    var totient := Lcm(p - 1, q - 1);
    TotientAbove(p, q);
    var d := ModInv(e, totient);
    if d.None? {
      return None;
    }
    PrimesCoprime(p, q);
    var qinv := ModInv(q, p);
    NonNegative(p, q);
    r := Some(Key(p * q, e, d.value, p, q, d.value % (p - 1), d.value % (q - 1), qinv.value));
  }

  // ---- the RSA identity ------------------------------------------------------------------------------

  // Modulo a prime, an exponent one above a multiple of p - 1 does nothing.
  lemma OneMoreThan(p: nat, m: nat, s: nat)
    requires Prime(p)
    ensures (p - 1) * s >= 0 && Cong(Pow(m, (p - 1) * s + 1), m, p)
  {
    NonNegative(p - 1, s);
    var e := (p - 1) * s;
    if Divides(p, m) {
      DividesProduct(p, m, Pow(m, e));
      DividesSum(p, Pow(m, e + 1), m);
    } else {
      FermatLittle(p, m);
      CongPow(Pow(m, p - 1), 1, s, p);
      PowOfOne(s);
      PowProduct(m, p - 1, s);
      CongSame(m, p);
      CongProduct(m, m, Pow(m, e), 1, p);
    }
  }

  // So the exponents of a key do nothing to any number below its modulus, whether or not
  // it shares a factor with it.
  lemma ExponentsCancel(k: Key, m: nat)
    requires Generated(k)
    ensures k.d >= 1 && k.e * k.d >= 1 && Cong(Pow(m, k.e * k.d), m, k.n)
  {
    var totient := Lcm(k.p - 1, k.q - 1);
    TotientAbove(k.p, k.q);
    LcmIs(k.p - 1, k.q - 1);
    DPositive(k);
    var t := Quotient(totient, k.e * k.d - 1);
    Grows(k.e, k.d);
    SignOf(totient, t);
    PrimePart(k.p, k.p - 1, totient, t, m, k.e * k.d);
    PrimePart(k.q, k.q - 1, totient, t, m, k.e * k.d);
    BothDivide(k.p, k.q, Pow(m, k.e * k.d) - m);
  }

  lemma DPositive(k: Key)
    requires Generated(k)
    ensures k.d >= 1
  {
    TotientAbove(k.p, k.q);
    if k.d == 0 {
      assert k.e * 0 == 0;
      CongBack(0, 1, Lcm(k.p - 1, k.q - 1));
      DivisorBound(Lcm(k.p - 1, k.q - 1), 1);
    }
  }

  lemma SignOf(a: int, t: int)
    requires a > 0 && a * t >= 0
    ensures t >= 0
  {
    if t < 0 {
      Grows(a, -t);
    }
  }

  lemma PrimePart(p: nat, a: nat, totient: nat, t: nat, m: nat, e: nat)
    requires Prime(p) && a == p - 1 && Divides(a, totient) && e == totient * t + 1
    ensures Cong(Pow(m, e), m, p)
  {
    var l := Quotient(a, totient);
    NonNegative(totient, t);
    SignOf(a, l);
    NonNegative(l, t);
    Associate(a, l, t);
    OneMoreThan(p, m, l * t);
  }

  // Signing and verifying, or encrypting and decrypting, give back what was put in.
  lemma RsaIdentity(k: Key, m: nat)
    requires Generated(k) && m < k.n
    ensures k.d >= 0 && PowMod(PowMod(m, k.d, k.n), k.e, k.n) == m
    ensures PowMod(PowMod(m, k.e, k.n), k.d, k.n) == m
  {
    ExponentsCancel(k, m);
    Commute(k.e, k.d);
    Undone(m, k.d, k.e, k.n);
    Undone(m, k.e, k.d, k.n);
  }

  lemma Undone(m: nat, d: nat, e: nat, n: nat)
    requires m < n && d * e >= 0 && Cong(Pow(m, d * e), m, n)
    ensures PowMod(PowMod(m, d, n), e, n) == m
  {
    var s := Pow(m, d);
    CongMod(s, n);
    CongPow(s % n, s, e, n);
    PowProduct(m, d, e);
    CongThrough(Pow(s % n, e), Pow(s, e), m, n);
    ModOf(Pow(s % n, e), m, n);
    SmallMod(m, n);
  }

  lemma SmallMod(m: nat, n: nat)
    requires m < n
    ensures m % n == m
  {
    CongMod(m, n);
    DivMod(m, n);
    CongEqual(m % n, m, n);
  }

  // ---- by parts -------------------------------------------------------------------------------------

  // The private operation by the Chinese remainders, as the key's parts are meant for.
  function ByParts(k: Key, c: nat): int
    requires Generated(k)
  {
    DivMod(k.d, k.p - 1);
    DivMod(k.d, k.q - 1);
    var m1, m2 := PowMod(c, k.dp, k.p), PowMod(c, k.dq, k.q);
    var h := k.qinv * (m1 - m2) % k.p;
    m2 + k.q * h
  }

  // Modulo a prime above two, the reduced exponent raises to the same power.
  lemma ReducedExponent(p: nat, c: nat, d: nat, totient: nat, e: nat)
    requires Prime(p) && p > 2 && Divides(p - 1, totient) && Cong(e * d, 1, totient) && d >= 1
    ensures 0 <= d % (p - 1) && Cong(Pow(c, d % (p - 1)), Pow(c, d), p)
  {
    var a := p - 1;
    DivMod(d, a);
    var r, s := d % a, d / a;
    QuotientSign(a, s, d, r);
    if Divides(p, c) {
      NotMultiple(a, totient, e, d);
      DividesIsMod(a, d);
      PowDivisible(p, c, r);
      PowDivisible(p, c, d);
      DividesSum(p, Pow(c, r), Pow(c, d));
    } else {
      FermatLittle(p, c);
      CongPow(Pow(c, a), 1, s, p);
      PowOfOne(s);
      NonNegative(a, s);
      PowProduct(c, a, s);
      PowSum(c, a * s, r);
      CongSame(Pow(c, r), p);
      CongProduct(Pow(c, a * s), 1, Pow(c, r), Pow(c, r), p);
      CongBack(Pow(c, d), Pow(c, r), p);
    }
  }

  lemma QuotientSign(a: int, s: int, d: int, r: int)
    requires a > 0 && d >= 0 && d == a * s + r && r < a
    ensures s >= 0
  {
    if s <= -1 {
      Grows(a, -s);
    }
  }

  lemma NotMultiple(a: nat, totient: nat, e: nat, d: nat)
    requires a >= 2 && Divides(a, totient) && Cong(e * d, 1, totient)
    ensures !Divides(a, d)
  {
    if Divides(a, d) {
      DividesProduct(a, d, e);
      DividesThrough(a, totient, e * d - 1);
      DividesSum(a, e * d, e * d - 1);
      DivisorBound(a, 1);
    }
  }

  lemma PartsBound(k: Key, c: nat)
    requires Generated(k)
    ensures 0 <= ByParts(k, c) < k.n
  {
    DivMod(k.d, k.p - 1);
    DivMod(k.d, k.q - 1);
    var m1, m2 := PowMod(c, k.dp, k.p), PowMod(c, k.dq, k.q);
    var h := k.qinv * (m1 - m2) % k.p;
    DivMod(Pow(c, k.dq), k.q);
    DivMod(k.qinv * (m1 - m2), k.p);
    NonNegative(k.q, h);
    Below(k.q, k.p, h, m2);
  }

  lemma Below(q: nat, p: nat, h: nat, m: nat)
    requires h < p && m < q
    ensures m + q * h < p * q
  {
    NonNegative(q, p - 1 - h);
    Distribute(q, p, h + 1);
    Distribute(q, h, 1);
  }

  lemma PartsCongruent(k: Key, c: nat)
    requires Generated(k)
    ensures k.dp >= 0 && k.dq >= 0
    ensures Cong(ByParts(k, c), Pow(c, k.dp), k.p) && Cong(ByParts(k, c), Pow(c, k.dq), k.q)
  {
    DivMod(k.d, k.p - 1);
    DivMod(k.d, k.q - 1);
    var m1, m2 := PowMod(c, k.dp, k.p), PowMod(c, k.dq, k.q);
    var h := k.qinv * (m1 - m2) % k.p;
    CongMod(Pow(c, k.dp), k.p);
    CongMod(Pow(c, k.dq), k.q);
    ModuloP(k.p, k.q, k.qinv, m1, m2, h);
    CongThrough(m2 + k.q * h, m1, Pow(c, k.dp), k.p);
    DividesBy(k.q, (m2 + k.q * h) - m2, h);
    CongThrough(m2 + k.q * h, m2, Pow(c, k.dq), k.q);
  }

  lemma ModuloP(p: nat, q: nat, qinv: int, m1: int, m2: int, h: int)
    requires p > 0 && Cong(q * qinv, 1, p) && h == qinv * (m1 - m2) % p
    ensures Cong(m2 + q * h, m1, p)
  {
    var diff := m1 - m2;
    CongMod(qinv * diff, p);
    CongSame(q, p);
    CongProduct(q, q, h, qinv * diff, p);
    CongSame(diff, p);
    CongProduct(q * qinv, 1, diff, diff, p);
    Associate(q, qinv, diff);
    CongThrough(q * h, (q * qinv) * diff, diff, p);
    CongSame(m2, p);
    CongSum(m2, m2, q * h, diff, p);
  }

  // The parts of the key recombine to the private operation on every number below the
  // modulus exactly when both primes are odd, as generated ones are: with 2 for a prime,
  // its exponent comes out 0 and 0 is taken to 1.
  lemma PartsRecombine(k: Key)
    requires Generated(k)
    ensures k.d >= 0 && k.n > 0
    ensures (forall c: nat :: c < k.n ==> ByParts(k, c) == PowMod(c, k.d, k.n)) <==> k.p > 2 && k.q > 2
  {
    DPositive(k);
    PositiveModulus(k);
    if k.p > 2 && k.q > 2 {
      forall c: nat | c < k.n ensures ByParts(k, c) == PowMod(c, k.d, k.n) {
        PartsAgree(k, c);
      }
    } else {
      ZeroFails(k);
    }
  }

  lemma PositiveModulus(k: Key)
    requires Generated(k)
    ensures k.n > 0
  {
    Grows(k.p, k.q);
  }

  lemma PartsAgree(k: Key, c: nat)
    requires Generated(k) && k.p > 2 && k.q > 2 && k.d >= 1 && k.n > 0
    ensures ByParts(k, c) == PowMod(c, k.d, k.n)
  {
    LcmIs(k.p - 1, k.q - 1);
    PartsCongruent(k, c);
    ReducedExponent(k.p, c, k.d, Lcm(k.p - 1, k.q - 1), k.e);
    ReducedExponent(k.q, c, k.d, Lcm(k.p - 1, k.q - 1), k.e);
    CongThrough(ByParts(k, c), Pow(c, k.dp), Pow(c, k.d), k.p);
    CongThrough(ByParts(k, c), Pow(c, k.dq), Pow(c, k.d), k.q);
    BothDivide(k.p, k.q, ByParts(k, c) - Pow(c, k.d));
    PartsBound(k, c);
    ModOf(ByParts(k, c), Pow(c, k.d), k.n);
    SmallMod(ByParts(k, c), k.n);
  }

  lemma ZeroFails(k: Key)
    requires Generated(k) && k.d >= 1 && k.n > 0 && (k.p == 2 || k.q == 2)
    ensures ByParts(k, 0) != PowMod(0, k.d, k.n)
  {
    PartsCongruent(k, 0);
    assert Pow(0, k.d) == 0 * Pow(0, k.d - 1) == 0;
    SmallMod(0, k.n);
    if ByParts(k, 0) == 0 {
      if k.p == 2 {
        assert k.dp == 0;
        CongBack(0, 1, 2);
        DivisorBound(2, 1);
      } else {
        assert k.dq == 0;
        CongBack(0, 1, 2);
        DivisorBound(2, 1);
      }
    }
  }
}
