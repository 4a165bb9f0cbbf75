// What a composite has to survive to be taken for a prime: the answer of the test told
// from powers and congruences alone (exchangesim/tls/rsa.py).
module Witnesses {
  import opened Divisibility
  import opened Fermat
  import opened Primality

  // ---- the chain of squares ------------------------------------------------------------

  lemma SquaresBack(m: nat)
    requires m > 1
    ensures (m - 1) * (m - 1) % m == 1 && 1 * 1 % m == 1
  {
    SquareOfMinusOne(m);
    RemainderOne(m, (m - 1) * (m - 1), m - 2);
    RemainderOne(m, 1 * 1, 0);
  }

  lemma SquareOfMinusOne(m: int)
    ensures (m - 1) * (m - 1) - 1 == m * (m - 2)
  {
  }

  lemma RemainderOne(m: nat, x: int, k: int)
    requires m > 1 && x - 1 == m * k
    ensures x % m == 1
  {
    DividesBy(m, x - 1, k);
    ModOf(x, 1, m);
  }

  // Once at 1 or -1, the chain is at 1 from the next square on.
  lemma {:induction false} OneStays(x: int, i: nat, j: nat, m: nat)
    requires m > 1 && i <= j
    requires Squared(x, i, m) == 1 || (i < j && Squared(x, i, m) == m - 1)
    ensures Squared(x, j, m) == 1
    decreases j - i
  {
    SquaresBack(m);
    if i < j {
      assert Squared(x, i + 1, m) == SquareMod(Squared(x, i, m), m);
      OneStays(x, i + 1, j, m);
    }
  }

  // No square root of 1 other than 1 and -1 comes up.
  ghost predicate Plain(x: int, n: nat, m: nat)
    requires m > 0
  {
    forall i :: 0 <= i < n ==> PlainAt(x, i, m)
  }

  ghost predicate PlainAt(x: int, i: nat, m: nat)
    requires m > 0
  {
    Squared(x, i + 1, m) == 1 ==> Squared(x, i, m) == 1 || Squared(x, i, m) == m - 1
  }

  lemma {:induction false} PlainComesFromOne(x: int, n: nat, m: nat)
    requires m > 1 && Squared(x, n, m) == 1 && Plain(x, n, m)
    ensures Squared(x, 0, m) == 1 || Meets(x, n, m)
    decreases n
  {
    if n > 0 {
      assert PlainAt(x, n - 1, m);
      if Squared(x, n - 1, m) == 1 {
        PlainComesFromOne(x, n - 1, m);
      }
    }
  }

  lemma ChainExact(x: int, n: nat, m: nat)
    requires m > 2
    ensures Squared(x, 0, m) == 1 || Meets(x, n, m) <==> Squared(x, n, m) == 1 && Plain(x, n, m)
  {
    if Squared(x, 0, m) == 1 {
      forall i | 0 <= i <= n ensures Squared(x, i, m) == 1 {
        OneStays(x, 0, i, m);
      }
    } else if Meets(x, n, m) {
      var k :| 0 <= k < n && Squared(x, k, m) == m - 1;
      OneStays(x, k, n, m);
      forall i | 0 <= i < n ensures PlainAt(x, i, m) {
        if i < k && Squared(x, i + 1, m) == 1 {
          OneStays(x, i + 1, k, m);
        } else if i > k {
          OneStays(x, k, i, m);
        }
      }
    } else if Squared(x, n, m) == 1 && Plain(x, n, m) {
      PlainComesFromOne(x, n, m);
    }
  }

  // ---- the same of powers ----------------------------------------------------------------

  // w^e is a square root of 1 modulo n other than 1 and -1.
  ghost predicate OddRoot(w: int, e: nat, n: int) {
    Cong(Pow(w, e + e), 1, n) && !Cong(Pow(w, e), 1, n) && !Cong(Pow(w, e), -1, n)
  }

  // e is r doubled i times.
  predicate DoubledUp(r: nat, i: nat, e: nat) {
    e == r * TwoTo(i)
  }

  lemma ChainPower(w: int, r: nat, i: nat, m: nat, e: nat)
    requires m > 2 && DoubledUp(r, i, e)
    ensures var s := Squared(Pow(w, r), i, m);
      0 <= s < m && Cong(s, Pow(w, e), m) && Cong(Pow(w, e), s, m)
  {
    SquaredIs(w, r, i, m);
    SquaredRange(Pow(w, r), i, m);
    CongBack(Squared(Pow(w, r), i, m), Pow(w, e), m);
  }

  lemma MinusOne(m: nat)
    ensures Divides(m, (m - 1) - (-1)) && Divides(m, 1 - 1)
  {
    DividesBy(m, (m - 1) - (-1), 1);
    DividesZero(m);
  }

  lemma PowerIs(w: int, r: nat, i: nat, m: nat, e: nat)
    requires m > 2 && DoubledUp(r, i, e)
    ensures Squared(Pow(w, r), i, m) == 1 <==> Cong(Pow(w, e), 1, m)
    ensures Squared(Pow(w, r), i, m) == m - 1 <==> Cong(Pow(w, e), -1, m)
  {
    ChainPower(w, r, i, m, e);
    MinusOne(m);
    Meant(Squared(Pow(w, r), i, m), Pow(w, e), 1, 1, m);
    Meant(Squared(Pow(w, r), i, m), Pow(w, e), m - 1, -1, m);
  }

  // A remainder is v exactly when what it stands for is congruent to v.
  lemma Meant(s: int, p: int, v: int, u: int, m: nat)
    requires m > 0 && 0 <= s < m && 0 <= v < m && Cong(s, p, m) && Cong(p, s, m) && Divides(m, v - u)
    ensures s == v <==> Cong(p, u, m)
  {
    if s == v {
      CongThrough(p, v, u, m);
    } else if Cong(p, u, m) {
      CongBack(v, u, m);
      CongThrough(s, p, u, m);
      CongThrough(s, u, v, m);
      CongEqual(s, v, m);
    }
  }

  lemma Doubling(r: nat, i: nat)
    ensures r * TwoTo(i) >= 0 && DoubledUp(r, i, r * TwoTo(i))
    ensures DoubledUp(r, i + 1, r * TwoTo(i) + r * TwoTo(i))
  {
    NonNegative(r, TwoTo(i));
    Distribute(r, TwoTo(i), TwoTo(i));
  }

  ghost predicate NoOddRoots(w: int, r: nat, twos: nat, m: nat) {
    forall i :: 0 <= i < twos ==> r * TwoTo(i) >= 0 && !OddRoot(w, r * TwoTo(i), m)
  }

  lemma PlainMeans(w: int, r: nat, i: nat, m: nat)
    requires m > 2
    ensures r * TwoTo(i) >= 0 && (PlainAt(Pow(w, r), i, m) <==> !OddRoot(w, r * TwoTo(i), m))
  {
    Doubling(r, i);
    PlainPower(w, r, i, m, r * TwoTo(i));
  }

  lemma PlainPower(w: int, r: nat, i: nat, m: nat, e: nat)
    requires m > 2 && DoubledUp(r, i, e) && DoubledUp(r, i + 1, e + e)
    ensures PlainAt(Pow(w, r), i, m) <==> !OddRoot(w, e, m)
  {
    PowerIs(w, r, i, m, e);
    PowerIs(w, r, i + 1, m, e + e);
  }

  // A round passes exactly when the last power is 1 and none of those before it is an odd
  // root of 1.
  lemma RoundExact(w: nat, r: nat, twos: nat, m: nat)
    requires m > 2 && r * TwoTo(twos) >= 0
    ensures Passes(w, r, twos, m) <==> Cong(Pow(w, r * TwoTo(twos)), 1, m) && NoOddRoots(w, r, twos, m)
  {
    var x := Pow(w, r);
    ChainExact(x, twos, m);
    PowerIs(w, r, twos, m, r * TwoTo(twos));
    forall i | 0 <= i < twos
      ensures r * TwoTo(i) >= 0 && (PlainAt(x, i, m) <==> !OddRoot(w, r * TwoTo(i), m))
    {
      PlainMeans(w, r, i, m);
    }
  }

  // ---- without the odd part --------------------------------------------------------------------

  // e is n - 1 halved k + 1 times.
  predicate Halved(n: nat, e: nat, k: nat) {
    n - 1 == e * TwoTo(k + 1)
  }

  lemma {:induction false} HalvedParts(e: nat, k: nat)
    requires e >= 1 && e * TwoTo(k) >= 1
    ensures OddPart(e * TwoTo(k)) == OddPart(e) && Twos(e * TwoTo(k)) == Twos(e) + k
    decreases k
  {
    if k == 0 {
      assert e * TwoTo(0) == e;
    } else {
      Doubled(e, TwoTo(k - 1));
      var h := e * TwoTo(k - 1);
      NonNegative(e, TwoTo(k - 1));
      assert e * TwoTo(k) == 2 * h && h >= 1;
      assert 2 * h % 2 == 0 && 2 * h / 2 == h;
      HalvedParts(e, k - 1);
    }
  }

  lemma {:induction false} TwosAdd(i: nat, j: nat)
    ensures TwoTo(i + j) == TwoTo(i) * TwoTo(j)
    decreases j
  {
    if j > 0 {
      TwosAdd(i, j - 1);
      Doubled(TwoTo(i), TwoTo(j - 1));
    } else {
      assert TwoTo(i) * 1 == TwoTo(i);
    }
  }

  lemma NonZero(a: nat, b: nat)
    requires a * b > 0
    ensures a > 0
  {
  }

  // The halves of n - 1 are its odd part doubled fewer than `twos` times.
  lemma HalvesAre(n: nat, r: nat, twos: nat, w: int)
    requires n >= 2 && r == OddPart(n - 1) && twos == Twos(n - 1)
    ensures NoOddRoots(w, r, twos, n) <==> forall e: nat, k: nat :: Halved(n, e, k) ==> !OddRoot(w, e, n)
  {
    OddAndTwos(n - 1);
    if NoOddRoots(w, r, twos, n) {
      forall e: nat, k: nat | Halved(n, e, k) ensures !OddRoot(w, e, n) {
        NonZero(e, TwoTo(k + 1));
        HalvedParts(e, k + 1);
        OddAndTwos(e);
        assert e == r * TwoTo(Twos(e)) && Twos(e) < twos;
      }
    }
    if forall e: nat, k: nat :: Halved(n, e, k) ==> !OddRoot(w, e, n) {
      forall i | 0 <= i < twos ensures r * TwoTo(i) >= 0 && !OddRoot(w, r * TwoTo(i), n) {
        NonNegative(r, TwoTo(i));
        var e: nat, k: nat := r * TwoTo(i), twos - i - 1;
        TwosAdd(i, k + 1);
        Associate(r, TwoTo(i), TwoTo(k + 1));
        assert Halved(n, e, k);
      }
    }
  }

  // What is drawn satisfies Fermat's congruence and exposes no square root of 1 other
  // than 1 and -1.
  ghost predicate Unsuspected(n: nat, w: nat)
    requires n >= 1
  {
    Cong(Pow(w, n - 1), 1, n) && forall e: nat, k: nat :: Halved(n, e, k) ==> !OddRoot(w, e, n)
  }

  // A number no small prime divides is accepted exactly when no witness drawn tells it
  // from a prime.
  lemma AcceptedExactly(n: nat, rounds: nat, draws: seq<nat>)
    requires n >= 2 && !SmallDivides(n) && rounds <= |draws|
    ensures Accepts(n, rounds, draws) <==> forall i :: 0 <= i < rounds ==> Unsuspected(n, 2 + draws[i])
  {
    var r, twos := OddPart(n - 1), Twos(n - 1);
    Survivor(n);
    OddAndTwos(n - 1);
    forall i | 0 <= i < rounds ensures Passes(2 + draws[i], r, twos, n) <==> Unsuspected(n, 2 + draws[i]) {
      RoundExact(2 + draws[i], r, twos, n);
      HalvesAre(n, r, twos, 2 + draws[i]);
    }
  }

  lemma OnlyItself(p: nat, n: nat)
    requires Prime(n) && p >= 2 && Divides(p, n)
    ensures p == n
  {
    DivisorBound(p, n);
  }

  // One that a small prime divides is accepted exactly when it is that prime.
  lemma SmallExactly(n: nat, rounds: nat, draws: seq<nat>)
    requires n >= 2 && SmallDivides(n) && rounds <= |draws|
    ensures Accepts(n, rounds, draws) <==> Prime(n)
  {
    var p :| 2 <= p < SMALL_LIMIT && Prime(p) && Divides(p, n);
    if Prime(n) {
      OnlyItself(p, n);
    }
  }

  // A witness that shares a divisor with the number always tells, so every composite can be
  // refused.
  lemma FactorTells(n: nat, d: nat, w: nat)
    requires n >= 2 && d >= 2 && Divides(d, n) && Divides(d, w)
    ensures !Unsuspected(n, w)
  {
    if Cong(Pow(w, n - 1), 1, n) {
      PowDivisible(d, w, n - 1);
      DividesThrough(d, n, Pow(w, n - 1) - 1);
      DividesSum(d, Pow(w, n - 1), Pow(w, n - 1) - 1);
      DivisorBound(d, 1);
    }
  }

  // ---- a composite refused -----------------------------------------------------------------

  // The square of the prime 2003.
  const SQUARE := 4012009

  // x squared, and doubled for a digit 1, is y behind q times the modulus.
  predicate Divided(x: nat, digit: bool, q: nat, y: nat) {
    x * x * (if digit then 2 else 1) == q * SQUARE + y
  }

  // One more binary digit of an exponent of 2.
  lemma Digit(w: nat, e: nat, x: nat, digit: bool, q: nat, y: nat) returns (e': nat)
    requires w == 2 && Cong(Pow(w, e), x, SQUARE) && Divided(x, digit, q, y)
    ensures e' == 2 * e + (if digit then 1 else 0) && Cong(Pow(w, e'), y, SQUARE)
  {
    e' := 2 * e + if digit then 1 else 0;
    var p, z := Pow(w, e), x * x * if digit then 2 else 1;
    CongProduct(p, x, p, x, SQUARE);
    PowSum(w, e, e);
    if digit {
      CongSame(w, SQUARE);
      CongProduct(p * p, x * x, w, w, SQUARE);
      assert Pow(w, 2 * e + 1) == w * Pow(w, e + e);
    }
    DividesBy(SQUARE, z - y, q);
    CongThrough(Pow(w, e'), z, y, SQUARE);
  }

  lemma SixDigits(w: nat) returns (e: nat)
    requires w == 2
    ensures e == 61 && Cong(Pow(w, e), 3757460, SQUARE)
  {
    CongSame(1, SQUARE);
    e := Digit(w, 0, 1, true, 0, 2);
    e := Digit(w, e, 2, true, 0, 8);
    e := Digit(w, e, 8, true, 0, 128);
    e := Digit(w, e, 128, true, 0, 32768);
    e := Digit(w, e, 32768, false, 267, 2535421);
    e := Digit(w, e, 2535421, true, 3204558, 3757460);
  }

  lemma ElevenDigits(w: nat) returns (e: nat)
    requires w == 2
    ensures e == 1958 && Cong(Pow(w, e), 12287, SQUARE)
  {
    e := SixDigits(w);
    e := Digit(w, e, 3757460, false, 3519061, 1248051);
    e := Digit(w, e, 1248051, false, 388242, 900423);
    e := Digit(w, e, 900423, true, 404167, 1516355);
    e := Digit(w, e, 1516355, true, 1146224, 3968034);
    e := Digit(w, e, 3968034, false, 3924541, 12287);
  }

  lemma SeventeenDigits(w: nat) returns (e: nat)
    requires w == 2
    ensures e == 125375 && Cong(Pow(w, e), 606147, SQUARE)
  {
    e := ElevenDigits(w);
    e := Digit(w, e, 12287, true, 75, 1040063);
    e := Digit(w, e, 1040063, true, 539246, 2282724);
    e := Digit(w, e, 2282724, true, 2597615, 2961817);
    e := Digit(w, e, 2961817, true, 4373050, 3925528);
    e := Digit(w, e, 3925528, true, 7681822, 1157170);
    e := Digit(w, e, 1157170, true, 667517, 606147);
  }

  lemma EveryDigit(w: nat) returns (e: nat)
    requires w == 2
    ensures e == 4012008 && Cong(Pow(w, e), 857285, SQUARE)
  {
    e := SeventeenDigits(w);
    e := Digit(w, e, 606147, false, 91578, 2425407);
    e := Digit(w, e, 2425407, true, 2932495, 1898843);
    e := Digit(w, e, 1898843, false, 898703, 214322);
    e := Digit(w, e, 214322, false, 11449, 428643);
    e := Digit(w, e, 428643, false, 45796, 857285);
  }

  lemma TwoTells(n: nat, w: nat)
    requires n == SQUARE && w == 2
    ensures !Unsuspected(n, w)
  {
    var e := EveryDigit(w);
    if Cong(Pow(w, e), 1, n) {
      CongBack(Pow(w, e), 1, n);
      CongThrough(1, Pow(w, e), 857285, n);
      CongEqual(1, 857285, n);
    }
  }

  // The square of 2003 has no small factor, and the witness 2 tells it from a prime.
  lemma SquareOfPrimeRefused(n: nat, rounds: nat, draws: seq<nat>)
    requires n == 2003 * 2003 && 0 < rounds <= |draws| && draws[0] == 0
    ensures !Accepts(n, rounds, draws)
  {
    if SmallDivides(n) {
      SmallExactly(n, rounds, draws);
      DividesBy(2003, n, 2003);
    } else {
      AcceptedExactly(n, rounds, draws);
      TwoTells(n, 2 + draws[0]);
    }
  }
}
