// The sieve, and a Miller-Rabin test that never turns a prime away (exchangesim/tls/rsa.py).
module Primality {
  import opened Divisibility
  import opened Fermat

  // ---- the primes below a limit ------------------------------------------------------------

  predicate HasDivisor(n: nat, d: nat)
    requires d >= 1
  {
    n % d == 0
  }

  // By trial of everything below it.
  predicate IsPrime(n: nat) {
    n >= 2 && forall d :: 2 <= d < n ==> !HasDivisor(n, d)
  }

  function PrimesBelow(limit: nat): seq<nat> {
    if limit == 0 then [] else PrimesBelow(limit - 1) + if IsPrime(limit - 1) then [limit - 1] else []
  }

  lemma PrimeIsPrime(n: nat)
    ensures IsPrime(n) <==> Prime(n)
  {
    forall d | 2 <= d < n ensures HasDivisor(n, d) <==> Divides(d, n) {
      DividesIsMod(d, n);
    }
  }

  lemma {:induction false} PrimesBelowIn(limit: nat, p: nat)
    ensures p in PrimesBelow(limit) <==> p < limit && IsPrime(p)
    decreases limit
  {
    if limit > 0 {
      PrimesBelowIn(limit - 1, p);
    }
  }

  // In ascending order, each once.
  lemma {:induction false} PrimesBelowAscend(limit: nat)
    ensures forall i, j :: 0 <= i < j < |PrimesBelow(limit)| ==> PrimesBelow(limit)[i] < PrimesBelow(limit)[j]
    ensures forall i :: 0 <= i < |PrimesBelow(limit)| ==> PrimesBelow(limit)[i] < limit
    decreases limit
  {
    if limit > 0 {
      PrimesBelowAscend(limit - 1);
    }
  }

  // ---- a composite number has a prime divisor no larger than its root ------------------------

  lemma {:induction false} PrimeDivisor(n: nat) returns (p: nat)
    requires n >= 2
    ensures Prime(p) && Divides(p, n) && p <= n
    decreases n
  {
    if Prime(n) {
      p := n;
      DividesBy(n, n, 1);
    } else {
      var d: int :| 2 <= d < n && Divides(d, n);
      p := PrimeDivisor(d);
      DividesThrough(p, d, n);
    }
  }

  lemma SmallDivisor(n: nat) returns (p: nat)
    requires n >= 2 && !Prime(n)
    ensures Prime(p) && Divides(p, n) && p * p <= n
  {
    var d: int :| 2 <= d < n && Divides(d, n);
    var k := Quotient(d, n);
    CofactorBounds(d, k, n);
    if d <= k {
      p := PrimeDivisor(d);
      DividesThrough(p, d, n);
      SquareBelow(p, d, k);
    } else {
      p := PrimeDivisor(k);
      DividesBy(k, n, d);
      DividesThrough(p, k, n);
      SquareBelow(p, k, d);
    }
  }

  lemma CofactorBounds(d: nat, k: int, n: nat)
    requires d >= 2 && n == d * k && d < n
    ensures k >= 2
  {
  }

  lemma SquareBelow(p: nat, a: nat, b: nat)
    requires p <= a <= b
    ensures p * p <= a * b && p * p <= b * a
  {
    assert p * p <= a * p <= a * b;
  }

  // ---- the sieve -----------------------------------------------------------------------------

  // Marked for a prime below c, from its square on.
  ghost predicate Marked(j: nat, c: nat) {
    exists d :: 2 <= d < c && Prime(d) && d * d <= j && Divides(d, j)
  }

  lemma MarkedIs(c: nat)
    requires c >= 2
    ensures Marked(c, c) <==> !Prime(c)
  {
    if Marked(c, c) {
      var d :| 2 <= d < c && Prime(d) && d * d <= c && Divides(d, c);
    } else if !Prime(c) {
      var p := SmallDivisor(c);
      DivisorBound(p, c);
      if p == c {
        Grows(c, c - 1);
        Distribute(c, c, 1);
      }
    }
  }

  lemma MarkedMore(j: nat, c: nat)
    requires c >= 2
    ensures Marked(j, c + 1) <==> Marked(j, c) || (Prime(c) && c * c <= j && Divides(c, j))
  {
  }

  // Marks the multiples of a prime, its square first.
  method MarkMultiples(composite: array<bool>, c: nat)
    requires c >= 2 && Prime(c)
    modifies composite
    ensures forall j :: 0 <= j < composite.Length ==>
      (composite[j] <==> old(composite[j]) || (c * c <= j && Divides(c, j)))
  {
    var multiple := c * c;
    ghost var k := c;
    while multiple < composite.Length
      invariant k >= c && multiple == c * k
      invariant forall j :: 0 <= j < composite.Length ==>
        (composite[j] <==> old(composite[j]) || (c * c <= j < multiple && Divides(c, j)))
      decreases composite.Length - multiple
    {
      DividesBy(c, multiple, k);
      NoneBetween(c, k);
      MonotoneSquare(c, k);
      composite[multiple] := true;
      Distribute(c, k, 1);
      multiple := multiple + c;
      k := k + 1;
    }
    MonotoneSquare(c, k);
  }

  lemma MonotoneSquare(c: nat, k: nat)
    requires c <= k
    ensures c * c <= c * k
  {
  }

  // Between one multiple and the next there is none.
  lemma NoneBetween(c: nat, k: nat)
    requires c >= 1
    ensures forall j :: c * k < j < c * k + c ==> !Divides(c, j)
  {
    forall j | c * k < j < c * k + c ensures !Divides(c, j) {
      if Divides(c, j) {
        var l := Quotient(c, j);
        Distribute(c, l, k);
        Bounded(c, l - k);
      }
    }
  }

  ghost predicate Sieved(composite: array<bool>, c: nat)
    reads composite
  {
    forall j :: 0 <= j < composite.Length ==> (composite[j] <==> Marked(j, c))
  }

  // Exactly the primes below the limit, in order.
  method Sieve(limit: nat) returns (primes: seq<nat>)
    ensures primes == PrimesBelow(limit)
  {
    var composite := new bool[limit](i => false);
    primes := [];
    assert Sieved(composite, 2);
    assert PrimesBelow(2) == [] by {
      assert PrimesBelow(1) == [];
    }
    if limit < 2 {
      assert limit == 0 || limit == 1;
      return;
    }
    for candidate := 2 to limit
      invariant primes == PrimesBelow(candidate)
      invariant Sieved(composite, candidate)
    {
      MarkedIs(candidate);
      PrimeIsPrime(candidate);
      forall j: nat ensures Marked(j, candidate + 1) <==>
          Marked(j, candidate) || (Prime(candidate) && candidate * candidate <= j && Divides(candidate, j))
      {
        MarkedMore(j, candidate);
      }
      if !composite[candidate] {
        primes := primes + [candidate];
        MarkMultiples(composite, candidate);
      }
    }
  }

  // ---- Miller-Rabin ---------------------------------------------------------------------------------

  // x, squared n times over, modulo m.
  function Squared(x: int, n: nat, m: nat): int
    requires m > 0
    decreases n
  {
    if n == 0 then x % m else SquareMod(Squared(x, n - 1, m), m)
  }

  function SquareMod(x: int, m: nat): int
    requires m > 0
  {
    x * x % m
  }

  function TwoTo(n: nat): (p: nat)
    ensures p >= 1
  {
    if n == 0 then 1 else 2 * TwoTo(n - 1)
  }

  lemma {:induction false} SquaredIs(w: int, r: nat, n: nat, m: nat)
    requires m > 0
    ensures r * TwoTo(n) >= 0 && Cong(Squared(Pow(w, r), n, m), Pow(w, r * TwoTo(n)), m)
    decreases n
  {
    NonNegative(r, TwoTo(n));
    if n == 0 {
      CongMod(Pow(w, r), m);
      assert r * 1 == r;
    } else {
      SquaredIs(w, r, n - 1, m);
      var x, e := Squared(Pow(w, r), n - 1, m), r * TwoTo(n - 1);
      CongProduct(x, Pow(w, e), x, Pow(w, e), m);
      PowSum(w, e, e);
      assert e + e == r * TwoTo(n) by {
        Distribute(r, TwoTo(n - 1), TwoTo(n - 1));
      }
      CongMod(x * x, m);
      CongThrough(x * x % m, x * x, Pow(w, e + e), m);
    }
  }

  // -1 is met among the first n squarings.
  ghost predicate Meets(b: int, n: nat, m: nat)
    requires m > 0
  {
    exists i :: 0 <= i < n && Squared(b, i, m) == m - 1
  }

  lemma MeetsNext(b: int, n: nat, m: nat)
    requires m > 0
    ensures Meets(b, n + 1, m) <==> Meets(b, n, m) || Squared(b, n, m) == m - 1
  {
  }

  // For a prime, squaring reaches 1; so unless it starts there, it goes through -1 first.
  lemma {:induction false} ReachesMinusOne(p: nat, x: int, n: nat)
    requires Prime(p) && Squared(x, n, p) == 1 && Squared(x, 0, p) != 1
    ensures Meets(x, n, p)
    decreases n
  {
    var y := Squared(x, n - 1, p);
    if y == 1 {
      ReachesMinusOne(p, x, n - 1);
    } else {
      CongMod(y * y, p);
      CongBack(y * y % p, y * y, p);
      SquareRoots(p, y);
      SquaredRange(x, n - 1, p);
      if Cong(y, 1, p) {
        CongEqual(y, 1, p);
      } else {
        DividesBy(p, -1 - (p - 1), -1);
        CongThrough(y, -1, p - 1, p);
        CongEqual(y, p - 1, p);
      }
    }
  }

  lemma SquaredRange(x: int, n: nat, m: nat)
    requires m > 0
    ensures 0 <= Squared(x, n, m) < m
  {
    if n == 0 {
      DivMod(x, m);
    } else {
      DivMod(Squared(x, n - 1, m) * Squared(x, n - 1, m), m);
    }
  }

  // One round passes: the power is 1 or -1, or squaring it fewer than `twos` times gives -1.
  ghost predicate Passes(w: int, r: nat, twos: nat, m: nat)
    requires m > 0
  {
    PowMod(w, r, m) == 1 || Meets(Pow(w, r), twos, m)
  }

  // Every witness passes for a prime.
  lemma PrimePasses(p: nat, w: nat, r: nat, twos: nat)
    requires Prime(p) && 0 < w < p && p - 1 == r * TwoTo(twos)
    ensures Passes(w, r, twos, p)
  {
    if Divides(p, w) {
      DivisorBound(p, w);
    }
    FermatLittle(p, w);
    SquaredIs(w, r, twos, p);
    SquaredRange(Pow(w, r), twos, p);
    CongThrough(Squared(Pow(w, r), twos, p), Pow(w, p - 1), 1, p);
    CongEqual(Squared(Pow(w, r), twos, p), 1, p);
    if PowMod(w, r, p) != 1 {
      ReachesMinusOne(p, Pow(w, r), twos);
    }
  }

  // A number as an odd part and a power of two.
  function OddPart(n: nat): nat
    requires n >= 1
  {
    if n % 2 == 1 then n else OddPart(n / 2)
  }

  function Twos(n: nat): nat
    requires n >= 1
  {
    if n % 2 == 1 then 0 else 1 + Twos(n / 2)
  }

  lemma {:induction false} OddAndTwos(n: nat)
    requires n >= 1
    ensures n == OddPart(n) * TwoTo(Twos(n)) && OddPart(n) % 2 == 1
    decreases n
  {
    if n % 2 == 0 {
      OddAndTwos(n / 2);
      Doubled(OddPart(n / 2), TwoTo(Twos(n / 2)));
    }
  }

  lemma Doubled(r: nat, t: nat)
    ensures 2 * (r * t) == r * (2 * t)
  {
  }

  method SplitOff(n: nat) returns (r: nat, twos: nat)
    requires n >= 1
    ensures r == OddPart(n) && twos == Twos(n)
  {
    r, twos := n, 0;
    while r % 2 == 0
      invariant r >= 1 && OddPart(r) == OddPart(n) && twos + Twos(r) == Twos(n)
      decreases r
    {
      r := r / 2;
      twos := twos + 1;
    }
  }

  // One squaring by pow(x, 2, candidate).
  method Square(x: int, m: nat) returns (y: int)
    requires m > 0
    ensures y == SquareMod(x, m)
  {
    SquareStep(x, m);
    y := PowMod(x, 2, m);
  }

  // Whether squaring on meets -1 before 1 is due.
  method MeetsMinusOne(first: int, twos: nat, m: nat, ghost b: int) returns (met: bool)
    requires m > 0 && twos > 0 && first == Squared(b, 0, m) && !Meets(b, 1, m)
    ensures met <==> Meets(b, twos, m)
  {
    var x, i := first, 1;
    while i < twos
      invariant 1 <= i <= twos && x == Squared(b, i - 1, m) && !Meets(b, i, m)
    {
      MeetsNext(b, i, m);
      x := Square(x, m);
      if x == m - 1 {
        MeetsLater(b, i + 1, twos, m);
        return true;
      }
      i := i + 1;
    }
    met := false;
  }

  lemma MeetsLater(b: int, k: nat, n: nat, m: nat)
    requires m > 0 && k <= n && Meets(b, k, m)
    ensures Meets(b, n, m)
  {
  }

  method Round(candidate: nat, w: nat, r: nat, twos: nat) returns (passed: bool)
    requires candidate > 3 && twos > 0
    ensures passed <==> Passes(w, r, twos, candidate)
  {
    var x := PowMod(w, r, candidate);
    MeetsNext(Pow(w, r), 0, candidate);
    if x == 1 {
      return true;
    }
    if x == candidate - 1 {
      MeetsLater(Pow(w, r), 1, twos, candidate);
      return true;
    }
    passed := MeetsMinusOne(x, twos, candidate, Pow(w, r));
  }

  lemma SquareStep(x: int, m: nat)
    requires m > 0
    ensures PowMod(x, 2, m) == SquareMod(x, m)
  {
    assert Pow(x, 2) == x * Pow(x, 1) == x * (x * Pow(x, 0));
  }

  const SMALL_LIMIT := 2000

  ghost predicate SmallDivides(candidate: nat) {
    exists p :: 2 <= p < SMALL_LIMIT && Prime(p) && Divides(p, candidate)
  }

  // What the test answers, for the numbers drawn.
  ghost predicate Accepts(candidate: int, rounds: nat, draws: seq<nat>)
    requires rounds <= |draws|
  {
    && candidate >= 2
    && ((candidate < SMALL_LIMIT && Prime(candidate)) ||
        (!SmallDivides(candidate) &&
         forall i :: 0 <= i < rounds ==> Passes(2 + draws[i], OddPart(candidate - 1), Twos(candidate - 1), candidate)))
  }

  // Trial division by the small primes: decided by one of them, or by none.
  method Trial(candidate: nat, small: seq<nat>) returns (decided: bool, answer: bool)
    requires candidate >= 2 && small == PrimesBelow(SMALL_LIMIT)
    ensures decided <==> SmallDivides(candidate)
    ensures decided ==> (answer <==> candidate < SMALL_LIMIT && Prime(candidate))
  {
    forall p: nat ensures p in small <==> p < SMALL_LIMIT && Prime(p) {
      PrimesBelowIn(SMALL_LIMIT, p);
      PrimeIsPrime(p);
    }
    PrimesBelowAscend(SMALL_LIMIT);
    for i := 0 to |small|
      invariant forall j :: 0 <= j < i ==> !Divides(small[j], candidate)
    {
      var prime := small[i];
      assert prime in small;
      DividesIsMod(prime, candidate);
      if candidate == prime {
        DividesBy(prime, candidate, 1);
        return true, true;
      }
      if candidate % prime == 0 {
        DivisorBound(prime, candidate);
        return true, false;
      }
    }
    forall p | 2 <= p < SMALL_LIMIT && Prime(p) ensures !Divides(p, candidate) {
      assert p in small;
    }
    decided, answer := false, false;
  }

  // The test, for whatever is drawn; what is drawn lies below candidate - 3.
  method IsProbablePrime(candidate: int, rounds: nat, draws: seq<nat>, small: seq<nat>) returns (r: bool)
    requires small == PrimesBelow(SMALL_LIMIT) && rounds <= |draws|
    ensures r <==> Accepts(candidate, rounds, draws)
  {
    if candidate < 2 {
      return false;
    }
    var decided, answer := Trial(candidate, small);
    if decided {
      return answer;
    }
    Survivor(candidate);
    var remainder, twos := SplitOff(candidate - 1);
    for i := 0 to rounds
      invariant forall j :: 0 <= j < i ==> Passes(2 + draws[j], remainder, twos, candidate)
    {
      var passed := Round(candidate, 2 + draws[i], remainder, twos);
      if !passed {
        return false;
      }
    }
    r := true;
  }

  lemma TwoIsPrime()
    ensures Prime(2) && Prime(3)
  {
    PrimeIsPrime(2);
    PrimeIsPrime(3);
  }

  // A number no small prime divides is odd and not below their limit.
  lemma Survivor(n: nat)
    requires n >= 2 && !SmallDivides(n)
    ensures n >= SMALL_LIMIT && n % 2 == 1 && Twos(n - 1) > 0
  {
    TwoIsPrime();
    DividesIsMod(2, n);
    if n < SMALL_LIMIT {
      var p := PrimeDivisor(n);
    }
  }

  // A prime is never turned away, whatever is drawn.
  lemma PrimesAccepted(p: int, rounds: nat, draws: seq<nat>)
    requires Prime(p) && rounds <= |draws| && forall i :: 0 <= i < rounds ==> draws[i] < p - 3 || p <= 3
    ensures Accepts(p, rounds, draws)
  {
    if p >= SMALL_LIMIT {
      OddAndTwos(p - 1);
      forall i | 0 <= i < rounds ensures Passes(2 + draws[i], OddPart(p - 1), Twos(p - 1), p) {
        PrimePasses(p, 2 + draws[i], OddPart(p - 1), Twos(p - 1));
      }
    }
  }

  // Below the square of the sieve's limit the answer is exact, without a single round.
  lemma ExactBelowSquare(n: int, rounds: nat, draws: seq<nat>)
    requires n < SMALL_LIMIT * SMALL_LIMIT && rounds <= |draws|
    requires forall i :: 0 <= i < rounds ==> draws[i] < n - 3 || n <= 3
    ensures Accepts(n, rounds, draws) <==> Prime(n)
  {
    if Prime(n) {
      PrimesAccepted(n, rounds, draws);
    } else if n >= 2 {
      var p := SmallDivisor(n);
      if p >= SMALL_LIMIT {
        SquareBelow(SMALL_LIMIT, p, p);
      }
    }
  }
}
