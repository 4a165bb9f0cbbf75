// Numbers as their bits, lowest first.
module Bits {
  import opened Sequences

  function Zeros(n: nat): seq<bool> {
    seq(n, i => false)
  }

  // The low n bits of a number.
  function BitsOf(x: nat, n: nat): (bits: seq<bool>)
    ensures |bits| == n
    decreases n, x
  {
    if n == 0 then [] else [x % 2 == 1] + BitsOf(x / 2, n - 1)
  }

  function NumberOf(bits: seq<bool>): nat {
    if bits == [] then 0 else (if bits[0] then 1 else 0) + 2 * NumberOf(bits[1..])
  }

  // A number below 2^n is read back from its bits, and bits from their number.
  lemma {:induction false} BitsOfValue(bits: seq<bool>, more: nat)
    ensures BitsOf(NumberOf(bits), |bits| + more) == bits + Zeros(more)
    decreases |bits| + more
  {
    if bits == [] {
      if more > 0 {
        BitsOfValue([], more - 1);
        assert [false] + Zeros(more - 1) == Zeros(more);
      }
      assert bits + Zeros(more) == Zeros(more);
    } else {
      BitsOfValue(bits[1..], more);
      Associative([bits[0]], bits[1..], Zeros(more));
      assert [bits[0]] + bits[1..] == bits;
    }
  }

  lemma {:induction false} ValueBound(bits: seq<bool>, bound: nat)
    requires |bits| <= bound
    ensures NumberOf(bits) < Power(bound)
    decreases |bits|
  {
    if bits != [] {
      ValueBound(bits[1..], bound - 1);
    }
  }

  function Power(n: nat): (p: nat)
    ensures p >= 1
  {
    if n == 0 then 1 else 2 * Power(n - 1)
  }

  lemma {:induction false} BitsAbove(x: nat, n: nat, more: nat)
    requires x < Power(n)
    ensures BitsOf(x, n + more) == BitsOf(x, n) + Zeros(more)
    decreases n + more
  {
    if n == 0 {
      if more > 0 {
        BitsAbove(0, 0, more - 1);
        assert [false] + Zeros(more - 1) == Zeros(more);
      }
      assert [] + Zeros(more) == Zeros(more);
    } else {
      BitsAbove(x / 2, n - 1, more);
      Associative([x % 2 == 1], BitsOf(x / 2, n - 1), Zeros(more));
    }
  }

  lemma PowerEight()
    ensures Power(8) == 256
  {
    assert Power(4) == 16;
  }

  // A number of n bits is read back from them.
  lemma {:induction false} NumberOfBits(x: nat, n: nat)
    requires x < Power(n)
    ensures NumberOf(BitsOf(x, n)) == x
    decreases n
  {
    if n > 0 {
      NumberOfBits(x / 2, n - 1);
      assert BitsOf(x, n)[1..] == BitsOf(x / 2, n - 1);
    }
  }
}
