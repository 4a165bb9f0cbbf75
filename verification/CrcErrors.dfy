// Which damage CRC32C notices: any that is confined to four bytes in a row
// (exchangesim/binary/types.py).
module CrcErrors {
  import opened Sequences
  import opened Bits
  import opened Framing
  import opened Checksums

  // From place m on two registers hold the same.
  predicate AgreeFrom(m: nat, a: Word, b: Word) {
    forall i :: m <= i < 32 ==> a[i] == b[i]
  }

  lemma BitTaken(poly: Word, crc: Word, bit: bool, i: nat)
    requires i < 32
    ensures TakeBit(poly, crc, bit)[i] == ((i < 31 && crc[i + 1]) != ((crc[0] != bit) && poly[i]))
  {
    assert i < 31 ==> Shift(crc, 1)[i] == crc[i + 1];
  }

  // The top place tells what went out at the bottom, and so what the register was above it.
  lemma BackOne(poly: Word, a: Word, b: Word, x: bool, y: bool, m: nat)
    requires poly[31] && m < 32 && AgreeFrom(m, TakeBit(poly, a, x), TakeBit(poly, b, y))
    ensures (a[0] != x) == (b[0] != y) && AgreeFrom(m + 1, a, b)
  {
    BitTaken(poly, a, x, 31);
    BitTaken(poly, b, y, 31);
    forall i | m + 1 <= i < 32 ensures a[i] == b[i] {
      BitTaken(poly, a, x, i - 1);
      BitTaken(poly, b, y, i - 1);
    }
  }

  lemma LastBit(poly: Word, crc: Word, bits: seq<bool>)
    requires bits != []
    ensures var n := |bits| - 1;
      TakeBits(poly, crc, bits) == TakeBit(poly, TakeBits(poly, crc, bits[..n]), bits[n])
  {
    var n := |bits| - 1;
    assert bits == bits[..n] + [bits[n]];
    TakeBitsPlus(poly, crc, bits[..n], [bits[n]]);
    assert [bits[n]][1..] == [];
  }

  // Up to 32 bits leave a register in which they can be told apart.
  lemma {:induction false} BurstTold(poly: Word, c: Word, d: Word, a: seq<bool>, b: seq<bool>, m: nat)
    requires poly[31] && |a| == |b| && m + |a| <= 32 && AgreeFrom(m, TakeBits(poly, c, a), TakeBits(poly, d, b))
    ensures AgreeFrom(m + |a|, c, d) && (c == d ==> a == b)
    decreases |a|
  {
    if a != [] {
      var n := |a| - 1;
      LastBit(poly, c, a);
      LastBit(poly, d, b);
      BackOne(poly, TakeBits(poly, c, a[..n]), TakeBits(poly, d, b[..n]), a[n], b[n], m);
      BurstTold(poly, c, d, a[..n], b[..n], m + 1);
      assert a == a[..n] + [a[n]] && b == b[..n] + [b[n]];
    }
  }

  lemma SameBefore(poly: Word, c: Word, d: Word, bit: bool)
    requires poly[31] && TakeBit(poly, c, bit) == TakeBit(poly, d, bit)
    ensures c == d
  {
    BackOne(poly, c, d, bit, bit, 0);
    assert forall i :: 0 <= i < 32 ==> c[i] == d[i];
  }

  // Different registers stay different, whatever is taken into both.
  lemma {:induction false} StaysDifferent(poly: Word, c: Word, d: Word, bits: seq<bool>)
    requires poly[31] && c != d
    ensures TakeBits(poly, c, bits) != TakeBits(poly, d, bits)
    decreases |bits|
  {
    if bits != [] {
      var c1, d1 := TakeBit(poly, c, bits[0]), TakeBit(poly, d, bits[0]);
      if c1 == d1 {
        SameBefore(poly, c, d, bits[0]);
      }
      StaysDifferent(poly, c1, d1, bits[1..]);
    }
  }

  // ---- bytes -----------------------------------------------------------------------------

  lemma {:induction false} DataBitsPlus(a: Data, b: Data)
    ensures DataBits(a + b) == DataBits(a) + DataBits(b)
    decreases |b|
  {
    if b == [] {
      assert a + b == a && DataBits(a) + [] == DataBits(a);
    } else {
      var front := b[..|b| - 1];
      DataBitsPlus(a, front);
      assert (a + b)[..|a + b| - 1] == a + front;
      Associative(DataBits(a), DataBits(front), BitsOf(b[|b| - 1], 8));
    }
  }

  lemma {:induction false} DataBitsSize(d: Data)
    ensures |DataBits(d)| == 8 * |d|
    decreases |d|
  {
    if d != [] {
      DataBitsSize(d[..|d| - 1]);
    }
  }

  lemma {:induction false} DataBitsTell(a: Data, b: Data)
    requires |a| == |b| && DataBits(a) == DataBits(b)
    ensures a == b
    decreases |a|
  {
    if a != [] {
      var n := |a| - 1;
      DataBitsSize(a[..n]);
      DataBitsSize(b[..n]);
      var x, y := DataBits(a), DataBits(b);
      assert x[..8 * n] == DataBits(a[..n]) && y[..8 * n] == DataBits(b[..n]);
      assert x[8 * n..] == BitsOf(a[n], 8) && y[8 * n..] == BitsOf(b[n], 8);
      DataBitsTell(a[..n], b[..n]);
      PowerEight();
      NumberOfBits(a[n], 8);
      NumberOfBits(b[n], 8);
      assert a == a[..n] + [a[n]] && b == b[..n] + [b[n]];
    }
  }

  lemma PolynomialOdd()
    ensures Polynomial()[31]
  {
    var x := 0x82F63B78;
    BitAt(x, 32, 31);
    Halvings(x);
  }

  function Halved(x: nat, n: nat): nat {
    if n == 0 then x else Halved(x / 2, n - 1)
  }

  lemma {:induction false} BitAt(x: nat, n: nat, i: nat)
    requires i < n
    ensures BitsOf(x, n)[i] == (Halved(x, i) % 2 == 1)
    decreases i
  {
    if i > 0 {
      BitAt(x / 2, n - 1, i - 1);
    }
  }

  lemma {:induction false} HalvedOn(x: nat, n: nat, m: nat)
    ensures Halved(x, n + m) == Halved(Halved(x, n), m)
    decreases n
  {
    if n > 0 {
      HalvedOn(x / 2, n - 1, m);
    }
  }

  lemma FourHalvings(x: nat, m: nat)
    ensures Halved(x, 4 + m) == Halved(x / 16, m)
  {
    HalvedOn(x, 4, m);
    assert Halved(x, 4) == Halved(x / 2 / 2, 2) && x / 2 / 2 == x / 4;
    assert Halved(x / 4, 2) == x / 4 / 2 / 2 == x / 16;
  }

  lemma EightHalvings(x: nat, m: nat)
    ensures Halved(x, 8 + m) == Halved(x / 256, m)
  {
    FourHalvings(x, 4 + m);
    FourHalvings(x / 16, m);
    assert x / 16 / 16 == x / 256;
  }

  lemma Halvings(x: nat)
    requires x == 0x82F63B78
    ensures Halved(x, 31) % 2 == 1
  {
    EightHalvings(x, 23);
    EightHalvings(x / 256, 15);
    EightHalvings(x / 256 / 256, 7);
    var y := x / 256 / 256 / 256;
    assert y == 0x82;
    FourHalvings(y, 3);
    assert Halved(y / 16, 3) == y / 16 / 2 / 2 / 2;
  }

  // A message damaged within four bytes in a row never keeps its checksum.
  lemma BurstCaught(a: Data, mid: Data, other: Data, b: Data)
    requires |mid| == |other| <= 4 && mid != other
    ensures Crc32c(a + mid + b) != Crc32c(a + other + b)
  {
    var poly, start := Polynomial(), TakeBits(Polynomial(), Ones(), DataBits(a));
    PolynomialOdd();
    TakenInParts(a, mid, b);
    TakenInParts(a, other, b);
    DataBitsSize(mid);
    DataBitsSize(other);
    var m, o := TakeBits(poly, start, DataBits(mid)), TakeBits(poly, start, DataBits(other));
    if m == o {
      BurstTold(poly, start, start, DataBits(mid), DataBits(other), 0);
      DataBitsTell(mid, other);
    }
    StaysDifferent(poly, m, o, DataBits(b));
    ComplementTells(TakeBits(poly, m, DataBits(b)), TakeBits(poly, o, DataBits(b)));
  }

  lemma TakenInParts(a: Data, mid: Data, b: Data)
    ensures var poly := Polynomial();
      Crc32c(a + mid + b) ==
        Xor(TakeBits(poly, TakeBits(poly, TakeBits(poly, Ones(), DataBits(a)), DataBits(mid)), DataBits(b)), Ones())
  {
    var poly := Polynomial();
    DataBitsPlus(a + mid, b);
    DataBitsPlus(a, mid);
    TakeBitsPlus(poly, Ones(), DataBits(a + mid), DataBits(b));
    TakeBitsPlus(poly, Ones(), DataBits(a), DataBits(mid));
  }

  lemma ComplementTells(a: Word, b: Word)
    requires a != b
    ensures Xor(a, Ones()) != Xor(b, Ones())
  {
    var i :| 0 <= i < 32 && a[i] != b[i];
    assert Xor(a, Ones())[i] != Xor(b, Ones())[i];
  }
}
