// CRC32C as a remainder: long division of the message by the Castagnoli polynomial, over
// bits (exchangesim/binary/types.py; section 12.1 of RFC 3720).
module CrcDivision {
  import opened Bits
  import opened Framing
  import opened Checksums

  // Bits are written in the order they are taken, highest power first; sums are without
  // carry.
  function Plus(a: seq<bool>, b: seq<bool>): (r: seq<bool>)
    requires |a| == |b|
    ensures |r| == |a| && forall i :: 0 <= i < |r| ==> r[i] == (a[i] != b[i])
  {
    seq(|a|, i requires 0 <= i < |a| => a[i] != b[i])
  }

  // q times the divisor whose leading 1 is followed by poly.
  function Times(poly: Word, q: seq<bool>): (r: seq<bool>)
    ensures |r| == |q| + 32
  {
    if q == [] then Zeros(32)
    else Plus((if q[0] then [true] + poly else Zeros(33)) + Zeros(|q| - 1), [false] + Times(poly, q[1..]))
  }

  lemma TakenBit(poly: Word, crc: Word, bit: bool, i: nat)
    requires i < 32
    ensures TakeBit(poly, crc, bit)[i] == ((i < 31 && crc[i + 1]) != ((crc[0] != bit) && poly[i]))
  {
    assert i < 31 ==> Shift(crc, 1)[i] == crc[i + 1];
  }

  // Taking bits into a register divides: the bits, 32 places up, with the register added in
  // front, are a multiple of the divisor and the register afterwards.
  lemma {:induction false} Divides(poly: Word, crc: Word, bits: seq<bool>) returns (q: seq<bool>)
    ensures |q| == |bits|
    ensures Plus(bits + Zeros(32), crc + Zeros(|bits|)) == Plus(Times(poly, q), Zeros(|bits|) + TakeBits(poly, crc, bits))
    decreases |bits|
  {
    if bits == [] {
      q := [];
      assert bits + Zeros(32) == Zeros(32) && crc + Zeros(0) == crc && Zeros(0) + crc == crc;
    } else {
      var next := TakeBit(poly, crc, bits[0]);
      var rest := Divides(poly, next, bits[1..]);
      q := [crc[0] != bits[0]] + rest;
      assert q[1..] == rest;
      DividesOn(poly, crc, bits, next, rest, q);
    }
  }

  lemma DividesOn(poly: Word, crc: Word, bits: seq<bool>, next: Word, rest: seq<bool>, q: seq<bool>)
    requires bits != [] && next == TakeBit(poly, crc, bits[0]) && q == [crc[0] != bits[0]] + rest && |rest| == |bits| - 1
    requires var n := |bits| - 1;
      Plus(bits[1..] + Zeros(32), next + Zeros(n)) == Plus(Times(poly, rest), Zeros(n) + TakeBits(poly, next, bits[1..]))
    ensures Plus(bits + Zeros(32), crc + Zeros(|bits|)) == Plus(Times(poly, q), Zeros(|bits|) + TakeBits(poly, crc, bits))
  {
    var n, r := |bits|, TakeBits(poly, crc, bits);
    assert r == TakeBits(poly, next, bits[1..]) && q[1..] == rest;
    var left, right := Plus(bits + Zeros(32), crc + Zeros(n)), Plus(Times(poly, q), Zeros(n) + r);
    var left', right' := Plus(bits[1..] + Zeros(32), next + Zeros(n - 1)), Plus(Times(poly, rest), Zeros(n - 1) + r);
    forall k | 0 <= k < n + 32 ensures left[k] == right[k] {
      if k > 0 {
        PlaceBelow(poly, crc, bits, next, rest, q, r, k);
        assert left'[k - 1] == right'[k - 1];
      }
    }
  }

  // Below its first place a long division is that of the bits behind the first.
  lemma PlaceBelow(poly: Word, crc: Word, bits: seq<bool>, next: Word, rest: seq<bool>, q: seq<bool>, r: Word, k: nat)
    requires bits != [] && next == TakeBit(poly, crc, bits[0]) && q == [crc[0] != bits[0]] + rest && |rest| == |bits| - 1
    requires 0 < k < |bits| + 32
    ensures var n := |bits|;
      var top := q[0] && k <= 32 && poly[k - 1];
      && Plus(bits + Zeros(32), crc + Zeros(n))[k] ==
           (Plus(bits[1..] + Zeros(32), next + Zeros(n - 1))[k - 1] != top)
      && Plus(Times(poly, q), Zeros(n) + r)[k] == (Plus(Times(poly, rest), Zeros(n - 1) + r)[k - 1] != top)
  {
    var n := |bits|;
    assert q[1..] == rest;
    assert (bits + Zeros(32))[k] == (bits[1..] + Zeros(32))[k - 1];
    assert (Zeros(n) + r)[k] == (Zeros(n - 1) + r)[k - 1];
    if k <= 32 {
      TakenBit(poly, crc, bits[0], k - 1);
    }
  }

  lemma PowerThirtyTwo()
    ensures Power(32) == 0x1_0000_0000
  {
    PowerEight();
    assert Power(10) == 0x400 && Power(12) == 0x1000 && Power(14) == 0x4000 && Power(16) == 0x1_0000;
    assert Power(18) == 0x4_0000 && Power(20) == 0x10_0000 && Power(22) == 0x40_0000 && Power(24) == 0x100_0000;
    assert Power(26) == 0x400_0000 && Power(28) == 0x1000_0000 && Power(30) == 0x4000_0000;
  }

  // The Castagnoli divisor: x^32 and the bits of 0x1EDC6F41, highest first, which is
  // 0x82F63B78 read lowest first.
  lemma PolynomialIs()
    ensures NumberOf(Polynomial()) == 0x82F63B78
  {
    PowerThirtyTwo();
    NumberOfBits(0x82F63B78, 32);
  }

  // The checksum of a message is the complement of the remainder of its bits, lowest of each
  // byte first and the first 32 complemented, 32 places up.
  lemma CrcIsRemainder(data: Data) returns (q: seq<bool>, remainder: Word)
    ensures var bits := DataBits(data);
      && |q| == |bits|
      && Plus(bits + Zeros(32), seq(32, i => true) + Zeros(|bits|)) == Plus(Times(Polynomial(), q), Zeros(|bits|) + remainder)
    ensures forall i :: 0 <= i < 32 ==> Crc32c(data)[i] == !remainder[i]
  {
    var bits := DataBits(data);
    q := Divides(Polynomial(), Ones(), bits);
    remainder := TakeBits(Polynomial(), Ones(), bits);
    assert seq(32, i => true) == Ones();
  }
}
