// CRC32C: the table-driven checksum and the bit-at-a-time division it stands for
// (exchangesim/binary/types.py; section 12.1 of RFC 3720).
module Checksums {
  import opened Bits
  import opened Framing

  // A 32-bit word as its bits, lowest first.
  type Word = w: seq<bool> | |w| == 32 witness Zeros(32)

  function Xor(a: Word, b: Word): Word {
    seq(32, i requires 0 <= i < 32 => a[i] != b[i])
  }

  // A shift of n places towards the low end.
  function Shift(v: Word, n: nat): Word
    requires n <= 32
  {
    v[n..] + Zeros(n)
  }

  // The Castagnoli polynomial 0x1EDC6F41, reflected.
  function Polynomial(): Word {
    BitsOf(0x82F63B78, 32)
  }

  function Ones(): Word {
    seq(32, i => true)
  }

  // What the low bit takes with it when it goes out.
  function Quotient(poly: Word, odd: bool): Word {
    if odd then poly else Zeros(32)
  }

  // Dividing by one more bit.
  function Step(poly: Word, v: Word): Word {
    Xor(Shift(v, 1), Quotient(poly, v[0]))
  }

  function Steps(poly: Word, v: Word, n: nat): Word
    decreases n, v
  {
    if n == 0 then v else Steps(poly, Step(poly, v), n - 1)
  }

  // ---- the reference: one data bit at a time, lowest bit of each byte first ------------

  function TakeBit(poly: Word, crc: Word, bit: bool): Word {
    Xor(Shift(crc, 1), Quotient(poly, crc[0] != bit))
  }

  function TakeBits(poly: Word, crc: Word, bits: seq<bool>): Word
    decreases |bits|
  {
    if bits == [] then crc else TakeBits(poly, TakeBit(poly, crc, bits[0]), bits[1..])
  }

  function DataBits(data: Data): seq<bool> {
    if data == [] then [] else DataBits(data[..|data| - 1]) + BitsOf(data[|data| - 1], 8)
  }

  // The remainder of the whole message, complemented going in and coming out.
  function Crc32c(data: Data): Word {
    Xor(TakeBits(Polynomial(), Ones(), DataBits(data)), Ones())
  }

  // ---- linearity ------------------------------------------------------------------------

  lemma XorZero(a: Word)
    ensures Xor(a, Zeros(32)) == a
  {
  }

  lemma Exchange(a: Word, b: Word, p: Word, q: Word)
    ensures Xor(Xor(a, b), Xor(p, q)) == Xor(Xor(a, p), Xor(b, q))
  {
  }

  lemma XorLeft(a: Word, b: Word, p: Word)
    ensures Xor(Xor(a, b), p) == Xor(Xor(a, p), b)
  {
  }

  lemma ShiftXor(a: Word, b: Word, n: nat)
    requires n <= 32
    ensures Shift(Xor(a, b), n) == Xor(Shift(a, n), Shift(b, n))
  {
    var l, r := Shift(Xor(a, b), n), Xor(Shift(a, n), Shift(b, n));
    forall i | 0 <= i < 32 ensures l[i] == r[i] {
      if i < 32 - n {
        assert l[i] == Xor(a, b)[i + n];
      }
    }
  }

  lemma QuotientXor(poly: Word, a: bool, b: bool)
    ensures Quotient(poly, a != b) == Xor(Quotient(poly, a), Quotient(poly, b))
  {
    XorZero(Quotient(poly, a));
  }

  lemma StepXor(poly: Word, a: Word, b: Word)
    ensures Step(poly, Xor(a, b)) == Xor(Step(poly, a), Step(poly, b))
  {
    ShiftXor(a, b, 1);
    QuotientXor(poly, a[0], b[0]);
    Exchange(Shift(a, 1), Shift(b, 1), Quotient(poly, a[0]), Quotient(poly, b[0]));
  }

  // Dividing keeps sums: the remainders of the parts add up to that of the whole.
  lemma {:induction false} StepsXor(poly: Word, a: Word, b: Word, n: nat)
    ensures Steps(poly, Xor(a, b), n) == Xor(Steps(poly, a, n), Steps(poly, b, n))
    decreases n
  {
    if n > 0 {
      StepXor(poly, a, b);
      StepsXor(poly, Step(poly, a), Step(poly, b), n - 1);
    }
  }

  ghost predicate Clear(v: Word, n: nat) {
    forall i :: 0 <= i < n && i < 32 ==> !v[i]
  }

  lemma ShiftOnce(v: Word, n: nat)
    requires 0 < n <= 32
    ensures Shift(Shift(v, 1), n - 1) == Shift(v, n)
    ensures Clear(v, n) ==> Clear(Shift(v, 1), n - 1)
  {
    assert forall i :: 0 <= i < 31 ==> Shift(v, 1)[i] == v[i + 1];
  }

  lemma ClearStep(poly: Word, v: Word)
    requires !v[0]
    ensures Step(poly, v) == Shift(v, 1)
  {
    XorZero(Shift(v, 1));
  }

  // Bits above the lowest n are only shifted down.
  lemma {:induction false} StepsHigh(poly: Word, v: Word, n: nat)
    requires n <= 32 && Clear(v, n)
    ensures Steps(poly, v, n) == Shift(v, n)
    decreases n
  {
    if n == 0 {
      assert Shift(v, 0) == v;
    } else {
      ClearStep(poly, v);
      ShiftOnce(v, n);
      StepsHigh(poly, Shift(v, 1), n - 1);
    }
  }

  // ---- the table -------------------------------------------------------------------------

  // A byte in the low end of a word.
  function ByteWord(b: Byte): Word {
    BitsOf(b, 32)
  }

  ghost predicate IsTable(poly: Word, table: seq<Word>) {
    |table| == 256 && forall i :: 0 <= i < 256 ==> table[i] == Steps(poly, ByteWord(i), 8)
  }

  method TableEntry(poly: Word, index: Byte) returns (value: Word)
    ensures value == Steps(poly, ByteWord(index), 8)
  {
    value := ByteWord(index);
    for n := 0 to 8
      invariant Steps(poly, value, 8 - n) == Steps(poly, ByteWord(index), 8)
    {
      value := Xor(Shift(value, 1), Quotient(poly, value[0]));
    }
  }

  method Table(poly: Word) returns (table: seq<Word>)
    ensures IsTable(poly, table)
  {
    table := [];
    for index := 0 to 256
      invariant |table| == index && forall i :: 0 <= i < index ==> table[i] == Steps(poly, ByteWord(i), 8)
    {
      var value := TableEntry(poly, index);
      table := table + [value];
    }
  }

  // The byte in the low end of a word.
  function LowByte(v: Word): (b: int)
    ensures 0 <= b < 256
  {
    ValueBound(v[..8], 8);
    PowerEight();
    NumberOf(v[..8])
  }

  // A word is its low byte and the bits above it.
  lemma LowAndHigh(v: Word)
    ensures v == Xor(ByteWord(LowByte(v)), Zeros(8) + v[8..])
  {
    BitsOfValue(v[..8], 24);
    assert ByteWord(LowByte(v)) == v[..8] + Zeros(24);
  }

  // One look-up does what eight divisions do.
  lemma LookUp(poly: Word, table: seq<Word>, v: Word)
    requires IsTable(poly, table)
    ensures Xor(table[LowByte(v)], Shift(v, 8)) == Steps(poly, v, 8)
  {
    var high := Zeros(8) + v[8..];
    LowAndHigh(v);
    StepsXor(poly, ByteWord(LowByte(v)), high, 8);
    StepsHigh(poly, high, 8);
    assert Shift(high, 8) == Shift(v, 8);
  }

  // ---- n divisions do what n data bits do ----------------------------------------------------

  lemma BitIsStep(poly: Word, crc: Word, bits: Word)
    ensures Xor(TakeBit(poly, crc, bits[0]), Shift(bits, 1)) == Step(poly, Xor(crc, bits))
  {
    ShiftXor(crc, bits, 1);
    XorLeft(Shift(crc, 1), Quotient(poly, crc[0] != bits[0]), Shift(bits, 1));
  }

  // A word that is these bits and nothing above them.
  ghost predicate Holds(word: Word, bits: seq<bool>) {
    |bits| <= 32 && forall i :: 0 <= i < 32 ==> word[i] == (i < |bits| && bits[i])
  }

  lemma HoldsRest(word: Word, bits: seq<bool>)
    requires Holds(word, bits) && bits != []
    ensures word[0] == bits[0] && Holds(Shift(word, 1), bits[1..])
  {
    var rest := Shift(word, 1);
    forall i | 0 <= i < 32 ensures rest[i] == (i < |bits| - 1 && bits[1..][i]) {
      if i < 31 {
        assert rest[i] == word[i + 1];
      }
    }
  }

  lemma HoldsNothing(crc: Word, word: Word)
    requires Holds(word, [])
    ensures Xor(crc, word) == crc
  {
    assert word == Zeros(32);
    XorZero(crc);
  }

  lemma {:induction false} BitsAreSteps(poly: Word, crc: Word, bits: seq<bool>, word: Word)
    requires Holds(word, bits)
    ensures TakeBits(poly, crc, bits) == Steps(poly, Xor(crc, word), |bits|)
    decreases |bits|
  {
    if bits == [] {
      HoldsNothing(crc, word);
    } else {
      HoldsRest(word, bits);
      BitIsStep(poly, crc, word);
      BitsAreSteps(poly, TakeBit(poly, crc, bits[0]), bits[1..], Shift(word, 1));
    }
  }

  lemma ByteHeld(b: Byte)
    ensures Holds(ByteWord(b), BitsOf(b, 8))
  {
    PowerEight();
    BitsAbove(b, 8, 24);
  }

  lemma ShiftsOut(crc: Word, b: Byte)
    ensures Shift(Xor(crc, ByteWord(b)), 8) == Shift(crc, 8)
  {
    ByteHeld(b);
    var v := Xor(crc, ByteWord(b));
    assert v[8..] == crc[8..];
  }

  // One step of the loop takes the eight bits of one byte.
  method NextCrc(poly: Word, table: seq<Word>, crc: Word, b: Byte) returns (next: Word)
    requires IsTable(poly, table)
    ensures next == TakeBits(poly, crc, BitsOf(b, 8))
  {
    var v := Xor(crc, ByteWord(b));
    ByteHeld(b);
    BitsAreSteps(poly, crc, BitsOf(b, 8), ByteWord(b));
    LookUp(poly, table, v);
    ShiftsOut(crc, b);
    next := Xor(table[LowByte(v)], Shift(crc, 8));
  }

  lemma {:induction false} TakeBitsPlus(poly: Word, crc: Word, a: seq<bool>, b: seq<bool>)
    ensures TakeBits(poly, crc, a + b) == TakeBits(poly, TakeBits(poly, crc, a), b)
    decreases |a|
  {
    if a == [] {
      assert a + b == b;
    } else {
      assert (a + b)[1..] == a[1..] + b;
      TakeBitsPlus(poly, TakeBit(poly, crc, a[0]), a[1..], b);
    }
  }

  lemma DataBitsSnoc(data: Data, i: nat)
    requires i < |data|
    ensures DataBits(data[..i + 1]) == DataBits(data[..i]) + BitsOf(data[i], 8)
  {
    assert data[..i + 1][..i] == data[..i];
  }

  // The loop over a table computes the bit-at-a-time division of the whole message.
  method Crc(data: Data) returns (crc: Word)
    ensures crc == Crc32c(data)
  {
    var poly := Polynomial();
    var table := Table(poly);
    crc := Ones();
    for i := 0 to |data|
      invariant crc == TakeBits(poly, Ones(), DataBits(data[..i]))
    {
      DataBitsSnoc(data, i);
      TakeBitsPlus(poly, Ones(), DataBits(data[..i]), BitsOf(data[i], 8));
      crc := NextCrc(poly, table, crc, data[i]);
    }
    assert data[..|data|] == data;
    crc := Xor(crc, Ones());
  }
}
