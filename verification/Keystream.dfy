// The counter keystream: resumable at any byte (exchangesim/nnf/crypto.py; section 6.5 of
// NIST SP 800-38D). The block cipher itself is any function of the counter.
module Keystream {
  import opened Framing
  import opened Bits

  const BLOCK_BYTES := 16
  const LOW_RANGE := 0x1_0000_0000

  type Block = d: Data | |d| == 16 witness seq(16, i => 0)

  type BlockCipher = nat -> Block

  // ---- bytes added bit by bit ------------------------------------------------------------

  function XorBits(a: seq<bool>, b: seq<bool>): seq<bool>
    requires |a| == |b|
  {
    seq(|a|, i requires 0 <= i < |a| => a[i] != b[i])
  }

  function XorByte(a: Byte, b: Byte): (r: Byte)
  {
    ValueBound(XorBits(BitsOf(a, 8), BitsOf(b, 8)), 8);
    PowerEight();
    NumberOf(XorBits(BitsOf(a, 8), BitsOf(b, 8)))
  }

  lemma XorByteBits(a: Byte, b: Byte)
    ensures BitsOf(XorByte(a, b), 8) == XorBits(BitsOf(a, 8), BitsOf(b, 8))
  {
    var bits := XorBits(BitsOf(a, 8), BitsOf(b, 8));
    BitsOfValue(bits, 0);
    assert bits + Zeros(0) == bits;
  }

  lemma XorTwice(a: Byte, b: Byte)
    ensures XorByte(XorByte(a, b), b) == a
  {
    XorByteBits(a, b);
    XorByteBits(XorByte(a, b), b);
    assert XorBits(XorBits(BitsOf(a, 8), BitsOf(b, 8)), BitsOf(b, 8)) == BitsOf(a, 8);
    PowerEight();
    NumberOfBits(a, 8);
    NumberOfBits(XorByte(XorByte(a, b), b), 8);
  }

  // ---- the stream ------------------------------------------------------------------------

  // The counter of a block: its low 32 bits run on, the others stay.
  function CounterAt(counter: nat, index: nat): nat {
    counter / LOW_RANGE * LOW_RANGE + (counter + index) % LOW_RANGE
  }

  function KeystreamBlock(e: BlockCipher, counter: nat, index: nat): Block {
    e(CounterAt(counter, index))
  }

  function KeyByte(e: BlockCipher, counter: nat, position: nat): Byte {
    KeystreamBlock(e, counter, position / BLOCK_BYTES)[position % BLOCK_BYTES]
  }

  function KeyBytes(e: BlockCipher, counter: nat, position: nat, n: nat): (d: Data)
    ensures |d| == n && forall i :: 0 <= i < n ==> d[i] == KeyByte(e, counter, position + i)
  {
    seq<Byte>(n, i requires 0 <= i < n => KeyByte(e, counter, position + i))
  }

  function XorData(a: Data, b: Data): (d: Data)
    requires |a| == |b|
    ensures |d| == |a| && forall i :: 0 <= i < |a| ==> d[i] == XorByte(a[i], b[i])
  {
    seq(|a|, i requires 0 <= i < |a| => XorByte(a[i], b[i]))
  }

  // The data against the stream from a position on.
  function Applied(e: BlockCipher, counter: nat, data: Data, skip: nat): (d: Data)
    ensures |d| == |data|
  {
    XorData(data, KeyBytes(e, counter, skip, |data|))
  }

  // Where one message ends, the next goes on.
  lemma Resumes(e: BlockCipher, counter: nat, a: Data, b: Data, skip: nat)
    ensures Applied(e, counter, a + b, skip) ==
      Applied(e, counter, a, skip) + Applied(e, counter, b, skip + |a|)
  {
    var l := Applied(e, counter, a + b, skip);
    var r := Applied(e, counter, a, skip) + Applied(e, counter, b, skip + |a|);
    forall i | 0 <= i < |l| ensures l[i] == r[i] {
      if i >= |a| {
        assert KeyByte(e, counter, skip + i) == KeyByte(e, counter, (skip + |a|) + (i - |a|));
      }
    }
  }

  // Applied again from the same position, it gives the data back.
  lemma AppliedTwice(e: BlockCipher, counter: nat, data: Data, skip: nat)
    ensures Applied(e, counter, Applied(e, counter, data, skip), skip) == data
  {
    var once := Applied(e, counter, data, skip);
    var twice := Applied(e, counter, once, skip);
    forall i | 0 <= i < |data| ensures twice[i] == data[i] {
      XorTwice(data[i], KeyByte(e, counter, skip + i));
    }
  }

  // ---- the loop over blocks -----------------------------------------------------------------

  lemma BlockPart(e: BlockCipher, counter: nat, position: nat, take: nat)
    requires position % BLOCK_BYTES + take <= BLOCK_BYTES
    ensures var start := position % BLOCK_BYTES;
            KeystreamBlock(e, counter, position / BLOCK_BYTES)[start..start + take] == KeyBytes(e, counter, position, take)
  {
    var start := position % BLOCK_BYTES;
    var block := KeystreamBlock(e, counter, position / BLOCK_BYTES);
    var part, wanted := block[start..start + take], KeyBytes(e, counter, position, take);
    forall i | 0 <= i < take ensures part[i] == wanted[i] {
      assert (position + i) / BLOCK_BYTES == position / BLOCK_BYTES;
      assert (position + i) % BLOCK_BYTES == start + i;
    }
  }

  lemma KeyBytesPlus(e: BlockCipher, counter: nat, position: nat, n: nat, m: nat)
    ensures KeyBytes(e, counter, position, n) + KeyBytes(e, counter, position + n, m) ==
      KeyBytes(e, counter, position, n + m)
  {
    var l := KeyBytes(e, counter, position, n) + KeyBytes(e, counter, position + n, m);
    var r := KeyBytes(e, counter, position, n + m);
    forall i | 0 <= i < n + m ensures l[i] == r[i] {
      if i >= n {
        assert KeyByte(e, counter, position + i) == KeyByte(e, counter, (position + n) + (i - n));
      }
    }
  }

  method NextBytes(e: BlockCipher, counter: nat, position: nat, wanted: nat) returns (d: Data)
    requires wanted > 0
    ensures 0 < |d| <= wanted && d == KeyBytes(e, counter, position, |d|)
  {
    var block := KeystreamBlock(e, counter, position / BLOCK_BYTES);
    var start := position % BLOCK_BYTES;
    var take := if BLOCK_BYTES - start < wanted then BLOCK_BYTES - start else wanted;
    BlockPart(e, counter, position, take);
    d := block[start..start + take];
  }

  method ApplyKeystream(e: BlockCipher, counter: nat, data: Data, skip: nat) returns (r: Data)
    ensures r == Applied(e, counter, data, skip)
  {
    var out: Data := [];
    var position := skip;
    while |out| < |data|
      invariant |out| <= |data| && position == skip + |out| && out == KeyBytes(e, counter, skip, |out|)
      decreases |data| - |out|
    {
      var more := NextBytes(e, counter, position, |data| - |out|);
      KeyBytesPlus(e, counter, skip, |out|, |more|);
      out := out + more;
      position := position + |more|;
    }
    r := XorData(data, out);
  }

  // ---- the first counter -------------------------------------------------------------------

  const WIDE_RANGE := 0x1_0000_0000_0000_0000_0000_0000_0000_0000

  // One added to the whole of J0, as the program does.
  function IncrementWide(counter: nat): nat {
    (counter + 1) % WIDE_RANGE
  }

  // One added to its low 32 bits, as the standard has it.
  function IncrementLow(counter: nat): nat {
    counter / LOW_RANGE * LOW_RANGE + (counter + 1) % LOW_RANGE
  }

  // The two agree, and with them every block of the stream, exactly when the low 32 bits
  // of J0 are not all ones.
  lemma IncrementsAgree(counter: nat, index: nat)
    requires counter < WIDE_RANGE
    ensures IncrementWide(counter) == IncrementLow(counter) <==> counter % LOW_RANGE != LOW_RANGE - 1
    ensures CounterAt(IncrementWide(counter), index) == CounterAt(IncrementLow(counter), index) <==>
            counter % LOW_RANGE != LOW_RANGE - 1
  {
    var high, low := counter / LOW_RANGE, counter % LOW_RANGE;
    assert counter == high * LOW_RANGE + low;
    if low == LOW_RANGE - 1 {
      assert IncrementLow(counter) == high * LOW_RANGE;
      if counter + 1 < WIDE_RANGE {
        assert IncrementWide(counter) == (high + 1) * LOW_RANGE;
      } else {
        assert IncrementWide(counter) == 0;
      }
    } else {
      assert IncrementWide(counter) == counter + 1;
    }
  }
}
