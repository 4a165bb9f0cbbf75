// What a sealed message consists of, byte by byte, and exactly which packets open
// (exchangesim/nnf/crypto.py).
module Sealing {
  import opened Options
  import opened Framing
  import opened Bits
  import opened WireTypes
  import opened WireBytes
  import opened Keystream
  import opened Ciphers

  // ---- the stream ------------------------------------------------------------------------

  // Two bytes added without carry.
  ghost predicate IsXor(a: Byte, b: Byte, r: Byte) {
    forall i :: 0 <= i < 8 ==> BitsOf(r, 8)[i] == (BitsOf(a, 8)[i] != BitsOf(b, 8)[i])
  }

  // The counter `index` blocks on: the low 32 bits have moved on and wrapped, the others
  // stand.
  predicate CounterOn(counter: nat, index: nat, c: nat) {
    c / 0x1_0000_0000 == counter / 0x1_0000_0000 && c % 0x1_0000_0000 == (counter + index) % 0x1_0000_0000
  }

  // The byte at a position of the stream is that byte of its block.
  lemma StreamByte(e: BlockCipher, counter: nat, data: Data, skip: nat, i: nat, index: nat, place: nat)
    requires i < |data| && skip + i == 16 * index + place && place < 16
    ensures exists c: nat :: CounterOn(counter, index, c) && IsXor(data[i], e(c)[place], Applied(e, counter, data, skip)[i])
  {
    var c := CounterAt(counter, index);
    assert (skip + i) / 16 == index && (skip + i) % 16 == place;
    var high, low := counter / LOW_RANGE, (counter + index) % LOW_RANGE;
    assert c == high * LOW_RANGE + low;
    XorByteBits(data[i], KeyByte(e, counter, skip + i));
    assert CounterOn(counter, index, c);
  }

  // ---- one running stream ---------------------------------------------------------------------

  lemma ExistingSealed(g: Gcm, md5: Data -> Data, counter: nat, at: nat, m: Data)
    ensures var p := ExistingSeal(g, md5, counter, at, m);
      p.data == Applied(g.block, counter, m, at) && p.checksum == md5(m)
  {
  }

  // A packet opens exactly when its checksum is the digest of what it decrypts to, and to
  // that; so whatever opens was sealed, at the same place in the stream.
  lemma ExistingOpens(g: Gcm, md5: Data -> Data, counter: nat, at: nat, p: Packet, m: Data)
    ensures ExistingOpen(g, md5, counter, at, p) == Some(m) <==> p == ExistingSeal(g, md5, counter, at, m)
  {
    AppliedTwice(g.block, counter, p.data, at);
    AppliedTwice(g.block, counter, m, at);
  }

  // ---- a walking IV --------------------------------------------------------------------------

  // The IV: the fixed half, then the counter in the byte order of the connection, wrapped to
  // 64 bits.
  ghost predicate IvOf(fixed: Data, layout: Layout, counter: int, iv: Data) {
    && |iv| == |fixed| + 8 && iv[..|fixed|] == fixed
    && var u := counter % 0x1_0000_0000_0000_0000;
       u >= 0 && forall i :: 0 <= i < 8 ==>
         iv[|fixed| + if layout == LowFirst then i else 7 - i] == u / Range(i) % 256
  }

  lemma CounterBytes(layout: Layout, n: int, u: nat)
    requires -HALF_RANGE <= n < HALF_RANGE && u == if n < 0 then n + WORD else n
    ensures var d := PackDynamic(layout, n);
      |d| == 8 && forall i :: 0 <= i < 8 ==> d[if layout == LowFirst then i else 7 - i] == u / Range(i) % 256
  {
    forall i | 0 <= i < 8 ensures Little(u, 8)[i] == u / Range(i) % 256 && Big(u, 8)[7 - i] == u / Range(i) % 256 {
      LittleAt(u, 8, i);
      BigAt(u, 8, 7 - i);
    }
  }

  lemma WrapIs(counter: int)
    ensures var n := Wrap(counter);
      (if n < 0 then n + WORD else n) == counter % 0x1_0000_0000_0000_0000
  {
  }

  lemma Behind(fixed: Data, d: Data, i: nat)
    requires i < |d|
    ensures (fixed + d)[|fixed| + i] == d[i] && (fixed + d)[..|fixed|] == fixed
  {
  }

  lemma IvIs(fixed: Data, layout: Layout, start: int, steps: int)
    ensures IvOf(fixed, layout, start + steps, IvAt(fixed, layout, start, steps))
  {
    var n, u := Wrap(start + steps), (start + steps) % 0x1_0000_0000_0000_0000;
    var d := PackDynamic(layout, n);
    WrapIs(start + steps);
    CounterBytes(layout, n, u);
    Behind(fixed, d, 0);
    forall i | 0 <= i < 8
      ensures IvAt(fixed, layout, start, steps)[|fixed| + if layout == LowFirst then i else 7 - i] == u / Range(i) % 256
    {
      Behind(fixed, d, if layout == LowFirst then i else 7 - i);
    }
  }

  // The tag is taken from the hash of the IV, over what travels and the additional key; the
  // stream starts one behind that hash.
  lemma NewSealed(k: NewKey, steps: int, m: Data)
    ensures var iv, p := IvAt(k.fixed, k.layout, k.start, steps), NewSeal(k, steps, m);
      && IvOf(k.fixed, k.layout, k.start + steps, iv)
      && p.checksum == k.gcm.tag(k.gcm.initial(iv), p.data, k.aad)
      && p.data == Applied(k.gcm.block, IncrementWide(k.gcm.initial(iv)), m, 0)
  {
    IvIs(k.fixed, k.layout, k.start, steps);
  }

  // A packet opens exactly when it is what sealing the message under that IV gives.
  lemma NewOpens(k: NewKey, steps: int, p: Packet, m: Data)
    ensures NewOpen(k, steps, p) == Some(m) <==> p == NewSeal(k, steps, m)
  {
    var c := StreamStart(k.gcm, IvAt(k.fixed, k.layout, k.start, steps));
    AppliedTwice(k.gcm.block, c, p.data, 0);
    AppliedTwice(k.gcm.block, c, m, 0);
  }

  lemma {:induction false} WalksOn(k: NewKey, up: bool, ms: seq<Data>)
    ensures After(NewDirection(k, up), 0, ms) == |ms|
    decreases |ms|
  {
    if ms != [] {
      WalksOn(k, up, ms[..|ms| - 1]);
    }
  }

  lemma SealsAt(k: NewKey, up: bool, at: nat, m: Data)
    ensures NewDirection(k, up).seal(at, m) == NewSeal(k, if up then at + 1 else -(at + 1), m)
  {
  }

  // After any messages the next of that direction goes under the IV one step further from
  // the start, up towards the exchange and down away from it.
  lemma NthMessage(k: NewKey, up: bool, ms: seq<Data>, at: nat, m: Data)
    requires at == After(NewDirection(k, up), 0, ms)
    ensures at == |ms| && NewDirection(k, up).seal(at, m) == NewSeal(k, if up then at + 1 else -(at + 1), m)
  {
    WalksOn(k, up, ms);
    SealsAt(k, up, at, m);
  }

  function Sizes(ms: seq<Data>): nat {
    if ms == [] then 0 else |ms[0]| + Sizes(ms[1..])
  }

  lemma {:induction false} SizesEnd(ms: seq<Data>)
    requires ms != []
    ensures Sizes(ms) == Sizes(ms[..|ms| - 1]) + |ms[|ms| - 1]|
    decreases |ms|
  {
    if |ms| > 1 {
      SizesEnd(ms[1..]);
      assert ms[1..][..|ms[1..]| - 1] == ms[..|ms| - 1][1..];
    }
  }

  // One stream runs through all messages of a direction.
  lemma {:induction false} StreamRunsOn(g: Gcm, md5: Data -> Data, counter: nat, ms: seq<Data>)
    ensures After(ExistingDirection(g, md5, counter), 0, ms) == Sizes(ms)
    decreases |ms|
  {
    if ms != [] {
      StreamRunsOn(g, md5, counter, ms[..|ms| - 1]);
      SizesEnd(ms);
    }
  }
}
