// The ways a connection carries its messages, and the two ends kept in step
// (exchangesim/nnf/crypto.py). The block cipher, GHASH and MD5 are any functions.
module Ciphers {
  import opened Options
  import opened Framing
  import opened WireTypes
  import opened Keystream

  // What travels in one packet: the data and the checksum of its prefix.
  datatype Packet = Packet(data: Data, checksum: Data)

  // One direction of a connection: how the message after `at` is sealed and unsealed, and
  // where the one after it starts.
  datatype Direction = Direction(seal: (nat, Data) -> Packet, open: (nat, Packet) -> Option<Data>,
                                 next: (nat, nat) -> nat)

  // A message opens, to itself, where it was sealed.
  ghost predicate Matched(d: Direction) {
    forall at, m :: |d.seal(at, m).data| == |m| && d.open(at, d.seal(at, m)) == Some(m)
  }

  // ---- one direction over any run ----------------------------------------------------------

  // Where each end is, what is on its way, what was put in and what came out.
  datatype Channel = Channel(sent: nat, received: nat, flight: seq<Packet>, put: seq<Data>, got: seq<Data>,
                             broken: bool)

  datatype Step = Put(m: Data) | Take

  function Act(d: Direction, c: Channel, step: Step): Channel {
    match step
    case Put(m) => c.(sent := d.next(c.sent, |m|), flight := c.flight + [d.seal(c.sent, m)], put := c.put + [m])
    case Take =>
      if c.broken || c.flight == [] then c
      else
        var p := c.flight[0];
        var m := d.open(c.received, p);
        var c1 := c.(received := d.next(c.received, |p.data|), flight := c.flight[1..]);
        if m.None? then c1.(broken := true) else c1.(got := c1.got + [m.value])
  }

  function Run(d: Direction, c: Channel, steps: seq<Step>): Channel
    decreases |steps|
  {
    if steps == [] then c else Run(d, Act(d, c, steps[0]), steps[1..])
  }

  // Where the end stands after these messages.
  function After(d: Direction, at: nat, ms: seq<Data>): nat
    decreases |ms|
  {
    if ms == [] then at else d.next(After(d, at, ms[..|ms| - 1]), |ms[|ms| - 1]|)
  }

  // The packets of these messages, the first sealed at `at`.
  function Packets(d: Direction, at: nat, ms: seq<Data>): seq<Packet>
    decreases |ms|
  {
    if ms == [] then []
    else
      var init, last := ms[..|ms| - 1], ms[|ms| - 1];
      Packets(d, at, init) + [d.seal(After(d, at, init), last)]
  }

  // Nothing was refused, what came out is the beginning of what was put in, and the rest
  // is on its way.
  ghost predicate InStep(d: Direction, start: nat, c: Channel) {
    && !c.broken && |c.got| + |c.flight| == |c.put| && c.put[..|c.got|] == c.got
    && c.sent == After(d, start, c.put) && c.received == After(d, start, c.got)
    && |Packets(d, start, c.put)| == |c.put|
    && c.flight == Packets(d, start, c.put)[|c.got|..]
  }

  lemma {:induction false} PacketAt(d: Direction, at: nat, ms: seq<Data>, i: nat)
    requires i < |ms|
    ensures |Packets(d, at, ms)| == |ms| && Packets(d, at, ms)[i] == d.seal(After(d, at, ms[..i]), ms[i])
    decreases |ms|
  {
    var init := ms[..|ms| - 1];
    if i < |init| {
      PacketAt(d, at, init, i);
      assert init[..i] == ms[..i];
    } else if init != [] {
      PacketAt(d, at, init, 0);
    }
  }

  lemma PutKeeps(d: Direction, start: nat, c: Channel, m: Data)
    requires InStep(d, start, c)
    ensures InStep(d, start, Act(d, c, Put(m)))
  {
    var put := c.put + [m];
    assert put[..|put| - 1] == c.put;
    assert Packets(d, start, put) == Packets(d, start, c.put) + [d.seal(c.sent, m)];
    assert put[..|c.got|] == c.put[..|c.got|];
  }

  lemma TakeKeeps(d: Direction, start: nat, c: Channel)
    requires Matched(d) && InStep(d, start, c)
    ensures InStep(d, start, Act(d, c, Take))
  {
    if c.flight != [] {
      var i := |c.got|;
      var m := c.put[i];
      PacketAt(d, start, c.put, i);
      assert c.flight[0] == d.seal(c.received, m);
      var got := c.got + [m];
      assert got[..|got| - 1] == c.got && c.put[..i + 1] == got;
      assert Act(d, c, Take).got == got;
    }
  }

  // Over any run, whatever is put in on one side comes out on the other, in order and
  // unchanged, and nothing is ever refused.
  lemma {:induction false} StaysInStep(d: Direction, start: nat, c: Channel, steps: seq<Step>)
    requires Matched(d) && InStep(d, start, c)
    ensures InStep(d, start, Run(d, c, steps))
    decreases |steps|
  {
    if steps != [] {
      match steps[0] {
        case Put(m) => PutKeeps(d, start, c, m);
        case Take => TakeKeeps(d, start, c);
      }
      StaysInStep(d, start, Act(d, c, steps[0]), steps[1..]);
    }
  }

  lemma FreshInStep(d: Direction, start: nat)
    ensures InStep(d, start, Channel(start, start, [], [], [], false))
  {
  }

  // ---- the existing methodology ------------------------------------------------------------

  datatype Gcm = Gcm(block: BlockCipher, initial: Data -> nat, tag: (nat, Data, Data) -> Data)

  // Where the keystream of an IV starts.
  function StreamStart(g: Gcm, iv: Data): nat {
    IncrementWide(g.initial(iv))
  }

  function ExistingSeal(g: Gcm, md5: Data -> Data, counter: nat, at: nat, m: Data): Packet {
    Packet(Applied(g.block, counter, m, at), md5(m))
  }

  function ExistingOpen(g: Gcm, md5: Data -> Data, counter: nat, at: nat, p: Packet): Option<Data> {
    var plain := Applied(g.block, counter, p.data, at);
    if md5(plain) != p.checksum then None else Some(plain)
  }

  // One continuous stream: each message starts where the one before it ended.
  function ExistingDirection(g: Gcm, md5: Data -> Data, counter: nat): Direction {
    Direction((at: nat, m) => ExistingSeal(g, md5, counter, at, m), (at: nat, p) => ExistingOpen(g, md5, counter, at, p),
              (at: nat, n: nat) => at + n)
  }

  lemma ExistingMatched(g: Gcm, md5: Data -> Data, counter: nat)
    ensures Matched(ExistingDirection(g, md5, counter))
  {
    forall at: nat, m: Data
      ensures |ExistingSeal(g, md5, counter, at, m).data| == |m|
      ensures ExistingOpen(g, md5, counter, at, ExistingSeal(g, md5, counter, at, m)) == Some(m)
    {
      AppliedTwice(g.block, counter, m, at);
    }
  }

  // Any history sealed by one end opens in order at the other.
  lemma ExistingLockstep(g: Gcm, md5: Data -> Data, counter: nat, steps: seq<Step>)
    ensures var d := ExistingDirection(g, md5, counter);
            InStep(d, 0, Run(d, Channel(0, 0, [], [], [], false), steps))
  {
    ExistingMatched(g, md5, counter);
    var d := ExistingDirection(g, md5, counter);
    FreshInStep(d, 0);
    StaysInStep(d, 0, Channel(0, 0, [], [], [], false), steps);
  }

  class ExistingCipher {
    const gcm: Gcm
    const md5: Data -> Data
    const counter: nat
    var sent: nat
    var received: nat

    constructor (gcm: Gcm, md5: Data -> Data, iv: Data)
      ensures this.gcm == gcm && this.md5 == md5 && counter == StreamStart(gcm, iv) && sent == 0 && received == 0
    {
      this.gcm, this.md5, counter := gcm, md5, StreamStart(gcm, iv);
      sent, received := 0, 0;
    }

    method Seal(m: Data) returns (p: Packet)
      modifies this
      ensures p == ExistingSeal(gcm, md5, counter, old(sent), m)
      ensures sent == old(sent) + |m| && received == old(received)
    {
      var digest := md5(m);
      var sealed := ApplyKeystream(gcm.block, counter, m, sent);
      sent := sent + |m|;
      p := Packet(sealed, digest);
    }

    // None where the checksum refuses the message; the stream has moved on all the same.
    method Open(p: Packet) returns (m: Option<Data>)
      modifies this
      ensures m == ExistingOpen(gcm, md5, counter, old(received), p)
      ensures received == old(received) + |p.data| && sent == old(sent)
    {
      var plain := ApplyKeystream(gcm.block, counter, p.data, received);
      received := received + |p.data|;
      if md5(plain) != p.checksum {
        return None;
      }
      m := Some(plain);
    }
  }

  // ---- the new methodology: an IV that walks ---------------------------------------------------

  const WORD := 0x1_0000_0000_0000_0000

  // A 64-bit counter kept inside its type.
  function Wrap(value: int): (r: int)
    ensures -HALF_RANGE <= r < HALF_RANGE
  {
    var low := value % WORD;
    if low >= HALF_RANGE then low - WORD else low
  }

  datatype Layout = LowFirst | HighFirst

  // A signed 64-bit number in either byte order.
  function PackDynamic(layout: Layout, n: int): Data
    requires -HALF_RANGE <= n < HALF_RANGE
  {
    var x := if n < 0 then n + WORD else n;
    match layout
    case LowFirst => Little(x, 8)
    case HighFirst => Big(x, 8)
  }

  function IvAt(fixed: Data, layout: Layout, start: int, steps: int): Data {
    fixed + PackDynamic(layout, Wrap(start + steps))
  }

  lemma WrapSame(a: int, b: int)
    ensures Wrap(a) == Wrap(b) <==> (a - b) % WORD == 0
  {
  }

  lemma RangeEight()
    ensures Range(8) == WORD
  {
    assert Range(4) == 0x1_0000_0000;
  }

  lemma PackSame(layout: Layout, a: int, b: int)
    requires -HALF_RANGE <= a < HALF_RANGE && -HALF_RANGE <= b < HALF_RANGE
    requires PackDynamic(layout, a) == PackDynamic(layout, b)
    ensures a == b
  {
    var x, y := if a < 0 then a + WORD else a, if b < 0 then b + WORD else b;
    RangeEight();
    match layout
    case LowFirst =>
      LittleRoundTrip(x, 8);
      LittleRoundTrip(y, 8);
    case HighFirst =>
      BigRoundTrip(x, 8);
      BigRoundTrip(y, 8);
  }

  // Two IVs are the same exactly when their counters are a multiple of 2^64 apart.
  lemma IvSame(fixed: Data, layout: Layout, start: int, x: int, y: int)
    ensures IvAt(fixed, layout, start, x) == IvAt(fixed, layout, start, y) <==> (x - y) % WORD == 0
  {
    WrapSame(start + x, start + y);
    var a, b := Wrap(start + x), Wrap(start + y);
    if IvAt(fixed, layout, start, x) == IvAt(fixed, layout, start, y) {
      assert (fixed + PackDynamic(layout, a))[|fixed|..] == PackDynamic(layout, a);
      assert (fixed + PackDynamic(layout, b))[|fixed|..] == PackDynamic(layout, b);
      PackSame(layout, a, b);
    }
  }

  // The counters used once the member has sealed `ups` messages and the exchange `downs`.
  predicate Used(ups: nat, downs: nat, x: int) {
    0 - downs <= x <= ups && x != 0
  }

  ghost predicate NoneReused(fixed: Data, layout: Layout, start: int, ups: nat, downs: nat) {
    forall x, y :: Used(ups, downs, x) && Used(ups, downs, y) && x != y ==>
      IvAt(fixed, layout, start, x) != IvAt(fixed, layout, start, y)
  }

  // Few enough messages that no two counters are 2^64 apart.
  predicate Few(ups: nat, downs: nat) {
    ups + downs < WORD || (ups + downs == WORD && (ups == 0 || downs == 0))
  }

  lemma FewApart(ups: nat, downs: nat, x: int, y: int)
    requires Few(ups, downs) && Used(ups, downs, x) && Used(ups, downs, y) && x != y
    ensures (x - y) % WORD != 0
  {
    assert -WORD < x - y < WORD;
  }

  lemma ManyMeet(ups: nat, downs: nat) returns (x: int, y: int)
    requires !Few(ups, downs)
    ensures Used(ups, downs, x) && Used(ups, downs, y) && x - y == WORD
  {
    if ups == 0 {
      x := -1;
    } else if ups < WORD {
      x := ups;
    } else if downs > 0 {
      x := WORD - 1;
    } else {
      x := WORD + 1;
    }
    y := x - WORD;
  }

  // No IV is used twice, in either direction, exactly while fewer than 2^64 messages have
  // been sealed altogether; if only one end ever speaks it may speak once more.
  lemma IvsNeverReused(fixed: Data, layout: Layout, start: int, ups: nat, downs: nat)
    ensures NoneReused(fixed, layout, start, ups, downs) <==>
            ups + downs < WORD || (ups + downs == WORD && (ups == 0 || downs == 0))
  {
    if Few(ups, downs) {
      forall x, y | Used(ups, downs, x) && Used(ups, downs, y) && x != y
        ensures IvAt(fixed, layout, start, x) != IvAt(fixed, layout, start, y)
      {
        IvSame(fixed, layout, start, x, y);
        FewApart(ups, downs, x, y);
      }
    } else {
      var x, y := ManyMeet(ups, downs);
      IvSame(fixed, layout, start, x, y);
    }
  }

  // A connection's fixed material; `up` is the direction its counter walks.
  datatype NewKey = NewKey(gcm: Gcm, fixed: Data, start: int, aad: Data, layout: Layout)

  function NewSeal(k: NewKey, steps: int, m: Data): Packet {
    var iv := IvAt(k.fixed, k.layout, k.start, steps);
    var data := Applied(k.gcm.block, StreamStart(k.gcm, iv), m, 0);
    Packet(data, k.gcm.tag(k.gcm.initial(iv), data, k.aad))
  }

  function NewOpen(k: NewKey, steps: int, p: Packet): Option<Data> {
    var iv := IvAt(k.fixed, k.layout, k.start, steps);
    if k.gcm.tag(k.gcm.initial(iv), p.data, k.aad) != p.checksum then None
    else Some(Applied(k.gcm.block, StreamStart(k.gcm, iv), p.data, 0))
  }

  // How far the counter has walked after so many messages, towards the exchange or away.
  function Walked(up: bool, messages: nat): int {
    if up then messages else 0 - messages
  }

  function NewDirection(k: NewKey, up: bool): Direction {
    Direction((at: nat, m) => NewSeal(k, Walked(up, at + 1), m), (at: nat, p) => NewOpen(k, Walked(up, at + 1), p),
              (at: nat, n: nat) => at + 1)
  }

  lemma NewMatched(k: NewKey, up: bool)
    ensures Matched(NewDirection(k, up))
  {
    var d := NewDirection(k, up);
    forall at: nat, m: Data ensures |d.seal(at, m).data| == |m| && d.open(at, d.seal(at, m)) == Some(m) {
      var iv := IvAt(k.fixed, k.layout, k.start, Walked(up, at + 1));
      AppliedTwice(k.gcm.block, StreamStart(k.gcm, iv), m, 0);
    }
  }

  // In either direction the k-th message opens under the IV it was sealed under.
  lemma NewLockstep(k: NewKey, up: bool, steps: seq<Step>)
    ensures var d := NewDirection(k, up); InStep(d, 0, Run(d, Channel(0, 0, [], [], [], false), steps))
  {
    NewMatched(k, up);
    var d := NewDirection(k, up);
    FreshInStep(d, 0);
    StaysInStep(d, 0, Channel(0, 0, [], [], [], false), steps);
  }

  class NewCipher {
    const key: NewKey
    const client: bool
    var sent: int
    var received: int

    constructor (key: NewKey, client: bool)
      ensures this.key == key && this.client == client && sent == 0 && received == 0
    {
      this.key, this.client := key, client;
      sent, received := 0, 0;
    }

    // Both ends number the messages of a direction alike: a member's walk up from zero
    // and an exchange's down.
    ghost predicate Counts(sealed: nat, unsealed: nat)
      reads this
    {
      sent == Walked(client, sealed) && received == Walked(!client, unsealed)
    }

    method Seal(m: Data, ghost sealed: nat, ghost unsealed: nat) returns (p: Packet)
      requires Counts(sealed, unsealed)
      modifies this
      ensures Counts(sealed + 1, unsealed) && p == NewDirection(key, client).seal(sealed, m)
    {
      sent := sent + if client then 1 else -1;
      var iv := IvAt(key.fixed, key.layout, key.start, sent);
      var counter := key.gcm.initial(iv);
      var data := ApplyKeystream(key.gcm.block, IncrementWide(counter), m, 0);
      p := Packet(data, key.gcm.tag(counter, data, key.aad));
    }

    method Open(p: Packet, ghost sealed: nat, ghost unsealed: nat) returns (m: Option<Data>)
      requires Counts(sealed, unsealed)
      modifies this
      ensures Counts(sealed, unsealed + 1) && m == NewDirection(key, !client).open(unsealed, p)
    {
      received := received + if client then -1 else 1;
      var iv := IvAt(key.fixed, key.layout, key.start, received);
      var counter := key.gcm.initial(iv);
      if key.gcm.tag(counter, p.data, key.aad) != p.checksum {
        return None;
      }
      var plain := ApplyKeystream(key.gcm.block, IncrementWide(counter), p.data, 0);
      m := Some(plain);
    }
  }
}
