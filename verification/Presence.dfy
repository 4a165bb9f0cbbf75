// Presence maps: a bit per field, highest bit of the first byte first
// (exchangesim/binary/types.py).
module Presence {
  import opened Options
  import opened Framing
  import opened Bits

  // The bits of a byte, position 0 the most significant.
  predicate BitAt(b: Byte, p: nat)
    requires p < 8
  {
    BitsOf(b, 8)[7 - p]
  }

  predicate IsSet(presence: Data, p: nat)
    requires p < 8 * |presence|
  {
    BitAt(presence[p / 8], p % 8)
  }

  function WithBit(b: Byte, p: nat): (r: Byte)
    requires p < 8
  {
    var bits := BitsOf(b, 8)[7 - p := true];
    ValueBound(bits, 8);
    PowerEight();
    NumberOf(bits)
  }

  function SetBit(presence: Data, p: nat): (r: Data)
    requires p < 8 * |presence|
    ensures |r| == |presence|
  {
    presence[p / 8 := WithBit(presence[p / 8], p % 8)]
  }

  // The bits of a map, by position.
  function MapBits(presence: Data): (bits: seq<bool>)
    ensures |bits| == 8 * |presence| && forall p :: 0 <= p < |bits| ==> bits[p] == IsSet(presence, p)
  {
    seq(8 * |presence|, p requires 0 <= p < 8 * |presence| => IsSet(presence, p))
  }

  // The positions below n of the bits that are set, lowest first.
  function Positions(bits: seq<bool>, n: nat): seq<nat>
    requires n <= |bits|
  {
    if n == 0 then [] else Positions(bits, n - 1) + if bits[n - 1] then [n - 1] else []
  }

  function SetBits(presence: Data): seq<nat> {
    Positions(MapBits(presence), 8 * |presence|)
  }

  // A map with these positions set on top of others; None where one does not fit.
  function SetAll(presence: Data, positions: seq<nat>): (r: Option<Data>)
    ensures r.Some? ==> |r.value| == |presence|
    decreases |positions|
  {
    if positions == [] then Some(presence)
    else
      var m := SetAll(presence, positions[..|positions| - 1]);
      var p := positions[|positions| - 1];
      if m.None? || p >= 8 * |presence| then None else Some(SetBit(m.value, p))
  }

  function Blank(width: nat): Data {
    seq(width, i => 0)
  }

  function PackPresence(positions: seq<nat>, width: nat): Option<Data> {
    SetAll(Blank(width), positions)
  }

  ghost predicate Ascending(ps: seq<nat>) {
    forall i, j :: 0 <= i < j < |ps| ==> ps[i] < ps[j]
  }

  // ---- one bit -------------------------------------------------------------------------------

  lemma WithBitIs(b: Byte, p: nat, q: nat)
    requires p < 8 && q < 8
    ensures BitAt(WithBit(b, p), q) <==> q == p || BitAt(b, q)
  {
    var bits := BitsOf(b, 8)[7 - p := true];
    BitsOfValue(bits, 0);
    assert bits + Zeros(0) == bits;
  }

  lemma SetBitIs(presence: Data, p: nat, q: nat)
    requires p < 8 * |presence| && q < 8 * |presence|
    ensures IsSet(SetBit(presence, p), q) <==> q == p || IsSet(presence, q)
  {
    if p / 8 == q / 8 {
      WithBitIs(presence[p / 8], p % 8, q % 8);
    }
  }

  lemma {:induction false} SetAllIs(presence: Data, positions: seq<nat>, q: nat)
    requires q < 8 * |presence| && SetAll(presence, positions).Some?
    ensures IsSet(SetAll(presence, positions).value, q) <==> q in positions || IsSet(presence, q)
    decreases |positions|
  {
    if positions != [] {
      var init, p := positions[..|positions| - 1], positions[|positions| - 1];
      SetAllIs(presence, init, q);
      SetBitIs(SetAll(presence, init).value, p, q);
      assert positions == init + [p];
    }
  }

  lemma BlankIs(width: nat, q: nat)
    requires q < 8 * width
    ensures !IsSet(Blank(width), q)
  {
    BitsAbove(0, 0, 8);
  }

  lemma {:induction false} SetAllFits(presence: Data, positions: seq<nat>)
    ensures SetAll(presence, positions).Some? <==> forall i :: 0 <= i < |positions| ==> positions[i] < 8 * |presence|
    decreases |positions|
  {
    if positions != [] {
      var init := positions[..|positions| - 1];
      SetAllFits(presence, init);
      assert forall i :: 0 <= i < |init| ==> init[i] == positions[i];
    }
  }

  // ---- reading is the inverse of writing, both ways ------------------------------------------

  lemma {:induction false} PositionsAscend(bits: seq<bool>, n: nat)
    requires n <= |bits|
    ensures Ascending(Positions(bits, n)) && forall i :: 0 <= i < |Positions(bits, n)| ==> Positions(bits, n)[i] < n
    decreases n
  {
    if n > 0 {
      PositionsAscend(bits, n - 1);
    }
  }

  lemma {:induction false} PositionsIn(bits: seq<bool>, n: nat, q: nat)
    requires n <= |bits|
    ensures q in Positions(bits, n) <==> q < n && bits[q]
    decreases n
  {
    if n > 0 {
      PositionsIn(bits, n - 1, q);
    }
  }

  lemma SetBitsAre(presence: Data)
    ensures Ascending(SetBits(presence)) && forall i :: 0 <= i < |SetBits(presence)| ==> SetBits(presence)[i] < 8 * |presence|
    ensures forall q :: 0 <= q < 8 * |presence| ==> (q in SetBits(presence) <==> IsSet(presence, q))
  {
    PositionsAscend(MapBits(presence), 8 * |presence|);
    forall q | 0 <= q < 8 * |presence| ensures q in SetBits(presence) <==> IsSet(presence, q) {
      PositionsIn(MapBits(presence), 8 * |presence|, q);
    }
  }

  lemma {:induction false} AscendingUnique(a: seq<nat>, b: seq<nat>)
    requires Ascending(a) && Ascending(b) && forall q :: q in a <==> q in b
    ensures a == b
    decreases |a|
  {
    if a == [] {
      if b != [] {
        HasElement(b);
      }
    } else {
      assert a[0] in b && b[0] in a;
      assert a[0] == b[0] by {
        var i :| 0 <= i < |a| && a[i] == b[0];
        var j :| 0 <= j < |b| && b[j] == a[0];
      }
      forall q ensures q in a[1..] <==> q in b[1..] {
        RestIn(a, q);
        RestIn(b, q);
      }
      AscendingUnique(a[1..], b[1..]);
      assert a == [a[0]] + a[1..] && b == [b[0]] + b[1..];
    }
  }

  lemma HasElement(b: seq<nat>)
    requires b != []
    ensures exists q :: q in b
  {
    assert b[0] in b;
  }

  lemma RestIn(a: seq<nat>, q: nat)
    requires Ascending(a) && a != []
    ensures q in a[1..] <==> q in a && q != a[0]
  {
    if q in a && q != a[0] {
      var i :| 0 <= i < |a| && a[i] == q;
      assert a[1..][i - 1] == q;
    }
    if q in a[1..] {
      var i :| 0 <= i < |a| - 1 && a[1..][i] == q;
      assert a[i + 1] == q;
    }
  }

  // The positions written are the positions read, in order.
  lemma ReadsWritten(positions: seq<nat>, width: nat)
    requires Ascending(positions) && forall i :: 0 <= i < |positions| ==> positions[i] < 8 * width
    ensures PackPresence(positions, width).Some? && SetBits(PackPresence(positions, width).value) == positions
  {
    SetAllFits(Blank(width), positions);
    var m := PackPresence(positions, width).value;
    SetBitsAre(m);
    forall q: nat ensures q in SetBits(m) <==> q in positions {
      if q < 8 * width {
        SetAllIs(Blank(width), positions, q);
        BlankIs(width, q);
      }
    }
    AscendingUnique(SetBits(m), positions);
  }

  lemma SameByte(a: Byte, b: Byte)
    requires forall p :: 0 <= p < 8 ==> BitAt(a, p) == BitAt(b, p)
    ensures a == b
  {
    forall i | 0 <= i < 8 ensures BitsOf(a, 8)[i] == BitsOf(b, 8)[i] {
      assert BitAt(a, 7 - i) == BitAt(b, 7 - i);
    }
    assert BitsOf(a, 8) == BitsOf(b, 8);
    PowerEight();
    NumberOfBits(a, 8);
    NumberOfBits(b, 8);
  }

  lemma SameAt(a: Data, b: Data, k: nat)
    requires |a| == |b| && k < |a|
    requires forall q :: 0 <= q < 8 * |a| ==> IsSet(a, q) == IsSet(b, q)
    ensures a[k] == b[k]
  {
    forall p | 0 <= p < 8 ensures BitAt(a[k], p) == BitAt(b[k], p) {
      assert IsSet(a, 8 * k + p) == IsSet(b, 8 * k + p);
    }
    SameByte(a[k], b[k]);
  }

  lemma WrittenIs(presence: Data, ps: seq<nat>, q: nat)
    requires q < 8 * |presence| && PackPresence(ps, |presence|).Some?
    ensures IsSet(PackPresence(ps, |presence|).value, q) <==> q in ps
  {
    SetAllIs(Blank(|presence|), ps, q);
    BlankIs(|presence|, q);
  }

  // And any map is what writing the positions read from it gives.
  lemma WritesRead(presence: Data)
    ensures PackPresence(SetBits(presence), |presence|) == Some(presence)
  {
    SetBitsAre(presence);
    WritesPositions(presence, SetBits(presence));
  }

  lemma WritesPositions(presence: Data, ps: seq<nat>)
    requires forall i :: 0 <= i < |ps| ==> ps[i] < 8 * |presence|
    requires forall q :: 0 <= q < 8 * |presence| ==> (q in ps <==> IsSet(presence, q))
    ensures PackPresence(ps, |presence|) == Some(presence)
  {
    SetAllFits(Blank(|presence|), ps);
    var m := PackPresence(ps, |presence|).value;
    forall q | 0 <= q < 8 * |presence| ensures IsSet(m, q) == IsSet(presence, q) {
      WrittenIs(presence, ps, q);
    }
    forall k | 0 <= k < |presence| ensures m[k] == presence[k] {
      SameAt(m, presence, k);
    }
    assert m == presence;
  }

  // ---- the loops ----------------------------------------------------------------------------

  lemma InByte(presence: Data, index: nat, bit: nat)
    requires index < |presence| && bit < 8
    ensures MapBits(presence)[8 * index + bit] == BitAt(presence[index], bit)
  {
    var p := 8 * index + bit;
    assert p / 8 == index && p % 8 == bit;
  }

  // The byte's bits among those of the whole map, from place n on.
  ghost predicate Among(b: Byte, all: seq<bool>, n: nat) {
    n + 8 <= |all| && forall bit :: 0 <= bit < 8 ==> all[n + bit] == BitAt(b, bit)
  }

  lemma ByteAmong(presence: Data, index: nat)
    requires index < |presence|
    ensures Among(presence[index], MapBits(presence), 8 * index)
  {
    forall bit: nat | bit < 8 ensures MapBits(presence)[8 * index + bit] == BitAt(presence[index], bit) {
      InByte(presence, index, bit);
    }
  }

  // A byte without bits has none to add.
  lemma NothingSet(all: seq<bool>, n: nat)
    requires Among(0, all, n)
    ensures Positions(all, n + 8) == Positions(all, n)
  {
    BitsAbove(0, 0, 8);
    forall p | n <= p < n + 8 ensures !all[p] {
      assert all[n + (p - n)] == BitAt(0, p - n);
    }
    NoneFrom(all, n, n + 8);
  }

  lemma {:induction false} NoneFrom(all: seq<bool>, n: nat, end: nat)
    requires n <= end <= |all| && forall p :: n <= p < end ==> !all[p]
    ensures Positions(all, end) == Positions(all, n)
    decreases end
  {
    if n < end {
      NoneFrom(all, n, end - 1);
    }
  }

  method ReadByte(b: Byte, n: nat, bits: seq<nat>, ghost all: seq<bool>) returns (r: seq<nat>)
    requires Among(b, all, n) && bits == Positions(all, n)
    ensures r == Positions(all, n + 8)
  {
    r := bits;
    for bit := 0 to 8
      invariant r == Positions(all, n + bit)
    {
      assert all[n + bit] == BitAt(b, bit);
      if BitAt(b, bit) {
        r := r + [n + bit];
      }
    }
  }

  method ReadBytes(presence: Data, ghost all: seq<bool>) returns (bits: seq<nat>)
    requires |all| == 8 * |presence| && forall index :: 0 <= index < |presence| ==> Among(presence[index], all, 8 * index)
    ensures bits == Positions(all, 8 * |presence|)
  {
    bits := [];
    for index := 0 to |presence|
      invariant bits == Positions(all, 8 * index)
    {
      if presence[index] != 0 {
        bits := ReadByte(presence[index], 8 * index, bits, all);
      } else {
        NothingSet(all, 8 * index);
      }
    }
  }

  // The set positions of the map at an offset; None where the message ends before it does.
  method ReadPresence(raw: Data, offset: nat, width: nat) returns (r: Option<seq<nat>>)
    ensures r == if offset + width > |raw| then None else Some(SetBits(raw[offset..offset + width]))
  {
    if offset + width > |raw| {
      return None;
    }
    var presence := raw[offset..offset + width];
    forall index | 0 <= index < |presence| ensures Among(presence[index], MapBits(presence), 8 * index) {
      ByteAmong(presence, index);
    }
    var bits := ReadBytes(presence, MapBits(presence));
    r := Some(bits);
  }

  method WritePresence(positions: seq<nat>, width: nat) returns (r: Option<Data>)
    ensures r == PackPresence(positions, width)
  {
    var data := Blank(width);
    for i := 0 to |positions|
      invariant SetAll(Blank(width), positions[..i]) == Some(data) && |data| == width
    {
      assert positions[..i + 1][..i] == positions[..i];
      if positions[i] / 8 >= width {
        SetAllFits(Blank(width), positions);
        return None;
      }
      data := SetBit(data, positions[i]);
    }
    assert positions[..|positions|] == positions;
    r := Some(data);
  }
}
