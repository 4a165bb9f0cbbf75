// Which messages a layout can write (exchangesim/binary/layout.py).
module LayoutLimits {
  import opened Options
  import opened Framing
  import opened Numerals
  import opened FixMessages
  import opened WireTypes
  import opened WireBytes
  import opened Presence
  import opened Layouts
  import B = BinaryFrames

  // The text means something its converter knows and its type has room for.
  predicate Carried(kind: WireType, conv: Converter, text: Data)
    requires Proper(kind)
  {
    var v := ToWire(conv, text);
    v.Some? && Takes(kind, v.value)
  }

  // Blocks within entries are used only when there is one entry to hold them.
  ghost predicate OneHolds(members: seq<Entry>, m: seq<Field>, count: int) {
    count <= 1 || forall i :: 0 <= i < |members| && members[i].Block? ==> GetAll(m, members[i].countTag) == []
  }

  // An entry that is there has its bit on the map, and what it carries can be written.
  ghost predicate Writable(e: Entry, m: seq<Field>, index: nat, room: nat)
    requires Wellformed(e)
    decreases e, 0
  {
    match e
    case Plain(bit, kind, tag, conv) =>
      var text := Occurrence(m, tag, index);
      text.None? || text.value == [] || (bit < room && Carried(kind, conv, text.value))
    case Block(bit, countTag, members) =>
      var count := ReadCount(m, countTag, index);
      count.None? ||
      (bit < room && 0 <= count.value < 0x1_0000 && OneHolds(members, m, count.value) &&
       RoundsWritable(members, m, 0, count.value))
  }

  ghost predicate RoundsWritable(members: seq<Entry>, m: seq<Field>, from: nat, count: int)
    requires AllWellformed(members)
    decreases members, 1
  {
    forall n: nat :: from <= n < count ==> AllWritable(members, m, n, 16)
  }

  ghost predicate AllWritable(es: seq<Entry>, m: seq<Field>, n: nat, room: nat)
    requires AllWellformed(es)
    decreases es, 0
  {
    forall i :: 0 <= i < |es| ==> Writable(es[i], m, n, room)
  }

  // ---- entry by entry -----------------------------------------------------------------------

  predicate OnMap(p: Packed, bit: nat, room: nat) {
    p.Absent? || (p.Bytes? && bit < room)
  }

  ghost predicate AllBelow(ps: seq<nat>, room: nat) {
    forall i :: 0 <= i < |ps| ==> ps[i] < room
  }

  lemma {:induction false} EntryPacks(e: Entry, m: seq<Field>, index: nat, room: nat)
    requires Wellformed(e)
    ensures OnMap(PackEntry(e, m, index), e.bit, room) <==> Writable(e, m, index, room)
    decreases e, 0
  {
    match e
    case Plain(bit, kind, tag, conv) =>
      PlainPacks(e, m, index, room);
    case Block(bit, countTag, members) =>
      var count := ReadCount(m, countTag, index);
      if count.Some? {
        CountPacks(count.value);
        HoldsIs(members, m, count.value);
        RoundsPack(members, m, 0, count.value);
      }
  }

  lemma PlainPacks(e: Entry, m: seq<Field>, index: nat, room: nat)
    requires Wellformed(e) && e.Plain?
    ensures OnMap(PackEntry(e, m, index), e.bit, room) <==> Writable(e, m, index, room)
  {
    var text := Occurrence(m, e.tag, index);
    if text.Some? {
      var v := ToWire(e.conv, text.value);
      if v.Some? {
        PacksExactly(e.kind, v.value);
      }
    }
  }

  lemma CountPacks(count: int)
    ensures Pack(COUNT, Number(count)).Some? <==> 0 <= count < 0x1_0000
  {
    PacksExactly(COUNT, Number(count));
  }

  lemma HoldsIs(members: seq<Entry>, m: seq<Field>, count: int)
    ensures Ambiguous(members, m, count) <==> !OneHolds(members, m, count)
  {
    forall i | 0 <= i < |members| && members[i].Block?
      ensures Has(m, members[i].countTag) <==> GetAll(m, members[i].countTag) != []
    {
      HasIs(m, members[i].countTag);
    }
  }

  lemma {:induction false} HasIs(m: seq<Field>, tag: int)
    ensures Has(m, tag) <==> GetAll(m, tag) != []
    decreases |m|
  {
    if m != [] {
      HasIs(m[1..], tag);
    }
  }

  lemma {:induction false} RoundsPack(members: seq<Entry>, m: seq<Field>, n: nat, count: int)
    requires AllWellformed(members)
    ensures PackRounds(members, m, n, count).Some? <==> RoundsWritable(members, m, n, count)
    decreases members, 2, count - n
  {
    if n < count {
      RoundPacks(members, m, n);
      RoundsPack(members, m, n + 1, count);
      OneMore(members, m, n, count);
    }
  }

  lemma OneMore(members: seq<Entry>, m: seq<Field>, n: nat, count: int)
    requires AllWellformed(members) && n < count
    ensures RoundsWritable(members, m, n, count) <==>
      AllWritable(members, m, n, 16) && RoundsWritable(members, m, n + 1, count)
  {
  }

  lemma RoundPacks(members: seq<Entry>, m: seq<Field>, n: nat)
    requires AllWellformed(members)
    ensures PackRound(members, m, n).Some? <==> AllWritable(members, m, n, 16)
    decreases members, 1
  {
    FieldsPack(members, m, n, 16);
    var fields := PackFields(members, m, n);
    if fields.Some? {
      SetAllFits(Blank(BLOCK_MAP), fields.value.0);
    }
  }

  lemma {:induction false} FieldsPack(es: seq<Entry>, m: seq<Field>, n: nat, room: nat)
    requires AllWellformed(es)
    ensures var fields := PackFields(es, m, n);
      fields.Some? && AllBelow(fields.value.0, room) <==> AllWritable(es, m, n, room)
    decreases es, 0
  {
    if es != [] {
      EntryPacks(es[0], m, n, room);
      FieldsPack(es[1..], m, n, room);
      FirstAndRest(es, m, n, room);
      BelowOn(es[0].bit, PackFields(es[1..], m, n), room);
    }
  }

  lemma FirstAndRest(es: seq<Entry>, m: seq<Field>, n: nat, room: nat)
    requires AllWellformed(es) && es != []
    ensures AllWritable(es, m, n, room) <==> Writable(es[0], m, n, room) && AllWritable(es[1..], m, n, room)
  {
    if Writable(es[0], m, n, room) && AllWritable(es[1..], m, n, room) {
      forall i | 0 <= i < |es| ensures Writable(es[i], m, n, room) {
        if i > 0 {
          assert es[i] == es[1..][i - 1];
        }
      }
    }
  }

  lemma BelowOn(bit: nat, rest: Option<(seq<nat>, Data)>, room: nat)
    ensures rest.Some? ==> (AllBelow([bit] + rest.value.0, room) <==> bit < room && AllBelow(rest.value.0, room))
  {
    if rest.Some? && AllBelow([bit] + rest.value.0, room) {
      assert ([bit] + rest.value.0)[0] == bit;
      forall i | 0 <= i < |rest.value.0| ensures rest.value.0[i] < room {
        assert ([bit] + rest.value.0)[i + 1] == rest.value.0[i];
      }
    }
  }

  // A message is written exactly when every entry that is there has a place on its map, a
  // text its field can carry, a count of at most two bytes, and no block in several entries.
  lemma EncodesExactly(es: seq<Entry>, m: seq<Field>)
    requires AllWellformed(es)
    ensures EncodeBody(es, m).Some? <==> AllWritable(es, m, 0, 256)
  {
    FieldsPack(es, m, 0, 256);
    var fields := PackFields(es, m, 0);
    if fields.Some? {
      SetAllFits(Blank(B.MAP_BYTES), fields.value.0);
    }
  }

  // ---- reading --------------------------------------------------------------------------------

  // Reading never goes back.
  predicate Ahead(r: Reading, offset: nat) {
    r.next.Some? ==> offset <= r.next.value
  }

  ghost function RoundsFrom(es: seq<Entry>, m: seq<Field>, raw: Data, offset: nat, count: nat): Reading
    requires AllWellformed(es)
  {
    UnpackRounds(es, m, raw, offset, count)
  }

  lemma {:induction false} EntryAhead(e: Entry, repeating: bool, m: seq<Field>, raw: Data, offset: nat)
    requires Wellformed(e)
    ensures Ahead(UnpackEntry(e, repeating, m, raw, offset), offset)
    decreases e, 0
  {
    if e.Block? {
      var v := Unpack(COUNT, raw, offset);
      if v.Some? && v.value.0.Number? && v.value.0.n >= 0 {
        var count: nat := v.value.0.n;
        RoundsAhead(e.members, WriteTo(m, repeating, e.countTag, ShowNat(count)), raw, v.value.1, count);
      }
    }
  }

  lemma {:induction false} RoundsAhead(es: seq<Entry>, m: seq<Field>, raw: Data, offset: nat, count: nat)
    requires AllWellformed(es)
    ensures Ahead(RoundsFrom(es, m, raw, offset, count), offset)
    decreases es, 2, count
  {
    if count > 0 && offset + BLOCK_MAP <= |raw| {
      var bits := SetBits(raw[offset..offset + BLOCK_MAP]);
      BitsAhead(es, bits, true, m, raw, offset + BLOCK_MAP);
      var one := UnpackBits(es, bits, true, m, raw, offset + BLOCK_MAP);
      if one.next.Some? {
        RoundsAhead(es, one.fields, raw, one.next.value, count - 1);
      }
    }
  }

  lemma {:induction false} BitsAhead(es: seq<Entry>, bits: seq<nat>, repeating: bool, m: seq<Field>, raw: Data, offset: nat)
    requires AllWellformed(es)
    ensures Ahead(UnpackBits(es, bits, repeating, m, raw, offset), offset)
    decreases es, 1, |bits|
  {
    if bits != [] && Lookup(es, bits[0]) < |es| {
      var i := Lookup(es, bits[0]);
      EntryAhead(es[i], repeating, m, raw, offset);
      var one := UnpackEntry(es[i], repeating, m, raw, offset);
      if one.next.Some? {
        BitsAhead(es, bits[1..], repeating, one.fields, raw, one.next.value);
      }
    }
  }

  // A frame that ends before its map and checksum is refused, and one that ends before its
  // map leaves the message alone.
  lemma ShortRefused(es: seq<Entry>, raw: Data, m: seq<Field>)
    requires AllWellformed(es)
    ensures |raw| < 58 ==> !DecodeBody(es, raw, m).1
    ensures |raw| < 54 ==> DecodeBody(es, raw, m).0 == m
  {
    if |raw| >= 54 {
      BitsAhead(es, SetBits(raw[22..54]), false, m, raw, 54);
    }
  }
}
