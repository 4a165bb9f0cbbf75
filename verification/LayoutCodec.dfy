// The loops that pack a message and read one back onto it in place
// (exchangesim/binary/layout.py).
module LayoutCodec {
  import opened Options
  import opened Framing
  import opened Numerals
  import opened FixMessages
  import opened FixObjects
  import opened WireTypes
  import opened Presence
  import opened Layouts
  import opened LayoutRoundTrip
  import B = BinaryFrames

  // ---- packing -----------------------------------------------------------------------------

  // The fields packed so far and those still to come.
  ghost predicate PackingFields(es: seq<Entry>, m: seq<Field>, n: nat, i: nat, positions: seq<nat>, body: Data) {
    && i <= |es| && AllWellformed(es)
    && var rest := PackFields(es[i..], m, n);
       PackFields(es, m, n) ==
         if rest.None? then None else Some((positions + rest.value.0, body + rest.value.1))
  }

  lemma PackingStarts(es: seq<Entry>, m: seq<Field>, n: nat)
    requires AllWellformed(es)
    ensures PackingFields(es, m, n, 0, [], [])
  {
    assert es[0..] == es;
    var all := PackFields(es, m, n);
    if all.Some? {
      assert [] + all.value.0 == all.value.0 && [] + all.value.1 == all.value.1;
    }
  }

  lemma PackingStep(es: seq<Entry>, m: seq<Field>, n: nat, i: nat, positions: seq<nat>, body: Data)
    requires i < |es| && PackingFields(es, m, n, i, positions, body)
    ensures match PackEntry(es[i], m, n)
            case Absent => PackingFields(es, m, n, i + 1, positions, body)
            case Bytes(d) => PackingFields(es, m, n, i + 1, positions + [es[i].bit], body + d)
            case Failed => PackFields(es, m, n).None?
  {
    assert es[i..][0] == es[i] && es[i..][1..] == es[i + 1..];
    var rest := PackFields(es[i + 1..], m, n);
    if rest.Some? && PackEntry(es[i], m, n).Bytes? {
      assert positions + ([es[i].bit] + rest.value.0) == (positions + [es[i].bit]) + rest.value.0;
      Associates(body, PackEntry(es[i], m, n).d, rest.value.1);
    }
  }

  method Packing(e: Entry, m: seq<Field>, index: nat) returns (r: Packed)
    requires Wellformed(e)
    ensures r == PackEntry(e, m, index)
    decreases e, 1
  {
    match e
    case Plain(_, kind, tag, conv) =>
      var text := Occurrence(m, tag, index);
      if text.None? || text.value == [] {
        return Absent;
      }
      var value := ToWire(conv, text.value);
      if value.None? {
        return Failed;
      }
      var d := Pack(kind, value.value);
      r := if d.None? then Failed else Bytes(d.value);
    case Block(_, countTag, members) =>
      r := PackBlock(e, m, index);
  }

  method PackingAll(es: seq<Entry>, m: seq<Field>, n: nat) returns (r: Option<(seq<nat>, Data)>)
    requires AllWellformed(es)
    ensures r == PackFields(es, m, n)
    decreases es, 0
  {
    var positions: seq<nat>, body: Data := [], [];
    PackingStarts(es, m, n);
    for i := 0 to |es|
      invariant PackingFields(es, m, n, i, positions, body)
    {
      PackingStep(es, m, n, i, positions, body);
      var packed := Packing(es[i], m, n);
      match packed
      case Failed => return None;
      case Absent =>
      case Bytes(d) => positions, body := positions + [es[i].bit], body + d;
    }
    assert positions + [] == positions && body + [] == body;
    r := Some((positions, body));
  }

  // The rounds packed so far and those still to come.
  ghost predicate PackingRounds(members: seq<Entry>, m: seq<Field>, n: nat, count: int, chunks: Data) {
    && AllWellformed(members)
    && var rest := PackRounds(members, m, n, count);
       PackRounds(members, m, 0, count) == if rest.None? then None else Some(chunks + rest.value)
  }

  lemma RoundsStep(members: seq<Entry>, m: seq<Field>, n: nat, count: int, chunks: Data)
    requires n < count && PackingRounds(members, m, n, count, chunks)
    ensures var one := PackRound(members, m, n);
            if one.None? then PackRounds(members, m, 0, count).None?
            else PackingRounds(members, m, n + 1, count, chunks + one.value)
  {
    var one, rest := PackRound(members, m, n), PackRounds(members, m, n + 1, count);
    if one.Some? && rest.Some? {
      Associates(chunks, one.value, rest.value);
    }
  }

  lemma RoundsStart(members: seq<Entry>, m: seq<Field>, count: int)
    requires AllWellformed(members)
    ensures PackingRounds(members, m, 0, count, [])
  {
    var all := PackRounds(members, m, 0, count);
    if all.Some? {
      assert [] + all.value == all.value;
    }
  }

  method PackingEntries(members: seq<Entry>, m: seq<Field>, count: int) returns (r: Option<Data>)
    requires AllWellformed(members)
    ensures r == PackRounds(members, m, 0, count)
    decreases members, 1
  {
    var chunks: Data := [];
    var entry := 0;
    RoundsStart(members, m, count);
    while entry < count
      invariant PackingRounds(members, m, entry, count, chunks)
    {
      RoundsStep(members, m, entry, count, chunks);
      var fields := PackingAll(members, m, entry);
      if fields.None? {
        return None;
      }
      var presence := WritePresence(fields.value.0, BLOCK_MAP);
      if presence.None? {
        return None;
      }
      chunks := chunks + (presence.value + fields.value.1);
      entry := entry + 1;
    }
    assert chunks + [] == chunks;
    r := Some(chunks);
  }

  method PackBlock(e: Entry, m: seq<Field>, index: nat) returns (r: Packed)
    requires e.Block? && Wellformed(e)
    ensures r == PackEntry(e, m, index)
    decreases e, 0
  {
    var count := ReadCount(m, e.countTag, index);
    if count.None? {
      return Absent;
    }
    if Ambiguous(e.members, m, count.value) {
      return Failed;
    }
    var head := Pack(COUNT, Number(count.value));
    if head.None? {
      return Failed;
    }
    var rounds := PackingEntries(e.members, m, count.value);
    r := if rounds.None? then Failed else Bytes(head.value + rounds.value);
  }

  method Encode(es: seq<Entry>, message: Message) returns (r: Option<(Data, Data)>)
    requires AllWellformed(es)
    ensures r == EncodeBody(es, message.fields)
  {
    var fields := PackingAll(es, message.fields, 0);
    if fields.None? {
      return None;
    }
    var presence := WritePresence(fields.value.0, B.MAP_BYTES);
    r := if presence.None? then None else Some((presence.value, fields.value.1));
  }

  // ---- unpacking, onto the message itself -------------------------------------------------

  // The message holds what was read, and the offset is behind it, if reading did not fail.
  ghost predicate Read(message: Message, next: Option<nat>, r: Reading)
    reads message
  {
    Reading(message.fields, next) == r
  }

  method Write(message: Message, repeating: bool, tag: int, text: Data)
    modifies message
    ensures message.fields == WriteTo(old(message.fields), repeating, tag, text)
  {
    if repeating {
      message.Append(tag, text);
    } else {
      message.Set(tag, text);
    }
  }

  method Unpacking(e: Entry, repeating: bool, message: Message, raw: Data, offset: nat) returns (next: Option<nat>)
    requires Wellformed(e)
    modifies message
    ensures Read(message, next, UnpackEntry(e, repeating, old(message.fields), raw, offset))
    decreases e, 1
  {
    match e
    case Plain(_, kind, tag, conv) =>
      var v := Unpack(kind, raw, offset);
      if v.None? {
        return None;
      }
      var text := FromWire(conv, v.value.0);
      if text.None? {
        return None;
      }
      Write(message, repeating, tag, text.value);
      next := Some(v.value.1);
    case Block(_, countTag, members) =>
      var v := Unpack(COUNT, raw, offset);
      if v.None? || !v.value.0.Number? || v.value.0.n < 0 {
        return None;
      }
      Write(message, repeating, countTag, ShowNat(v.value.0.n));
      next := UnpackingRounds(members, message, raw, v.value.1, v.value.0.n);
  }

  // What reading from here still comes to, by rounds and by bits.
  ghost predicate RoundsAhead(members: seq<Entry>, message: Message, raw: Data, at: nat, left: nat,
                              all: Reading)
    reads message
  {
    AllWellformed(members) && UnpackRounds(members, message.fields, raw, at, left) == all
  }

  ghost predicate BitsAhead(es: seq<Entry>, bits: seq<nat>, repeating: bool, message: Message, raw: Data, at: nat,
                            all: Reading)
    reads message
  {
    AllWellformed(es) && UnpackBits(es, bits, repeating, message.fields, raw, at) == all
  }

  method UnpackingRound(members: seq<Entry>, message: Message, raw: Data, at: nat, ghost left: nat,
                        ghost all: Reading) returns (next: Option<nat>)
    requires RoundsAhead(members, message, raw, at, left + 1, all)
    modifies message
    ensures if next.None? then Read(message, next, all) else RoundsAhead(members, message, raw, next.value, left, all)
    decreases members, 2
  {
    var bits := ReadPresence(raw, at, BLOCK_MAP);
    if bits.None? {
      return None;
    }
    next := UnpackingBits(members, bits.value, true, message, raw, at + BLOCK_MAP);
  }

  method UnpackingRounds(members: seq<Entry>, message: Message, raw: Data, offset: nat, count: nat)
    returns (next: Option<nat>)
    requires AllWellformed(members)
    modifies message
    ensures Read(message, next, UnpackRounds(members, old(message.fields), raw, offset, count))
    decreases members, 3
  {
    ghost var all := UnpackRounds(members, message.fields, raw, offset, count);
    next := Some(offset);
    for entry := 0 to count
      invariant next.Some? && RoundsAhead(members, message, raw, next.value, count - entry, all)
    {
      next := UnpackingRound(members, message, raw, next.value, count - entry - 1, all);
      if next.None? {
        return;
      }
    }
  }

  method UnpackingBits(es: seq<Entry>, bits: seq<nat>, repeating: bool, message: Message, raw: Data, offset: nat)
    returns (next: Option<nat>)
    requires AllWellformed(es)
    modifies message
    ensures Read(message, next, UnpackBits(es, bits, repeating, old(message.fields), raw, offset))
    decreases es, 1
  {
    ghost var all := UnpackBits(es, bits, repeating, message.fields, raw, offset);
    var at: nat := offset;
    assert bits[0..] == bits;
    for k := 0 to |bits|
      invariant BitsAhead(es, bits[k..], repeating, message, raw, at, all)
    {
      assert bits[k..][0] == bits[k] && bits[k..][1..] == bits[k + 1..];
      var i := Lookup(es, bits[k]);
      if i == |es| {
        return None;
      }
      var one := Unpacking(es[i], repeating, message, raw, at);
      if one.None? {
        return None;
      }
      at := one.value;
    }
    next := Some(at);
  }

  // Reads a frame onto the message; what has been read stays there when it is refused.
  method Decode(es: seq<Entry>, raw: Data, message: Message) returns (accepted: bool)
    requires AllWellformed(es)
    modifies message
    ensures (message.fields, accepted) == DecodeBody(es, raw, old(message.fields))
  {
    var bits := ReadPresence(raw, B.HEADER_BYTES, B.MAP_BYTES);
    if bits.None? {
      return false;
    }
    var next := UnpackingBits(es, bits.value, false, message, raw, B.BODY_OFFSET);
    accepted := next.Some? && next.value == |raw| - B.TRAILER_BYTES;
  }
}
