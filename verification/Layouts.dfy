// Which field sits at which bit of a presence map, and the messages written by it
// (exchangesim/binary/layout.py, with the converters of exchangesim/wire/values.py).
module Layouts {
  import opened Options
  import opened Framing
  import opened Numerals
  import opened Scaling
  import opened FixMessages
  import opened FixObjects
  import opened WireTypes
  import opened Presence
  import B = BinaryFrames

  // ---- from a field's text to its wire value and back ------------------------------------

  // `pairs` are an enumeration's texts and wire values, in their order.
  datatype Converter =
    | Plainly
    | AsNumber
    | AsCharacter
    | AsFlag
    | AsEnum(pairs: seq<(Data, Value)>)
    | AsQuantity(places: nat)

  const YES: Data := [89]
  const NO: Data := [78]

  function Forward(pairs: seq<(Data, Value)>, text: Data): Option<Value> {
    if pairs == [] then None
    else if pairs[0].0 == text then Some(pairs[0].1)
    else Forward(pairs[1..], text)
  }

  function Reverse(pairs: seq<(Data, Value)>, value: Value): Option<Data> {
    if pairs == [] then None
    else if pairs[0].1 == value then Some(pairs[0].0)
    else Reverse(pairs[1..], value)
  }

  // None where the program raises.
  function ToWire(c: Converter, text: Data): Option<Value> {
    match c
    case Plainly => Some(Text(text))
    case AsNumber => (var n := ParseText(text); if n.None? then None else Some(Number(n.value)))
    case AsCharacter => if |text| == 1 then Some(Number(text[0])) else None
    case AsFlag => Some(Number(if text == YES then 1 else 0))
    case AsEnum(pairs) => Forward(pairs, text)
    case AsQuantity(places) => (var n := Scale(text, places); if n.None? then None else Some(Number(n.value)))
  }

  function FromWire(c: Converter, value: Value): Option<Data> {
    match c
    case Plainly => Some(WireTypes.AsText(value))
    case AsNumber => Some(WireTypes.AsText(value))
    case AsCharacter => if value.Number? && 0 <= value.n < 256 then Some([value.n]) else None
    case AsFlag => Some(if value == Number(0) || value == Text([]) then NO else YES)
    case AsEnum(pairs) => (var t := Reverse(pairs, value); if t.None? then Some(WireTypes.AsText(value)) else t)
    case AsQuantity(places) => (var n := AsInt(value); if n.None? then None else Some(Unscale(n.value, places)))
  }

  // ---- layouts ------------------------------------------------------------------------------

  datatype Entry =
    | Plain(bit: nat, kind: WireType, tag: int, conv: Converter)
    | Block(bit: nat, countTag: int, members: seq<Entry>)

  const COUNT := Unsigned(2)
  const BLOCK_MAP := 2

  // As the constructors leave them: bits ascending without repeats, types of a known width.
  ghost predicate Wellformed(e: Entry) {
    match e
    case Plain(_, kind, _, _) => Proper(kind)
    case Block(_, _, members) => AllWellformed(members)
  }

  ghost predicate AllWellformed(es: seq<Entry>) {
    && (forall i, j :: 0 <= i < j < |es| ==> es[i].bit < es[j].bit)
    && (forall i :: 0 <= i < |es| ==> Wellformed(es[i]))
  }

  // ---- packing -----------------------------------------------------------------------------

  datatype Packed = Absent | Bytes(d: Data) | Failed

  function Occurrence(m: seq<Field>, tag: int, index: nat): Option<Data> {
    var values := GetAll(m, tag);
    if index < |values| then Some(values[index]) else None
  }

  // int() of the count; a count that is no number is no count.
  function ReadCount(m: seq<Field>, tag: int, index: nat): Option<int> {
    var text := Occurrence(m, tag, index);
    if text.None? then None else ParseText(text.value)
  }

  // Whether the entries of a block could not be told apart on reading back.
  predicate Ambiguous(members: seq<Entry>, m: seq<Field>, count: int) {
    count > 1 && exists i :: 0 <= i < |members| && members[i].Block? && Has(m, members[i].countTag)
  }

  function PackEntry(e: Entry, m: seq<Field>, index: nat): Packed
    requires Wellformed(e)
    decreases e, 0
  {
    match e
    case Plain(_, kind, tag, conv) =>
      var text := Occurrence(m, tag, index);
      if text.None? || text.value == [] then Absent
      else
        var v := ToWire(conv, text.value);
        if v.None? then Failed
        else
          var d := Pack(kind, v.value);
          if d.None? then Failed else Bytes(d.value)
    case Block(_, countTag, members) =>
      var count := ReadCount(m, countTag, index);
      if count.None? then Absent
      else if Ambiguous(members, m, count.value) then Failed
      else
        var head := Pack(COUNT, Number(count.value));
        if head.None? then Failed
        else
          var rounds := PackRounds(members, m, 0, count.value);
          if rounds.None? then Failed else Bytes(head.value + rounds.value)
  }

  // Entries n.. up to the count, each with its own small map.
  function PackRounds(members: seq<Entry>, m: seq<Field>, n: nat, count: int): Option<Data>
    requires AllWellformed(members)
    decreases members, 2, count - n
  {
    if n >= count then Some([])
    else
      var one, rest := PackRound(members, m, n), PackRounds(members, m, n + 1, count);
      if one.None? || rest.None? then None else Some(one.value + rest.value)
  }

  function PackRound(members: seq<Entry>, m: seq<Field>, n: nat): Option<Data>
    requires AllWellformed(members)
    decreases members, 1
  {
    var fields := PackFields(members, m, n);
    if fields.None? then None
    else
      var presence := PackPresence(fields.value.0, BLOCK_MAP);
      if presence.None? then None else Some(presence.value + fields.value.1)
  }

  // The bits of the entries that are there, and their bytes.
  function PackFields(es: seq<Entry>, m: seq<Field>, n: nat): Option<(seq<nat>, Data)>
    requires AllWellformed(es)
    decreases es, 0
  {
    if es == [] then Some(([], []))
    else
      var first, rest := PackEntry(es[0], m, n), PackFields(es[1..], m, n);
      if first.Failed? || rest.None? then None
      else if first.Absent? then rest
      else Some(([es[0].bit] + rest.value.0, first.d + rest.value.1))
  }

  // The presence map and the body; None where the program raises.
  function EncodeBody(es: seq<Entry>, m: seq<Field>): Option<(Data, Data)>
    requires AllWellformed(es)
  {
    var fields := PackFields(es, m, 0);
    if fields.None? then None
    else
      var presence := PackPresence(fields.value.0, B.MAP_BYTES);
      if presence.None? then None else Some((presence.value, fields.value.1))
  }

  // ---- unpacking -----------------------------------------------------------------------------

  function Lookup(es: seq<Entry>, bit: nat): (i: nat)
    ensures i <= |es| && (i < |es| ==> es[i].bit == bit) && forall j :: 0 <= j < i ==> es[j].bit != bit
  {
    if es == [] || es[0].bit == bit then 0 else 1 + Lookup(es[1..], bit)
  }

  function WriteTo(m: seq<Field>, repeating: bool, tag: int, text: Data): seq<Field> {
    if repeating then m + [Field(tag, text)] else Put(m, tag, text)
  }

  // The message as far as it was read, and the offset behind that; no offset where
  // the program raises.
  datatype Reading = Reading(fields: seq<Field>, next: Option<nat>)

  function UnpackEntry(e: Entry, repeating: bool, m: seq<Field>, raw: Data, offset: nat): Reading
    requires Wellformed(e)
    decreases e, 0
  {
    match e
    case Plain(_, kind, tag, conv) =>
      var v := Unpack(kind, raw, offset);
      if v.None? then Reading(m, None)
      else
        var text := FromWire(conv, v.value.0);
        if text.None? then Reading(m, None)
        else Reading(WriteTo(m, repeating, tag, text.value), Some(v.value.1))
    case Block(_, countTag, members) =>
      var v := Unpack(COUNT, raw, offset);
      if v.None? || !v.value.0.Number? || v.value.0.n < 0 then Reading(m, None)
      else
        var count: nat := v.value.0.n;
        UnpackRounds(members, WriteTo(m, repeating, countTag, ShowNat(count)), raw, v.value.1, count)
  }

  function UnpackRounds(members: seq<Entry>, m: seq<Field>, raw: Data, offset: nat, count: nat): Reading
    requires AllWellformed(members)
    decreases members, 2, count
  {
    if count == 0 then Reading(m, Some(offset))
    else if offset + BLOCK_MAP > |raw| then Reading(m, None)
    else
      var bits := SetBits(raw[offset..offset + BLOCK_MAP]);
      var one := UnpackBits(members, bits, true, m, raw, offset + BLOCK_MAP);
      if one.next.None? then one else UnpackRounds(members, one.fields, raw, one.next.value, count - 1)
  }

  function UnpackBits(es: seq<Entry>, bits: seq<nat>, repeating: bool, m: seq<Field>, raw: Data, offset: nat): Reading
    requires AllWellformed(es)
    decreases es, 1, |bits|
  {
    if bits == [] then Reading(m, Some(offset))
    else
      var i := Lookup(es, bits[0]);
      if i == |es| then Reading(m, None)
      else
        var one := UnpackEntry(es[i], repeating, m, raw, offset);
        if one.next.None? then one else UnpackBits(es, bits[1..], repeating, one.fields, raw, one.next.value)
  }

  // The frame read onto the message, as far as it could be, and whether it is accepted:
  // where the program raises, what was read stays on the message.
  function DecodeBody(es: seq<Entry>, raw: Data, m: seq<Field>): (seq<Field>, bool)
    requires AllWellformed(es)
  {
    if B.BODY_OFFSET > |raw| then (m, false)
    else
      var bits := SetBits(raw[B.HEADER_BYTES..B.BODY_OFFSET]);
      var r := UnpackBits(es, bits, false, m, raw, B.BODY_OFFSET);
      (r.fields, r.next.Some? && r.next.value == |raw| - B.TRAILER_BYTES)
  }

  // ---- what an encoding carries ----------------------------------------------------------------

  function Writes(e: Entry, m: seq<Field>, index: nat): seq<Field>
    decreases e, 0
  {
    match e
    case Plain(_, _, tag, _) =>
      var text := Occurrence(m, tag, index);
      if text.None? || text.value == [] then [] else [Field(tag, text.value)]
    case Block(_, countTag, members) =>
      var count := ReadCount(m, countTag, index);
      if count.None? then []
      else [Field(countTag, Occurrence(m, countTag, index).value)] + WriteRounds(members, m, 0, count.value)
  }

  function WriteRounds(members: seq<Entry>, m: seq<Field>, n: nat, count: int): seq<Field>
    decreases members, 2, count - n
  {
    if n >= count then [] else WriteFields(members, m, n) + WriteRounds(members, m, n + 1, count)
  }

  function WriteFields(es: seq<Entry>, m: seq<Field>, n: nat): seq<Field>
    decreases es, 0
  {
    if es == [] then [] else Writes(es[0], m, n) + WriteFields(es[1..], m, n)
  }
}
