// Decoding a body gives back what was encoded, repeating and nested blocks included
// (exchangesim/binary/layout.py).
module LayoutRoundTrip {
  import opened Options
  import opened Framing
  import opened Numerals
  import opened FixMessages
  import opened FixObjects
  import opened WireTypes
  import opened Presence
  import opened Layouts

  // ---- the tags of a layout -------------------------------------------------------------

  function TagSet(e: Entry): set<int>
    decreases e
  {
    match e
    case Plain(_, _, tag, _) => {tag}
    case Block(_, countTag, members) => {countTag} + TagSets(members)
  }

  function TagSets(es: seq<Entry>): set<int>
    decreases es
  {
    if es == [] then {} else TagSet(es[0]) + TagSets(es[1..])
  }

  // No tag is used twice.
  ghost predicate Distinct(e: Entry)
    decreases e
  {
    match e
    case Plain(_, _, _, _) => true
    case Block(_, countTag, members) => countTag !in TagSets(members) && AllDistinct(members)
  }

  ghost predicate AllDistinct(es: seq<Entry>)
    decreases es
  {
    es != [] ==> Distinct(es[0]) && TagSet(es[0]) !! TagSets(es[1..]) && AllDistinct(es[1..])
  }

  ghost predicate Within(fs: seq<Field>, tags: set<int>) {
    forall i :: 0 <= i < |fs| ==> fs[i].tag in tags
  }

  ghost predicate Free(fs: seq<Field>, tags: set<int>) {
    forall i :: 0 <= i < |fs| ==> fs[i].tag !in tags
  }

  // ---- values the wire can carry --------------------------------------------------------

  // A text that packs comes back as it was.
  predicate Restores(kind: WireType, conv: Converter, text: Data)
    requires Proper(kind)
  {
    var v := ToWire(conv, text);
    v.Some? && Pack(kind, v.value).Some? ==> FromWire(conv, Restored(kind, v.value)) == Some(text)
  }

  predicate CanonicalCount(text: Data) {
    ParseText(text).Some? && text == ShowInt(ParseText(text).value)
  }

  ghost predicate Faithful(e: Entry, m: seq<Field>)
    requires Wellformed(e)
    decreases e
  {
    match e
    case Plain(_, kind, tag, conv) =>
      var values := GetAll(m, tag);
      forall i :: 0 <= i < |values| && values[i] != [] ==> Restores(kind, conv, values[i])
    case Block(_, countTag, members) =>
      var values := GetAll(m, countTag);
      (forall i :: 0 <= i < |values| ==> CanonicalCount(values[i])) && AllFaithful(members, m)
  }

  ghost predicate AllFaithful(es: seq<Entry>, m: seq<Field>)
    requires AllWellformed(es)
    decreases es
  {
    forall i :: 0 <= i < |es| ==> Faithful(es[i], m)
  }

  // ---- reading entries where they were packed ----------------------------------------------

  // Reading an entry from here writes these fields and stops there.
  ghost predicate ReadsEntry(e: Entry, repeating: bool, m0: seq<Field>, raw: Data, offset: nat, w: seq<Field>, end: nat) {
    Wellformed(e) && UnpackEntry(e, repeating, m0, raw, offset) == Reading(m0 + w, Some(end))
  }

  ghost predicate ReadsRounds(es: seq<Entry>, m0: seq<Field>, raw: Data, offset: nat, left: nat, w: seq<Field>, end: nat) {
    AllWellformed(es) && UnpackRounds(es, m0, raw, offset, left) == Reading(m0 + w, Some(end))
  }

  ghost predicate ReadsBits(es: seq<Entry>, bits: seq<nat>, repeating: bool, m0: seq<Field>, raw: Data, offset: nat,
                            w: seq<Field>, end: nat) {
    AllWellformed(es) && UnpackBits(es, bits, repeating, m0, raw, offset) == Reading(m0 + w, Some(end))
  }

  // How an entry, the rounds of a block and the fields of a list are packed.
  ghost predicate PacksEntry(e: Entry, m: seq<Field>, index: nat, d: Data, w: seq<Field>) {
    Wellformed(e) && Faithful(e, m) && PackEntry(e, m, index) == Bytes(d) && w == Writes(e, m, index)
  }

  ghost predicate PacksRounds(es: seq<Entry>, m: seq<Field>, n: nat, count: nat, d: Data, w: seq<Field>) {
    && AllWellformed(es) && AllFaithful(es, m) && n <= count && PackRounds(es, m, n, count) == Some(d)
    && w == WriteRounds(es, m, n, count)
  }

  ghost predicate PacksRound(es: seq<Entry>, m: seq<Field>, n: nat, d: Data, w: seq<Field>) {
    AllWellformed(es) && AllFaithful(es, m) && PackRound(es, m, n) == Some(d) && w == WriteFields(es, m, n)
  }

  // The fields from k on.
  ghost predicate PacksFields(es: seq<Entry>, k: nat, m: seq<Field>, n: nat, bits: seq<nat>, d: Data, w: seq<Field>) {
    && k <= |es| && AllWellformed(es) && AllFaithful(es, m) && PackFields(es[k..], m, n) == Some((bits, d))
    && w == WriteFields(es[k..], m, n)
  }

  // Whether what is written can only be added to the message.
  ghost predicate Adds(repeating: bool, m0: seq<Field>, es: seq<Entry>) {
    repeating || (Free(m0, TagSets(es)) && AllDistinct(es))
  }

  lemma {:induction false} EntryWritesWithin(e: Entry, m: seq<Field>, index: nat)
    ensures Within(Writes(e, m, index), TagSet(e))
    decreases e, 0
  {
    if e.Block? {
      var count := ReadCount(m, e.countTag, index);
      if count.Some? {
        RoundsWriteWithin(e.members, m, 0, count.value);
      }
    }
  }

  lemma {:induction false} RoundsWriteWithin(es: seq<Entry>, m: seq<Field>, n: nat, count: int)
    ensures Within(WriteRounds(es, m, n, count), TagSets(es))
    decreases es, 2, count - n
  {
    if n < count {
      FieldsWriteWithin(es, m, n);
      RoundsWriteWithin(es, m, n + 1, count);
    }
  }

  lemma {:induction false} FieldsWriteWithin(es: seq<Entry>, m: seq<Field>, n: nat)
    ensures Within(WriteFields(es, m, n), TagSets(es))
    decreases es, 1
  {
    if es != [] {
      EntryWritesWithin(es[0], m, n);
      FieldsWriteWithin(es[1..], m, n);
    }
  }

  lemma {:induction false} PutNew(fs: seq<Field>, tag: int, text: Data)
    requires Free(fs, {tag})
    ensures Put(fs, tag, text) == fs + [Field(tag, text)]
    decreases |fs|
  {
    if fs != [] {
      assert fs[0].tag !in {tag};
      PutNew(fs[1..], tag, text);
      assert fs == [fs[0]] + fs[1..];
    }
  }

  lemma WritesNew(m0: seq<Field>, repeating: bool, tag: int, text: Data)
    requires repeating || Free(m0, {tag})
    ensures WriteTo(m0, repeating, tag, text) == m0 + [Field(tag, text)]
  {
    if !repeating {
      PutNew(m0, tag, text);
    }
  }

  lemma PlainBack(e: Entry, m: seq<Field>, index: nat, repeating: bool, m0: seq<Field>, raw: Data, offset: nat, d: Data,
                  w: seq<Field>, end: nat)
    requires e.Plain? && PacksEntry(e, m, index, d, w) && Stands(d, raw, offset) && end == offset + |d|
    requires repeating || Free(m0, TagSet(e))
    ensures ReadsEntry(e, repeating, m0, raw, offset, w, end)
  {
    var text := GetAll(m, e.tag)[index];
    assert Restores(e.kind, e.conv, text);
    UnpackPacked(e.kind, ToWire(e.conv, text).value, raw, offset);
    WritesNew(m0, repeating, e.tag, text);
  }

  lemma CountBack(count: int, raw: Data, offset: nat)
    requires Pack(COUNT, Number(count)).Some? && Stands(Pack(COUNT, Number(count)).value, raw, offset)
    ensures count >= 0 && Unpack(COUNT, raw, offset) == Some((Number(count), offset + 2))
    ensures |Pack(COUNT, Number(count)).value| == 2
  {
    UnpackPacked(COUNT, Number(count), raw, offset);
  }

  // A packed block is its count and its rounds.
  lemma BlockParts(e: Entry, m: seq<Field>, index: nat, d: Data, w: seq<Field>)
    returns (count: nat, head: Data, rounds: Data, more: seq<Field>)
    requires e.Block? && PacksEntry(e, m, index, d, w)
    ensures Pack(COUNT, Number(count)) == Some(head) && d == head + rounds
    ensures PacksRounds(e.members, m, 0, count, rounds, more) && w == [Field(e.countTag, ShowNat(count))] + more
  {
    assert CanonicalCount(Occurrence(m, e.countTag, index).value);
    count := ReadCount(m, e.countTag, index).value;
    head, rounds := Pack(COUNT, Number(count)).value, PackRounds(e.members, m, 0, count).value;
    more := WriteRounds(e.members, m, 0, count);
  }

  lemma BlockReads(e: Entry, repeating: bool, m0: seq<Field>, raw: Data, offset: nat, count: nat, more: seq<Field>,
                   end: nat)
    requires e.Block? && Wellformed(e) && Unpack(COUNT, raw, offset) == Some((Number(count), offset + 2))
    requires repeating || Free(m0, {e.countTag})
    requires ReadsRounds(e.members, m0 + [Field(e.countTag, ShowNat(count))], raw, offset + 2, count, more, end)
    ensures ReadsEntry(e, repeating, m0, raw, offset, [Field(e.countTag, ShowNat(count))] + more, end)
  {
    WritesNew(m0, repeating, e.countTag, ShowNat(count));
    JoinsUp(m0, Field(e.countTag, ShowNat(count)), more);
  }

  lemma {:induction false} EntryBack(e: Entry, m: seq<Field>, index: nat, repeating: bool, m0: seq<Field>, raw: Data,
                                     offset: nat, d: Data, w: seq<Field>, end: nat)
    requires PacksEntry(e, m, index, d, w) && Stands(d, raw, offset) && end == offset + |d|
    requires repeating || Free(m0, TagSet(e))
    ensures ReadsEntry(e, repeating, m0, raw, offset, w, end)
    decreases e, 0
  {
    if e.Plain? {
      PlainBack(e, m, index, repeating, m0, raw, offset, d, w, end);
    } else {
      var count, head, rounds, more := BlockParts(e, m, index, d, w);
      StandsParts(head, rounds, raw, offset);
      CountBack(count, raw, offset);
      RoundsBack(e.members, m, 0, count, m0 + [Field(e.countTag, ShowNat(count))], raw, offset + 2, rounds, more, count,
                 end);
      BlockReads(e, repeating, m0, raw, offset, count, more, end);
    }
  }

  lemma JoinsUp(m0: seq<Field>, f: Field, more: seq<Field>)
    ensures (m0 + [f]) + more == m0 + ([f] + more)
  {
  }

  lemma FieldsAssociate(a: seq<Field>, b: seq<Field>, c: seq<Field>)
    ensures (a + b) + c == a + (b + c)
  {
  }

  lemma RoundsOn(es: seq<Entry>, m0: seq<Field>, raw: Data, offset: nat, left: nat, first: seq<Field>, next: nat,
                 later: seq<Field>, end: nat)
    requires offset + 2 <= |raw|
    requires ReadsBits(es, SetBits(raw[offset..offset + 2]), true, m0, raw, offset + 2, first, next)
    requires ReadsRounds(es, m0 + first, raw, next, left, later, end)
    ensures ReadsRounds(es, m0, raw, offset, left + 1, first + later, end)
  {
    FieldsAssociate(m0, first, later);
  }

  lemma PackedRounds(es: seq<Entry>, m: seq<Field>, n: nat, count: nat, d: Data, w: seq<Field>)
    returns (one: Data, rest: Data, first: seq<Field>, later: seq<Field>)
    requires n < count && PacksRounds(es, m, n, count, d, w)
    ensures PacksRound(es, m, n, one, first) && PacksRounds(es, m, n + 1, count, rest, later)
    ensures d == one + rest && w == first + later
  {
    one, rest := PackRound(es, m, n).value, PackRounds(es, m, n + 1, count).value;
    first, later := WriteFields(es, m, n), WriteRounds(es, m, n + 1, count);
  }

  lemma RoundsEnd(es: seq<Entry>, m0: seq<Field>, raw: Data, offset: nat)
    requires AllWellformed(es)
    ensures ReadsRounds(es, m0, raw, offset, 0, [], offset)
  {
    assert m0 + [] == m0;
  }

  lemma {:induction false} RoundsBack(es: seq<Entry>, m: seq<Field>, n: nat, count: nat, m0: seq<Field>, raw: Data,
                                      offset: nat, d: Data, w: seq<Field>, left: nat, end: nat)
    requires PacksRounds(es, m, n, count, d, w) && Stands(d, raw, offset) && left == count - n && end == offset + |d|
    ensures ReadsRounds(es, m0, raw, offset, left, w, end)
    decreases es, 2, left, 0
  {
    if left == 0 {
      RoundsEnd(es, m0, raw, offset);
    } else {
      var one, rest, first, later := PackedRounds(es, m, n, count, d, w);
      NextRoundBack(es, m, n, count, m0, raw, offset, one, rest, first, later, left - 1,
                    offset + |one|, end);
    }
  }

  lemma {:induction false} NextRoundBack(es: seq<Entry>, m: seq<Field>, n: nat, count: nat, m0: seq<Field>, raw: Data,
                                         offset: nat, one: Data, rest: Data, first: seq<Field>, later: seq<Field>,
                                         left: nat, mid: nat, end: nat)
    requires left + 1 == count - n && PacksRound(es, m, n, one, first) && PacksRounds(es, m, n + 1, count, rest, later)
    requires Stands(one + rest, raw, offset) && mid == offset + |one| && end == mid + |rest|
    ensures ReadsRounds(es, m0, raw, offset, left + 1, first + later, end)
    decreases es, 2, left, 1
  {
    StandsParts(one, rest, raw, offset);
    RoundBack(es, m, n, m0, raw, offset, one, first, mid);
    RoundsBack(es, m, n + 1, count, m0 + first, raw, mid, rest, later, left, end);
    RoundsOn(es, m0, raw, offset, left, first, mid, later, end);
  }

  // One entry of a block: its small map, then its fields.
  lemma RoundParts(es: seq<Entry>, m: seq<Field>, n: nat, d: Data, w: seq<Field>)
    returns (presence: Data, bits: seq<nat>, body: Data)
    requires PacksRound(es, m, n, d, w)
    ensures d == presence + body && |presence| == 2 && SetBits(presence) == bits
    ensures PacksFields(es, 0, m, n, bits, body, w)
  {
    assert es[0..] == es;
    MapBack(es, m, n, BLOCK_MAP);
    bits, body := PackFields(es, m, n).value.0, PackFields(es, m, n).value.1;
    presence := PackPresence(bits, BLOCK_MAP).value;
  }

  lemma {:induction false} RoundBack(es: seq<Entry>, m: seq<Field>, n: nat, m0: seq<Field>, raw: Data, offset: nat,
                                     d: Data, w: seq<Field>, end: nat)
    requires PacksRound(es, m, n, d, w) && Stands(d, raw, offset) && end == offset + |d|
    ensures offset + 2 <= |raw|
    ensures ReadsBits(es, SetBits(raw[offset..offset + 2]), true, m0, raw, offset + 2, w, end)
    decreases es, 1, |es| + 1
  {
    var presence, bits, body := RoundParts(es, m, n, d, w);
    StandsParts(presence, body, raw, offset);
    FieldsBack(es, 0, m, n, true, m0, raw, offset + 2, bits, body, w, end);
  }

  // The bits of the fields that are there are what their map says.
  lemma MapBack(es: seq<Entry>, m: seq<Field>, n: nat, width: nat)
    requires AllWellformed(es) && PackFields(es, m, n).Some?
    requires PackPresence(PackFields(es, m, n).value.0, width).Some?
    ensures var ps := PackFields(es, m, n).value.0;
      |PackPresence(ps, width).value| == width && SetBits(PackPresence(ps, width).value) == ps
  {
    var ps := PackFields(es, m, n).value.0;
    BitsAscend(es, m, n);
    SetAllFits(Blank(width), ps);
    ReadsWritten(ps, width);
  }

  lemma {:induction false} BitsAscend(es: seq<Entry>, m: seq<Field>, n: nat)
    requires AllWellformed(es) && PackFields(es, m, n).Some?
    ensures var ps := PackFields(es, m, n).value.0;
      Ascending(ps) && forall i :: 0 <= i < |ps| ==> es != [] && ps[i] >= es[0].bit
    decreases |es|
  {
    if es != [] {
      BitsAscend(es[1..], m, n);
    }
  }

  lemma {:induction false} LookupIs(es: seq<Entry>, k: nat)
    requires AllWellformed(es) && k < |es|
    ensures Lookup(es, es[k].bit) == k
  {
  }

  lemma BitsOn(es: seq<Entry>, k: nat, bits: seq<nat>, repeating: bool, m0: seq<Field>, raw: Data, offset: nat,
               first: seq<Field>, next: nat, later: seq<Field>, end: nat)
    requires k < |es| && ReadsEntry(es[k], repeating, m0, raw, offset, first, next)
    requires ReadsBits(es, bits, repeating, m0 + first, raw, next, later, end)
    ensures ReadsBits(es, [es[k].bit] + bits, repeating, m0, raw, offset, first + later, end)
  {
    LookupIs(es, k);
    assert ([es[k].bit] + bits)[1..] == bits;
    FieldsAssociate(m0, first, later);
  }

  lemma BitsEnd(es: seq<Entry>, repeating: bool, m0: seq<Field>, raw: Data, offset: nat)
    requires AllWellformed(es)
    ensures ReadsBits(es, [], repeating, m0, raw, offset, [], offset)
  {
    assert m0 + [] == m0;
  }

  // The fields from k on, when the k-th is absent and when it is there.
  lemma PackedFields(es: seq<Entry>, k: nat, m: seq<Field>, n: nat, bits: seq<nat>, d: Data, w: seq<Field>)
    returns (there: bool, first: Data, wrote: seq<Field>, bits1: seq<nat>, rest: Data, later: seq<Field>)
    requires k < |es| && PacksFields(es, k, m, n, bits, d, w)
    ensures PacksFields(es, k + 1, m, n, bits1, rest, later)
    ensures !there ==> bits == bits1 && d == rest && w == later
    ensures there ==> PacksEntry(es[k], m, n, first, wrote) && bits == [es[k].bit] + bits1 && d == first + rest && w == wrote + later
  {
    assert es[k..][0] == es[k] && es[k..][1..] == es[k + 1..];
    var e := PackEntry(es[k], m, n);
    there, first, wrote := e.Bytes?, if e.Bytes? then e.d else [], Writes(es[k], m, n);
    bits1, rest := PackFields(es[k + 1..], m, n).value.0, PackFields(es[k + 1..], m, n).value.1;
    later := WriteFields(es[k + 1..], m, n);
    if !there {
      assert wrote == [] && [] + later == later;
    }
  }

  lemma AddsFirst(repeating: bool, m0: seq<Field>, es: seq<Entry>, k: nat)
    requires k < |es| && Adds(repeating, m0, es[k..])
    ensures (repeating || Free(m0, TagSet(es[k]))) && Adds(repeating, m0, es[k + 1..])
  {
    assert es[k..][0] == es[k] && es[k..][1..] == es[k + 1..];
  }

  lemma AddsRest(repeating: bool, m0: seq<Field>, es: seq<Entry>, k: nat, m: seq<Field>, n: nat, w: seq<Field>)
    requires k < |es| && Adds(repeating, m0, es[k..]) && w == Writes(es[k], m, n)
    ensures Adds(repeating, m0 + w, es[k + 1..])
  {
    assert es[k..][0] == es[k] && es[k..][1..] == es[k + 1..];
    EntryWritesWithin(es[k], m, n);
  }

  lemma {:induction false} FieldsBack(es: seq<Entry>, k: nat, m: seq<Field>, n: nat, repeating: bool, m0: seq<Field>,
                                      raw: Data, offset: nat, bits: seq<nat>, d: Data, w: seq<Field>, end: nat)
    requires PacksFields(es, k, m, n, bits, d, w) && Stands(d, raw, offset) && Adds(repeating, m0, es[k..])
    requires end == offset + |d|
    ensures ReadsBits(es, bits, repeating, m0, raw, offset, w, end)
    decreases es, 1, |es| - k, 0
  {
    if k == |es| {
      BitsEnd(es, repeating, m0, raw, offset);
    } else {
      var there, first, wrote, bits1, rest, later := PackedFields(es, k, m, n, bits, d, w);
      AddsFirst(repeating, m0, es, k);
      if there {
        StandsParts(first, rest, raw, offset);
        AddsRest(repeating, m0, es, k, m, n, wrote);
        PresentBack(es, k, m, n, repeating, m0, raw, offset, first, wrote, bits1, rest, later, offset + |first|,
                    end);
      } else {
        FieldsBack(es, k + 1, m, n, repeating, m0, raw, offset, bits1, rest, later, end);
      }
    }
  }

  lemma {:induction false} PresentBack(es: seq<Entry>, k: nat, m: seq<Field>, n: nat, repeating: bool, m0: seq<Field>,
                                       raw: Data, offset: nat, first: Data, wrote: seq<Field>, bits: seq<nat>,
                                       rest: Data, later: seq<Field>, mid: nat, end: nat)
    requires mid == offset + |first| && end == mid + |rest|
    requires k < |es| && PacksFields(es, k + 1, m, n, bits, rest, later) && PacksEntry(es[k], m, n, first, wrote)
    requires Stands(first, raw, offset) && Stands(rest, raw, mid)
    requires (repeating || Free(m0, TagSet(es[k]))) && Adds(repeating, m0 + wrote, es[k + 1..])
    ensures ReadsBits(es, [es[k].bit] + bits, repeating, m0, raw, offset, wrote + later, end)
    decreases es, 1, |es| - k - 1, 1
  {
    EntryBack(es[k], m, n, repeating, m0, raw, offset, first, wrote, mid);
    FieldsBack(es, k + 1, m, n, repeating, m0 + wrote, raw, mid, bits, rest, later, end);
    BitsOn(es, k, bits, repeating, m0, raw, offset, wrote, mid, later, end);
  }
}
