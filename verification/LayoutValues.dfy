// Every tag of a layout keeps its values, in order, through encoding and decoding
// (exchangesim/binary/layout.py).
module LayoutValues {
  import opened Options
  import opened Framing
  import opened Numerals
  import opened Scaling
  import opened FixMessages
  import opened FixObjects
  import R = FixRoundTrip
  import opened WireTypes
  import opened Presence
  import opened Layouts
  import opened LayoutRoundTrip
  import opened LayoutSpelling
  import B = BinaryFrames

  // ---- decoding what was encoded ---------------------------------------------------------

  // A body that encodes, framed and decoded onto a message without its tags, is accepted,
  // and adds exactly what the encoding carries.
  lemma DecodesEncoded(es: seq<Entry>, m: seq<Field>, h: B.Header, m0: seq<Field>)
    requires AllWellformed(es) && AllSpelled(es, m) && AllDistinct(es) && Free(m0, TagSets(es))
    requires EncodeBody(es, m).Some?
    requires B.PackFrame(h, EncodeBody(es, m).value.0, EncodeBody(es, m).value.1).Some?
    ensures var f := B.PackFrame(h, EncodeBody(es, m).value.0, EncodeBody(es, m).value.1).value;
            DecodeBody(es, f, m0) == (m0 + WriteFields(es, m, 0), true)
  {
    var presence, body := EncodeBody(es, m).value.0, EncodeBody(es, m).value.1;
    var bits := PackFields(es, m, 0).value.0;
    MapBack(es, m, 0, B.MAP_BYTES);
    B.UnpacksPacked(h, presence, body);
    var f := B.PackFrame(h, presence, body).value;
    BodyStands(f, presence, body);
    assert es[0..] == es;
    AllSpelledExactly(es, m);
    FieldsBack(es, 0, m, 0, false, m0, f, B.BODY_OFFSET, bits, body, WriteFields(es, m, 0), |f| - B.TRAILER_BYTES);
    DecodesRead(es, bits, f, m0, WriteFields(es, m, 0));
  }

  // A body read to its end by its map is decoded.
  lemma DecodesRead(es: seq<Entry>, bits: seq<nat>, f: Data, m0: seq<Field>, w: seq<Field>)
    requires B.BODY_OFFSET + B.TRAILER_BYTES <= |f| && SetBits(f[B.HEADER_BYTES..B.BODY_OFFSET]) == bits
    requires ReadsBits(es, bits, false, m0, f, B.BODY_OFFSET, w, |f| - B.TRAILER_BYTES)
    ensures DecodeBody(es, f, m0) == (m0 + w, true)
  {
  }

  lemma BodyStands(f: Data, presence: Data, body: Data)
    requires |presence| == B.MAP_BYTES && |f| == B.BODY_OFFSET + |body| + B.TRAILER_BYTES
    requires B.BodyOf(f) == presence + body
    ensures f[B.HEADER_BYTES..B.BODY_OFFSET] == presence && Stands(body, f, B.BODY_OFFSET)
  {
    assert Stands(presence + body, f, B.HEADER_BYTES);
    StandsParts(presence, body, f, B.HEADER_BYTES);
  }

  // ---- the values of one tag -----------------------------------------------------------------

  // What an entry writes at indices n.. below the limit.
  function Repeats(e: Entry, m: seq<Field>, n: nat, limit: int): seq<Field>
    decreases limit - n
  {
    if n >= limit then [] else Writes(e, m, n) + Repeats(e, m, n + 1, limit)
  }

  predicate NoneEmpty(values: seq<Data>) {
    forall i :: 0 <= i < |values| ==> values[i] != []
  }

  function CountOf(m: seq<Field>, tag: int): nat {
    var count := ReadCount(m, tag, 0);
    if count.None? || count.value < 0 then 0 else count.value
  }

  // No tag occurs more often than it will be asked for: once at the top, and in a block
  // as often as its count says.
  ghost predicate Fits(e: Entry, m: seq<Field>, limit: nat)
    decreases e
  {
    match e
    case Plain(_, _, tag, _) => |GetAll(m, tag)| <= limit && NoneEmpty(GetAll(m, tag))
    case Block(_, countTag, members) =>
      |GetAll(m, countTag)| <= limit && AllFit(members, m, CountOf(m, countTag))
  }

  ghost predicate AllFit(es: seq<Entry>, m: seq<Field>, limit: nat)
    decreases es
  {
    forall i :: 0 <= i < |es| ==> Fits(es[i], m, limit)
  }

  lemma {:induction false} GetAllNone(fs: seq<Field>, tags: set<int>, tag: int)
    requires Within(fs, tags) && tag !in tags
    ensures GetAll(fs, tag) == []
    decreases |fs|
  {
    if fs != [] {
      assert fs[0].tag in tags;
      GetAllNone(fs[1..], tags, tag);
    }
  }

  // The values n.. of a plain entry, up to the limit, without the empty ones.
  function Kept(values: seq<Data>, n: nat, limit: int): seq<Data>
    decreases limit - n
  {
    if n >= limit then []
    else (if n < |values| && values[n] != [] then [values[n]] else []) + Kept(values, n + 1, limit)
  }

  lemma {:induction false} PlainRepeats(e: Entry, m: seq<Field>, n: nat, limit: int)
    requires e.Plain?
    ensures GetAll(Repeats(e, m, n, limit), e.tag) == Kept(GetAll(m, e.tag), n, limit)
    decreases limit - n
  {
    if n < limit {
      PlainRepeats(e, m, n + 1, limit);
      R.GetAllPlus(Writes(e, m, n), Repeats(e, m, n + 1, limit), e.tag);
      OneValue(e, m, n);
    }
  }

  lemma OneValue(e: Entry, m: seq<Field>, n: nat)
    requires e.Plain?
    ensures var values := GetAll(m, e.tag);
            GetAll(Writes(e, m, n), e.tag) == if n < |values| && values[n] != [] then [values[n]] else []
  {
    var w := Writes(e, m, n);
    if w != [] {
      assert w[1..] == [];
    }
  }

  lemma {:induction false} KeptAll(values: seq<Data>, n: nat, limit: int)
    requires |values| <= limit && NoneEmpty(values) && n <= limit
    ensures Kept(values, n, limit) == if n < |values| then values[n..] else []
    decreases limit - n
  {
    if n < limit {
      KeptAll(values, n + 1, limit);
      if n < |values| {
        assert values[n..] == [values[n]] + values[n + 1..];
      }
    }
  }

  lemma {:induction false} KeptFew(values: seq<Data>, n: nat, limit: int)
    ensures |Kept(values, n, limit)| <= if n >= limit then 0 else limit - n
    ensures |Kept(values, n, limit)| <= if n >= |values| then 0 else |values| - n
    ensures (exists i :: n <= i < |values| && i < limit && values[i] == []) ==>
      |Kept(values, n, limit)| < |values| - n
    decreases limit - n
  {
    if n < limit {
      KeptFew(values, n + 1, limit);
    }
  }

  // A plain field of a block with so many entries keeps its values exactly when there are
  // no more of them than entries and none is empty.
  lemma PlainKept(e: Entry, m: seq<Field>, limit: nat)
    requires e.Plain?
    ensures GetAll(Repeats(e, m, 0, limit), e.tag) == GetAll(m, e.tag) <==>
            |GetAll(m, e.tag)| <= limit && NoneEmpty(GetAll(m, e.tag))
  {
    var values := GetAll(m, e.tag);
    PlainRepeats(e, m, 0, limit);
    KeptFew(values, 0, limit);
    if |values| <= limit && NoneEmpty(values) {
      KeptAll(values, 0, limit);
    }
  }

  // ---- blocks ---------------------------------------------------------------------------------

  lemma {:induction false} TagIn(es: seq<Entry>, tag: int) returns (i: nat)
    requires tag in TagSets(es)
    ensures i < |es| && tag in TagSet(es[i])
    decreases es
  {
    if tag in TagSet(es[0]) {
      i := 0;
    } else {
      var j := TagIn(es[1..], tag);
      i := j + 1;
    }
  }

  lemma {:induction false} InTagSets(es: seq<Entry>, i: nat, tag: int)
    requires i < |es| && tag in TagSet(es[i])
    ensures tag in TagSets(es)
    decreases |es|
  {
    if i > 0 {
      assert es[i] == es[1..][i - 1];
      InTagSets(es[1..], i - 1, tag);
    }
  }

  // Only one entry of a list writes a tag.
  lemma {:induction false} FieldsOfTag(es: seq<Entry>, m: seq<Field>, n: nat, i: nat, tag: int)
    requires AllDistinct(es) && i < |es| && tag in TagSet(es[i])
    ensures GetAll(WriteFields(es, m, n), tag) == GetAll(Writes(es[i], m, n), tag)
    decreases |es|
  {
    var first, rest := Writes(es[0], m, n), WriteFields(es[1..], m, n);
    R.GetAllPlus(first, rest, tag);
    EntryWritesWithin(es[0], m, n);
    FieldsWriteWithin(es[1..], m, n);
    if i == 0 {
      GetAllNone(rest, TagSets(es[1..]), tag);
    } else {
      assert es[i] == es[1..][i - 1];
      InTagSets(es[1..], i - 1, tag);
      GetAllNone(first, TagSet(es[0]), tag);
      FieldsOfTag(es[1..], m, n, i - 1, tag);
    }
  }

  lemma {:induction false} RoundsOfTag(es: seq<Entry>, m: seq<Field>, n: nat, count: int, i: nat, tag: int)
    requires AllDistinct(es) && i < |es| && tag in TagSet(es[i])
    ensures GetAll(WriteRounds(es, m, n, count), tag) == GetAll(Repeats(es[i], m, n, count), tag)
    decreases count - n
  {
    if n < count {
      R.GetAllPlus(WriteFields(es, m, n), WriteRounds(es, m, n + 1, count), tag);
      R.GetAllPlus(Writes(es[i], m, n), Repeats(es[i], m, n + 1, count), tag);
      FieldsOfTag(es, m, n, i, tag);
      RoundsOfTag(es, m, n + 1, count, i, tag);
    }
  }

  // Where a count is missing or zero, nothing under it occurs.
  lemma {:induction false} NothingThere(e: Entry, m: seq<Field>, tag: int)
    requires Fits(e, m, 0) && tag in TagSet(e)
    ensures GetAll(m, tag) == []
    decreases e
  {
    if e.Block? && tag != e.countTag {
      var i := TagIn(e.members, tag);
      NothingThere(e.members[i], m, tag);
    }
  }

  // Every index below the limit packs.
  ghost predicate Packs(e: Entry, m: seq<Field>, limit: nat)
    requires Wellformed(e)
  {
    forall n :: 0 <= n < limit ==> !PackEntry(e, m, n).Failed?
  }

  lemma {:induction false} FieldsPack(es: seq<Entry>, m: seq<Field>, n: nat, i: nat)
    requires AllWellformed(es) && i < |es| && PackFields(es, m, n).Some?
    ensures !PackEntry(es[i], m, n).Failed?
    decreases |es|
  {
    if i > 0 {
      assert es[i] == es[1..][i - 1];
      FieldsPack(es[1..], m, n, i - 1);
    }
  }

  lemma {:induction false} RoundsPack(es: seq<Entry>, m: seq<Field>, n: nat, count: nat, i: nat, k: nat)
    requires AllWellformed(es) && i < |es| && n <= k < count && PackRounds(es, m, n, count).Some?
    ensures !PackEntry(es[i], m, k).Failed?
    decreases count - n
  {
    if n == k {
      FieldsPack(es, m, n, i);
    } else {
      RoundsPack(es, m, n + 1, count, i, k);
    }
  }

  // An entry asked for at every index below the limit restores every tag in it.
  lemma {:induction false} EntryRestores(e: Entry, m: seq<Field>, limit: nat, tag: int)
    requires Wellformed(e) && Distinct(e) && Faithful(e, m) && Fits(e, m, limit) && Packs(e, m, limit)
    requires tag in TagSet(e) && (limit > 1 && e.Block? ==> !Has(m, e.countTag))
    ensures GetAll(Repeats(e, m, 0, limit), tag) == GetAll(m, tag)
    decreases e, 1
  {
    if e.Plain? {
      PlainKept(e, m, limit);
    } else if GetAll(m, e.countTag) == [] {
      NoRepeats(e, m, 0, limit);
      if tag != e.countTag {
        var i := TagIn(e.members, tag);
        NothingThere(e.members[i], m, tag);
      }
    } else {
      R.HasIsGetAll(m, e.countTag);
      BlockRestores(e, m, tag);
      assert Repeats(e, m, 1, 1) == [] && Writes(e, m, 0) + [] == Writes(e, m, 0);
    }
  }

  lemma {:induction false} NoRepeats(e: Entry, m: seq<Field>, n: nat, limit: nat)
    requires e.Block? && GetAll(m, e.countTag) == []
    ensures Repeats(e, m, n, limit) == []
    decreases limit - n
  {
    if n < limit {
      NoRepeats(e, m, n + 1, limit);
    }
  }

  lemma {:induction false} BlockRestores(e: Entry, m: seq<Field>, tag: int)
    requires e.Block? && Wellformed(e) && Distinct(e) && Faithful(e, m) && Fits(e, m, 1)
    requires tag in TagSet(e) && |GetAll(m, e.countTag)| == 1 && !PackEntry(e, m, 0).Failed?
    ensures GetAll(Writes(e, m, 0), tag) == GetAll(m, tag)
    decreases e, 0
  {
    var text := GetAll(m, e.countTag)[0];
    assert CanonicalCount(text);
    var count := ReadCount(m, e.countTag, 0).value;
    var more := WriteRounds(e.members, m, 0, count);
    R.GetAllPlus([Field(e.countTag, text)], more, tag);
    RoundsWriteWithin(e.members, m, 0, count);
    if tag == e.countTag {
      GetAllNone(more, TagSets(e.members), tag);
    } else {
      var i := TagIn(e.members, tag);
      MemberRestores(e, m, count, i, tag);
    }
  }

  lemma {:induction false} MemberRestores(e: Entry, m: seq<Field>, count: int, i: nat, tag: int)
    requires e.Block? && Wellformed(e) && Distinct(e) && Faithful(e, m) && Fits(e, m, 1)
    requires ReadCount(m, e.countTag, 0) == Some(count) && !PackEntry(e, m, 0).Failed?
    requires i < |e.members| && tag in TagSet(e.members[i])
    ensures GetAll(WriteRounds(e.members, m, 0, count), tag) == GetAll(m, tag)
    decreases e, 0, 0
  {
    var member := e.members[i];
    RoundsOfTag(e.members, m, 0, count, i, tag);
    BlockPacks(e, m, count, i);
    DistinctMember(e.members, i);
    EntryRestores(member, m, count, tag);
  }

  lemma BlockPacks(e: Entry, m: seq<Field>, count: int, i: nat)
    requires e.Block? && Wellformed(e) && ReadCount(m, e.countTag, 0) == Some(count)
    requires !PackEntry(e, m, 0).Failed? && i < |e.members|
    ensures Wellformed(e.members[i]) && 0 <= count && Packs(e.members[i], m, count)
    ensures count > 1 && e.members[i].Block? ==> !Has(m, e.members[i].countTag)
  {
    forall k | 0 <= k < count ensures !PackEntry(e.members[i], m, k).Failed? {
      RoundsPack(e.members, m, 0, count, i, k);
    }
  }

  lemma {:induction false} DistinctMember(es: seq<Entry>, i: nat)
    requires AllDistinct(es) && i < |es|
    ensures Distinct(es[i])
    decreases |es|
  {
    if i > 0 {
      assert es[i] == es[1..][i - 1];
      DistinctMember(es[1..], i - 1);
    }
  }

  // ---- the whole body -----------------------------------------------------------------------------

  lemma TagRestored(es: seq<Entry>, m: seq<Field>, tag: int)
    requires AllWellformed(es) && AllFaithful(es, m) && AllDistinct(es) && AllFit(es, m, 1)
    requires PackFields(es, m, 0).Some? && tag in TagSets(es)
    ensures GetAll(WriteFields(es, m, 0), tag) == GetAll(m, tag)
  {
    var i := TagIn(es, tag);
    FieldsPack(es, m, 0, i);
    DistinctMember(es, i);
    EntryRestores(es[i], m, 1, tag);
    assert Repeats(es[i], m, 1, 1) == [] && Writes(es[i], m, 0) + [] == Writes(es[i], m, 0);
    FieldsOfTag(es, m, 0, i, tag);
  }

  // A message whose values are spelled as the wire carries them and whose repeats its
  // counts cover comes back with every tag of the layout holding the same values in the same order.
  lemma BodyRoundTrip(es: seq<Entry>, m: seq<Field>, h: B.Header, m0: seq<Field>, tag: int)
    requires AllWellformed(es) && AllSpelled(es, m) && AllDistinct(es) && Free(m0, TagSets(es))
    requires AllFit(es, m, 1) && EncodeBody(es, m).Some? && tag in TagSets(es)
    requires B.PackFrame(h, EncodeBody(es, m).value.0, EncodeBody(es, m).value.1).Some?
    ensures var f := B.PackFrame(h, EncodeBody(es, m).value.0, EncodeBody(es, m).value.1).value;
            DecodeBody(es, f, m0).1 && GetAll(DecodeBody(es, f, m0).0, tag) == GetAll(m, tag)
  {
    var w := WriteFields(es, m, 0);
    DecodesEncoded(es, m, h, m0);
    AllSpelledExactly(es, m);
    TagRestored(es, m, tag);
    R.GetAllPlus(m0, w, tag);
    FreeOf(m0, TagSets(es), tag);
    assert [] + GetAll(w, tag) == GetAll(w, tag);
  }

  // ---- what decoding leaves alone ----------------------------------------------------------

  lemma {:induction false} EntryTags(es: seq<Entry>, i: nat)
    requires i < |es|
    ensures TagSet(es[i]) <= TagSets(es)
    decreases |es|
  {
    if i > 0 {
      EntryTags(es[1..], i - 1);
    }
  }

  lemma WriteLeaves(m: seq<Field>, repeating: bool, tag: int, text: Data, other: int)
    requires other != tag
    ensures GetAll(WriteTo(m, repeating, tag, text), other) == GetAll(m, other)
  {
    if repeating {
      R.GetAllPlus(m, [Field(tag, text)], other);
    } else {
      PutValues(m, tag, text, other);
    }
  }

  ghost predicate Outside(es: seq<Entry>, tag: int) {
    AllWellformed(es) && tag !in TagSets(es)
  }

  lemma {:induction false} EntryLeaves(e: Entry, repeating: bool, m: seq<Field>, raw: Data, offset: nat, tag: int)
    requires Wellformed(e) && tag !in TagSet(e)
    ensures GetAll(UnpackEntry(e, repeating, m, raw, offset).fields, tag) == GetAll(m, tag)
    decreases e, 0
  {
    if e.Plain? {
      var v := Unpack(e.kind, raw, offset);
      if v.Some? && FromWire(e.conv, v.value.0).Some? {
        WriteLeaves(m, repeating, e.tag, FromWire(e.conv, v.value.0).value, tag);
      }
    } else {
      var v := Unpack(COUNT, raw, offset);
      if v.Some? && v.value.0.Number? && v.value.0.n >= 0 {
        var count: nat := v.value.0.n;
        var m1 := WriteTo(m, repeating, e.countTag, ShowNat(count));
        WriteLeaves(m, repeating, e.countTag, ShowNat(count), tag);
        RoundsLeave(e.members, m1, raw, v.value.1, count, tag);
      }
    }
  }

  // What reading the rounds from here comes to.
  ghost function RoundsRead(es: seq<Entry>, m: seq<Field>, raw: Data, offset: nat, count: nat): Reading
    requires AllWellformed(es)
  {
    UnpackRounds(es, m, raw, offset, count)
  }

  lemma {:induction false} RoundsLeave(es: seq<Entry>, m: seq<Field>, raw: Data, offset: nat, count: nat, tag: int)
    requires Outside(es, tag)
    ensures GetAll(RoundsRead(es, m, raw, offset, count).fields, tag) == GetAll(m, tag)
    decreases es, 3, count
  {
    if count > 0 {
      var one := RoundLeaves(es, m, raw, offset, count, tag);
      if one.next.Some? {
        RoundsLeave(es, one.fields, raw, one.next.value, count - 1, tag);
      }
    }
  }

  // One round, and what is left after it.
  lemma {:induction false} RoundLeaves(es: seq<Entry>, m: seq<Field>, raw: Data, offset: nat, count: nat, tag: int)
    returns (one: Reading)
    requires Outside(es, tag) && count > 0
    ensures GetAll(one.fields, tag) == GetAll(m, tag)
    ensures RoundsRead(es, m, raw, offset, count) ==
      if one.next.None? then one else RoundsRead(es, one.fields, raw, one.next.value, count - 1)
    decreases es, 2, 0
  {
    if offset + BLOCK_MAP > |raw| {
      one := Reading(m, None);
    } else {
      var bits := SetBits(raw[offset..offset + BLOCK_MAP]);
      one := UnpackBits(es, bits, true, m, raw, offset + BLOCK_MAP);
      BitsLeave(es, bits, true, m, raw, offset + BLOCK_MAP, tag);
    }
  }

  lemma {:induction false} BitsLeave(es: seq<Entry>, bits: seq<nat>, repeating: bool, m: seq<Field>, raw: Data,
                                     offset: nat, tag: int)
    requires AllWellformed(es) && tag !in TagSets(es)
    ensures GetAll(UnpackBits(es, bits, repeating, m, raw, offset).fields, tag) == GetAll(m, tag)
    decreases es, 1, |bits|
  {
    if bits != [] && Lookup(es, bits[0]) < |es| {
      var i := Lookup(es, bits[0]);
      EntryTags(es, i);
      EntryLeaves(es[i], repeating, m, raw, offset, tag);
      var one := UnpackEntry(es[i], repeating, m, raw, offset);
      if one.next.Some? {
        BitsLeave(es, bits[1..], repeating, one.fields, raw, one.next.value, tag);
      }
    }
  }

  // Whatever the frame, accepted or refused part-way, the message keeps every value
  // under a tag the layout does not use.
  lemma DecodeLeavesOthers(es: seq<Entry>, raw: Data, m: seq<Field>, tag: int)
    requires AllWellformed(es) && tag !in TagSets(es)
    ensures GetAll(DecodeBody(es, raw, m).0, tag) == GetAll(m, tag)
  {
    if B.BODY_OFFSET <= |raw| {
      BitsLeave(es, SetBits(raw[B.HEADER_BYTES..B.BODY_OFFSET]), false, m, raw, B.BODY_OFFSET, tag);
    }
  }

  lemma {:induction false} FreeOf(fs: seq<Field>, tags: set<int>, tag: int)
    requires Free(fs, tags) && tag in tags
    ensures GetAll(fs, tag) == []
    decreases |fs|
  {
    if fs != [] {
      assert fs[0].tag !in tags;
      FreeOf(fs[1..], tags, tag);
    }
  }
}
