// The message object and the loops over its fields (exchangesim/fix/message.py).
module FixObjects {
  import opened Options
  import opened Sequences
  import opened Framing
  import opened Numerals
  import opened FixMessages
  import opened FixRoundTrip

  // The first occurrence replaced, or a new field at the end.
  function Put(fs: seq<Field>, tag: int, value: Data): seq<Field> {
    if fs == [] then [Field(tag, value)]
    else if fs[0].tag == tag then [Field(tag, value)] + fs[1..]
    else [fs[0]] + Put(fs[1..], tag, value)
  }

  function Without(fs: seq<Field>, tag: int): seq<Field> {
    if fs == [] then []
    else if fs[0].tag == tag then Without(fs[1..], tag)
    else [fs[0]] + Without(fs[1..], tag)
  }

  // Setting changes the first value of its own tag and nothing else.
  lemma {:induction false} PutValues(fs: seq<Field>, tag: int, value: Data, other: int)
    ensures GetAll(Put(fs, tag, value), other) ==
      if other != tag then GetAll(fs, other)
      else [value] + (if GetAll(fs, tag) == [] then [] else GetAll(fs, tag)[1..])
    decreases |fs|
  {
    if fs != [] {
      if fs[0].tag != tag {
        PutValues(fs[1..], tag, value, other);
      }
      GetAllPlus([fs[0]], Put(fs[1..], tag, value), other);
      GetAllPlus([Field(tag, value)], fs[1..], other);
      GetAllPlus([fs[0]], fs[1..], other);
      assert [fs[0]] + fs[1..] == fs;
    }
  }

  lemma {:induction false} WithoutValues(fs: seq<Field>, tag: int, other: int)
    ensures GetAll(Without(fs, tag), other) == if other == tag then [] else GetAll(fs, other)
    decreases |fs|
  {
    if fs != [] {
      WithoutValues(fs[1..], tag, other);
      GetAllPlus([fs[0]], Without(fs[1..], tag), other);
    }
  }

  lemma PutStep(fs: seq<Field>, i: nat, tag: int, value: Data)
    requires i < |fs|
    ensures fs[..i] + Put(fs[i..], tag, value) ==
      if fs[i].tag == tag then fs[i := Field(tag, value)] else fs[..i + 1] + Put(fs[i + 1..], tag, value)
  {
    CutAt(fs, i);
    if fs[i].tag == tag {
      Replaced(fs, i, Field(tag, value));
    } else {
      FilterJoins(fs[..i], [fs[i]], Put(fs[i + 1..], tag, value));
    }
  }

  lemma Replaced(fs: seq<Field>, i: nat, f: Field)
    requires i < |fs|
    ensures fs[..i] + ([f] + fs[i + 1..]) == fs[i := f]
  {
  }

  class Message {
    var fields: seq<Field>

    constructor (fields: seq<Field>)
      ensures this.fields == fields
    {
      this.fields := fields;
    }

    method Get(tag: int) returns (value: Option<Data>)
      ensures value == if GetAll(fields, tag) == [] then None else Some(GetAll(fields, tag)[0])
    {
      var i := 0;
      while i < |fields|
        invariant 0 <= i <= |fields| && GetAll(fields[i..], tag) == GetAll(fields, tag)
      {
        assert fields[i..][0] == fields[i] && fields[i..][1..] == fields[i + 1..];
        if fields[i].tag == tag {
          return Some(fields[i].value);
        }
        i := i + 1;
      }
      value := None;
    }

    method Set(tag: int, value: Data)
      modifies this
      ensures fields == Put(old(fields), tag, value)
    {
      var i := 0;
      while i < |fields|
        invariant 0 <= i <= |fields| && fields == old(fields)
        invariant Put(fields, tag, value) == fields[..i] + Put(fields[i..], tag, value)
      {
        PutStep(fields, i, tag, value);
        if fields[i].tag == tag {
          fields := fields[i := Field(tag, value)];
          return;
        }
        i := i + 1;
      }
      fields := fields + [Field(tag, value)];
    }

    method Append(tag: int, value: Data)
      modifies this
      ensures fields == old(fields) + [Field(tag, value)]
    {
      fields := fields + [Field(tag, value)];
    }

    method Remove(tag: int)
      modifies this
      ensures fields == Without(old(fields), tag)
    {
      var kept: seq<Field> := [];
      var i := 0;
      while i < |fields|
        invariant 0 <= i <= |fields| && fields == old(fields)
        invariant kept + Without(fields[i..], tag) == Without(fields, tag)
      {
        assert fields[i..][0] == fields[i] && fields[i..][1..] == fields[i + 1..];
        if fields[i].tag != tag {
          kept := kept + [fields[i]];
        }
        i := i + 1;
      }
      fields := kept;
    }
  }

  lemma FilterOne(fs: seq<Field>, f: Field)
    ensures HeaderOf(fs + [f]) == HeaderOf(fs) + if !Structural(f.tag) && InHeader(f.tag) then [f] else []
    ensures BodyOf(fs + [f]) == BodyOf(fs) + if !Structural(f.tag) && !InHeader(f.tag) then [f] else []
  {
    FilterPlus(fs, [f]);
    assert [f][1..] == [];
  }

  // Fields in their order of transmission; the sort is stable.
  method Ordered(fs: seq<Field>) returns (r: seq<Field>)
    ensures r == SortFields(fs)
  {
    var header: seq<Field>, body: seq<Field> := [], [];
    for i := 0 to |fs|
      invariant header == HeaderOf(fs[..i]) && body == BodyOf(fs[..i])
    {
      var f := fs[i];
      FilterOne(fs[..i], f);
      assert fs[..i] + [f] == fs[..i + 1];
      if !Structural(f.tag) {
        if InHeader(f.tag) {
          header := header + [f];
        } else {
          body := body + [f];
        }
      }
    }
    assert fs[..|fs|] == fs;
    r := SortByRank(header) + body;
  }

  // What parsing the remaining chunks still adds.
  ghost predicate Parsing(chunks: seq<Data>, fields: seq<Field>, rest: seq<Data>) {
    var more := DecodeFields(rest);
    DecodeFields(chunks) == if more.None? then None else Some(fields + more.value)
  }

  lemma ParsingStep(chunks: seq<Data>, fields: seq<Field>, rest: seq<Data>)
    requires rest != [] && Parsing(chunks, fields, rest)
    ensures rest[0] == [] ==> Parsing(chunks, fields, rest[1..])
    ensures rest[0] != [] && DecodeField(rest[0]).None? ==> DecodeFields(chunks).None?
    ensures rest[0] != [] && DecodeField(rest[0]).Some? ==>
      Parsing(chunks, fields + [DecodeField(rest[0]).value], rest[1..])
  {
    var f, more := DecodeField(rest[0]), DecodeFields(rest[1..]);
    if rest[0] != [] && f.Some? && more.Some? {
      assert fields + ([f.value] + more.value) == (fields + [f.value]) + more.value;
    }
  }

  // One field after another; the first chunk that is no field ends it.
  method Parsed(chunks: seq<Data>) returns (r: Option<seq<Field>>)
    ensures r == DecodeFields(chunks)
  {
    var fields: seq<Field> := [];
    assert chunks[0..] == chunks;
    assert Parsing(chunks, fields, chunks) by {
      assert DecodeFields(chunks).Some? ==> [] + DecodeFields(chunks).value == DecodeFields(chunks).value;
    }
    for i := 0 to |chunks|
      invariant Parsing(chunks, fields, chunks[i..])
    {
      ParsingStep(chunks, fields, chunks[i..]);
      assert chunks[i..][0] == chunks[i] && chunks[i..][1..] == chunks[i + 1..];
      if chunks[i] != [] {
        var f := DecodeField(chunks[i]);
        if f.None? {
          return None;
        }
        fields := fields + [f.value];
      }
    }
    assert fields + [] == fields;
    r := Some(fields);
  }

  method Decoded(raw: Data, validate: bool) returns (r: Option<seq<Field>>)
    ensures r == Decode(raw, validate)
  {
    if raw == [] || raw[|raw| - 1] != SOH {
      return None;
    }
    var start := FindLast(raw, CHECK_SUM_TAG, |raw|);
    if start < 0 {
      return None;
    }
    FindLastBounds(raw, CHECK_SUM_TAG, |raw|);
    if validate && !CheckSumHolds(raw, start) {
      return None;
    }
    r := Parsed(SplitAt(raw, SOH));
    if r.Some? && (r.value == [] || r.value[0].tag != BEGIN_STRING || !Has(r.value, MSG_TYPE)) {
      r := None;
    }
  }
}
