// Encoding, framing and decoding undo each other (exchangesim/fix/message.py).
module FixRoundTrip {
  import opened Options
  import opened Framing
  import opened Numerals
  import opened FixMessages

  // ---- searching ---------------------------------------------------------------------

  lemma {:induction false} FindIs(d: Data, pat: Data, from: int, i: int)
    requires from <= i && At(d, pat, i) && forall j :: from <= j < i ==> !At(d, pat, j)
    ensures Find(d, pat, from) == i
    decreases i - from
  {
    if from < i {
      FindIs(d, pat, from + 1, i);
    }
  }

  lemma {:induction false} FindNone(d: Data, pat: Data, from: int)
    requires forall j :: from <= j ==> !At(d, pat, j)
    ensures Find(d, pat, from) == -1
    decreases |d| - from
  {
    if from + |pat| <= |d| {
      FindNone(d, pat, from + 1);
    }
  }

  lemma {:induction false} FindLastIs(d: Data, pat: Data, before: int, i: int)
    requires 0 <= i < before && At(d, pat, i) && forall j :: i < j < before ==> !At(d, pat, j)
    ensures FindLast(d, pat, before) == i
    decreases before
  {
    if i < before - 1 {
      FindLastIs(d, pat, before - 1, i);
    }
  }

  // ---- the order of the fields ----------------------------------------------------------

  ghost predicate Ranked(fs: seq<Field>) {
    forall i, j :: 0 <= i < j < |fs| ==> Rank(fs[i].tag) <= Rank(fs[j].tag)
  }

  ghost predicate OnlyHeader(fs: seq<Field>) {
    forall i :: 0 <= i < |fs| ==> !Structural(fs[i].tag) && InHeader(fs[i].tag)
  }

  ghost predicate OnlyBody(fs: seq<Field>) {
    forall i :: 0 <= i < |fs| ==> !Structural(fs[i].tag) && !InHeader(fs[i].tag)
  }

  ghost predicate OnlyStructural(fs: seq<Field>) {
    forall i :: 0 <= i < |fs| ==> Structural(fs[i].tag)
  }

  lemma {:induction false} InsertRanks(f: Field, fs: seq<Field>)
    requires Ranked(fs)
    ensures Ranked(Insert(f, fs)) && |Insert(f, fs)| == |fs| + 1
    ensures OnlyHeader([f] + fs) ==> OnlyHeader(Insert(f, fs))
    ensures Rank(Insert(f, fs)[0].tag) == Rank(f.tag) || (fs != [] && Insert(f, fs)[0] == fs[0])
    decreases |fs|
  {
    if fs != [] && Rank(f.tag) > Rank(fs[0].tag) {
      InsertRanks(f, fs[1..]);
      if OnlyHeader([f] + fs) {
        assert OnlyHeader([f] + fs[1..]) by {
          forall i | 0 <= i < |[f] + fs[1..]|
            ensures !Structural(([f] + fs[1..])[i].tag) && InHeader(([f] + fs[1..])[i].tag)
          {
            assert ([f] + fs[1..])[i] == if i == 0 then ([f] + fs)[0] else ([f] + fs)[i + 1];
          }
        }
        assert ([f] + fs)[1] == fs[0];
      }
    }
  }

  lemma {:induction false} SortRanks(fs: seq<Field>)
    ensures Ranked(SortByRank(fs)) && |SortByRank(fs)| == |fs|
    ensures OnlyHeader(fs) ==> OnlyHeader(SortByRank(fs))
    decreases |fs|
  {
    if fs != [] {
      SortRanks(fs[1..]);
      var rest := SortByRank(fs[1..]);
      InsertRanks(fs[0], rest);
      if OnlyHeader(fs) {
        assert OnlyHeader(fs[1..]);
        assert OnlyHeader([fs[0]] + rest);
      }
    }
  }

  lemma {:induction false} SortedAlready(fs: seq<Field>)
    requires Ranked(fs)
    ensures SortByRank(fs) == fs
    decreases |fs|
  {
    if fs != [] {
      SortedAlready(fs[1..]);
      assert [fs[0]] + fs[1..] == fs;
    }
  }

  lemma {:induction false} FilterPlus(a: seq<Field>, b: seq<Field>)
    ensures HeaderOf(a + b) == HeaderOf(a) + HeaderOf(b)
    ensures BodyOf(a + b) == BodyOf(a) + BodyOf(b)
    decreases |a|
  {
    if a == [] {
      assert a + b == b;
    } else {
      assert (a + b)[0] == a[0] && (a + b)[1..] == a[1..] + b;
      FilterPlus(a[1..], b);
      FilterJoins([a[0]], HeaderOf(a[1..]), HeaderOf(b));
      FilterJoins([a[0]], BodyOf(a[1..]), BodyOf(b));
    }
  }

  lemma FilterJoins(a: seq<Field>, b: seq<Field>, c: seq<Field>)
    ensures a + (b + c) == (a + b) + c
  {
  }

  lemma {:induction false} FilterKinds(fs: seq<Field>)
    ensures OnlyHeader(HeaderOf(fs)) && OnlyBody(BodyOf(fs))
    decreases |fs|
  {
    if fs != [] {
      FilterKinds(fs[1..]);
    }
  }

  lemma {:induction false} FilterHeader(fs: seq<Field>)
    requires OnlyHeader(fs)
    ensures HeaderOf(fs) == fs && BodyOf(fs) == []
    decreases |fs|
  {
    if fs != [] {
      assert OnlyHeader(fs[1..]);
      FilterHeader(fs[1..]);
      assert fs == [fs[0]] + fs[1..];
    }
  }

  lemma {:induction false} FilterBody(fs: seq<Field>)
    requires OnlyBody(fs)
    ensures HeaderOf(fs) == [] && BodyOf(fs) == fs
    decreases |fs|
  {
    if fs != [] {
      assert OnlyBody(fs[1..]);
      FilterBody(fs[1..]);
      assert fs == [fs[0]] + fs[1..];
    }
  }

  lemma {:induction false} FilterStructural(fs: seq<Field>)
    requires OnlyStructural(fs)
    ensures HeaderOf(fs) == [] && BodyOf(fs) == []
    decreases |fs|
  {
    if fs != [] {
      assert OnlyStructural(fs[1..]);
      FilterStructural(fs[1..]);
    }
  }

  // Sorting what has been sorted, whatever structural fields surround it, changes
  // nothing.
  lemma SortAgain(pre: seq<Field>, fs: seq<Field>, post: seq<Field>)
    requires OnlyStructural(pre) && OnlyStructural(post)
    ensures SortFields(pre + SortFields(fs) + post) == SortFields(fs)
  {
    var h, b := SortByRank(HeaderOf(fs)), BodyOf(fs);
    FilterKinds(fs);
    SortRanks(HeaderOf(fs));
    FilterHeader(h);
    FilterBody(b);
    FilterStructural(pre);
    FilterStructural(post);
    FilterPlus(h, b);
    FilterPlus(pre, h + b);
    FilterPlus(pre + (h + b), post);
    SortedAlready(h);
    assert h + [] == h && [] + b == b && [] + h == h;
    assert h + [] == h && b + [] == b;
  }

  lemma {:induction false} GetAllPlus(a: seq<Field>, b: seq<Field>, tag: int)
    ensures GetAll(a + b, tag) == GetAll(a, tag) + GetAll(b, tag)
    decreases |a|
  {
    if a == [] {
      assert a + b == b;
    } else {
      assert (a + b)[1..] == a[1..] + b;
      GetAllPlus(a[1..], b, tag);
    }
  }

  lemma {:induction false} InsertKeepsValues(f: Field, fs: seq<Field>, tag: int)
    ensures GetAll(Insert(f, fs), tag) == GetAll([f], tag) + GetAll(fs, tag)
    decreases |fs|
  {
    if fs == [] || Rank(f.tag) <= Rank(fs[0].tag) {
      GetAllPlus([f], fs, tag);
    } else {
      InsertKeepsValues(f, fs[1..], tag);
      GetAllPlus([fs[0]], Insert(f, fs[1..]), tag);
      GetAllPlus([fs[0]], fs[1..], tag);
      assert [fs[0]] + fs[1..] == fs;
    }
  }

  lemma {:induction false} SortKeepsValues(fs: seq<Field>, tag: int)
    ensures GetAll(SortByRank(fs), tag) == GetAll(fs, tag)
    decreases |fs|
  {
    if fs != [] {
      SortKeepsValues(fs[1..], tag);
      InsertKeepsValues(fs[0], SortByRank(fs[1..]), tag);
      GetAllPlus([fs[0]], fs[1..], tag);
      assert [fs[0]] + fs[1..] == fs;
    }
  }

  lemma {:induction false} FilterKeepsValues(fs: seq<Field>, tag: int)
    requires !Structural(tag)
    ensures GetAll(HeaderOf(fs), tag) == if InHeader(tag) then GetAll(fs, tag) else []
    ensures GetAll(BodyOf(fs), tag) == if InHeader(tag) then [] else GetAll(fs, tag)
    decreases |fs|
  {
    if fs != [] {
      FilterKeepsValues(fs[1..], tag);
      GetAllPlus([fs[0]], HeaderOf(fs[1..]), tag);
      GetAllPlus([fs[0]], BodyOf(fs[1..]), tag);
    }
  }

  // Every tag but the three structural ones goes out with all its values, in their
  // order.
  lemma SortFieldsKeepsValues(fs: seq<Field>, tag: int)
    requires !Structural(tag)
    ensures GetAll(SortFields(fs), tag) == GetAll(fs, tag)
  {
    SortKeepsValues(HeaderOf(fs), tag);
    FilterKeepsValues(fs, tag);
    GetAllPlus(SortByRank(HeaderOf(fs)), BodyOf(fs), tag);
  }

  lemma {:induction false} HasIsGetAll(fs: seq<Field>, tag: int)
    ensures Has(fs, tag) <==> GetAll(fs, tag) != []
    decreases |fs|
  {
    if fs != [] {
      HasIsGetAll(fs[1..], tag);
      if Has(fs[1..], tag) {
        var i :| 0 <= i < |fs[1..]| && fs[1..][i].tag == tag;
        assert fs[i + 1].tag == tag;
      }
      if fs[0].tag != tag && Has(fs, tag) {
        var i :| 0 <= i < |fs| && fs[i].tag == tag;
        assert fs[1..][i - 1].tag == tag;
      }
    }
  }

  lemma HasSorted(fs: seq<Field>)
    ensures Has(SortFields(fs), MSG_TYPE) <==> Has(fs, MSG_TYPE)
  {
    SortFieldsKeepsValues(fs, MSG_TYPE);
    HasIsGetAll(fs, MSG_TYPE);
    HasIsGetAll(SortFields(fs), MSG_TYPE);
  }

  lemma RankedPlus(h: seq<Field>, b: seq<Field>)
    requires Ranked(h) && OnlyHeader(h) && OnlyBody(b)
    ensures Ranked(h + b)
  {
    forall i, j | 0 <= i < j < |h + b| ensures Rank((h + b)[i].tag) <= Rank((h + b)[j].tag) {
      if j >= |h| {
        assert (h + b)[j] == b[j - |h|];
      }
    }
  }

  // MsgType comes straight after BeginString and BodyLength, and the header fields that
  // follow it stand in the order of the header.
  lemma MsgTypeThird(fs: seq<Field>, begin: Data)
    requires Has(fs, MSG_TYPE)
    ensures Ranked(SortFields(fs))
    ensures |HeadFields(fs, begin)| > 2 && HeadFields(fs, begin)[2].tag == MSG_TYPE
  {
    var s := SortFields(fs);
    FilterKinds(fs);
    SortRanks(HeaderOf(fs));
    RankedPlus(SortByRank(HeaderOf(fs)), BodyOf(fs));
    HasSorted(fs);
    var i :| 0 <= i < |s| && s[i].tag == MSG_TYPE;
    assert Rank(s[0].tag) <= Rank(s[i].tag);
    assert HeadFields(fs, begin)[2] == s[0];
  }

  // ---- decoding what was encoded ---------------------------------------------------------

  // A field the format can carry.
  predicate Clean(f: Field) {
    f.tag > 0 && SOH !in f.value
  }

  ghost predicate AllClean(fs: seq<Field>) {
    forall i :: 0 <= i < |fs| ==> Clean(fs[i])
  }

  // Every field that will be sent can be carried.
  ghost predicate Sendable(fs: seq<Field>) {
    forall i :: 0 <= i < |fs| && !Structural(fs[i].tag) ==> Clean(fs[i])
  }

  lemma {:induction false} InsertClean(f: Field, fs: seq<Field>)
    requires Clean(f) && AllClean(fs)
    ensures AllClean(Insert(f, fs))
    decreases |fs|
  {
    if fs != [] && Rank(f.tag) > Rank(fs[0].tag) {
      InsertClean(f, fs[1..]);
    }
  }

  lemma {:induction false} SortClean(fs: seq<Field>)
    requires AllClean(fs)
    ensures AllClean(SortByRank(fs))
    decreases |fs|
  {
    if fs != [] {
      SortClean(fs[1..]);
      InsertClean(fs[0], SortByRank(fs[1..]));
    }
  }

  lemma {:induction false} FilterClean(fs: seq<Field>)
    requires Sendable(fs)
    ensures AllClean(HeaderOf(fs)) && AllClean(BodyOf(fs))
    decreases |fs|
  {
    if fs != [] {
      FilterClean(fs[1..]);
    }
  }

  lemma SortFieldsClean(fs: seq<Field>)
    requires Sendable(fs)
    ensures AllClean(SortFields(fs))
  {
    FilterClean(fs);
    SortClean(HeaderOf(fs));
  }

  lemma {:induction false} JoinPlus(a: seq<Field>, b: seq<Field>)
    ensures Join(a + b) == Join(a) + Join(b)
    decreases |a|
  {
    if a == [] {
      assert a + b == b;
    } else {
      assert (a + b)[1..] == a[1..] + b;
      JoinPlus(a[1..], b);
      Associates(FieldBytes(a[0]), Join(a[1..]), Join(b));
    }
  }

  lemma ShowTags()
    ensures ShowInt(BEGIN_STRING) == [56] && ShowInt(BODY_LENGTH) == [57] && ShowInt(CHECK_SUM) == [49, 48]
  {
  }

  function CheckField(head: Data): Field {
    Field(CHECK_SUM, ShowThree(Sum(head) % 256))
  }

  // An encoded message is its fields, structural ones included, one after the other.
  lemma HeadIsJoin(fs: seq<Field>, begin: Data)
    ensures Head(fs, begin) == Join(HeadFields(fs, begin))
  {
    var s, l := SortFields(fs), Length(fs);
    var first, second := Field(BEGIN_STRING, begin), Field(BODY_LENGTH, l);
    ShowTags();
    assert HeadFields(fs, begin) == [first] + ([second] + s);
    assert ([first] + ([second] + s))[1..] == [second] + s && ([second] + s)[1..] == s;
    assert FieldBytes(first) == EIGHT + begin + [SOH];
    assert FieldBytes(second) == [57, 61] + l + [SOH];
    assert NINE_TAG == [SOH] + [57, 61];
    Regroup(EIGHT, begin, [SOH], [57, 61], l, Join(s));
  }

  lemma Regroup(a: Data, b: Data, s: Data, t: Data, l: Data, j: Data)
    ensures a + b + (s + t) + l + s + j == (a + b + s) + ((t + l + s) + j)
  {
  }

  lemma EncodeIsJoin(fs: seq<Field>, begin: Data)
    ensures Encode(fs, begin) == Join(HeadFields(fs, begin) + [CheckField(Head(fs, begin))])
  {
    var head := Head(fs, begin);
    HeadIsJoin(fs, begin);
    JoinPlus(HeadFields(fs, begin), [CheckField(head)]);
    TrailerIsField(head);
  }

  lemma TrailerIsField(head: Data)
    ensures Trailer(head) == Join([CheckField(head)])
  {
    ShowTags();
    assert [CheckField(head)][1..] == [];
    assert TEN_TAG == [49, 48] + [EQUALS];
    assert FieldBytes(CheckField(head)) + [] == FieldBytes(CheckField(head));
  }

  lemma SplitsChunk(chunk: Data, rest: Data, sep: Byte)
    requires sep !in chunk
    ensures SplitAt(chunk + [sep] + rest, sep) == [chunk] + SplitAt(rest, sep)
  {
    var d := chunk + [sep] + rest;
    assert At(d, [sep], |chunk|);
    forall j | 0 <= j < |chunk| ensures !At(d, [sep], j) {
      assert d[j] == chunk[j];
      assert d[j..j + 1][0] == d[j];
    }
    FindIs(d, [sep], 0, |chunk|);
    assert d[..|chunk|] == chunk && d[|chunk| + 1..] == rest;
  }

  function FieldText(f: Field): Data {
    ShowInt(f.tag) + [EQUALS] + f.value
  }

  lemma DecodesField(f: Field)
    requires Clean(f)
    ensures SOH !in FieldText(f) && FieldText(f) != [] && DecodeField(FieldText(f)) == Some(f)
  {
    var t, d := ShowInt(f.tag), FieldText(f);
    ShowNatDigits(f.tag);
    ParseShown(f.tag);
    SeparatorFound(t, f.value);
  }

  lemma SeparatorFound(t: Data, value: Data)
    requires AllDigits(t)
    ensures var d := t + [EQUALS] + value;
            Find(d, [EQUALS], 0) == |t| && d[..|t|] == t && d[|t| + 1..] == value
  {
    var d := t + [EQUALS] + value;
    assert d[|t|..|t| + 1] == [EQUALS];
    forall j | 0 <= j < |t| ensures !At(d, [EQUALS], j) {
      assert IsDigit(t[j]) && d[j..j + 1][0] == d[j] == t[j];
    }
    FindIs(d, [EQUALS], 0, |t|);
  }

  lemma {:induction false} DecodesFields(fs: seq<Field>)
    requires AllClean(fs)
    ensures DecodeFields(SplitAt(Join(fs), SOH)) == Some(fs)
    decreases |fs|
  {
    if fs == [] {
      FindNone([], [SOH], 0);
      assert SplitAt([], SOH) == [[]];
      assert SplitAt([], SOH)[1..] == [];
    } else {
      var f, rest := fs[0], Join(fs[1..]);
      DecodesFields(fs[1..]);
      DecodesField(f);
      SplitsChunk(FieldText(f), rest, SOH);
      assert Join(fs) == FieldText(f) + [SOH] + rest;
      var chunks := [FieldText(f)] + SplitAt(rest, SOH);
      assert chunks[1..] == SplitAt(rest, SOH);
      assert [f] + fs[1..] == fs;
    }
  }

  // Every head ends its last field, so the CheckSum tag is found right there.
  lemma {:induction false} JoinEnds(fs: seq<Field>)
    requires fs != []
    ensures |Join(fs)| > 0 && Join(fs)[|Join(fs)| - 1] == SOH
    decreases |fs|
  {
    if |fs| > 1 {
      JoinEnds(fs[1..]);
    }
  }

  lemma TrailerFound(head: Data)
    requires head != [] && head[|head| - 1] == SOH
    ensures var raw := head + Trailer(head);
      FindLast(raw, CHECK_SUM_TAG, |raw|) == |head| - 1 && CheckSumHolds(raw, |head| - 1)
  {
    var raw, n, three := head + Trailer(head), |head|, ShowThree(Sum(head) % 256);
    ParseThree(Sum(head) % 256);
    assert raw[n - 1..n + 3] == CHECK_SUM_TAG;
    forall j | n - 1 < j < |raw| ensures !At(raw, CHECK_SUM_TAG, j) {
      if j + 4 <= |raw| {
        assert raw[j..j + 4][0] == raw[j] == Trailer(head)[j - n];
      }
    }
    FindLastIs(raw, CHECK_SUM_TAG, |raw|, n - 1);
    assert raw[n - 1 + 4..n - 1 + 7] == three;
    assert raw[..n] == head;
  }

  lemma DecodesTo(raw: Data, start: nat, all: seq<Field>)
    requires start < |raw| && raw[|raw| - 1] == SOH && FindLast(raw, CHECK_SUM_TAG, |raw|) == start
    requires CheckSumHolds(raw, start) && DecodeFields(SplitAt(raw, SOH)) == Some(all)
    requires all != [] && all[0].tag == BEGIN_STRING
    ensures Decode(raw, true) == if Has(all, MSG_TYPE) then Some(all) else None
  {
  }

  lemma EncodedEnds(head: Data)
    ensures var raw := head + Trailer(head); |raw| > |head| && raw[|raw| - 1] == SOH
  {
  }

  lemma EncodedChecks(fs: seq<Field>, begin: Data)
    ensures var raw, head := Encode(fs, begin), Head(fs, begin);
      && 0 < |head| < |raw| && raw[|raw| - 1] == SOH && FindLast(raw, CHECK_SUM_TAG, |raw|) == |head| - 1
      && CheckSumHolds(raw, |head| - 1)
  {
    HeadEnds(fs, begin);
    TrailerFound(Head(fs, begin));
    EncodedEnds(Head(fs, begin));
  }

  lemma EncodedSplits(fs: seq<Field>, begin: Data)
    requires Sendable(fs) && SOH !in begin
    ensures DecodeFields(SplitAt(Encode(fs, begin), SOH)) == Some(HeadFields(fs, begin) + [CheckField(Head(fs, begin))])
  {
    EncodeIsJoin(fs, begin);
    EncodedClean(fs, begin);
    DecodesFields(HeadFields(fs, begin) + [CheckField(Head(fs, begin))]);
  }

  // Decoding what was encoded gives BeginString, BodyLength, the fields in their order
  // of transmission, and CheckSum; and it gives nothing exactly when MsgType was missing.
  lemma DecodesEncoded(fs: seq<Field>, begin: Data)
    requires Sendable(fs) && SOH !in begin
    ensures Decode(Encode(fs, begin), true) ==
      if Has(fs, MSG_TYPE) then Some(HeadFields(fs, begin) + [CheckField(Head(fs, begin))]) else None
  {
    EncodedChecks(fs, begin);
    EncodedSplits(fs, begin);
    EncodedHas(fs, begin);
    DecodesTo(Encode(fs, begin), |Head(fs, begin)| - 1, HeadFields(fs, begin) + [CheckField(Head(fs, begin))]);
  }

  lemma HeadEnds(fs: seq<Field>, begin: Data)
    ensures Head(fs, begin) != [] && Head(fs, begin)[|Head(fs, begin)| - 1] == SOH
  {
    HeadIsJoin(fs, begin);
    JoinEnds(HeadFields(fs, begin));
  }

  lemma EncodedClean(fs: seq<Field>, begin: Data)
    requires Sendable(fs) && SOH !in begin
    ensures AllClean(HeadFields(fs, begin) + [CheckField(Head(fs, begin))])
  {
    SortFieldsClean(fs);
    ShowNatDigits(|Join(SortFields(fs))|);
    DigitsClean(Length(fs));
    ParseThree(Sum(Head(fs, begin)) % 256);
    DigitsClean(ShowThree(Sum(Head(fs, begin)) % 256));
  }

  lemma DigitsClean(d: Data)
    requires AllDigits(d)
    ensures SOH !in d
  {
  }

  lemma EncodedHas(fs: seq<Field>, begin: Data)
    ensures var all := HeadFields(fs, begin) + [CheckField(Head(fs, begin))];
      all[0].tag == BEGIN_STRING && (Has(all, MSG_TYPE) <==> Has(fs, MSG_TYPE))
  {
    var s, check := SortFields(fs), CheckField(Head(fs, begin));
    var all := HeadFields(fs, begin) + [check];
    HasSorted(fs);
    if Has(s, MSG_TYPE) {
      var i :| 0 <= i < |s| && s[i].tag == MSG_TYPE;
      assert all[i + 2] == s[i];
    }
    if Has(all, MSG_TYPE) {
      var i :| 0 <= i < |all| && all[i].tag == MSG_TYPE;
      assert all[i] == s[i - 2];
    }
  }

  // Encoding what was decoded gives back the same bytes.
  lemma EncodesDecoded(fs: seq<Field>, begin: Data)
    requires Sendable(fs) && SOH !in begin && Has(fs, MSG_TYPE)
    ensures var m := Decode(Encode(fs, begin), true); m.Some? && Encode(m.value, begin) == Encode(fs, begin)
  {
    DecodesEncoded(fs, begin);
    var pre, check := [Field(BEGIN_STRING, begin), Field(BODY_LENGTH, Length(fs))], [CheckField(Head(fs, begin))];
    SortAgain(pre, fs, check);
    assert Decode(Encode(fs, begin), true).value == pre + SortFields(fs) + check;
  }

  // What arrives carries every value of every tag that was set, in order.
  lemma DecodedValues(fs: seq<Field>, begin: Data, tag: int)
    requires Sendable(fs) && SOH !in begin && Has(fs, MSG_TYPE) && !Structural(tag)
    ensures var m := Decode(Encode(fs, begin), true); m.Some? && GetAll(m.value, tag) == GetAll(fs, tag)
  {
    DecodesEncoded(fs, begin);
    var pre, check := [Field(BEGIN_STRING, begin), Field(BODY_LENGTH, Length(fs))], [CheckField(Head(fs, begin))];
    SortFieldsKeepsValues(fs, tag);
    GetAllPlus(pre, SortFields(fs), tag);
    GetAllPlus(pre + SortFields(fs), check, tag);
    assert pre[1..][1..] == [] && check[1..] == [];
  }
}
