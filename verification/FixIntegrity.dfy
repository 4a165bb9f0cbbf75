// What the checksum catches and how the reader finds its place: the refusals of the
// tag=value format (exchangesim/fix/message.py).
module FixIntegrity {
  import opened Options
  import opened Framing
  import opened Numerals
  import opened FixMessages
  import opened FixRoundTrip

  // ---- the checksum ----------------------------------------------------------------------

  lemma {:induction false} SumJoins(a: Data, b: Data)
    ensures Sum(a + b) == Sum(a) + Sum(b)
    decreases |b|
  {
    if b == [] {
      assert a + b == a;
    } else {
      var front := b[..|b| - 1];
      SumJoins(a, front);
      assert (a + b)[..|a + b| - 1] == a + front;
    }
  }

  // The sum of some bytes is what they add up to.
  lemma SumOfByte(x: Byte)
    ensures Sum([]) == 0 && Sum([x]) == x
  {
    assert [x][..0] == [];
  }

  lemma SumChanged(d: Data, i: nat, x: Byte)
    requires i < |d|
    ensures Sum(d[i := x]) == Sum(d) - d[i] + x
  {
    var a, b := d[..i], d[i + 1..];
    assert d == a + [d[i]] + b && d[i := x] == a + [x] + b;
    SumJoins(a + [d[i]], b);
    SumJoins(a + [x], b);
    SumJoins(a, [d[i]]);
    SumJoins(a, [x]);
    SumOfByte(d[i]);
    SumOfByte(x);
  }

  // Where the checksum stands does not depend on what stands in front of it.
  lemma TrailerPlace(head: Data, other: Data)
    requires head != [] && other != [] && head[|head| - 1] == SOH && other[|other| - 1] == SOH && |head| == |other|
    ensures var raw := other + Trailer(head); FindLast(raw, CHECK_SUM_TAG, |raw|) == |other| - 1
  {
    TrailerFoundAfter(other, ShowThree(Sum(head) % 256));
  }

  lemma TrailerFoundAfter(head: Data, three: Data)
    requires head != [] && head[|head| - 1] == SOH && |three| == 3 && AllDigits(three)
    ensures var raw := head + (TEN_TAG + three + [SOH]); FindLast(raw, CHECK_SUM_TAG, |raw|) == |head| - 1
  {
    var raw, h := head + (TEN_TAG + three + [SOH]), |head|;
    assert raw[h - 1..h + 3] == CHECK_SUM_TAG;
    forall j | h <= j < |raw| ensures !At(raw, CHECK_SUM_TAG, j) {
      if j + 4 <= |raw| {
        assert raw[j] == (TEN_TAG + three + [SOH])[j - h] && raw[j..j + 4][0] == raw[j];
      }
    }
    FindLastIs(raw, CHECK_SUM_TAG, |raw|, h - 1);
  }

  lemma ChangedHolds(raw: Data, i: nat, x: Byte, start: nat)
    requires i <= start && start + 7 <= |raw| && x != raw[i] && CheckSumHolds(raw, start)
    ensures !CheckSumHolds(raw[i := x], start)
  {
    var other, front := raw[i := x], raw[..start + 1];
    ChangedInFront(raw, i, x, start);
    SumChanged(front, i, x);
    SameRemainder(Sum(front), Sum(front) - front[i] + x);
  }

  lemma ChangedInFront(raw: Data, i: nat, x: Byte, start: nat)
    requires i <= start && start + 7 <= |raw|
    ensures raw[i := x][..start + 1] == raw[..start + 1][i := x]
    ensures raw[i := x][start + 4..start + 7] == raw[start + 4..start + 7]
  {
  }

  lemma SameRemainder(a: int, b: int)
    requires -256 < a - b < 256 && a != b
    ensures a % 256 != b % 256
  {
  }

  lemma RefusedWhere(raw: Data, start: int)
    requires FindLast(raw, CHECK_SUM_TAG, |raw|) == start && 0 <= start < |raw| && !CheckSumHolds(raw, start)
    ensures Decode(raw, true).None?
  {
  }

  // One byte changed in front of the checksum is always noticed.
  lemma ByteErrorRefused(fs: seq<Field>, begin: Data, i: nat, x: Byte)
    requires i + 1 < |Head(fs, begin)| && x != Encode(fs, begin)[i]
    ensures Decode(Encode(fs, begin)[i := x], true).None?
  {
    HeadEnds(fs, begin);
    EncodedChecks(fs, begin);
    TrailedRefused(Head(fs, begin), Encode(fs, begin), i, x, Encode(fs, begin)[i := x]);
  }

  lemma TrailedRefused(head: Data, raw: Data, i: nat, x: Byte, other: Data)
    requires head != [] && head[|head| - 1] == SOH && raw == head + Trailer(head) && |raw| == |head| + 7
    requires CheckSumHolds(raw, |head| - 1)
    requires i + 1 < |head| && x != raw[i] && other == raw[i := x]
    ensures Decode(other, true).None?
  {
    TrailerPlace(head, head[i := x]);
    ChangedHead(head, Trailer(head), i, x);
    ChangedHolds(raw, i, x, |head| - 1);
    RefusedWhere(other, |head| - 1);
  }

  lemma ChangedHead(head: Data, trailer: Data, i: nat, x: Byte)
    requires i < |head|
    ensures (head + trailer)[i := x] == head[i := x] + trailer
  {
  }

  // ---- what cannot be decoded ------------------------------------------------------------

  // A message that is decoded ends its last field, carries a checksum field, the right one
  // if it is looked at, begins with BeginString and has a MsgType.
  lemma DecodedIsWhole(raw: Data, validate: bool)
    requires Decode(raw, validate).Some?
    ensures raw != [] && raw[|raw| - 1] == SOH
    ensures exists start: nat :: start < |raw| && At(raw, CHECK_SUM_TAG, start) &&
              (validate ==> start + 7 > |raw| || ParseInt(raw[start + 4..start + 7]) == Some(Sum(raw[..start + 1]) % 256))
    ensures var fs := Decode(raw, validate).value; fs != [] && fs[0].tag == 8 && exists f :: f in fs && f.tag == 35
  {
    var start := FindLast(raw, CHECK_SUM_TAG, |raw|);
    FindLastBounds(raw, CHECK_SUM_TAG, |raw|);
    assert start < |raw| && At(raw, CHECK_SUM_TAG, start);
    var fs := Decode(raw, validate).value;
    var i :| 0 <= i < |fs| && fs[i].tag == MSG_TYPE;
    assert fs[i] in fs;
  }

  // A chunk is a field exactly when a positive number stands in front of its first equals
  // sign; the value is what follows.
  lemma FieldExactly(chunk: Data, f: Field)
    ensures DecodeField(chunk) == Some(f) <==> f.tag > 0 && exists t :: FieldAs(chunk, f, t)
  {
    if DecodeField(chunk) == Some(f) {
      FieldSplits(chunk, f);
    }
    if f.tag > 0 && exists t :: FieldAs(chunk, f, t) {
      var t :| FieldAs(chunk, f, t);
      FirstSign(t, f.value);
      if t == [] { NothingIsNoNumber(); }
    }
  }

  // t is the tag's text.
  predicate FieldAs(chunk: Data, f: Field, t: Data) {
    EQUALS !in t && chunk == t + [EQUALS] + f.value && ParseInt(t) == Some(f.tag)
  }

  lemma FieldSplits(chunk: Data, f: Field)
    requires DecodeField(chunk) == Some(f)
    ensures f.tag > 0 && exists t :: FieldAs(chunk, f, t)
  {
    var i := Find(chunk, [EQUALS], 0);
    FindBounds(chunk, [EQUALS], 0);
    NoneBefore(chunk, i);
    assert chunk[i..i + 1] == [EQUALS];
    assert chunk == chunk[..i] + [EQUALS] + f.value;
    assert FieldAs(chunk, f, chunk[..i]);
  }

  lemma NothingIsNoNumber()
    ensures ParseInt([]).None?
  {
  }

  lemma FirstSign(t: Data, value: Data)
    requires EQUALS !in t
    ensures var d := t + [EQUALS] + value;
      Find(d, [EQUALS], 0) == |t| && d[..|t|] == t && d[|t| + 1..] == value
  {
    var d := t + [EQUALS] + value;
    assert d[|t|..|t| + 1] == [EQUALS];
    forall j | 0 <= j < |t| ensures !At(d, [EQUALS], j) {
      assert d[j] == t[j] && d[j..j + 1][0] == d[j];
    }
    FindIs(d, [EQUALS], 0, |t|);
  }

  lemma {:induction false} FirstFound(d: Data, pat: Data, from: int, j: int)
    requires 0 <= from <= j && (Find(d, pat, from) < 0 || j < Find(d, pat, from))
    ensures !At(d, pat, j)
    decreases |d| - from
  {
    if from + |pat| <= |d| && !At(d, pat, from) && from < j {
      FirstFound(d, pat, from + 1, j);
    }
  }

  lemma NoneBefore(d: Data, i: nat)
    requires i < |d| && Find(d, [EQUALS], 0) == i
    ensures EQUALS !in d[..i]
  {
    forall j | 0 <= j < i ensures d[j] != EQUALS {
      FirstFound(d, [EQUALS], 0, j);
      assert d[j..j + 1] == [d[j]];
    }
  }

  // ---- finding a message in a buffer --------------------------------------------------------

  // The first place where pat stands is i.
  ghost predicate FirstAt(d: Data, pat: Data, from: int, i: int) {
    from <= i && At(d, pat, i) && forall j :: from <= j < i ==> !At(d, pat, j)
  }

  ghost predicate Nowhere(d: Data, pat: Data, from: int) {
    forall j :: from <= j ==> !At(d, pat, j)
  }

  predicate TooLong(b: Data) {
    |b| > 64
  }

  // Bytes in front of the first "8=" are skipped; without one the reader waits, but not for
  // more than 64 bytes.
  lemma JunkSkipped(b: Data, start: nat)
    ensures FirstAt(b, EIGHT, 0, start) ==> Extract(b) == Extract(b[start..])
    ensures Nowhere(b, EIGHT, 0) ==> Extract(b) == if TooLong(b) then Malformed else Incomplete
  {
    if FirstAt(b, EIGHT, 0, start) {
      FindIs(b, EIGHT, 0, start);
      assert b[start..][0..2] == b[start..start + 2];
      if At(b, EIGHT, 0) {
        assert start == 0 && b[0..] == b;
      }
    }
    if Nowhere(b, EIGHT, 0) {
      FindNone(b, EIGHT, 0);
    }
  }

  // What the declared length makes of a buffer whose body starts at `body`.
  function ByLength(b: Data, body: nat, n: Option<int>): Split {
    if n.None? || n.value < 0 || n.value > 16777216 then Malformed
    else if |b| < body + n.value + 7 then Incomplete
    else
      var start := body + n.value;
      if b[start..start + 3] == [49, 48, 61] then Frame(b[..start + 7], b[start + 7..]) else Malformed
  }

  // From "8=" on, the length is looked for and waited for.
  lemma LengthAwaited(b: Data, p: nat)
    requires At(b, EIGHT, 0)
    ensures Nowhere(b, NINE_TAG, 0) ==> Extract(b) == if TooLong(b) then Malformed else Incomplete
    ensures FirstAt(b, NINE_TAG, 0, p) && Nowhere(b, [SOH], p + 3) ==> Extract(b) == Incomplete
  {
    if Nowhere(b, NINE_TAG, 0) {
      FindNone(b, NINE_TAG, 0);
    } else if FirstAt(b, NINE_TAG, 0, p) && Nowhere(b, [SOH], p + 3) {
      FindIs(b, NINE_TAG, 0, p);
      FindNone(b, [SOH], p + 3);
    }
  }

  // It must be a number in range, and the checksum must stand where it says.
  lemma ExtractExactly(b: Data, p: nat, e: nat)
    requires At(b, EIGHT, 0) && FirstAt(b, NINE_TAG, 0, p) && FirstAt(b, [SOH], p + 3, e)
    ensures Extract(b) == ByLength(b, e + 1, ParseInt(b[p + 3..e]))
  {
    FindIs(b, NINE_TAG, 0, p);
    FindIs(b, [SOH], p + 3, e);
    LengthRead(b, p, e, ParseInt(b[p + 3..e]));
    MeasuredIs(b, e + 1, ParseInt(b[p + 3..e]));
  }

  lemma LengthRead(b: Data, p: nat, e: nat, n: Option<int>)
    requires Find(b, [SOH], p + 3) == e && p + 3 <= e < |b| && n == ParseInt(b[p + 3..e])
    ensures ExtractAt(b, p) == Measured(b, e + 1, n)
  {
  }

  lemma MeasuredIs(b: Data, body: nat, n: Option<int>)
    ensures Measured(b, body, n) == ByLength(b, body, n)
  {
  }
}
