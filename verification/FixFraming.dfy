// Framing a stream of tag=value messages (exchangesim/fix/message.py).
module FixFraming {
  import opened Options
  import opened Framing
  import opened Numerals
  import opened FixMessages
  import opened FixRoundTrip

  lemma ExtractShrinks()
    ensures Shrinks(Extract)
  {
    forall b | Extract(b).Frame? ensures |Extract(b).rest| < |b| {
      FindBounds(b, EIGHT, 0);
    }
  }

  // The bytes of an encoded message, by place: p of BeginString, l of BodyLength.
  ghost predicate Shaped(f: Data, p: nat, l: nat, n: nat) {
    && |f| == p + l + n + 13
    && f[0] == 56 && f[1] == 61 && (forall j :: 2 <= j < 2 + p ==> f[j] != SOH)
    && f[p + 2] == SOH && f[p + 3] == 57 && f[p + 4] == 61
    && (forall j :: p + 5 <= j < p + l + 5 ==> IsDigit(f[j]))
    && f[p + l + 5] == SOH && f[p + l + 6 + n..p + l + 9 + n] == TEN_TAG
  }

  // The length such a message declares.
  ghost predicate Declares(f: Data, p: nat, digits: Data) {
    p + |digits| + 5 <= |f| && f[p + 5..p + |digits| + 5] == digits
  }

  ghost predicate Means(digits: Data, n: nat) {
    ParseInt(digits) == Some(n)
  }

  ghost predicate HeadLaid(head: Data, p: nat, l: nat, n: nat) {
    && |head| == p + l + n + 6
    && head[0] == 56 && head[1] == 61 && (forall j :: 2 <= j < 2 + p ==> head[j] != SOH)
    && head[p + 2] == SOH && head[p + 3] == 57 && head[p + 4] == 61
    && (forall j :: p + 5 <= j < p + l + 5 ==> IsDigit(head[j]))
    && head[p + l + 5] == SOH
  }

  lemma HeadShaped(begin: Data, digits: Data, body: Data)
    requires SOH !in begin && AllDigits(digits)
    ensures var head, p, l := EIGHT + begin + NINE_TAG + digits + [SOH] + body, |begin|, |digits|;
            HeadLaid(head, p, l, |body|) && head[p + 5..p + l + 5] == digits
  {
  }

  lemma TrailerFollows(head: Data, trailer: Data, p: nat, l: nat, n: nat)
    requires HeadLaid(head, p, l, n) && |trailer| == 7 && trailer[..3] == TEN_TAG
    ensures Shaped(head + trailer, p, l, n) && (head + trailer)[p + 5..p + l + 5] == head[p + 5..p + l + 5]
  {
    var f := head + trailer;
    assert forall j :: 0 <= j < |head| ==> f[j] == head[j];
    assert f[p + l + 6 + n..p + l + 9 + n] == trailer[..3];
  }

  lemma TrailerStarts(head: Data)
    ensures |Trailer(head)| == 7 && Trailer(head)[..3] == TEN_TAG
  {
  }

  lemma EncodeLaid(fs: seq<Field>, begin: Data)
    requires SOH !in begin
    ensures var f, p, l := Encode(fs, begin), |begin|, |Length(fs)|;
            Shaped(f, p, l, |Join(SortFields(fs))|) && f[p + 5..p + l + 5] == Length(fs)
  {
    var digits, body, head := Length(fs), Join(SortFields(fs)), Head(fs, begin);
    ShowNatDigits(|body|);
    HeadShaped(begin, digits, body);
    TrailerStarts(head);
    TrailerFollows(head, Trailer(head), |begin|, |digits|, |body|);
  }

  lemma EncodeShaped(fs: seq<Field>, begin: Data)
    requires SOH !in begin
    ensures var f, p, l, n := Encode(fs, begin), |begin|, |Length(fs)|, |Join(SortFields(fs))|;
            Shaped(f, p, l, n) && Declares(f, p, Length(fs)) && Means(Length(fs), n)
  {
    EncodeLaid(fs, begin);
    ParseShown(|Join(SortFields(fs))|);
  }

  // Two buffers that agree up to m.
  ghost predicate Agree(f: Data, b: Data, m: nat) {
    m <= |f| && m <= |b| && forall j :: 0 <= j < m ==> b[j] == f[j]
  }

  lemma NotAt(d: Data, pat: Data, j: int)
    requires pat != [] && (0 <= j < |d| ==> d[j] != pat[0])
    ensures !At(d, pat, j)
  {
    assert 0 <= j <= |d| - |pat| ==> d[j..j + |pat|][0] == d[j];
  }

  lemma LengthTag(f: Data, p: nat, l: nat, n: nat, b: Data, m: nat)
    requires Shaped(f, p, l, n) && Agree(f, b, m) && 2 <= m && (m < |f| ==> m == |b|)
    ensures At(b, EIGHT, 0)
    ensures Find(b, NINE_TAG, 0) == if m >= p + 5 then p + 2 else -1
  {
    assert b[0] == f[0] && b[1] == f[1];
    assert b[0..2] == EIGHT;
    forall j | 0 <= j < p + 2 ensures !At(b, NINE_TAG, j) {
      if j < m {
        assert b[j] == f[j];
      }
      NotAt(b, NINE_TAG, j);
    }
    if m >= p + 5 {
      assert b[p + 2] == f[p + 2] && b[p + 3] == f[p + 3] && b[p + 4] == f[p + 4];
      assert b[p + 2..p + 5] == NINE_TAG;
      FindIs(b, NINE_TAG, 0, p + 2);
    } else {
      FindNone(b, NINE_TAG, 0);
    }
  }

  lemma LengthEnd(f: Data, p: nat, l: nat, n: nat, b: Data, m: nat)
    requires Shaped(f, p, l, n) && Agree(f, b, m) && p + 5 <= m && (m < |f| ==> m == |b|)
    ensures Find(b, [SOH], p + 5) == if m >= p + l + 6 then p + l + 5 else -1
  {
    forall j | p + 5 <= j < p + l + 5 ensures !At(b, [SOH], j) {
      if j < m {
        assert b[j] == f[j];
      }
      NotAt(b, [SOH], j);
    }
    if m >= p + l + 6 {
      assert b[p + l + 5] == f[p + l + 5];
      assert b[p + l + 5..p + l + 6] == [SOH];
      FindIs(b, [SOH], p + 5, p + l + 5);
    } else {
      FindNone(b, [SOH], p + 5);
    }
  }

  // What is split off once the places of the length are known.
  lemma ExtractOf(b: Data, p: nat, l: nat, n: nat, digits: Data)
    requires At(b, EIGHT, 0) && Find(b, NINE_TAG, 0) == p + 2 && Find(b, [SOH], p + 5) == p + l + 5
    requires l == |digits| && Declares(b, p, digits) && Means(digits, n)
    ensures Extract(b) ==
      (var start := p + l + 6 + n;
       if n > LENGTH_LIMIT then Malformed
       else if |b| < start + TRAILER_SIZE then Incomplete
       else if b[start..start + 3] != TEN_TAG then Malformed
       else Frame(b[..start + TRAILER_SIZE], b[start + TRAILER_SIZE..]))
  {
  }

  lemma SameSlice(f: Data, b: Data, i: nat, j: nat)
    requires f <= b && i <= j <= |f|
    ensures b[i..j] == f[i..j]
  {
    assert b[..|f|] == f;
    assert forall k :: i <= k < j ==> b[k] == f[k];
  }

  // Where the parts of a message at the front of a buffer are found.
  lemma PlacesFound(f: Data, p: nat, l: nat, n: nat, b: Data)
    requires Shaped(f, p, l, n) && f <= b
    ensures At(b, EIGHT, 0) && Find(b, NINE_TAG, 0) == p + 2 && Find(b, [SOH], p + 5) == p + l + 5
  {
    LengthTag(f, p, l, n, b, |f|);
    LengthEnd(f, p, l, n, b, |f|);
  }

  lemma PartsRead(f: Data, p: nat, l: nat, n: nat, digits: Data, b: Data)
    requires Shaped(f, p, l, n) && l == |digits| && Declares(f, p, digits) && f <= b
    ensures Declares(b, p, digits) && b[p + l + 6 + n..p + l + 9 + n] == TEN_TAG
  {
    SameSlice(f, b, p + 5, p + l + 5);
    SameSlice(f, b, p + l + 6 + n, p + l + 9 + n);
  }

  lemma ExtractsFront(f: Data, p: nat, l: nat, n: nat, digits: Data, b: Data)
    requires Shaped(f, p, l, n) && l == |digits| && Declares(f, p, digits) && Means(digits, n) && f <= b
    ensures Extract(b) == if n <= LENGTH_LIMIT then Frame(f, b[|f|..]) else Malformed
  {
    PlacesFound(f, p, l, n, b);
    PartsRead(f, p, l, n, digits, b);
    FrontIs(f, p, l, n, digits, b);
  }

  lemma FrontIs(f: Data, p: nat, l: nat, n: nat, digits: Data, b: Data)
    requires At(b, EIGHT, 0) && Find(b, NINE_TAG, 0) == p + 2 && Find(b, [SOH], p + 5) == p + l + 5
    requires l == |digits| && Declares(b, p, digits) && Means(digits, n)
    requires |f| == p + l + n + 13 && f <= b && b[p + l + 6 + n..p + l + 9 + n] == TEN_TAG
    ensures Extract(b) == if n <= LENGTH_LIMIT then Frame(f, b[|f|..]) else Malformed
  {
    ExtractOf(b, p, l, n, digits);
  }

  // A message at the front of the buffer is split off whole, whatever follows it.
  lemma ExtractsWhole(f: Data, p: nat, l: nat, n: nat, digits: Data, x: Data)
    requires Shaped(f, p, l, n) && l == |digits| && Declares(f, p, digits) && Means(digits, n)
    ensures Extract(f + x) == if n <= LENGTH_LIMIT then Frame(f, x) else Malformed
  {
    ExtractsFront(f, p, l, n, digits, f + x);
    assert (f + x)[|f|..] == x;
  }

  // The beginning of a message is waited for, unless more than 64 bytes of it have
  // come without BodyLength.
  lemma ExtractsPart(f: Data, p: nat, l: nat, n: nat, digits: Data, m: nat)
    requires Shaped(f, p, l, n) && l == |digits| && Declares(f, p, digits) && Means(digits, n)
    requires n <= LENGTH_LIMIT && 0 < m < |f|
    ensures Extract(f[..m]) == if JUNK_LIMIT < m < p + 5 then Malformed else Incomplete
  {
    var b := f[..m];
    if m == 1 {
      FindNone(b, EIGHT, 0);
    } else {
      LengthTag(f, p, l, n, b, m);
      if m >= p + 5 {
        LengthEnd(f, p, l, n, b, m);
        if m >= p + l + 6 {
          PartDeclares(f, p, digits, m);
          ExtractOf(b, p, l, n, digits);
        }
      }
    }
  }

  lemma PartDeclares(f: Data, p: nat, digits: Data, m: nat)
    requires Declares(f, p, digits) && p + |digits| + 5 <= m <= |f|
    ensures Declares(f[..m], p, digits)
  {
    assert f[..m][p + 5..p + |digits| + 5] == f[p + 5..p + |digits| + 5];
  }

  // Whether every reader can be given this BeginString and this body.
  predicate Readable(fs: seq<Field>, begin: Data) {
    |begin| <= 60 && |Join(SortFields(fs))| <= LENGTH_LIMIT
  }

  // An encoded message is a well-formed frame exactly when its BeginString is at most
  // 60 bytes long and its body within the limit; a longer BeginString arriving a byte
  // at a time is taken for junk.
  lemma EncodedFramed(fs: seq<Field>, begin: Data)
    requires SOH !in begin
    ensures Framed(Extract, Encode(fs, begin)) <==> Readable(fs, begin)
  {
    var f, p, l, n := Encode(fs, begin), |begin|, |Length(fs)|, |Join(SortFields(fs))|;
    EncodeShaped(fs, begin);
    if Readable(fs, begin) {
      forall x ensures Extract(f + x) == Frame(f, x) {
        ExtractsWhole(f, p, l, n, Length(fs), x);
      }
      forall m | 0 < m < |f| ensures Extract(f[..m]).Incomplete? {
        ExtractsPart(f, p, l, n, Length(fs), m);
      }
    } else if n > LENGTH_LIMIT {
      ExtractsWhole(f, p, l, n, Length(fs), []);
      assert f + [] == f;
      assert Extract(f + []) == Malformed;
    } else {
      ExtractsPart(f, p, l, n, Length(fs), 65);
      assert Extract(f[..65]).Malformed?;
    }
  }

  datatype Letter = Letter(fields: seq<Field>, begin: Data)

  function Encoded(letters: seq<Letter>): seq<Data> {
    seq(|letters|, i requires 0 <= i < |letters| => Encode(letters[i].fields, letters[i].begin))
  }

  predicate Fits(letter: Letter) {
    SOH !in letter.begin && Readable(letter.fields, letter.begin)
  }

  // A stream of encoded messages and the beginning of one more, in any chunks: exactly
  // those messages come out, once, in order; nothing is raised; the beginning stays.
  lemma EncodedStream(letters: seq<Letter>, next: Letter, n: nat, chunks: seq<Data>)
    requires Fits(next) && forall i :: 0 <= i < |letters| ==> Fits(letters[i])
    requires n < |Encode(next.fields, next.begin)|
    requires Concat(chunks) == Concat(Encoded(letters)) + Encode(next.fields, next.begin)[..n]
    ensures Shrinks(Extract)
    ensures FeedAll(Extract, [], chunks) == Fed(Encoded(letters), Encode(next.fields, next.begin)[..n], false)
  {
    ExtractShrinks();
    EncodedFramed(next.fields, next.begin);
    forall i | 0 <= i < |letters| ensures Framed(Extract, Encoded(letters)[i]) {
      EncodedFramed(letters[i].fields, letters[i].begin);
    }
    FramesComeOut(Extract, Encoded(letters), Encode(next.fields, next.begin), n, chunks);
  }

  // A BeginString over 60 bytes is read when it arrives at once and refused when its
  // first 65 bytes arrive alone: chunking then matters.
  lemma LongBeginStringRefused(fs: seq<Field>, begin: Data)
    requires SOH !in begin && |begin| > 60 && |Join(SortFields(fs))| <= LENGTH_LIMIT
    ensures Shrinks(Extract)
    ensures var f := Encode(fs, begin);
      |f| > 65 && FeedAll(Extract, [], [f]) == Fed([f], [], false) && FeedAll(Extract, [], [f[..65], f[65..]]).broken
  {
    var f, p, l, n := Encode(fs, begin), |begin|, |Length(fs)|, |Join(SortFields(fs))|;
    ExtractShrinks();
    EncodeShaped(fs, begin);
    ExtractsWhole(f, p, l, n, Length(fs), []);
    ExtractsPart(f, p, l, n, Length(fs), 65);
    assert f + [] == f;
    FedAtOnce(f);
    FedBadly(f[..65], f[65..]);
  }

  lemma FedAtOnce(f: Data)
    requires Shrinks(Extract) && f != [] && Extract(f) == Frame(f, [])
    ensures FeedAll(Extract, [], [f]) == Fed([f], [], false)
  {
    var chunks := [f];
    assert [] + chunks[0] == f && chunks[1..] == [];
    assert Feed(Extract, f).frames == [f] + Feed(Extract, []).frames;
  }

  lemma FedBadly(a: Data, b: Data)
    requires Shrinks(Extract) && a != [] && Extract(a).Malformed?
    ensures FeedAll(Extract, [], [a, b]).broken
  {
    var chunks := [a, b];
    assert [] + chunks[0] == a;
  }
}
