// tag=value messages: fields, encoding, framing and decoding (exchangesim/fix/message.py).
module FixMessages {
  import opened Options
  import opened Framing
  import opened Numerals

  const SOH: Byte := 1
  const EQUALS: Byte := 61

  const BEGIN_STRING := 8
  const BODY_LENGTH := 9
  const CHECK_SUM := 10
  const MSG_TYPE := 35

  // One field; a value is its latin-1 bytes.
  datatype Field = Field(tag: int, value: Data)

  function GetAll(fs: seq<Field>, tag: int): seq<Data> {
    if fs == [] then []
    else if fs[0].tag == tag then [fs[0].value] + GetAll(fs[1..], tag)
    else GetAll(fs[1..], tag)
  }

  predicate Has(fs: seq<Field>, tag: int) {
    exists i :: 0 <= i < |fs| && fs[i].tag == tag
  }

  // ---- order of transmission ---------------------------------------------------------

  predicate Structural(tag: int) {
    tag == BEGIN_STRING || tag == BODY_LENGTH || tag == CHECK_SUM
  }

  // Where a tag stands in the header; one past the end for the body.
  function Rank(tag: int): nat {
    match tag
    case 35 => 0
    case 34 => 1
    case 49 => 2
    case 50 => 3
    case 52 => 4
    case 56 => 5
    case 57 => 6
    case 43 => 7
    case 97 => 8
    case 122 => 9
    case 1128 => 10
    case _ => 11
  }

  predicate InHeader(tag: int) {
    Rank(tag) < 11
  }

  function HeaderOf(fs: seq<Field>): seq<Field> {
    if fs == [] then []
    else if !Structural(fs[0].tag) && InHeader(fs[0].tag) then [fs[0]] + HeaderOf(fs[1..])
    else HeaderOf(fs[1..])
  }

  function BodyOf(fs: seq<Field>): seq<Field> {
    if fs == [] then []
    else if !Structural(fs[0].tag) && !InHeader(fs[0].tag) then [fs[0]] + BodyOf(fs[1..])
    else BodyOf(fs[1..])
  }

  // Puts f in front of the first field that ranks no lower.
  function Insert(f: Field, fs: seq<Field>): seq<Field> {
    if fs == [] || Rank(f.tag) <= Rank(fs[0].tag) then [f] + fs else [fs[0]] + Insert(f, fs[1..])
  }

  // The stable sort by rank.
  function SortByRank(fs: seq<Field>): seq<Field> {
    if fs == [] then [] else Insert(fs[0], SortByRank(fs[1..]))
  }

  function SortFields(fs: seq<Field>): seq<Field> {
    SortByRank(HeaderOf(fs)) + BodyOf(fs)
  }

  // ---- encoding ------------------------------------------------------------------------

  function FieldBytes(f: Field): Data {
    ShowInt(f.tag) + [EQUALS] + f.value + [SOH]
  }

  function Join(fs: seq<Field>): Data {
    if fs == [] then [] else FieldBytes(fs[0]) + Join(fs[1..])
  }

  function Sum(d: Data): nat {
    if d == [] then 0 else Sum(d[..|d| - 1]) + d[|d| - 1]
  }

  function Length(fs: seq<Field>): Data {
    ShowNat(|Join(SortFields(fs))|)
  }

  // Everything in front of CheckSum, as fields and as bytes.
  function HeadFields(fs: seq<Field>, begin: Data): seq<Field> {
    [Field(BEGIN_STRING, begin), Field(BODY_LENGTH, Length(fs))] + SortFields(fs)
  }

  const EIGHT: Data := [56, 61]
  const NINE_TAG: Data := [1, 57, 61]
  const TEN_TAG: Data := [49, 48, 61]

  function Head(fs: seq<Field>, begin: Data): Data {
    EIGHT + begin + NINE_TAG + Length(fs) + [SOH] + Join(SortFields(fs))
  }

  function Trailer(head: Data): Data {
    TEN_TAG + ShowThree(Sum(head) % 256) + [SOH]
  }

  function Encode(fs: seq<Field>, begin: Data): Data {
    Head(fs, begin) + Trailer(Head(fs, begin))
  }

  // ---- searching bytes -------------------------------------------------------------------

  predicate At(d: Data, pat: Data, i: int) {
    0 <= i <= |d| - |pat| && d[i..i + |pat|] == pat
  }

  // The first place from `from` on where pat stands, or -1.
  function Find(d: Data, pat: Data, from: int): int
    decreases |d| - from
  {
    if from + |pat| > |d| then -1 else if At(d, pat, from) then from else Find(d, pat, from + 1)
  }

  // The last place before `before` where pat stands, or -1.
  function FindLast(d: Data, pat: Data, before: int): int
    decreases before
  {
    if before <= 0 then -1 else if At(d, pat, before - 1) then before - 1 else FindLast(d, pat, before - 1)
  }

  // ---- framing ------------------------------------------------------------------------------

  const JUNK_LIMIT := 64
  const LENGTH_LIMIT := 0x100_0000
  const TRAILER_SIZE := 7

  // What the length read makes of a buffer whose body starts at `body`.
  function Measured(b: Data, body: nat, length: Option<int>): Split {
    if length.None? || length.value < 0 || length.value > LENGTH_LIMIT then Malformed
    else
      var checkSumStart := body + length.value;
      if |b| < checkSumStart + TRAILER_SIZE then Incomplete
      else if b[checkSumStart..checkSumStart + 3] != TEN_TAG then Malformed
      else Frame(b[..checkSumStart + TRAILER_SIZE], b[checkSumStart + TRAILER_SIZE..])
  }

  // The length stands behind "9=", which is at lengthStart.
  function ExtractAt(b: Data, lengthStart: nat): Split {
    var lengthEnd := Find(b, [SOH], lengthStart + 3);
    if lengthEnd < 0 then Incomplete
    else
      FindBounds(b, [SOH], lengthStart + 3);
      Measured(b, lengthEnd + 1, ParseInt(b[lengthStart + 3..lengthEnd]))
  }

  // One message off the front of a buffer that begins "8=".
  function ExtractHere(b: Data): Split {
    var lengthStart := Find(b, NINE_TAG, 0);
    FindBounds(b, NINE_TAG, 0);
    if lengthStart < 0 then if |b| > JUNK_LIMIT then Malformed else Incomplete
    else ExtractAt(b, lengthStart)
  }

  function Extract(b: Data): Split {
    if At(b, EIGHT, 0) then ExtractHere(b)
    else
      var start := Find(b, EIGHT, 0);
      FindBounds(b, EIGHT, 0);
      if start < 0 then if |b| > JUNK_LIMIT then Malformed else Incomplete
      else ExtractHere(b[start..])
  }

  lemma {:induction false} FindBounds(d: Data, pat: Data, from: int)
    ensures var i := Find(d, pat, from); i == -1 || (from <= i && At(d, pat, i))
    decreases |d| - from
  {
    if from + |pat| <= |d| && !At(d, pat, from) {
      FindBounds(d, pat, from + 1);
    }
  }

  // ---- decoding -----------------------------------------------------------------------------

  function SplitAt(d: Data, sep: Byte): seq<Data>
    decreases |d|
  {
    var i := Find(d, [sep], 0);
    FindBounds(d, [sep], 0);
    if i < 0 then [d] else [d[..i]] + SplitAt(d[i + 1..], sep)
  }

  function DecodeField(chunk: Data): Option<Field> {
    var separator := Find(chunk, [EQUALS], 0);
    FindBounds(chunk, [EQUALS], 0);
    if separator <= 0 then None
    else
      var tag := ParseInt(chunk[..separator]);
      if tag.None? || tag.value <= 0 then None else Some(Field(tag.value, chunk[separator + 1..]))
  }

  // The fields of the chunks that are not empty; None when one of them is no field.
  function DecodeFields(chunks: seq<Data>): Option<seq<Field>> {
    if chunks == [] then Some([])
    else if chunks[0] == [] then DecodeFields(chunks[1..])
    else
      var f, rest := DecodeField(chunks[0]), DecodeFields(chunks[1..]);
      if f.None? || rest.None? then None else Some([f.value] + rest.value)
  }

  const CHECK_SUM_TAG: Data := [1, 49, 48, 61]

  predicate CheckSumHolds(raw: Data, start: nat)
    requires start < |raw|
  {
    var to := if start + 7 <= |raw| then start + 7 else |raw|;
    var from := if start + 4 <= to then start + 4 else to;
    ParseInt(raw[from..to]) == Some(Sum(raw[..start + 1]) % 256)
  }

  // The fields of one complete message; None where the program raises MalformedMessage.
  function Decode(raw: Data, validate: bool): Option<seq<Field>> {
    var start := FindLast(raw, CHECK_SUM_TAG, |raw|);
    FindLastBounds(raw, CHECK_SUM_TAG, |raw|);
    if raw == [] || raw[|raw| - 1] != SOH then None
    else if start < 0 then None
    else if validate && !CheckSumHolds(raw, start) then None
    else
      var fs := DecodeFields(SplitAt(raw, SOH));
      if fs.None? || fs.value == [] || fs.value[0].tag != BEGIN_STRING || !Has(fs.value, MSG_TYPE) then None
      else fs
  }

  lemma {:induction false} FindLastBounds(d: Data, pat: Data, before: int)
    ensures var i := FindLast(d, pat, before); i == -1 || (0 <= i < before && At(d, pat, i))
    decreases before
  {
    if before > 0 && !At(d, pat, before - 1) {
      FindLastBounds(d, pat, before - 1);
    }
  }
}
