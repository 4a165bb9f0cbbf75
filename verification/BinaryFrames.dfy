// Framing a binary message: header, trailer and stream reader (exchangesim/binary/message.py).
module BinaryFrames {
  import opened Options
  import opened Framing
  import opened Bits
  import opened WireTypes
  import opened Checksums

  const START: Byte := 2
  const HEADER_BYTES := 22
  const MAP_BYTES := 32
  const BODY_OFFSET := 54
  const TRAILER_BYTES := 4
  const MIN_BYTES := 58

  datatype Header = Header(msgType: int, seqNum: int, compId: Data, possDup: bool, possResend: bool)

  const COMP_ID := AlphaFixed(12)

  // ---- splitting frames off a stream -----------------------------------------------------

  function Extract(b: Data): Split {
    if |b| < 3 then if b != [] && b[0] != START then Malformed else Incomplete
    else if b[0] != START then Malformed
    else
      var length := FromLittle(b[1..3]);
      if length < MIN_BYTES then Malformed
      else if |b| < length then Incomplete
      else Frame(b[..length], b[length..])
  }

  lemma ExtractMore(b: Data, x: Data)
    ensures Extract(b).Frame? ==> Extract(b + x) == Frame(Extract(b).raw, Extract(b).rest + x)
    ensures Extract(b).Malformed? ==> Extract(b + x).Malformed?
  {
    if |b| >= 3 {
      var length := FromLittle(b[1..3]);
      assert (b + x)[1..3] == b[1..3];
      if |b| >= length {
        assert (b + x)[..length] == b[..length] && (b + x)[length..] == b[length..] + x;
      }
    }
  }

  lemma ExtractStable()
    ensures Stable(Extract) && forall b :: Extract(b).Frame? ==> Extract(b).raw + Extract(b).rest == b
  {
    forall b, x
      ensures Extract(b).Frame? ==> Extract(b + x) == Frame(Extract(b).raw, Extract(b).rest + x)
      ensures Extract(b).Malformed? ==> Extract(b + x).Malformed?
    {
      ExtractMore(b, x);
    }
  }

  // However the bytes of any stream are cut up, the same frames come out and the same
  // tail stays, or the stream is refused either way.
  lemma AnyChunks(chunks: seq<Data>)
    ensures Shrinks(Extract) && SameAsWhole(Extract, chunks)
  {
    ExtractStable();
    Framing.AnyChunks(Extract, chunks);
  }

  // ---- one frame -------------------------------------------------------------------------

  function CrcBytes(d: Data): Data {
    Little(NumberOf(Crc32c(d)), 4)
  }

  function Flag(b: bool): Byte {
    if b then 1 else 0
  }

  // The fixed fields in front of the Comp ID.
  function Prefix(length: nat, h: Header): Data
    requires h.msgType >= 0 && h.seqNum >= 0
  {
    [START] + Little(length, 2) + Little(h.msgType, 1) + Little(h.seqNum, 4) + [Flag(h.possDup)] + [Flag(h.possResend)]
  }

  // A frame with its length and checksum; None where the program raises.
  function PackFrame(h: Header, presence: Data, body: Data): Option<Data> {
    var length := BODY_OFFSET + |body| + TRAILER_BYTES;
    var comp := Pack(COMP_ID, Text(h.compId));
    if length > 0xFFFF || !(0 <= h.msgType < 0x100) || !(0 <= h.seqNum < 0x1_0000_0000) || comp.None? then None
    else
      var frame := Prefix(length, h) + comp.value + presence + body;
      Some(frame + CrcBytes(frame))
  }

  // The header of a complete frame; None where the program raises MalformedMessage.
  function UnpackHeader(raw: Data, validate: bool): Option<Header> {
    if |raw| < MIN_BYTES || raw[0] != START || FromLittle(raw[1..3]) != |raw| then None
    else
      var end := |raw| - TRAILER_BYTES;
      if validate && FromLittle(raw[end..]) != NumberOf(Crc32c(raw[..end])) then None
      else
        var comp := Unpack(COMP_ID, raw, 10);
        if comp.None? || !comp.value.0.Text? then None
        else Some(Header(raw[3], FromLittle(raw[4..8]), comp.value.0.t, raw[8] != 0, raw[9] != 0))
  }

  function BodyOf(raw: Data): Data
    requires |raw| >= MIN_BYTES
  {
    raw[HEADER_BYTES..|raw| - TRAILER_BYTES]
  }

  // ---- a packed frame is read back ---------------------------------------------------------

  lemma RangeOf()
    ensures Range(1) == 0x100 && Range(2) == 0x1_0000 && Range(4) == 0x1_0000_0000
  {
    assert Range(3) == 0x100_0000;
  }

  lemma CrcReadBack(d: Data)
    ensures |CrcBytes(d)| == 4 && FromLittle(CrcBytes(d)) == NumberOf(Crc32c(d))
  {
    ValueBound(Crc32c(d), 32);
    PowerWide();
    RangeOf();
    LittleRoundTrip(NumberOf(Crc32c(d)), 4);
  }

  lemma PowerWide()
    ensures Power(32) == 0x1_0000_0000
  {
    PowerEight();
    PowerUp(8);
    PowerUp(16);
    PowerUp(24);
  }

  lemma PowerUp(n: nat)
    ensures Power(n + 8) == 256 * Power(n)
  {
    assert Power(n + 8) == 2 * Power(n + 7) == 4 * Power(n + 6) == 8 * Power(n + 5) == 16 * Power(n + 4);
    assert Power(n + 4) == 2 * Power(n + 3) == 4 * Power(n + 2) == 8 * Power(n + 1) == 16 * Power(n);
  }

  // Where the fixed fields of a prefix stand.
  ghost predicate Laid(raw: Data, length: nat, h: Header) {
    && |raw| >= 22 && raw[0] == START && FromLittle(raw[1..3]) == length
    && raw[3] == h.msgType && FromLittle(raw[4..8]) == h.seqNum
    && raw[8] == Flag(h.possDup) && raw[9] == Flag(h.possResend)
  }

  lemma PrefixLaid(length: nat, h: Header, rest: Data)
    requires length < 0x1_0000 && 0 <= h.msgType < 0x100 && 0 <= h.seqNum < 0x1_0000_0000 && |rest| >= 12
    ensures |Prefix(length, h)| == 10 && Laid(Prefix(length, h) + rest, length, h)
  {
    RangeOf();
    LittleRoundTrip(length, 2);
    LittleRoundTrip(h.seqNum, 4);
    OneByte(h.msgType);
    FieldsLaid(Little(length, 2), Little(h.msgType, 1), Little(h.seqNum, 4), Flag(h.possDup), Flag(h.possResend), rest);
  }

  lemma OneByte(x: nat)
    requires x < 256
    ensures Little(x, 1) == [x]
  {
    assert Little(x / 256, 0) == [];
  }

  lemma FieldsLaid(length: Data, kind: Data, seqNum: Data, dup: Byte, again: Byte, rest: Data)
    requires |length| == 2 && |kind| == 1 && |seqNum| == 4
    ensures var raw := [START] + length + kind + seqNum + [dup] + [again] + rest;
      && raw[0] == START && raw[1..3] == length && raw[3] == kind[0] && raw[4..8] == seqNum
      && raw[8] == dup && raw[9] == again && |raw| == 10 + |rest|
  {
  }

  lemma ReadsHeader(f: Data, h: Header, comp: Data)
    requires |f| >= MIN_BYTES && Laid(f, |f|, h)
    requires FromLittle(f[|f| - TRAILER_BYTES..]) == NumberOf(Crc32c(f[..|f| - TRAILER_BYTES]))
    requires Unpack(COMP_ID, f, 10) == Some((Text(comp), 22))
    ensures UnpackHeader(f, true) == Some(h.(compId := comp))
  {
  }

  lemma ReadsCompId(compId: Data, f: Data)
    requires Pack(COMP_ID, Text(compId)).Some? && |f| >= 22 && f[10..22] == Pack(COMP_ID, Text(compId)).value
    ensures Unpack(COMP_ID, f, 10) == Some((Text(UpToNul(Shorten(compId, 11))), 22))
  {
    assert |Pack(COMP_ID, Text(compId)).value| == 12;
    UnpackPacked(COMP_ID, Text(compId), f, 10);
  }

  lemma ExtractsWhole(f: Data)
    requires |f| >= MIN_BYTES && f[0] == START && FromLittle(f[1..3]) == |f|
    ensures Extract(f) == Frame(f, [])
  {
    assert f[..|f|] == f && f[|f|..] == [];
  }

  // A packed frame is exactly as long as it says, is taken off a stream whole, and gives
  // back its header, with the Comp ID as its field holds it, and its map and body.
  lemma UnpacksPacked(h: Header, presence: Data, body: Data)
    requires PackFrame(h, presence, body).Some? && |presence| == MAP_BYTES
    ensures var f := PackFrame(h, presence, body).value;
      && |f| == BODY_OFFSET + |body| + TRAILER_BYTES && Extract(f) == Frame(f, [])
      && UnpackHeader(f, true) == Some(h.(compId := UpToNul(Shorten(h.compId, 11))))
      && BodyOf(f) == presence + body
  {
    var comp := Pack(COMP_ID, Text(h.compId)).value;
    var prefix := Prefix(BODY_OFFSET + |body| + TRAILER_BYTES, h);
    var frame := prefix + comp + presence + body;
    PackedParts(h, presence, body, prefix, comp, frame);
    var f := PackFrame(h, presence, body).value;
    ReadsCompId(h.compId, f);
    ReadsHeader(f, h, UpToNul(Shorten(h.compId, 11)));
    ExtractsWhole(f);
  }

  lemma PackedParts(h: Header, presence: Data, body: Data, prefix: Data, comp: Data, frame: Data)
    requires PackFrame(h, presence, body).Some? && |presence| == MAP_BYTES
    requires prefix == Prefix(BODY_OFFSET + |body| + TRAILER_BYTES, h)
    requires comp == Pack(COMP_ID, Text(h.compId)).value && frame == prefix + comp + presence + body
    ensures var f := PackFrame(h, presence, body).value;
      && |f| == BODY_OFFSET + |body| + TRAILER_BYTES && Laid(f, |f|, h) && f[10..22] == comp
      && FromLittle(f[|f| - TRAILER_BYTES..]) == NumberOf(Crc32c(f[..|f| - TRAILER_BYTES]))
      && BodyOf(f) == presence + body
  {
    assert |comp| == 12;
    CrcReadBack(frame);
    PrefixLaid(BODY_OFFSET + |body| + TRAILER_BYTES, h, comp + presence + body + CrcBytes(frame));
    Grouped(prefix, comp, presence, body, CrcBytes(frame));
  }

  lemma Grouped(prefix: Data, comp: Data, presence: Data, body: Data, crc: Data)
    requires |prefix| == 10 && |comp| == 12 && |presence| == 32 && |crc| == 4
    ensures var f := prefix + comp + presence + body + crc;
      && f == prefix + (comp + presence + body + crc) && |f| == 58 + |body|
      && f[10..22] == comp && f[22..|f| - 4] == presence + body
      && f[..|f| - 4] == prefix + comp + presence + body && f[|f| - 4..] == crc
  {
  }

  // So a packed frame is well-formed, and streams of them survive any chunking.
  lemma PackedFramed(h: Header, presence: Data, body: Data)
    requires PackFrame(h, presence, body).Some? && |presence| == MAP_BYTES
    ensures Framed(Extract, PackFrame(h, presence, body).value)
  {
    UnpacksPacked(h, presence, body);
    ExtractStable();
    StableFrames(Extract, PackFrame(h, presence, body).value);
  }
}
