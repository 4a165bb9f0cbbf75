// Packets of the direct interface: prefix and stream reader (exchangesim/nnf/packet.py).
module NnfPackets {
  import opened Options
  import opened Framing
  import opened WireTypes

  const PREFIX_BYTES := 22
  const CHECKSUM_BYTES := 16
  const MAX_BYTES := 1024
  const MIN_BYTES := 62

  datatype Prefix = Prefix(length: nat, sequence: nat, checksum: Data)

  function Extract(b: Data): Split {
    if |b| < 6 then Incomplete
    else
      var length := FromBig(b[..2]);
      if length < MIN_BYTES || length > MAX_BYTES then Malformed
      else if |b| < length then Incomplete
      else Frame(b[..length], b[length..])
  }

  // The prefix of a complete packet; None where the program raises MalformedMessage.
  function UnpackPrefix(raw: Data): Option<Prefix> {
    if |raw| < PREFIX_BYTES || FromBig(raw[..2]) != |raw| then None
    else Some(Prefix(|raw|, FromBig(raw[2..6]), raw[6..PREFIX_BYTES]))
  }

  function DataOf(raw: Data): Data {
    if |raw| < PREFIX_BYTES then [] else raw[PREFIX_BYTES..]
  }

  // A packet around its data; without a checksum of its own it carries the digest of
  // the data. None where the program raises.
  function PackPacket(data: Data, sequence: int, checksum: Option<Data>, md5: Data -> Data): Option<Data> {
    var sum := if checksum.Some? then checksum.value else md5(data);
    var length := PREFIX_BYTES + |data|;
    if |sum| != CHECKSUM_BYTES || length > MAX_BYTES || !(0 <= sequence < 0x1_0000_0000) then None
    else Some(Big(length, 2) + Big(sequence, 4) + sum + data)
  }

  lemma ExtractMore(b: Data, x: Data)
    ensures Extract(b).Frame? ==> Extract(b + x) == Frame(Extract(b).raw, Extract(b).rest + x)
    ensures Extract(b).Malformed? ==> Extract(b + x).Malformed?
  {
    if |b| >= 6 {
      var length := FromBig(b[..2]);
      assert (b + x)[..2] == b[..2];
      if |b| >= length {
        assert (b + x)[..length] == b[..length] && (b + x)[length..] == b[length..] + x;
      }
    }
  }

  lemma ExtractStable()
    ensures Stable(Extract) && forall b :: Extract(b).Frame? ==> Extract(b).raw + Extract(b).rest == b
  {
    forall b, x
      ensures Extract(b).Frame? ==> Extract(b + x) == Frame(Extract(b).raw, Extract(b).rest + x)
      ensures Extract(b).Malformed? ==> Extract(b + x).Malformed?
    {
      ExtractMore(b, x);
    }
  }

  // However the bytes of any stream are cut up, the same packets come out and the same
  // tail stays, or the stream is refused either way.
  lemma AnyChunks(chunks: seq<Data>)
    ensures Shrinks(Extract) && SameAsWhole(Extract, chunks)
  {
    ExtractStable();
    Framing.AnyChunks(Extract, chunks);
  }

  lemma RangeOf()
    ensures Range(2) == 0x1_0000 && Range(4) == 0x1_0000_0000
  {
    assert Range(3) == 0x100_0000;
  }

  lemma PartsOf(length: Data, sequence: Data, sum: Data, data: Data)
    requires |length| == 2 && |sequence| == 4 && |sum| == 16
    ensures var f := length + sequence + sum + data;
      f[..2] == length && f[2..6] == sequence && f[6..22] == sum && f[22..] == data && |f| == 22 + |data|
  {
  }

  // A packet gives back its sequence number, its checksum and its data.
  lemma UnpacksPacked(data: Data, sequence: int, checksum: Option<Data>, md5: Data -> Data)
    requires PackPacket(data, sequence, checksum, md5).Some?
    ensures var f := PackPacket(data, sequence, checksum, md5).value;
      var sum := if checksum.Some? then checksum.value else md5(data);
      UnpackPrefix(f) == Some(Prefix(|f|, sequence, sum)) && DataOf(f) == data
  {
    var sum := if checksum.Some? then checksum.value else md5(data);
    var length := PREFIX_BYTES + |data|;
    RangeOf();
    BigRoundTrip(length, 2);
    BigRoundTrip(sequence, 4);
    PartsOf(Big(length, 2), Big(sequence, 4), sum, data);
  }

  // It is a frame the reader takes exactly when its data holds at least the forty bytes
  // of a message header: the writer does not insist on them, the reader does.
  lemma PackedFramed(data: Data, sequence: int, checksum: Option<Data>, md5: Data -> Data)
    requires PackPacket(data, sequence, checksum, md5).Some?
    ensures Framed(Extract, PackPacket(data, sequence, checksum, md5).value) <==> |data| >= 40
  {
    var f := PackPacket(data, sequence, checksum, md5).value;
    UnpacksPacked(data, sequence, checksum, md5);
    assert FromBig(f[..2]) == |f| == PREFIX_BYTES + |data|;
    if |data| >= 40 {
      assert f[..|f|] == f && f[|f|..] == [];
      ExtractStable();
      StableFrames(Extract, f);
    } else {
      assert f + [] == f;
      assert Extract(f + []).Malformed?;
    }
  }
}
