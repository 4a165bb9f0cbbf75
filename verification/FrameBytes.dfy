// The bytes of a binary frame and of a packet, when there is one, and which damage is
// refused (exchangesim/binary/message.py, nnf/packet.py).
module FrameBytes {
  import opened Options
  import opened Framing
  import opened Bits
  import opened WireTypes
  import opened WireBytes
  import opened Checksums
  import opened CrcErrors
  import B = BinaryFrames
  import P = NnfPackets

  // ---- binary frames ----------------------------------------------------------------------

  // A frame is packed exactly when everything fits its field.
  lemma FramePacks(h: B.Header, presence: Data, body: Data)
    ensures B.PackFrame(h, presence, body).Some? <==>
      |body| <= 65477 && 0 <= h.msgType < 256 && 0 <= h.seqNum < 0x1_0000_0000
  {
  }

  predicate Mark(b: bool, x: Byte) {
    x == if b then 1 else 0
  }

  // 02, length, type, number, two marks, Comp ID, map, body, checksum.
  ghost predicate FrameLaidOut(h: B.Header, presence: Data, body: Data, f: Data) {
    var n, m := |f|, |f| - 4;
    && n == 58 + |body| && |presence| == 32 && n < 0x1_0000 && 0 <= h.msgType && 0 <= h.seqNum
    && f[0] == 2 && f[1] == n % 256 && f[2] == n / 256 && f[3] == h.msgType
    && LowestFirst(h.seqNum, f[4..8]) && Mark(h.possDup, f[8]) && Mark(h.possResend, f[9])
    && Written(AlphaFixed(12), Text(h.compId), f[10..22])
    && f[22..54] == presence && f[54..m] == body
    && LowestFirst(NumberOf(Crc32c(f[..m])), f[m..])
  }

  lemma FrameIs(h: B.Header, presence: Data, body: Data)
    requires B.PackFrame(h, presence, body).Some? && |presence| == 32
    ensures FrameLaidOut(h, presence, body, B.PackFrame(h, presence, body).value)
  {
    var n := 58 + |body|;
    var comp := Pack(B.COMP_ID, Text(h.compId)).value;
    var frame := B.Prefix(n, h) + comp + presence + body;
    var crc := B.CrcBytes(frame);
    WritesExactly(B.COMP_ID, Text(h.compId));
    TwoBytes(n);
    B.OneByte(h.msgType);
    LittleIsLowestFirst(h.seqNum, 4);
    LittleIsLowestFirst(NumberOf(Crc32c(frame)), 4);
    PrefixParts(Little(n, 2), Little(h.msgType, 1), Little(h.seqNum, 4), B.Flag(h.possDup), B.Flag(h.possResend));
    PartsOf(B.Prefix(n, h), comp, presence, body, crc);
  }

  lemma PrefixParts(length: Data, kind: Data, seqNum: Data, dup: Byte, again: Byte)
    requires |length| == 2 && |kind| == 1 && |seqNum| == 4
    ensures var p := [B.START] + length + kind + seqNum + [dup] + [again];
      && |p| == 10 && p[0] == 2 && p[1] == length[0] && p[2] == length[1] && p[3] == kind[0] && p[4..8] == seqNum
      && p[8] == dup && p[9] == again
  {
  }

  lemma PartsOf(prefix: Data, comp: Data, presence: Data, body: Data, crc: Data)
    requires |prefix| == 10 && |comp| == 12 && |presence| == 32 && |crc| == 4
    ensures var f := prefix + comp + presence + body + crc;
      var m := |f| - 4;
      && |f| == 58 + |body| && (forall i :: 0 <= i < 10 ==> f[i] == prefix[i]) && f[4..8] == prefix[4..8]
      && f[10..22] == comp && f[22..54] == presence && f[54..m] == body && f[m..] == crc
      && f[..m] == prefix + comp + presence + body
  {
    var f := prefix + comp + presence + body + crc;
    assert forall i :: 4 <= i < 8 ==> f[i] == prefix[i];
  }

  // The header is read only off a frame that begins 02, is as long as it says, and, if it is
  // looked at, ends with the checksum of what stands in front.
  lemma HeaderNeeds(raw: Data, validate: bool)
    ensures B.UnpackHeader(raw, validate).Some? <==>
      && |raw| >= 58 && raw[0] == 2 && FromLittle(raw[1..3]) == |raw|
      && (validate ==> FromLittle(raw[|raw| - 4..]) == NumberOf(Crc32c(raw[..|raw| - 4])))
  {
  }

  lemma NumbersTell(a: Word, b: Word)
    requires NumberOf(a) == NumberOf(b)
    ensures a == b
  {
    BitsOfValue(a, 0);
    BitsOfValue(b, 0);
    assert a + Zeros(0) == a && b + Zeros(0) == b;
  }

  function SumOf(d: Data): int {
    NumberOf(Crc32c(d))
  }

  // What stands at the end is the checksum of what stands in front.
  predicate Ends(front: Data, tail: Data) {
    FromLittle(tail) == SumOf(front)
  }

  lemma BurstSums(a: Data, mid: Data, other: Data, b: Data, tail: Data)
    requires |mid| == |other| <= 4 && mid != other && Ends(a + mid + b, tail)
    ensures !Ends(a + other + b, tail)
  {
    BurstCaught(a, mid, other, b);
    if SumOf(a + mid + b) == SumOf(a + other + b) {
      NumbersTell(Crc32c(a + mid + b), Crc32c(a + other + b));
    }
  }

  lemma SumRead(raw: Data, front: Data, tail: Data)
    requires raw == front + tail && |tail| == 4
    ensures B.UnpackHeader(raw, true).Some? ==> Ends(front, tail)
  {
    assert raw[..|raw| - 4] == front && raw[|raw| - 4..] == tail;
    HeaderNeeds(raw, true);
  }

  // Damage within four bytes in a row, anywhere in front of the checksum, is refused.
  lemma DamageRefused(h: B.Header, presence: Data, body: Data, a: Data, mid: Data, other: Data, b: Data, tail: Data)
    requires B.PackFrame(h, presence, body) == Some(a + mid + b + tail) && |presence| == 32 && |tail| == 4
    requires |mid| == |other| <= 4 && mid != other
    ensures B.UnpackHeader(a + other + b + tail, true).None?
  {
    B.UnpacksPacked(h, presence, body);
    SumRead(a + mid + b + tail, a + mid + b, tail);
    BurstSums(a, mid, other, b, tail);
    SumRead(a + other + b + tail, a + other + b, tail);
  }

  lemma ReadTwo(d: Data)
    requires |d| == 2
    ensures FromLittle(d) == d[0] as int + 256 * d[1] as int && FromBig(d) == 256 * d[0] as int + d[1] as int
  {
    assert d[1..] == [d[1]] && [d[1]][1..] == [] && FromLittle([d[1]]) == d[1] as int + 256 * FromLittle([]);
    assert d[..1] == [d[0]] && [d[0]][..0] == [] && FromBig([d[0]]) == 256 * FromBig([]) + d[0] as int;
  }

  // ---- splitting frames and packets off a buffer --------------------------------------------

  // A buffer that does not begin 02 is refused as soon as its first byte is there; a length
  // below 58 when it is; otherwise the reader waits for as many bytes as the length says.
  lemma SplitsFrames(b: Data)
    ensures B.Extract(b) ==
      if b == [] then Incomplete
      else if b[0] != 2 then Malformed
      else if |b| < 3 then Incomplete
      else
        (var n := b[1] as int + 256 * b[2] as int;
         if n < 58 then Malformed else if |b| < n then Incomplete else Frame(b[..n], b[n..]))
  {
    if |b| >= 3 {
      ReadTwo(b[1..3]);
    }
  }

  // A packet's length is refused outside 62 to 1024.
  lemma SplitsPackets(b: Data)
    ensures P.Extract(b) ==
      if |b| < 6 then Incomplete
      else
        (var n := 256 * b[0] as int + b[1] as int;
         if n < 62 || n > 1024 then Malformed else if |b| < n then Incomplete else Frame(b[..n], b[n..]))
  {
    if |b| >= 6 {
      ReadTwo(b[..2]);
    }
  }

  // Length, number and checksum in front of the data, highest byte first.
  lemma PacketIs(data: Data, sequence: int, checksum: Option<Data>, md5: Data -> Data)
    ensures var sum := if checksum.Some? then checksum.value else md5(data);
      var p := P.PackPacket(data, sequence, checksum, md5);
      && (p.Some? <==> |sum| == 16 && |data| <= 1002 && 0 <= sequence < 0x1_0000_0000)
      && (p.Some? ==> PacketLaidOut(data, sequence, sum, p.value))
  {
    var sum := if checksum.Some? then checksum.value else md5(data);
    var p := P.PackPacket(data, sequence, checksum, md5);
    if p.Some? {
      Ranges();
      HighestFirst(22 + |data|, 2);
      HighestFirst(sequence, 4);
      P.PartsOf(Big(22 + |data|, 2), Big(sequence, 4), sum, data);
    }
  }

  ghost predicate PacketLaidOut(data: Data, sequence: int, sum: Data, f: Data) {
    && |f| == 22 + |data| && sequence >= 0 && IsHighestFirst(|f|, f[..2]) && IsHighestFirst(sequence, f[2..6])
    && f[6..22] == sum && f[22..] == data
  }

  ghost predicate IsHighestFirst(n: nat, d: Data) {
    forall i :: 0 <= i < |d| ==> d[i] == n / Range(|d| - 1 - i) % 256
  }

  lemma HighestFirst(n: nat, width: nat)
    ensures IsHighestFirst(n, Big(n, width))
  {
    forall i | 0 <= i < width ensures Big(n, width)[i] == n / Range(width - 1 - i) % 256 {
      BigAt(n, width, i);
    }
  }
}
