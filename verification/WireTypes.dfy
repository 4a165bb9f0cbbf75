// The data types of the binary encodings: integers, text and presence maps
// (exchangesim/binary/types.py).
module WireTypes {
  import opened Options
  import opened Framing
  import opened Numerals
  import opened Bits

  const NUL: Byte := 0

  // ---- integers in bytes -------------------------------------------------------------------

  function Little(x: nat, width: nat): (d: Data)
    ensures |d| == width
    decreases width, x
  {
    if width == 0 then [] else [x % 256] + Little(x / 256, width - 1)
  }

  function FromLittle(d: Data): nat {
    if d == [] then 0 else d[0] + 256 * FromLittle(d[1..])
  }

  function Range(width: nat): (r: nat)
    ensures r >= 1
  {
    if width == 0 then 1 else 256 * Range(width - 1)
  }

  lemma {:induction false} LittleRoundTrip(x: nat, width: nat)
    requires x < Range(width)
    ensures FromLittle(Little(x, width)) == x
    decreases width
  {
    if width > 0 {
      LittleRoundTrip(x / 256, width - 1);
      assert Little(x, width)[1..] == Little(x / 256, width - 1);
    }
  }

  lemma {:induction false} FromLittleRange(d: Data)
    ensures FromLittle(d) < Range(|d|) && Little(FromLittle(d), |d|) == d
    decreases |d|
  {
    if d != [] {
      FromLittleRange(d[1..]);
      assert d == [d[0]] + d[1..];
    }
  }

  function Big(x: nat, width: nat): (d: Data)
    ensures |d| == width
    decreases width, x
  {
    if width == 0 then [] else Big(x / 256, width - 1) + [x % 256]
  }

  function FromBig(d: Data): nat {
    if d == [] then 0 else 256 * FromBig(d[..|d| - 1]) + d[|d| - 1]
  }

  lemma {:induction false} BigRoundTrip(x: nat, width: nat)
    requires x < Range(width)
    ensures FromBig(Big(x, width)) == x
    decreases width
  {
    if width > 0 {
      BigRoundTrip(x / 256, width - 1);
      assert Big(x, width)[..width - 1] == Big(x / 256, width - 1);
    }
  }

  // ---- types -------------------------------------------------------------------------------

  // A value on its way to or from the wire.
  datatype Value = Number(n: int) | Text(t: Data)

  datatype WireType =
    | Unsigned(width: nat)
    | Decimal
    | Character
    | AlphaFixed(size: nat)
    | AlphaVariable(max: nat)

  predicate Proper(t: WireType) {
    && (t.Unsigned? ==> t.width == 1 || t.width == 2 || t.width == 4)
    && (t.AlphaFixed? ==> t.size >= 1)
  }

  // int(value), for a value of either kind.
  function AsInt(v: Value): Option<int> {
    match v
    case Number(n) => Some(n)
    case Text(t) => ParseText(t)
  }

  // str(value).
  function AsText(v: Value): Data {
    match v
    case Number(n) => ShowInt(n)
    case Text(t) => t
  }

  const HALF_RANGE := 0x8000_0000_0000_0000

  // Two's complement in eight bytes.
  function Signed(n: int): Data
    requires -HALF_RANGE <= n < HALF_RANGE
  {
    Little(if n < 0 then n + 2 * HALF_RANGE else n, 8)
  }

  function FromSigned(d: Data): int {
    var x := FromLittle(d);
    if x >= HALF_RANGE then x - 2 * HALF_RANGE else x
  }

  function Shorten(d: Data, n: nat): Data {
    if |d| <= n then d else d[..n]
  }

  function Nuls(n: nat): Data {
    seq(n, i => NUL)
  }

  // The bytes of a value; None where the program raises.
  function Pack(t: WireType, v: Value): Option<Data>
    requires Proper(t)
  {
    match t
    case Unsigned(width) =>
      var n := AsInt(v);
      if n.None? || n.value < 0 || n.value >= Range(width) then None else Some(Little(n.value, width))
    case Decimal =>
      var n := AsInt(v);
      if n.None? || n.value < -HALF_RANGE || n.value >= HALF_RANGE then None else Some(Signed(n.value))
    case Character =>
      if v.Number? then (if 0 <= v.n < 256 then Some([v.n]) else None)
      else if |v.t| == 1 then Some(v.t) else None
    case AlphaFixed(size) =>
      var d := Shorten(AsText(v), size - 1);
      Some(d + Nuls(size - |d|))
    case AlphaVariable(max) =>
      var d := Shorten(AsText(v), max);
      if |d| + 1 >= Range(2) then None else Some(Little(|d| + 1, 2) + d + [NUL])
  }

  // Up to the first NUL, or all of it.
  function UpToNul(d: Data): Data {
    if d == [] || d[0] == NUL then [] else [d[0]] + UpToNul(d[1..])
  }

  // A value and the offset behind it; None where the message ends mid-field.
  function Unpack(t: WireType, raw: Data, offset: nat): (r: Option<(Value, nat)>)
    requires Proper(t)
    ensures r.Some? ==> offset <= r.value.1 <= |raw|
  {
    match t
    case Unsigned(width) =>
      if offset + width > |raw| then None
      else Some((Number(FromLittle(raw[offset..offset + width])), offset + width))
    case Decimal =>
      if offset + 8 > |raw| then None else Some((Number(FromSigned(raw[offset..offset + 8])), offset + 8))
    case Character =>
      if offset + 1 > |raw| then None else Some((Number(raw[offset]), offset + 1))
    case AlphaFixed(size) =>
      if offset + size > |raw| then None
      else Some((Text(UpToNul(raw[offset..offset + size])), offset + size))
    case AlphaVariable(_) =>
      if offset + 2 > |raw| then None
      else
        var length := FromLittle(raw[offset..offset + 2]);
        if offset + 2 + length > |raw| then None
        else Some((Text(UpToNul(raw[offset + 2..offset + 2 + length])), offset + 2 + length))
  }

  // What a value that packs is after unpacking: a number as itself, text cut to the
  // field and at its first NUL.
  function Restored(t: WireType, v: Value): Value {
    match t
    case Unsigned(_) => Number(if AsInt(v).Some? then AsInt(v).value else 0)
    case Decimal => Number(if AsInt(v).Some? then AsInt(v).value else 0)
    case Character => Number(if v.Number? then v.n else if v.t != [] then v.t[0] else 0)
    case AlphaFixed(size) => Text(UpToNul(Shorten(AsText(v), if size > 0 then size - 1 else 0)))
    case AlphaVariable(max) => Text(UpToNul(Shorten(AsText(v), max)))
  }

  lemma {:induction false} UpToNulPadded(d: Data, n: nat)
    ensures UpToNul(d + Nuls(n)) == UpToNul(d)
    decreases |d|
  {
    if d == [] {
      assert d + Nuls(n) == Nuls(n);
    } else {
      assert (d + Nuls(n))[1..] == d[1..] + Nuls(n);
      UpToNulPadded(d[1..], n);
    }
  }

  // Text survives exactly when it holds no NUL.
  lemma {:induction false} UpToNulWhole(d: Data)
    ensures UpToNul(d) == d <==> NUL !in d
    decreases |d|
  {
    if d != [] && d[0] != NUL {
      UpToNulWhole(d[1..]);
      assert d == [d[0]] + d[1..];
    }
  }

  lemma SignedRoundTrip(n: int)
    requires -HALF_RANGE <= n < HALF_RANGE
    ensures FromSigned(Signed(n)) == n
  {
    assert Range(4) == 0x1_0000_0000;
    assert Range(8) == 2 * HALF_RANGE;
    LittleRoundTrip(if n < 0 then n + 2 * HALF_RANGE else n, 8);
  }

  // The bytes of d stand in raw at the offset.
  ghost predicate Stands(d: Data, raw: Data, offset: nat) {
    offset + |d| <= |raw| && raw[offset..offset + |d|] == d
  }

  lemma StandsParts(a: Data, b: Data, raw: Data, offset: nat)
    requires Stands(a + b, raw, offset)
    ensures Stands(a, raw, offset) && Stands(b, raw, offset + |a|)
  {
    var all := raw[offset..offset + |a + b|];
    assert raw[offset..offset + |a|] == all[..|a|] == a;
    assert raw[offset + |a|..offset + |a| + |b|] == all[|a|..] == b;
  }

  // Reading a field where it was packed gives back its value and the place behind it.
  ghost predicate ReadsBack(t: WireType, v: Value, raw: Data, offset: nat)
    requires Proper(t)
  {
    Pack(t, v).Some? && Unpack(t, raw, offset) == Some((Restored(t, v), offset + |Pack(t, v).value|))
  }

  lemma UnpackPacked(t: WireType, v: Value, raw: Data, offset: nat)
    requires Proper(t) && Pack(t, v).Some? && Stands(Pack(t, v).value, raw, offset)
    ensures ReadsBack(t, v, raw, offset)
  {
    match t
    case Unsigned(width) => UnsignedBack(width, v, raw, offset);
    case Decimal => DecimalBack(v, raw, offset);
    case Character => UnpackCharacter(v, raw, offset);
    case AlphaFixed(size) => FixedBack(size, v, raw, offset);
    case AlphaVariable(max) => VariableBack(max, v, raw, offset);
  }

  lemma UnsignedBack(width: nat, v: Value, raw: Data, offset: nat)
    requires Proper(Unsigned(width)) && Pack(Unsigned(width), v).Some?
    requires Stands(Pack(Unsigned(width), v).value, raw, offset)
    ensures ReadsBack(Unsigned(width), v, raw, offset)
  {
    UnpackUnsigned(width, AsInt(v).value, raw, offset);
  }

  lemma DecimalBack(v: Value, raw: Data, offset: nat)
    requires Pack(Decimal, v).Some? && Stands(Pack(Decimal, v).value, raw, offset)
    ensures ReadsBack(Decimal, v, raw, offset)
  {
    UnpackDecimal(AsInt(v).value, raw, offset);
  }

  lemma FixedBack(size: nat, v: Value, raw: Data, offset: nat)
    requires size >= 1 && Stands(Pack(AlphaFixed(size), v).value, raw, offset)
    ensures ReadsBack(AlphaFixed(size), v, raw, offset)
  {
    UnpackFixed(size, Shorten(AsText(v), size - 1), raw, offset);
  }

  lemma VariableBack(max: nat, v: Value, raw: Data, offset: nat)
    requires Pack(AlphaVariable(max), v).Some? && Stands(Pack(AlphaVariable(max), v).value, raw, offset)
    ensures ReadsBack(AlphaVariable(max), v, raw, offset)
  {
    var d := Shorten(AsText(v), max);
    LengthHead(|d| + 1);
    AfterLength(Little(|d| + 1, 2), d, [NUL], raw, offset);
  }

  lemma UnpackUnsigned(width: nat, n: nat, raw: Data, offset: nat)
    requires Proper(Unsigned(width)) && n < Range(width) && Stands(Little(n, width), raw, offset)
    ensures Unpack(Unsigned(width), raw, offset) == Some((Number(n), offset + width))
  {
    LittleRoundTrip(n, width);
  }

  lemma UnpackDecimal(n: int, raw: Data, offset: nat)
    requires -HALF_RANGE <= n < HALF_RANGE && Stands(Signed(n), raw, offset)
    ensures Unpack(Decimal, raw, offset) == Some((Number(n), offset + 8))
  {
    SignedRoundTrip(n);
  }

  lemma UnpackCharacter(v: Value, raw: Data, offset: nat)
    requires Pack(Character, v).Some? && Stands(Pack(Character, v).value, raw, offset)
    ensures ReadsBack(Character, v, raw, offset)
  {
    assert raw[offset] == raw[offset..offset + 1][0];
  }

  lemma UnpackFixed(size: nat, d: Data, raw: Data, offset: nat)
    requires 1 <= size && |d| <= size && Stands(d + Nuls(size - |d|), raw, offset)
    ensures Unpack(AlphaFixed(size), raw, offset) == Some((Text(UpToNul(d)), offset + size))
  {
    FixedRead(size, d + Nuls(size - |d|), raw, offset);
    UpToNulPadded(d, size - |d|);
  }

  lemma FixedRead(size: nat, all: Data, raw: Data, offset: nat)
    requires 1 <= size == |all| && Stands(all, raw, offset)
    ensures Unpack(AlphaFixed(size), raw, offset) == Some((Text(UpToNul(all)), offset + size))
  {
  }

  lemma LengthHead(n: nat)
    requires n < Range(2)
    ensures |Little(n, 2)| == 2 && FromLittle(Little(n, 2)) == n
  {
    LittleRoundTrip(n, 2);
  }

  lemma AfterLength(head: Data, d: Data, end: Data, raw: Data, offset: nat)
    requires |head| == 2 && FromLittle(head) == |d| + 1 && |end| == 1 && end[0] == NUL
    requires Stands(head + d + end, raw, offset)
    ensures Unpack(AlphaVariable(0), raw, offset) == Some((Text(UpToNul(d)), offset + 2 + |d| + 1))
  {
    assert end == Nuls(1);
    UpToNulPadded(d, 1);
    Associates(head, d, end);
    StandsParts(head, d + end, raw, offset);
    VariableRead(head, d + end, raw, offset);
  }

  lemma VariableRead(head: Data, chunk: Data, raw: Data, offset: nat)
    requires |head| == 2 && FromLittle(head) == |chunk|
    requires Stands(head, raw, offset) && Stands(chunk, raw, offset + 2)
    ensures Unpack(AlphaVariable(0), raw, offset) == Some((Text(UpToNul(chunk)), offset + 2 + |chunk|))
  {
  }

  // A fixed text field gives back exactly what was put in it when that holds no NUL and
  // leaves room for the terminator; anything longer loses its end.
  lemma AlphaFixedExact(size: nat, text: Data)
    requires size >= 1
    ensures Restored(AlphaFixed(size), Text(text)) == Text(text) <==> |text| < size && NUL !in text
  {
    UpToNulWhole(text);
    UpToNulShorter(Shorten(text, size - 1));
  }

  lemma {:induction false} UpToNulShorter(d: Data)
    ensures |UpToNul(d)| <= |d|
    decreases |d|
  {
    if d != [] && d[0] != NUL {
      UpToNulShorter(d[1..]);
    }
  }
}
