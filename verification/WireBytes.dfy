// Byte for byte what each type of the binary encodings looks like on the wire, and which
// values it takes (exchangesim/binary/types.py).
module WireBytes {
  import opened Options
  import opened Framing
  import opened WireTypes
  import D = Divisibility

  // ---- integers ---------------------------------------------------------------------------

  lemma DivideTwice(x: nat, d: nat)
    requires d > 0
    ensures x / 256 / d == x / (256 * d)
  {
    var q, r := x / 256 / d, x / 256 % d;
    assert x / 256 == q * d + r;
    assert x == 256 * (q * d + r) + x % 256;
    Quotients(x, d, q, 256 * r + x % 256);
  }

  lemma Quotients(x: nat, d: nat, q: nat, r: nat)
    requires d > 0 && x == 256 * (q * d) + r && r < 256 * d
    ensures x / (256 * d) == q
  {
    var e := 256 * d;
    assert x == e * q + r;
    Quotient(x, e, q, r);
  }

  lemma Quotient(x: nat, e: nat, q: nat, r: nat)
    requires e > 0 && x == e * q + r && r < e
    ensures x / e == q
  {
    var k, rest := x / e, x % e;
    D.DivMod(x, e);
    D.Distribute(e, q, k);
    if rest >= r {
      D.Bounded(e, q - k);
    } else {
      D.Distribute(e, k, q);
      D.Bounded(e, k - q);
    }
  }

  // The lowest byte first.
  lemma {:induction false} LittleAt(x: nat, width: nat, i: nat)
    requires i < width
    ensures Little(x, width)[i] == x / Range(i) % 256
    decreases i
  {
    if i > 0 {
      LittleAt(x / 256, width - 1, i - 1);
      DivideTwice(x, Range(i - 1));
    }
  }

  // The highest byte first.
  lemma {:induction false} BigAt(x: nat, width: nat, i: nat)
    requires i < width
    ensures Big(x, width)[i] == x / Range(width - 1 - i) % 256
    decreases width
  {
    if i < width - 1 {
      BigAt(x / 256, width - 1, i);
      DivideTwice(x, Range(width - 2 - i));
    }
  }

  lemma Ranges()
    ensures Range(0) == 1 && Range(1) == 0x100 && Range(2) == 0x1_0000 && Range(4) == 0x1_0000_0000
    ensures Range(8) == 0x1_0000_0000_0000_0000
  {
    assert Range(6) == 0x1_0000_0000_0000;
  }

  // ---- which values a type takes -----------------------------------------------------------

  function Capacity(t: WireType): nat {
    match t
    case Unsigned(width) => if width == 1 then 0x100 else if width == 2 then 0x1_0000 else 0x1_0000_0000
    case _ => 0
  }

  function Held(t: WireType, text: Data): nat
    requires Proper(t) && (t.AlphaFixed? || t.AlphaVariable?)
  {
    var room := if t.AlphaFixed? then t.size - 1 else t.max;
    if |text| <= room then |text| else room
  }

  predicate Takes(t: WireType, v: Value)
    requires Proper(t)
  {
    match t
    case Unsigned(_) => AsInt(v).Some? && 0 <= AsInt(v).value < Capacity(t)
    case Decimal => AsInt(v).Some? && -0x8000_0000_0000_0000 <= AsInt(v).value < 0x8000_0000_0000_0000
    case Character => if v.Number? then 0 <= v.n < 256 else |v.t| == 1
    case AlphaFixed(_) => true
    case AlphaVariable(_) => Held(t, AsText(v)) < 65535
  }

  lemma PacksExactly(t: WireType, v: Value)
    requires Proper(t)
    ensures Pack(t, v).Some? <==> Takes(t, v)
  {
    Ranges();
  }

  // ---- what it writes -----------------------------------------------------------------------

  // n as an unsigned number of d's width, lowest byte first.
  ghost predicate LowestFirst(n: nat, d: Data) {
    forall i :: 0 <= i < |d| ==> d[i] == n / Range(i) % 256
  }

  ghost predicate Written(t: WireType, v: Value, d: Data)
    requires Proper(t)
  {
    match t
    case Unsigned(width) => AsInt(v).Some? && AsInt(v).value >= 0 && |d| == width && LowestFirst(AsInt(v).value, d)
    case Decimal =>
      && AsInt(v).Some? && |d| == 8
      && var n := AsInt(v).value;
         var u := if n < 0 then n + 0x1_0000_0000_0000_0000 else n;
         u >= 0 && LowestFirst(u, d)
    case Character => d == (if v.Number? && 0 <= v.n < 256 then [v.n] else AsText(v))
    case AlphaFixed(size) =>
      var text, n := AsText(v), Held(t, AsText(v));
      |d| == size && forall i :: 0 <= i < size ==> d[i] == if i < n then text[i] else 0
    case AlphaVariable(_) =>
      var text, n := AsText(v), Held(t, AsText(v));
      && |d| == n + 3 && d[0] == (n + 1) % 256 && d[1] == (n + 1) / 256
      && d[n + 2] == 0 && forall i :: 0 <= i < n ==> d[2 + i] == text[i]
  }

  lemma LittleIsLowestFirst(n: nat, width: nat)
    ensures LowestFirst(n, Little(n, width))
  {
    forall i | 0 <= i < width ensures Little(n, width)[i] == n / Range(i) % 256 {
      LittleAt(n, width, i);
    }
  }

  lemma TwoBytes(n: nat)
    requires n < 0x1_0000
    ensures Little(n, 2) == [n % 256, n / 256]
  {
    assert Little(n / 256, 1) == [n / 256 % 256] + Little(n / 256 / 256, 0);
  }

  // Every value a type takes is written as the type says.
  lemma WritesExactly(t: WireType, v: Value)
    requires Proper(t) && Takes(t, v)
    ensures Pack(t, v).Some? && Written(t, v, Pack(t, v).value)
  {
    PacksExactly(t, v);
    match t
    case Unsigned(width) => LittleIsLowestFirst(AsInt(v).value, width);
    case Decimal =>
      var n := AsInt(v).value;
      LittleIsLowestFirst(if n < 0 then n + 0x1_0000_0000_0000_0000 else n, 8);
    case Character =>
    case AlphaFixed(_) =>
    case AlphaVariable(_) => TwoBytes(Held(t, AsText(v)) + 1);
  }
}
