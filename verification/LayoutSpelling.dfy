// Which texts a field carries unchanged, told from their spelling: one condition for
// each converter of exchangesim/wire/values.py and each type of exchangesim/binary/types.py.
module LayoutSpelling {
  import opened Options
  import opened Framing
  import opened Numerals
  import opened Scaling
  import opened FixMessages
  import opened WireTypes
  import opened Layouts
  import opened LayoutRoundTrip

  predicate Numeric(kind: WireType) {
    kind.Unsigned? || kind.Decimal? || kind.Character?
  }

  // The characters a text field has room for.
  function Room(kind: WireType): nat
    requires Proper(kind) && !Numeric(kind)
  {
    if kind.AlphaFixed? then kind.size - 1 else kind.max
  }

  predicate HasRoom(kind: WireType, text: Data)
    requires Proper(kind)
  {
    Numeric(kind) || |text| <= Room(kind)
  }

  // ---- conversions and types one by one ---------------------------------------------------

  // The text stands in the table with this wire value, and no earlier one has it.
  ghost predicate FirstWith(pairs: seq<(Data, Value)>, text: Data, value: Value) {
    exists i :: 0 <= i < |pairs| && pairs[i] == (text, value) && forall j :: 0 <= j < i ==> pairs[j].1 != value
  }

  predicate NoneWith(pairs: seq<(Data, Value)>, value: Value) {
    forall i :: 0 <= i < |pairs| ==> pairs[i].1 != value
  }

  lemma {:induction false} ReverseFinds(pairs: seq<(Data, Value)>, text: Data, value: Value)
    ensures Reverse(pairs, value) == Some(text) <==> FirstWith(pairs, text, value)
    ensures Reverse(pairs, value).None? <==> NoneWith(pairs, value)
    decreases |pairs|
  {
    if pairs != [] {
      ReverseFinds(pairs[1..], text, value);
      if pairs[0].1 == value {
        assert pairs[0] == (pairs[0].0, value);
      } else {
        FirstBehind(pairs, text, value);
      }
    }
  }

  lemma FirstBehind(pairs: seq<(Data, Value)>, text: Data, value: Value)
    requires pairs != [] && pairs[0].1 != value
    ensures FirstWith(pairs, text, value) <==> FirstWith(pairs[1..], text, value)
    ensures NoneWith(pairs, value) <==> NoneWith(pairs[1..], value)
  {
    var rest := pairs[1..];
    assert forall i :: 0 < i < |pairs| ==> pairs[i] == rest[i - 1];
    if FirstWith(pairs, text, value) {
      var i :| 0 <= i < |pairs| && pairs[i] == (text, value) && forall j :: 0 <= j < i ==> pairs[j].1 != value;
      assert rest[i - 1] == (text, value) && forall j :: 0 <= j < i - 1 ==> rest[j].1 == pairs[j + 1].1;
    }
    if FirstWith(rest, text, value) {
      var i :| 0 <= i < |rest| && rest[i] == (text, value) && forall j :: 0 <= j < i ==> rest[j].1 != value;
      assert pairs[i + 1] == (text, value) && forall j :: 0 < j < i + 1 ==> pairs[j].1 == rest[j - 1].1;
    }
  }

  // A field holds a wire value as it is exactly when they are of one kind and there is room.
  predicate Keeps(kind: WireType, v: Value)
    requires Proper(kind)
  {
    if Numeric(kind) then v.Number? else v.Text? && |v.t| <= Room(kind) && NUL !in v.t
  }

  lemma RestoredExactly(kind: WireType, v: Value)
    requires Proper(kind) && Pack(kind, v).Some?
    ensures Restored(kind, v) == v <==> Keeps(kind, v)
  {
    if !Numeric(kind) {
      var text := AsText(v);
      UpToNulWhole(text);
      UpToNulShorter(Shorten(text, Room(kind)));
    }
  }

  lemma DigitsHaveNoNul(d: Data)
    requires AllDigits(d)
    ensures NUL !in d && NUL !in [MINUS] + d
  {
  }

  // A number in a text field is cut to its room.
  lemma NumberCut(kind: WireType, n: int)
    requires Proper(kind) && !Numeric(kind)
    ensures Restored(kind, Number(n)) == Text(Shorten(ShowInt(n), Room(kind)))
  {
    var d := if n < 0 then ShowNat(-n) else ShowNat(n);
    ShowNatDigits(if n < 0 then -n else n);
    DigitsHaveNoNul(d);
    UpToNulWhole(Shorten(ShowInt(n), Room(kind)));
  }

  // Cut short, a number no longer reads as itself.
  lemma CutReadsOther(n: int, room: nat)
    requires ParseText(Shorten(ShowInt(n), room)) == Some(n)
    ensures |ShowInt(n)| <= room
  {
    if |ShowInt(n)| > room {
      if n < 0 {
        NegativeCut(-n, room);
      } else {
        CutIsLess(n, ShowNat(n)[..room]);
      }
    }
  }

  lemma NegativeCut(x: nat, room: nat)
    requires room <= |ShowNat(x)|
    ensures ParseText(([MINUS] + ShowNat(x))[..room]) != Some(0 - x)
  {
    if room == 0 {
      NothingRead();
    } else {
      assert ([MINUS] + ShowNat(x))[..room] == [MINUS] + ShowNat(x)[..room - 1];
      CutIsLess(x, ShowNat(x)[..room - 1]);
    }
  }

  lemma CutIsLess(x: nat, d: Data)
    requires d < ShowNat(x)
    ensures ParseText(d) != Some(x) && ParseText([MINUS] + d) != Some(0 - x)
  {
    ShowNatDigits(x);
    if d == [] {
      NothingRead();
    } else {
      CutDigits(d, ShowNat(x));
      ParseDigits(d);
      ParseNegative(d);
      if ValueOf(d) == x && x > 0 {
        FewestDigits(d);
      }
    }
  }

  lemma NothingRead()
    ensures ParseText([]).None? && ParseText([MINUS]).None?
    ensures ParseText([MINUS] + []).None?
  {
    NotStripped([MINUS], false);
    assert [MINUS][1..] == [] && [MINUS] + [] == [MINUS];
  }

  lemma CutDigits(d: Data, all: Data)
    requires d <= all && AllDigits(all)
    ensures AllDigits(d)
  {
    assert forall i :: 0 <= i < |d| ==> d[i] == all[i];
  }

  // ---- one condition for every converter ---------------------------------------------------

  // For a text that packs.
  ghost predicate Carries(kind: WireType, conv: Converter, text: Data)
    requires Proper(kind)
  {
    match conv
    case Plainly =>
      if Numeric(kind) then !kind.Character? && PlainNumeral(text) else HasRoom(kind, text) && NUL !in text
    case AsNumber => PlainNumeral(text) && HasRoom(kind, text)
    case AsCharacter => Numeric(kind)
    case AsFlag =>
      if Numeric(kind) then text == YES || text == NO else text == if Room(kind) == 0 then NO else YES
    case AsEnum(pairs) =>
      var v := Forward(pairs, text);
      v.Some? && CarriesEnum(pairs, text, Restored(kind, v.value))
    case AsQuantity(places) =>
      var n := Scale(text, places);
      PlainDecimal(text) && n.Some? && HasRoom(kind, ShowInt(n.value))
  }

  // The text is the table's first for the value the field comes to hold, or the table has
  // none for it and the text is that value.
  ghost predicate CarriesEnum(pairs: seq<(Data, Value)>, text: Data, held: Value) {
    FirstWith(pairs, text, held) || (NoneWith(pairs, held) && text == WireTypes.AsText(held))
  }

  predicate PacksAs(kind: WireType, conv: Converter, text: Data)
    requires Proper(kind)
  {
    ToWire(conv, text).Some? && Pack(kind, ToWire(conv, text).value).Some?
  }

  lemma PlainTextRestores(kind: WireType, text: Data)
    requires Proper(kind) && PacksAs(kind, Plainly, text)
    ensures Restores(kind, Plainly, text) <==> Carries(kind, Plainly, text)
  {
    if kind.Unsigned? || kind.Decimal? {
      PlainNumeralExact(text, ParseText(text).value);
    } else if kind.Character? {
      OneByteNumber(text[0]);
    } else {
      RestoredExactly(kind, Text(text));
    }
  }

  // No character is its own code.
  lemma OneByteNumber(b: Byte)
    ensures ShowInt(b) != [b]
  {
    if b >= 10 {
      ShowNatDigits(b / 10);
    }
  }

  lemma NumberRestores(kind: WireType, text: Data)
    requires Proper(kind) && PacksAs(kind, AsNumber, text)
    ensures Restores(kind, AsNumber, text) <==> PlainNumeral(text) && HasRoom(kind, text)
  {
    var n := ParseText(text).value;
    PlainNumeralExact(text, n);
    if !Numeric(kind) {
      NumberCut(kind, n);
      if Restores(kind, AsNumber, text) {
        CutReadsOther(n, Room(kind));
      }
    }
  }

  lemma CharacterRestores(kind: WireType, text: Data)
    requires Proper(kind) && PacksAs(kind, AsCharacter, text)
    ensures Restores(kind, AsCharacter, text) <==> Numeric(kind)
  {
    assert text == [text[0]];
  }

  lemma FlagRestores(kind: WireType, text: Data)
    requires Proper(kind) && PacksAs(kind, AsFlag, text)
    ensures Numeric(kind) ==> (Restores(kind, AsFlag, text) <==> text == YES || text == NO)
    ensures Restores(kind, AsFlag, text) <==> Carries(kind, AsFlag, text)
  {
    if !Numeric(kind) {
      NumberCut(kind, if text == YES then 1 else 0);
    }
  }

  lemma EnumRestores(kind: WireType, pairs: seq<(Data, Value)>, text: Data, v: Value)
    requires Proper(kind) && Forward(pairs, text) == Some(v) && Pack(kind, v).Some?
    ensures Restores(kind, AsEnum(pairs), text) <==> CarriesEnum(pairs, text, Restored(kind, v))
    ensures Keeps(kind, v) ==> (Restores(kind, AsEnum(pairs), text) <==> FirstWith(pairs, text, v))
  {
    var held := Restored(kind, v);
    ReverseFinds(pairs, text, held);
    RestoredExactly(kind, v);
    ForwardFinds(pairs, text, v);
  }

  lemma {:induction false} ForwardFinds(pairs: seq<(Data, Value)>, text: Data, v: Value)
    requires Forward(pairs, text) == Some(v)
    ensures !NoneWith(pairs, v)
    decreases |pairs|
  {
    if pairs[0].0 == text {
      assert pairs[0].1 == v;
    } else {
      ForwardFinds(pairs[1..], text, v);
      assert forall i :: 0 <= i < |pairs[1..]| ==> pairs[1..][i] == pairs[i + 1];
    }
  }

  lemma QuantityRestores(kind: WireType, text: Data, n: int, places: nat)
    requires Proper(kind) && Scale(text, places) == Some(n) && Pack(kind, Number(n)).Some?
    ensures Restores(kind, AsQuantity(places), text) <==> PlainDecimal(text) && HasRoom(kind, ShowInt(n))
  {
    PlainDecimalExact(text, n, places);
    QuantityReads(kind, text, n, places);
    if !Numeric(kind) {
      QuantityCut(Room(kind), text, n, places);
    }
  }

  // What a quantity comes back as.
  lemma QuantityReads(kind: WireType, text: Data, n: int, places: nat)
    requires Proper(kind) && Scale(text, places) == Some(n) && Pack(kind, Number(n)).Some?
    ensures Restores(kind, AsQuantity(places), text) <==>
      if Numeric(kind) then text == Unscale(n, places)
      else
        var m := ParseText(Shorten(ShowInt(n), Room(kind)));
        m.Some? && Unscale(m.value, places) == text
  {
    var v := Number(n);
    assert ToWire(AsQuantity(places), text) == Some(v);
    if !Numeric(kind) {
      NumberCut(kind, n);
    }
  }

  lemma QuantityCut(room: nat, text: Data, n: int, places: nat)
    requires Scale(text, places) == Some(n)
    ensures var m := ParseText(Shorten(ShowInt(n), room));
      m.Some? && Unscale(m.value, places) == text <==> text == Unscale(n, places) && |ShowInt(n)| <= room
  {
    var m := ParseText(Shorten(ShowInt(n), room));
    if |ShowInt(n)| <= room {
      ParseShown(n);
    } else if m.Some? && Unscale(m.value, places) == text {
      ScaleUnscale(m.value, places);
      CutReadsOther(n, room);
    }
  }

  // A text that packs comes back as it was exactly when its spelling is one the field
  // carries.
  lemma RestoresExactly(kind: WireType, conv: Converter, text: Data)
    requires Proper(kind) && PacksAs(kind, conv, text)
    ensures Restores(kind, conv, text) <==> Carries(kind, conv, text)
  {
    match conv
    case Plainly => PlainTextRestores(kind, text);
    case AsNumber => NumberRestores(kind, text);
    case AsCharacter => CharacterRestores(kind, text);
    case AsFlag => FlagRestores(kind, text);
    case AsEnum(pairs) => EnumRestores(kind, pairs, text, Forward(pairs, text).value);
    case AsQuantity(places) => QuantityRestores(kind, text, Scale(text, places).value, places);
  }

  // ---- a whole message ----------------------------------------------------------------------

  // Every value that packs is spelled as its field carries it, and every count plainly.
  ghost predicate Spelled(e: Entry, m: seq<Field>)
    requires Wellformed(e)
    decreases e
  {
    match e
    case Plain(_, kind, tag, conv) =>
      var values := GetAll(m, tag);
      forall i :: 0 <= i < |values| && values[i] != [] && PacksAs(kind, conv, values[i]) ==> Carries(kind, conv, values[i])
    case Block(_, countTag, members) =>
      var values := GetAll(m, countTag);
      (forall i :: 0 <= i < |values| ==> PlainNumeral(values[i])) && AllSpelled(members, m)
  }

  ghost predicate AllSpelled(es: seq<Entry>, m: seq<Field>)
    requires AllWellformed(es)
    decreases es
  {
    forall i :: 0 <= i < |es| ==> Spelled(es[i], m)
  }

  lemma PlainCount(text: Data)
    ensures CanonicalCount(text) <==> PlainNumeral(text)
  {
    if PlainNumeral(text) {
      if text[0] == MINUS {
        assert text == [MINUS] + text[1..];
        ParseNegative(text[1..]);
      } else {
        ParseDigits(text);
      }
    }
    if ParseText(text).Some? {
      PlainNumeralExact(text, ParseText(text).value);
    }
  }

  lemma {:induction false} SpelledExactly(e: Entry, m: seq<Field>)
    requires Wellformed(e)
    ensures Spelled(e, m) <==> Faithful(e, m)
    decreases e
  {
    match e
    case Plain(_, kind, tag, conv) =>
      forall text | PacksAs(kind, conv, text) ensures Restores(kind, conv, text) <==> Carries(kind, conv, text) {
        RestoresExactly(kind, conv, text);
      }
    case Block(_, countTag, members) =>
      forall text ensures CanonicalCount(text) <==> PlainNumeral(text) {
        PlainCount(text);
      }
      AllSpelledExactly(members, m);
  }

  lemma {:induction false} AllSpelledExactly(es: seq<Entry>, m: seq<Field>)
    requires AllWellformed(es)
    ensures AllSpelled(es, m) <==> AllFaithful(es, m)
    decreases es
  {
    forall i | 0 <= i < |es| ensures Spelled(es[i], m) <==> Faithful(es[i], m) {
      SpelledExactly(es[i], m);
    }
  }
}
