// Decimal numbers as bytes: printing them, and reading them as Python's int() does.
module Numerals {
  import opened Options
  import opened Framing

  const ZERO: Byte := 48
  const NINE: Byte := 57
  const MINUS: Byte := 45
  const PLUS: Byte := 43
  const UNDERSCORE: Byte := 95

  predicate IsDigit(b: Byte) {
    ZERO <= b <= NINE
  }

  // What is stripped as blank: tab to carriage return, and space; where the wide notion
  // applies, the other latin-1 spaces too.
  predicate IsBlank(b: Byte, wide: bool) {
    9 <= b <= 13 || b == 32 || (wide && (28 <= b <= 31 || b == 133 || b == 160))
  }

  predicate AllDigits(d: Data) {
    forall i :: 0 <= i < |d| ==> IsDigit(d[i])
  }

  function ShowNat(n: nat): Data {
    if n < 10 then [ZERO + n] else ShowNat(n / 10) + [ZERO + n % 10]
  }

  function ShowInt(n: int): Data {
    if n < 0 then [MINUS] + ShowNat(-n) else ShowNat(n)
  }

  // n in exactly three digits, as %03d prints a number below a thousand.
  function ShowThree(n: nat): Data
    requires n < 1000
  {
    [ZERO + n / 100, ZERO + n / 10 % 10, ZERO + n % 10]
  }

  function StripLeft(d: Data, wide: bool): Data {
    if d != [] && IsBlank(d[0], wide) then StripLeft(d[1..], wide) else d
  }

  function StripRight(d: Data, wide: bool): Data {
    if d != [] && IsBlank(d[|d| - 1], wide) then StripRight(d[..|d| - 1], wide) else d
  }

  function Strip(d: Data, wide: bool): Data {
    StripRight(StripLeft(d, wide), wide)
  }

  lemma NotStripped(d: Data, wide: bool)
    requires d != [] && !IsBlank(d[0], wide) && !IsBlank(d[|d| - 1], wide)
    ensures Strip(d, wide) == d
  {
  }

  lemma StripShorter(d: Data, wide: bool)
    ensures |Strip(d, wide)| <= |d|
  {
    StripLeftShorter(d, wide);
    StripRightShorter(StripLeft(d, wide), wide);
  }

  lemma {:induction false} StripLeftShorter(d: Data, wide: bool)
    ensures |StripLeft(d, wide)| <= |d|
    decreases |d|
  {
    if d != [] && IsBlank(d[0], wide) {
      StripLeftShorter(d[1..], wide);
    }
  }

  lemma {:induction false} StripRightShorter(d: Data, wide: bool)
    ensures |StripRight(d, wide)| <= |d|
    decreases |d|
  {
    if d != [] && IsBlank(d[|d| - 1], wide) {
      StripRightShorter(d[..|d| - 1], wide);
    }
  }

  // Digits, with single underscores allowed between two of them.
  predicate Numeral(d: Data) {
    && d != [] && IsDigit(d[0]) && IsDigit(d[|d| - 1])
    && forall i :: 0 < i < |d| - 1 ==>
      IsDigit(d[i]) || (d[i] == UNDERSCORE && IsDigit(d[i - 1]) && IsDigit(d[i + 1]))
  }

  function ValueOf(d: Data): nat {
    if d == [] then 0
    else
      var init, last := d[..|d| - 1], d[|d| - 1];
      if IsDigit(last) then 10 * ValueOf(init) + (last - ZERO) else ValueOf(init)
  }

  function ReadInt(d: Data): Option<int> {
    var signed := d != [] && (d[0] == MINUS || d[0] == PLUS);
    var digits := if signed then d[1..] else d;
    var value: int := ValueOf(digits);
    if !Numeral(digits) then None
    else Some(if signed && d[0] == MINUS then -value else value)
  }

  // int() of bytes.
  function ParseInt(text: Data): Option<int> {
    ReadInt(Strip(text, false))
  }

  predicate Ascii(text: Data) {
    forall i :: 0 <= i < |text| ==> text[i] < 128
  }

  // int() of a string: the wide notion of blank, unless the string is all ASCII.
  function ParseText(text: Data): Option<int> {
    ReadInt(Strip(text, !Ascii(text)))
  }

  lemma {:induction false} ShowNatDigits(n: nat)
    ensures |ShowNat(n)| > 0 && AllDigits(ShowNat(n)) && ValueOf(ShowNat(n)) == n
    decreases n
  {
    if n >= 10 {
      ShowNatDigits(n / 10);
      assert ShowNat(n)[..|ShowNat(n)| - 1] == ShowNat(n / 10);
    } else {
      assert ValueOf([ZERO + n]) == 10 * ValueOf([ZERO + n][..0]) + n;
    }
  }

  lemma ReadsDigits(d: Data)
    requires d != [] && AllDigits(d)
    ensures ReadInt(d) == Some(ValueOf(d)) && ReadInt([MINUS] + d) == Some(0 - ValueOf(d))
  {
    assert IsDigit(d[0]) && IsDigit(d[|d| - 1]);
    assert ([MINUS] + d)[1..] == d;
  }

  lemma ParseDigits(d: Data)
    requires d != [] && AllDigits(d)
    ensures ParseInt(d) == ParseText(d) == Some(ValueOf(d))
  {
    ReadsDigits(d);
    assert IsDigit(d[0]) && IsDigit(d[|d| - 1]);
    NotStripped(d, false);
    NotStripped(d, !Ascii(d));
  }

  lemma ParseNegative(d: Data)
    requires d != [] && AllDigits(d)
    ensures ParseInt([MINUS] + d) == ParseText([MINUS] + d) == Some(0 - ValueOf(d))
  {
    var m := [MINUS] + d;
    ReadsDigits(d);
    assert m[|m| - 1] == d[|d| - 1] && IsDigit(d[|d| - 1]);
    NotStripped(m, false);
    NotStripped(m, !Ascii(m));
  }

  // What is printed reads back.
  lemma ParseShown(n: int)
    ensures ParseInt(ShowInt(n)) == ParseText(ShowInt(n)) == Some(n)
  {
    if n < 0 {
      ShowNatDigits(-n);
      ParseNegative(ShowNat(-n));
    } else {
      ShowNatDigits(n);
      ParseDigits(ShowNat(n));
    }
  }

  // ---- the way a number is printed -------------------------------------------------------

  // Digits without a leading zero, unless that is all of them.
  predicate PlainDigits(d: Data) {
    d != [] && AllDigits(d) && (d[0] == ZERO ==> |d| == 1)
  }

  // No sign but a minus, no minus zero, no leading zero, no underscore and no blank.
  predicate PlainNumeral(text: Data) {
    if text != [] && text[0] == MINUS then PlainDigits(text[1..]) && text[1] != ZERO else PlainDigits(text)
  }

  lemma {:induction false} ShowNatPlain(n: nat)
    ensures PlainDigits(ShowNat(n)) && (ShowNat(n)[0] == ZERO <==> n == 0)
    decreases n
  {
    if n >= 10 {
      ShowNatPlain(n / 10);
      ShowNatDigits(n);
    }
  }

  lemma ValueOfNext(d: Data, b: Byte)
    requires IsDigit(b)
    ensures ValueOf(d + [b]) == 10 * ValueOf(d) + (b - ZERO)
  {
    assert (d + [b])[..|d|] == d;
  }

  lemma ShowNatNext(v: nat, c: nat)
    requires v > 0 && c < 10
    ensures ShowNat(10 * v + c) == ShowNat(v) + [ZERO + c]
  {
    assert (10 * v + c) / 10 == v && (10 * v + c) % 10 == c;
  }

  lemma {:induction false} PlainShown(d: Data)
    requires PlainDigits(d)
    ensures ShowNat(ValueOf(d)) == d && (ValueOf(d) == 0 <==> d[0] == ZERO)
    decreases |d|
  {
    var init, last := d[..|d| - 1], d[|d| - 1];
    PlainInit(d);
    if init == [] {
      ValueOfNext([], last);
    } else {
      PlainShown(init);
      PlainNext(init, last);
    }
  }

  lemma PlainInit(d: Data)
    requires PlainDigits(d)
    ensures var init, last := d[..|d| - 1], d[|d| - 1];
      IsDigit(last) && d == init + [last] && (init != [] ==> PlainDigits(init) && init[0] == d[0] && d[0] != ZERO)
  {
  }

  lemma PlainNext(init: Data, last: Byte)
    requires IsDigit(last) && ShowNat(ValueOf(init)) == init && ValueOf(init) > 0
    ensures ShowNat(ValueOf(init + [last])) == init + [last] && ValueOf(init + [last]) > 0
  {
    ValueOfNext(init, last);
    ShowNatNext(ValueOf(init), last - ZERO);
  }

  lemma PlainIsShown(text: Data, digits: Data)
    requires PlainDigits(digits)
    ensures text == digits ==> Some(text) == ShownAs(ParseText(text))
    ensures text == [MINUS] + digits && digits[0] != ZERO ==> Some(text) == ShownAs(ParseText(text))
  {
    PlainShown(digits);
    ParseDigits(digits);
    ParseNegative(digits);
  }

  function ShownAs(n: Option<int>): Option<Data> {
    if n.None? then None else Some(ShowInt(n.value))
  }

  lemma ShownIsPlain(n: int)
    ensures PlainNumeral(ShowInt(n))
  {
    ShowNatPlain(if n < 0 then -n else n);
    assert n < 0 ==> ShowInt(n)[1..] == ShowNat(-n);
  }

  // A text that int() reads is the one the number is printed as exactly when it is plain.
  lemma PlainNumeralExact(text: Data, n: int)
    requires ParseText(text) == Some(n)
    ensures text == ShowInt(n) <==> PlainNumeral(text)
  {
    ShownIsPlain(n);
    if PlainNumeral(text) {
      if text[0] == MINUS {
        assert text == [MINUS] + text[1..];
        PlainIsShown(text, text[1..]);
      } else {
        PlainIsShown(text, text);
      }
    }
  }

  lemma ValueOfThree(d: Data)
    requires |d| == 3 && AllDigits(d)
    ensures ValueOf(d) == 100 * (d[0] - ZERO) + 10 * (d[1] - ZERO) + (d[2] - ZERO)
  {
    ValueOfNext([], d[0]);
    ValueOfNext([d[0]], d[1]);
    ValueOfNext([d[0], d[1]], d[2]);
    assert [] + [d[0]] == [d[0]] && [d[0]] + [d[1]] == [d[0], d[1]] && [d[0], d[1]] + [d[2]] == d;
  }

  lemma ThreeDigits(n: nat)
    requires n < 1000
    ensures 100 * (n / 100) + 10 * (n / 10 % 10) + n % 10 == n
  {
  }

  lemma ParseThree(n: nat)
    requires n < 1000
    ensures AllDigits(ShowThree(n)) && ParseInt(ShowThree(n)) == Some(n)
  {
    ReadsThree(ShowThree(n));
    ThreeDigits(n);
  }

  lemma ReadsThree(d: Data)
    requires |d| == 3 && AllDigits(d)
    ensures ParseInt(d) == Some(100 * (d[0] - ZERO) + 10 * (d[1] - ZERO) + (d[2] - ZERO))
  {
    ValueOfThree(d);
    ParseDigits(d);
  }
}
