// Decimal strings as scaled integers, and back (exchangesim/wire/values.py).
module Scaling {
  import opened Options
  import opened Framing
  import opened Numerals

  const POINT: Byte := 46

  // str.strip().
  function Trim(d: Data): Data {
    Strip(d, true)
  }

  function Zeroes(n: nat): Data {
    seq(n, i => ZERO)
  }

  function TenTo(n: nat): (p: nat)
    ensures p >= 1
  {
    if n == 0 then 1 else 10 * TenTo(n - 1)
  }

  // Where the point is, or past the end.
  function PointAt(d: Data): (i: nat)
    ensures i <= |d| && (i < |d| ==> d[i] == POINT) && forall j :: 0 <= j < i ==> d[j] != POINT
  {
    if d == [] || d[0] == POINT then 0 else 1 + PointAt(d[1..])
  }

  // The digits before and after the point.
  function WholeOf(d: Data): Data {
    d[..PointAt(d)]
  }

  function FractionOf(d: Data): Data {
    if PointAt(d) < |d| then d[PointAt(d) + 1..] else []
  }

  // The digits of a number without its sign, read at so many decimal places.
  function ScaleBody(body: Data, places: nat): Option<nat> {
    var whole, fraction := WholeOf(body), FractionOf(body);
    if whole + fraction == [] || !AllDigits(whole + fraction) || |fraction| > places then None
    else Some(ValueOf((if whole == [] then [ZERO] else whole) + fraction + Zeroes(places - |fraction|)))
  }

  // None where the program raises ValueError.
  function Scale(text: Data, places: nat): Option<int> {
    var t := Trim(text);
    var negative := t != [] && t[0] == MINUS;
    var v := ScaleBody(if t != [] && (t[0] == PLUS || t[0] == MINUS) then t[1..] else t, places);
    if v.None? then None else Some(if negative then 0 - v.value else v.value)
  }

  // The last n digits of x, as %0*d prints a number below 10^n.
  function ShowWide(x: nat, n: nat): (d: Data)
    ensures |d| == n && AllDigits(d)
  {
    if n == 0 then [] else ShowWide(x / 10, n - 1) + [ZERO + x % 10]
  }

  function DropZeroes(d: Data): Data {
    if d != [] && d[|d| - 1] == ZERO then DropZeroes(d[..|d| - 1]) else d
  }

  lemma Divides(x: nat, m: nat)
    requires m > 0
    ensures x / m >= 0 && 0 <= x % m < m && x == (x / m) * m + x % m
  {
  }

  function Whole(x: nat, places: nat): nat {
    Divides(x, TenTo(places));
    x / TenTo(places)
  }

  function Fraction(x: nat, places: nat): nat {
    Divides(x, TenTo(places));
    x % TenTo(places)
  }

  function UnscaleBody(x: nat, places: nat): Data {
    var digits := DropZeroes(ShowWide(Fraction(x, places), places));
    ShowNat(Whole(x, places)) + if digits == [] then [] else [POINT] + digits
  }

  function Unscale(value: int, places: nat): Data {
    if value < 0 then [MINUS] + UnscaleBody(-value, places) else UnscaleBody(value, places)
  }

  // ---- unscaling undone --------------------------------------------------------------------

  lemma {:induction false} ValueOfPlus(a: Data, b: Data)
    requires AllDigits(b)
    ensures ValueOf(a + b) == ValueOf(a) * TenTo(|b|) + ValueOf(b)
    decreases |b|
  {
    if b == [] {
      assert a + b == a;
    } else {
      var init := b[..|b| - 1];
      assert (a + b)[..|a + b| - 1] == a + init;
      assert IsDigit(b[|b| - 1]);
      ValueOfPlus(a, init);
      TenMore(ValueOf(a), TenTo(|init|), ValueOf(init), b[|b| - 1] - ZERO);
    }
  }

  lemma TenMore(v: int, t: int, w: int, c: int)
    ensures 10 * (v * t + w) + c == v * (10 * t) + (10 * w + c)
  {
  }

  lemma {:induction false} WideValue(x: nat, n: nat)
    requires x < TenTo(n)
    ensures ValueOf(ShowWide(x, n)) == x
    decreases n
  {
    if n > 0 {
      WideValue(x / 10, n - 1);
      assert ShowWide(x, n)[..n - 1] == ShowWide(x / 10, n - 1);
    }
  }

  lemma {:induction false} DropsOnlyZeroes(d: Data)
    ensures var r := DropZeroes(d);
      |r| <= |d| && r + Zeroes(|d| - |r|) == d && r == d[..|r|] && (r != [] ==> r[|r| - 1] != ZERO)
    decreases |d|
  {
    if d != [] && d[|d| - 1] == ZERO {
      var init := d[..|d| - 1];
      DropsOnlyZeroes(init);
      var r := DropZeroes(d);
      assert r + Zeroes(|d| - |r|) == (r + Zeroes(|init| - |r|)) + [ZERO] == d;
    } else {
      assert d + Zeroes(0) == d;
    }
  }

  lemma {:induction false} PointIs(d: Data, i: nat)
    requires i <= |d| && (i < |d| ==> d[i] == POINT) && forall j :: 0 <= j < i ==> d[j] != POINT
    ensures PointAt(d) == i
  {
  }

  lemma BodyRoundTrip(x: nat, places: nat)
    ensures ScaleBody(UnscaleBody(x, places), places) == Some(x)
    ensures UnscaleBody(x, places) != [] && IsDigit(UnscaleBody(x, places)[0])
    ensures IsDigit(UnscaleBody(x, places)[|UnscaleBody(x, places)| - 1])
  {
    var whole, fraction := Whole(x, places), Fraction(x, places);
    var wide := ShowWide(fraction, places);
    var digits, w := DropZeroes(wide), ShowNat(whole);
    ShowNatDigits(whole);
    Divides(x, TenTo(places));
    WideValue(fraction, places);
    DropsOnlyZeroes(wide);
    assert AllDigits(digits) by {
      assert digits == wide[..|digits|];
    }
    Parts(w, digits);
    ValueOfPlus(w, wide);
    Rejoined(w, digits, wide, places);
  }

  // A number printed with its fraction comes apart again where the point is.
  lemma Parts(w: Data, digits: Data)
    requires w != [] && AllDigits(w) && AllDigits(digits)
    ensures var d := w + if digits == [] then [] else [POINT] + digits;
      WholeOf(d) == w && FractionOf(d) == digits && IsDigit(d[0]) && IsDigit(d[|d| - 1])
  {
    var d := w + if digits == [] then [] else [POINT] + digits;
    forall j | 0 <= j < |w| ensures d[j] != POINT {
      assert IsDigit(w[j]);
    }
    PointIs(d, |w|);
    assert IsDigit(w[0]) && IsDigit(w[|w| - 1]);
    if digits != [] {
      assert IsDigit(digits[|digits| - 1]);
    }
  }

  lemma Rejoined(w: Data, digits: Data, wide: Data, places: nat)
    requires w != [] && AllDigits(w) && AllDigits(digits)
    requires |digits| <= places && digits + Zeroes(places - |digits|) == wide
    ensures ScaleBody(w + if digits == [] then [] else [POINT] + digits, places) == Some(ValueOf(w + wide))
  {
    var pad := Zeroes(places - |digits|);
    Parts(w, digits);
    assert (w + digits) + pad == w + (digits + pad);
    assert AllDigits(w + digits);
  }

  lemma ScaleSigned(body: Data, places: nat, x: nat)
    requires Trim([MINUS] + body) == [MINUS] + body && ScaleBody(body, places) == Some(x)
    ensures Scale([MINUS] + body, places) == Some(0 - x)
  {
    assert ([MINUS] + body)[1..] == body;
  }

  lemma ScaleUnsigned(body: Data, places: nat, x: nat)
    requires body != [] && IsDigit(body[|body| - 1]) && (IsDigit(body[0]) || body[0] == POINT)
    requires ScaleBody(body, places) == Some(x)
    ensures Scale(body, places) == Some(x)
  {
    NotStripped(body, true);
  }

  lemma ScaleNegative(body: Data, places: nat, x: nat)
    requires body != [] && IsDigit(body[|body| - 1]) && ScaleBody(body, places) == Some(x)
    ensures Scale([MINUS] + body, places) == Some(0 - x)
  {
    var t := [MINUS] + body;
    assert t[|t| - 1] == body[|body| - 1];
    NotStripped(t, true);
    ScaleSigned(body, places, x);
  }

  // Whatever the number and however many places, unscaling loses nothing.
  lemma ScaleUnscale(value: int, places: nat)
    ensures Scale(Unscale(value, places), places) == Some(value)
  {
    var x := if value < 0 then -value else value;
    BodyRoundTrip(x, places);
    if value < 0 {
      ScaleNegative(UnscaleBody(x, places), places, x);
    } else {
      ScaleUnsigned(UnscaleBody(x, places), places, x);
    }
  }

  // ---- the shortest string -------------------------------------------------------------------

  lemma {:induction false} WideUnique(d: Data)
    requires AllDigits(d)
    ensures ValueOf(d) < TenTo(|d|) && ShowWide(ValueOf(d), |d|) == d
    decreases |d|
  {
    if d != [] {
      assert IsDigit(d[|d| - 1]);
      WideUnique(d[..|d| - 1]);
      assert d == d[..|d| - 1] + [d[|d| - 1]];
    }
  }

  // A number cannot be written in fewer digits than it is printed in.
  lemma {:induction false} FewestDigits(d: Data)
    requires AllDigits(d) && ValueOf(d) > 0
    ensures |ShowNat(ValueOf(d))| <= |d|
    decreases |d|
  {
    assert IsDigit(d[|d| - 1]);
    if ValueOf(d) >= 10 {
      FewestDigits(d[..|d| - 1]);
    }
  }

  lemma {:induction false} FewestPlaces(d: Data, n: nat)
    requires AllDigits(d)
    ensures |DropZeroes(d + Zeroes(n))| <= |d|
    decreases n
  {
    if n > 0 {
      var e := d + Zeroes(n);
      assert e[..|e| - 1] == d + Zeroes(n - 1);
      FewestPlaces(d, n - 1);
    } else {
      assert d + Zeroes(0) == d;
      DropsOnlyZeroes(d);
    }
  }

  lemma TimesMonotone(a: nat, b: nat, m: nat)
    requires a <= b
    ensures a * m <= b * m
  {
  }

  lemma OneMore(a: nat, m: nat)
    ensures (a + 1) * m == a * m + m
  {
  }

  lemma SplitUnique(w: nat, v: nat, f: nat, m: nat)
    requires f < m && v == w * m + f
    ensures v / m == w && v % m == f
  {
    Divides(v, m);
    var q: nat := v / m;
    OneMore(q, m);
    OneMore(w, m);
    if q > w {
      TimesMonotone(w + 1, q, m);
    } else if q < w {
      TimesMonotone(q + 1, w, m);
    }
  }

  // What digits read as a number come from, whole part and fraction.
  lemma BodyParts(body: Data, places: nat, x: nat)
    requires ScaleBody(body, places) == Some(x)
    ensures var whole, fraction := WholeOf(body), FractionOf(body);
            var w := if whole == [] then [ZERO] else whole;
      && AllDigits(w) && AllDigits(fraction) && |fraction| <= places
      && ValueOf(w) == Whole(x, places)
      && ShowWide(Fraction(x, places), places) == fraction + Zeroes(places - |fraction|)
  {
    var whole, fraction := WholeOf(body), FractionOf(body);
    DigitsApart(whole, fraction);
    PartsValue(if whole == [] then [ZERO] else whole, fraction, places, x);
  }

  lemma DigitsApart(a: Data, b: Data)
    requires AllDigits(a + b)
    ensures AllDigits(a) && AllDigits(b)
  {
    assert forall i :: 0 <= i < |a| ==> a[i] == (a + b)[i];
    assert forall i :: 0 <= i < |b| ==> b[i] == (a + b)[|a| + i];
  }

  lemma PartsValue(w: Data, fraction: Data, places: nat, x: nat)
    requires AllDigits(fraction) && |fraction| <= places
    requires ValueOf(w + fraction + Zeroes(places - |fraction|)) == x
    ensures ValueOf(w) == Whole(x, places)
    ensures ShowWide(Fraction(x, places), places) == fraction + Zeroes(places - |fraction|)
  {
    var wide := fraction + Zeroes(places - |fraction|);
    assert w + fraction + Zeroes(places - |fraction|) == w + wide;
    ValueOfPlus(w, wide);
    WideUnique(wide);
    SplitUnique(ValueOf(w), x, ValueOf(wide), TenTo(places));
  }

  // Any digits that mean x are at least as many as it is printed with.
  lemma BodyShortest(body: Data, places: nat, x: nat)
    requires ScaleBody(body, places) == Some(x) && x >= TenTo(places)
    ensures |UnscaleBody(x, places)| <= |body|
  {
    var whole, fraction := WholeOf(body), FractionOf(body);
    BodyParts(body, places, x);
    FewestPlaces(fraction, places - |fraction|);
    HasWhole(x, places);
    assert ValueOf([ZERO]) == 0;
    FewestDigits(whole);
  }

  lemma HasWhole(x: nat, places: nat)
    requires x >= TenTo(places)
    ensures Whole(x, places) > 0
  {
    Divides(x, TenTo(places));
  }

  // The string unscale gives is the shortest that means the number, as promised,
  // exactly when the number is zero or has a whole part: without one, the zero before
  // the point could go.
  lemma UnscaleShortest(value: int, places: nat)
    ensures (forall t :: Scale(t, places) == Some(value) ==> |Unscale(value, places)| <= |t|) <==>
            (value == 0 || value >= TenTo(places) || -value >= TenTo(places))
  {
    var x := if value < 0 then -value else value;
    if value == 0 {
      ZeroShortest(places);
    } else if x >= TenTo(places) {
      forall t | Scale(t, places) == Some(value) ensures |Unscale(value, places)| <= |t| {
        TextShortest(t, value, places);
      }
    } else {
      var t := ShorterText(value, places);
    }
  }

  lemma TextShortest(t: Data, value: int, places: nat)
    requires Scale(t, places) == Some(value) && (value >= TenTo(places) || -value >= TenTo(places))
    ensures |Unscale(value, places)| <= |t|
  {
    var x, d := if value < 0 then -value else value, Trim(t);
    StripShorter(t, true);
    if d != [] && (d[0] == PLUS || d[0] == MINUS) {
      BodyShortest(d[1..], places, x);
    } else {
      BodyShortest(d, places, x);
    }
  }

  lemma ZeroShortest(places: nat)
    ensures forall t :: Scale(t, places) == Some(0) ==> |Unscale(0, places)| <= |t|
  {
    ZeroText(places);
    forall t | Scale(t, places) == Some(0) ensures |Unscale(0, places)| <= |t| {
      StripShorter(t, true);
    }
  }

  lemma ZeroText(places: nat)
    ensures |Unscale(0, places)| == 1
  {
    Divides(0, TenTo(places));
    SplitUnique(0, 0, 0, TenTo(places));
    WideZero(places);
    FewestPlaces([], places);
    assert [] + Zeroes(places) == Zeroes(places);
  }

  lemma {:induction false} WideZero(n: nat)
    ensures ShowWide(0, n) == Zeroes(n)
    decreases n
  {
    if n > 0 {
      WideZero(n - 1);
      assert Zeroes(n - 1) + [ZERO] == Zeroes(n);
    }
  }

  lemma {:induction false} SomeDigit(d: Data)
    requires AllDigits(d) && ValueOf(d) > 0
    ensures DropZeroes(d) != []
    decreases |d|
  {
    assert IsDigit(d[|d| - 1]);
    if d[|d| - 1] == ZERO {
      SomeDigit(d[..|d| - 1]);
    }
  }

  // The fraction of a number between zero and one is not all zeroes.
  lemma SomePlaces(x: nat, places: nat, wide: Data, digits: Data)
    requires 0 < x < TenTo(places) && wide == ShowWide(x, places) && digits == DropZeroes(wide)
    ensures digits != [] && |digits| <= places && digits + Zeroes(places - |digits|) == wide
    ensures UnscaleBody(x, places) == [ZERO] + ([POINT] + digits)
    ensures ValueOf([ZERO] + wide) == x
  {
    SplitUnique(0, x, x, TenTo(places));
    WideValue(x, places);
    DropsOnlyZeroes(wide);
    SomeDigit(wide);
    ValueOfPlus([ZERO], wide);
    assert ValueOf([ZERO]) == 0;
  }

  // Below one, the same number without the zero before its point.
  lemma ShorterText(value: int, places: nat) returns (t: Data)
    requires value != 0 && 0 - TenTo(places) < value < TenTo(places)
    ensures Scale(t, places) == Some(value) && |t| < |Unscale(value, places)|
  {
    var x := if value < 0 then -value else value;
    var wide := ShowWide(x, places);
    var digits := DropZeroes(wide);
    SomePlaces(x, places, wide, digits);
    PointBody(digits, wide, places);
    t := Unsigned(digits, places, x);
    if value < 0 {
      ScaleNegative(t, places, x);
      t := [MINUS] + t;
    } else {
      ScaleUnsigned(t, places, x);
    }
  }

  lemma Unsigned(digits: Data, places: nat, x: nat) returns (t: Data)
    requires ScaleBody([POINT] + digits, places) == Some(x) && digits != [] && IsDigit(digits[|digits| - 1])
    requires UnscaleBody(x, places) == [ZERO] + ([POINT] + digits)
    ensures t != [] && t[0] == POINT && IsDigit(t[|t| - 1]) && ScaleBody(t, places) == Some(x)
    ensures |t| < |UnscaleBody(x, places)|
  {
    t := [POINT] + digits;
  }

  lemma PointBody(digits: Data, wide: Data, places: nat)
    requires digits != [] && AllDigits(wide) && |wide| == places && |digits| <= places
    requires digits + Zeroes(places - |digits|) == wide
    ensures ScaleBody([POINT] + digits, places) == Some(ValueOf([ZERO] + wide)) && IsDigit(digits[|digits| - 1])
  {
    var d := [POINT] + digits;
    assert AllDigits(digits) by {
      assert forall i :: 0 <= i < |digits| ==> digits[i] == wide[i];
    }
    assert WholeOf(d) == [] && FractionOf(d) == digits && [] + digits == digits;
    assert [ZERO] + digits + Zeroes(places - |digits|) == [ZERO] + wide;
  }

  // ---- the spelling unscaling prints ---------------------------------------------------------

  // A whole part without a leading zero; and if there is a point, digits behind it of
  // which the last is not zero.
  predicate PlainBody(body: Data) {
    && PlainDigits(WholeOf(body))
    && (PointAt(body) < |body| ==>
          FractionOf(body) != [] && AllDigits(FractionOf(body)) && FractionOf(body)[|FractionOf(body)| - 1] != ZERO)
  }

  // No sign but a minus, and no minus zero.
  predicate PlainDecimal(text: Data) {
    if text != [] && text[0] == MINUS then PlainBody(text[1..]) && text[1..] != [ZERO] else PlainBody(text)
  }

  lemma {:induction false} DropsBack(d: Data, n: nat)
    requires d == [] || d[|d| - 1] != ZERO
    ensures DropZeroes(d + Zeroes(n)) == d
    decreases n
  {
    var e := d + Zeroes(n);
    if n > 0 {
      assert e[|e| - 1] == ZERO && e[..|e| - 1] == d + Zeroes(n - 1);
      DropsBack(d, n - 1);
    } else {
      assert e == d;
    }
  }

  // A body is its whole part and, behind the point, its fraction.
  lemma BodyIs(body: Data)
    requires PointAt(body) < |body| ==> FractionOf(body) != []
    ensures body == WholeOf(body) + if FractionOf(body) == [] then [] else [POINT] + FractionOf(body)
  {
    Pieces(body, PointAt(body));
  }

  lemma Pieces(body: Data, i: nat)
    requires i <= |body|
    ensures i < |body| ==> body == body[..i] + ([body[i]] + body[i + 1..])
    ensures i == |body| ==> body == body[..i] + []
  {
  }

  lemma PlainBodyShown(body: Data, places: nat, x: nat)
    requires PlainBody(body) && ScaleBody(body, places) == Some(x)
    ensures UnscaleBody(x, places) == body
  {
    var fraction := FractionOf(body);
    BodyParts(body, places, x);
    BodyIs(body);
    Reprinted(WholeOf(body), fraction, places - |fraction|, places, x);
  }

  lemma Reprinted(whole: Data, fraction: Data, n: nat, places: nat, x: nat)
    requires PlainDigits(whole) && ValueOf(whole) == Whole(x, places)
    requires ShowWide(Fraction(x, places), places) == fraction + Zeroes(n)
    requires fraction == [] || fraction[|fraction| - 1] != ZERO
    ensures UnscaleBody(x, places) == whole + if fraction == [] then [] else [POINT] + fraction
  {
    PlainShown(whole);
    DropsBack(fraction, n);
  }

  lemma ShownBodyIsPlain(x: nat, places: nat)
    ensures PlainBody(UnscaleBody(x, places))
  {
    var wide := ShowWide(Fraction(x, places), places);
    var w, digits := ShowNat(Whole(x, places)), DropZeroes(wide);
    ShowNatPlain(Whole(x, places));
    DropsOnlyZeroes(wide);
    assert AllDigits(digits) by {
      assert digits == wide[..|digits|];
    }
    Parts(w, digits);
  }

  lemma ZeroBody(places: nat)
    ensures UnscaleBody(0, places) == [ZERO]
  {
    ZeroText(places);
    SplitUnique(0, 0, 0, TenTo(places));
    assert UnscaleBody(0, places)[0] == ZERO;
  }

  lemma ZeroOnly(x: nat, places: nat)
    ensures UnscaleBody(x, places) == [ZERO] <==> x == 0
  {
    ZeroBody(places);
    BodyRoundTrip(x, places);
    BodyRoundTrip(0, places);
  }

  lemma PlainEnds(body: Data)
    requires PlainBody(body)
    ensures body != [] && IsDigit(body[0]) && IsDigit(body[|body| - 1])
  {
    BodyIs(body);
    assert IsDigit(WholeOf(body)[0]) && body[0] == WholeOf(body)[0];
    if FractionOf(body) != [] {
      assert body[|body| - 1] == FractionOf(body)[|FractionOf(body)| - 1];
    } else {
      assert body == WholeOf(body);
    }
  }

  lemma ScalePlain(text: Data, places: nat)
    requires PlainDecimal(text)
    ensures var negative := text[0] == MINUS;
      var v := ScaleBody(if negative then text[1..] else text, places);
      Scale(text, places) == if v.None? then None else Some(if negative then 0 - v.value else v.value)
  {
    var body := if text[0] == MINUS then text[1..] else text;
    PlainEnds(body);
    assert text[|text| - 1] == body[|body| - 1];
    NotStripped(text, true);
  }

  // A text that means a number is the one unscaling prints exactly when it is plain.
  lemma PlainDecimalExact(text: Data, n: int, places: nat)
    requires Scale(text, places) == Some(n)
    ensures text == Unscale(n, places) <==> PlainDecimal(text)
  {
    var x := if n < 0 then -n else n;
    ShownBodyIsPlain(x, places);
    ZeroOnly(x, places);
    if PlainDecimal(text) {
      ScalePlain(text, places);
      PlainMeans(text, text[0] == MINUS, n, places);
    }
    if text == Unscale(n, places) {
      PlainEnds(UnscaleBody(x, places));
      assert n < 0 ==> text[1..] == UnscaleBody(x, places);
    }
  }

  lemma PlainMeans(text: Data, negative: bool, n: int, places: nat)
    requires PlainDecimal(text) && negative == (text[0] == MINUS)
    requires var v := ScaleBody(if negative then text[1..] else text, places);
      v.Some? && n == if negative then 0 - v.value else v.value
    ensures text == Unscale(n, places)
  {
    if negative {
      PlainBodyMeans(text[1..], 0 - n, places);
      ZeroOnly(0 - n, places);
      assert text == [MINUS] + text[1..];
    } else {
      PlainBodyMeans(text, n, places);
    }
  }

  lemma PlainBodyMeans(body: Data, n: int, places: nat)
    requires PlainBody(body) && ScaleBody(body, places).Some? && ScaleBody(body, places).value == n
    ensures n >= 0 && UnscaleBody(n, places) == body
  {
    PlainBodyShown(body, places, n);
  }
}
