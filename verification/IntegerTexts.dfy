// Which texts are read as which integer: blanks, a sign, and groups of digits joined by
// single underscores.
module IntegerTexts {
  import opened Options
  import opened Framing
  import opened Numerals

  ghost predicate AllBlank(d: Data, wide: bool) {
    forall i :: 0 <= i < |d| ==> IsBlank(d[i], wide)
  }

  // Tab to carriage return and space are blank; in text, so are the four separators, the
  // next line and the no-break space.
  lemma BlanksAre(b: Byte)
    ensures IsBlank(b, false) <==> b in [9, 10, 11, 12, 13, 32]
    ensures IsBlank(b, true) <==> b in [9, 10, 11, 12, 13, 32, 28, 29, 30, 31, 133, 160]
  {
  }

  ghost predicate Group(d: Data) {
    d != [] && AllDigits(d)
  }

  ghost predicate Groups(gs: seq<Data>) {
    gs != [] && forall i :: 0 <= i < |gs| ==> Group(gs[i])
  }

  function Joined(gs: seq<Data>): Data {
    if gs == [] then [] else if |gs| == 1 then gs[0] else gs[0] + [UNDERSCORE] + Joined(gs[1..])
  }

  function Digits(gs: seq<Data>): Data {
    if gs == [] then [] else gs[0] + Digits(gs[1..])
  }

  // The text, taken apart.
  ghost predicate Parts(text: Data, wide: bool, pre: Data, sign: Data, gs: seq<Data>, post: Data, n: int) {
    && text == pre + (sign + Joined(gs)) + post && AllBlank(pre, wide) && AllBlank(post, wide) && Groups(gs)
    && Sign(sign) && n == Signed(sign, Digits(gs))
  }

  // ---- stripping ---------------------------------------------------------------------------

  lemma {:induction false} LeftStripped(d: Data, wide: bool) returns (pre: Data)
    ensures d == pre + StripLeft(d, wide) && AllBlank(pre, wide)
    decreases |d|
  {
    if d != [] && IsBlank(d[0], wide) {
      var rest := LeftStripped(d[1..], wide);
      pre := [d[0]] + rest;
      assert d == [d[0]] + d[1..];
    } else {
      pre := [];
    }
  }

  lemma {:induction false} RightStripped(d: Data, wide: bool) returns (post: Data)
    ensures d == StripRight(d, wide) + post && AllBlank(post, wide)
    decreases |d|
  {
    if d != [] && IsBlank(d[|d| - 1], wide) {
      var rest := RightStripped(d[..|d| - 1], wide);
      post := rest + [d[|d| - 1]];
      assert d == d[..|d| - 1] + [d[|d| - 1]];
    } else {
      post := [];
      assert d + [] == d;
    }
  }

  lemma {:induction false} StripsLeft(pre: Data, d: Data, wide: bool)
    requires AllBlank(pre, wide) && (d == [] || !IsBlank(d[0], wide))
    ensures StripLeft(pre + d, wide) == d
    decreases |pre|
  {
    if pre == [] {
      assert pre + d == d;
    } else {
      assert (pre + d)[1..] == pre[1..] + d;
      StripsLeft(pre[1..], d, wide);
    }
  }

  lemma {:induction false} StripsRight(d: Data, post: Data, wide: bool)
    requires AllBlank(post, wide) && (d == [] || !IsBlank(d[|d| - 1], wide))
    ensures StripRight(d + post, wide) == d
    decreases |post|
  {
    if post == [] {
      assert d + post == d;
    } else {
      var n := |post| - 1;
      assert (d + post)[..|d + post| - 1] == d + post[..n];
      StripsRight(d, post[..n], wide);
    }
  }

  lemma StripsBoth(pre: Data, d: Data, post: Data, wide: bool)
    requires AllBlank(pre, wide) && AllBlank(post, wide)
    requires d != [] && !IsBlank(d[0], wide) && !IsBlank(d[|d| - 1], wide)
    ensures Strip(pre + d + post, wide) == d
  {
    assert pre + d + post == pre + (d + post);
    StripsLeft(pre, d + post, wide);
    StripsRight(d, post, wide);
  }

  // ---- groups of digits ------------------------------------------------------------------------

  lemma {:induction false} JoinedEnds(gs: seq<Data>)
    requires Groups(gs)
    ensures var d := Joined(gs); d != [] && IsDigit(d[0]) && IsDigit(d[|d| - 1])
    decreases |gs|
  {
    if |gs| > 1 {
      assert Groups(gs[1..]);
      JoinedEnds(gs[1..]);
      var rest := Joined(gs[1..]);
      assert Joined(gs)[|Joined(gs)| - 1] == rest[|rest| - 1];
    }
  }

  // Where an underscore may stand: between digits.
  predicate Placed(d: Data, i: nat)
    requires 0 < i < |d| - 1
  {
    IsDigit(d[i]) || (d[i] == UNDERSCORE && IsDigit(d[i - 1]) && IsDigit(d[i + 1]))
  }

  ghost predicate AllPlaced(d: Data) {
    d != [] && IsDigit(d[0]) && IsDigit(d[|d| - 1]) && forall i :: 0 < i < |d| - 1 ==> Placed(d, i)
  }

  lemma PlacedIn(d: Data, i: nat, last: int, next: int)
    requires Numeral(d) && 0 < i < |d| - 1 && last == i - 1 && next == i + 1
    ensures Placed(d, i)
  {
    var a, b, c := d[last], d[i], d[next];
    assert IsDigit(b) || (b == UNDERSCORE && IsDigit(a) && IsDigit(c));
  }

  lemma NumeralIs(d: Data)
    ensures Numeral(d) <==> AllPlaced(d)
  {
    if Numeral(d) {
      forall i | 0 < i < |d| - 1 ensures Placed(d, i) {
        PlacedIn(d, i, i - 1, i + 1);
      }
    }
    if AllPlaced(d) {
      forall i | 0 < i < |d| - 1
        ensures IsDigit(d[i]) || (d[i] == UNDERSCORE && IsDigit(d[i - 1]) && IsDigit(d[i + 1]))
      {
        assert Placed(d, i);
      }
    }
  }

  lemma {:induction false} JoinedIsPlaced(gs: seq<Data>)
    requires Groups(gs)
    ensures AllPlaced(Joined(gs))
    decreases |gs|
  {
    JoinedEnds(gs);
    if |gs| > 1 {
      assert Groups(gs[1..]);
      JoinedIsPlaced(gs[1..]);
      PlacedOn(gs[0], Joined(gs[1..]));
    } else {
      forall i | 0 < i < |gs[0]| - 1 ensures Placed(gs[0], i) {
        assert Group(gs[0]);
      }
    }
  }

  lemma PlacedOn(first: Data, rest: Data)
    requires Group(first) && AllPlaced(rest)
    ensures AllPlaced(first + [UNDERSCORE] + rest)
  {
    var d := first + [UNDERSCORE] + rest;
    assert d[|d| - 1] == rest[|rest| - 1];
    forall i | 0 < i < |d| - 1 ensures Placed(d, i) {
      if i > |first| + 1 {
        assert d[i] == rest[i - |first| - 1] && d[i - 1] == rest[i - |first| - 2] && d[i + 1] == rest[i - |first|];
        assert Placed(rest, i - |first| - 1);
      } else if i == |first| + 1 {
        assert d[i] == rest[0];
      } else if i == |first| {
        assert d[i + 1] == rest[0] && d[i - 1] == first[i - 1];
      }
    }
  }

  ghost predicate SameValue(a: Data, c: Data) {
    ValueOf(a) == ValueOf(c)
  }

  lemma {:induction false} ValueJoins(a: Data, b: Data, c: Data)
    requires AllDigits(b) && SameValue(a, c)
    ensures SameValue(a + b, c + b)
    decreases |b|
  {
    if b == [] {
      assert a + b == a && c + b == c;
    } else {
      var n := |b| - 1;
      ValueJoins(a, b[..n], c);
      assert (a + b)[..|a + b| - 1] == a + b[..n] && (c + b)[..|c + b| - 1] == c + b[..n];
    }
  }

  // An underscore adds nothing.
  lemma UnderscoreIsNothing(a: Data, c: Data)
    requires SameValue(a, c)
    ensures SameValue(a + [UNDERSCORE], c)
  {
    assert (a + [UNDERSCORE])[..|a|] == a;
  }

  lemma JoinedOn(front: Data, gs: seq<Data>)
    requires gs != []
    ensures front + Joined(gs) == if |gs| == 1 then front + gs[0] else front + gs[0] + [UNDERSCORE] + Joined(gs[1..])
  {
    if |gs| > 1 {
      Regrouped(front, gs[0], Joined(gs[1..]));
    }
  }

  lemma Regrouped(a: Data, b: Data, c: Data)
    ensures a + (b + [UNDERSCORE] + c) == a + b + [UNDERSCORE] + c
  {
  }

  lemma DigitsOn(plain: Data, gs: seq<Data>)
    requires gs != []
    ensures plain + Digits(gs) == plain + gs[0] + Digits(gs[1..])
  {
    Grouped(plain, gs[0], Digits(gs[1..]));
  }

  lemma DigitsOfOne(d: Data, gs: seq<Data>)
    requires gs == []
    ensures d + Digits(gs) == d
  {
  }

  // Groups read as their digits, whatever stands in front.
  lemma {:induction false} ValueOfJoined(front: Data, plain: Data, gs: seq<Data>)
    requires Groups(gs) && SameValue(front, plain)
    ensures SameValue(front + Joined(gs), plain + Digits(gs))
    decreases |gs|
  {
    ValueJoins(front, gs[0], plain);
    JoinedOn(front, gs);
    DigitsOn(plain, gs);
    if |gs| == 1 {
      DigitsOfOne(plain + gs[0], gs[1..]);
    } else {
      assert Groups(gs[1..]);
      UnderscoreIsNothing(front + gs[0], plain + gs[0]);
      ValueOfJoined(front + gs[0] + [UNDERSCORE], plain + gs[0], gs[1..]);
    }
  }

  lemma Front(d: Data)
    ensures [] + d == d
  {
  }

  lemma GroupsRead(gs: seq<Data>)
    requires Groups(gs)
    ensures Numeral(Joined(gs)) && ValueOf(Joined(gs)) == ValueOf(Digits(gs))
  {
    JoinedIsPlaced(gs);
    NumeralIs(Joined(gs));
    ValueOfJoined([], [], gs);
    Front(Joined(gs));
    Front(Digits(gs));
  }

  // The digits up to the first underscore.
  lemma {:induction false} FirstGroup(d: Data, k: nat) returns (i: nat)
    requires AllPlaced(d) && k < |d| && forall j :: 0 <= j <= k ==> IsDigit(d[j])
    ensures 0 < i <= |d| && AllDigits(d[..i]) && (i < |d| ==> d[i] == UNDERSCORE && i + 1 < |d|)
    decreases |d| - k
  {
    if k + 1 == |d| {
      i := |d|;
    } else if IsDigit(d[k + 1]) {
      i := FirstGroup(d, k + 1);
    } else {
      i := k + 1;
      assert k + 1 < |d| - 1;
      assert Placed(d, k + 1);
    }
  }

  lemma RestIsPlaced(d: Data, i: nat)
    requires AllPlaced(d) && 0 < i && i + 1 < |d| && d[i] == UNDERSCORE
    ensures AllPlaced(d[i + 1..])
  {
    var rest := d[i + 1..];
    assert Placed(d, i);
    assert rest[0] == d[i + 1] && rest[|rest| - 1] == d[|d| - 1];
    forall j | 0 < j < |rest| - 1 ensures Placed(rest, j) {
      assert Placed(d, i + 1 + j);
      assert rest[j] == d[i + 1 + j] && rest[j - 1] == d[i + j] && rest[j + 1] == d[i + 2 + j];
    }
  }

  lemma {:induction false} NumeralGroups(d: Data) returns (gs: seq<Data>)
    requires AllPlaced(d)
    ensures Groups(gs) && d == Joined(gs)
    decreases |d|
  {
    var i := FirstGroup(d, 0);
    if i == |d| {
      gs := [d];
      assert d[..i] == d;
    } else {
      RestIsPlaced(d, i);
      var more := NumeralGroups(d[i + 1..]);
      gs := [d[..i]] + more;
      assert gs[1..] == more;
      assert d == d[..i] + [UNDERSCORE] + d[i + 1..];
    }
  }

  // ---- the whole text -----------------------------------------------------------------------

  predicate Sign(d: Data) {
    d == [] || d == [PLUS] || d == [MINUS]
  }

  // What a sign makes of some digits.
  function Signed(sign: Data, d: Data): int {
    if sign == [MINUS] then 0 - ValueOf(d) else ValueOf(d)
  }

  lemma SignOff(core: Data)
    ensures var signed := core != [] && (core[0] == MINUS || core[0] == PLUS);
      var sign, d := if signed then [core[0]] else [], if signed then core[1..] else core;
      Sign(sign) && core == sign + d && ReadInt(core) == if Numeral(d) then Some(Signed(sign, d)) else None
  {
    Front(core);
  }

  lemma SignStands(sign: Data, d: Data)
    requires Sign(sign) && d != [] && IsDigit(d[0])
    ensures var core := sign + d;
      var signed := core[0] == MINUS || core[0] == PLUS;
      (if signed then [core[0]] else []) == sign && (if signed then core[1..] else core) == d
  {
    if sign == [] {
      Front(d);
    }
  }

  lemma SignRead(sign: Data, d: Data)
    requires Sign(sign) && d != [] && IsDigit(d[0])
    ensures ReadInt(sign + d) == if Numeral(d) then Some(Signed(sign, d)) else None
  {
    SignStands(sign, d);
    SignOff(sign + d);
  }

  lemma CoreReads(sign: Data, gs: seq<Data>)
    requires Groups(gs) && Sign(sign)
    ensures ReadInt(sign + Joined(gs)) == Some(Signed(sign, Digits(gs)))
  {
    GroupsRead(gs);
    JoinedEnds(gs);
    SignRead(sign, Joined(gs));
  }

  lemma CoreParts(core: Data, n: int) returns (sign: Data, gs: seq<Data>)
    requires ReadInt(core) == Some(n)
    ensures Groups(gs) && Sign(sign) && core == sign + Joined(gs) && n == Signed(sign, Digits(gs))
  {
    var signed := core != [] && (core[0] == MINUS || core[0] == PLUS);
    var d := if signed then core[1..] else core;
    sign := if signed then [core[0]] else [];
    SignOff(core);
    NumeralIs(d);
    gs := NumeralGroups(d);
    GroupsRead(gs);
  }

  lemma TakenApart(text: Data, wide: bool, n: int) returns (pre: Data, sign: Data, gs: seq<Data>, post: Data)
    requires ReadInt(Strip(text, wide)) == Some(n)
    ensures Parts(text, wide, pre, sign, gs, post, n)
  {
    pre := LeftStripped(text, wide);
    post := RightStripped(StripLeft(text, wide), wide);
    sign, gs := CoreParts(Strip(text, wide), n);
    Grouped(pre, Strip(text, wide), post);
  }

  lemma Grouped(a: Data, b: Data, c: Data)
    ensures a + (b + c) == a + b + c
  {
  }

  // A text reads as n exactly when it can be taken apart so.
  lemma IntReads(text: Data, wide: bool, n: int)
    ensures ReadInt(Strip(text, wide)) == Some(n) <==>
      exists pre, sign, gs, post :: Parts(text, wide, pre, sign, gs, post, n)
  {
    if ReadInt(Strip(text, wide)) == Some(n) {
      var pre, sign, gs, post := TakenApart(text, wide, n);
    }
    if exists pre, sign, gs, post :: Parts(text, wide, pre, sign, gs, post, n) {
      var pre, sign, gs, post :| Parts(text, wide, pre, sign, gs, post, n);
      PartsRead(text, wide, pre, sign, gs, post, n);
    }
  }

  lemma PartsRead(text: Data, wide: bool, pre: Data, sign: Data, gs: seq<Data>, post: Data, n: int)
    requires Parts(text, wide, pre, sign, gs, post, n)
    ensures ReadInt(Strip(text, wide)) == Some(n)
  {
    var core := sign + Joined(gs);
    JoinedEnds(gs);
    assert core[|core| - 1] == Joined(gs)[|Joined(gs)| - 1];
    assert core[0] == if sign == [] then Joined(gs)[0] else sign[0];
    StripsBoth(pre, core, post, wide);
    CoreReads(sign, gs);
  }

  // In bytes the narrow notion of blank applies; in a string the wide one, unless it is all
  // ASCII.
  lemma BytesAndText(text: Data, n: int)
    ensures ParseInt(text) == Some(n) <==> exists pre, sign, gs, post :: Parts(text, false, pre, sign, gs, post, n)
    ensures var wide := exists i :: 0 <= i < |text| && text[i] >= 128;
      ParseText(text) == Some(n) <==> exists pre, sign, gs, post :: Parts(text, wide, pre, sign, gs, post, n)
  {
    IntReads(text, false, n);
    IntReads(text, !Ascii(text), n);
  }
}
