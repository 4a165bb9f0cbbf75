// When an amendment keeps an order's place in the queue
// (MatchingEngine.amend and Market.amend, exchangesim/core).
module AmendPriority {
  import opened Options
  import opened Orders
  import opened PriceLevels
  import opened Matching
  import opened BookRules
  import opened Auction
  import opened AuctionTrading
  import opened Ledger
  import opened BookInvariants
  import opened Trading

  predicate InSequence(s: seq<OrderView>) {
    forall i, j :: 0 <= i < j < |s| ==> s[i].terms.sequence <= s[j].terms.sequence
  }

  lemma {:induction false} InsertAt(s: seq<OrderView>, o: OrderView) returns (k: nat)
    requires InSequence(s)
    ensures k <= |s| && InsertBySequence(s, o) == s[..k] + [o] + s[k..]
    ensures forall i :: 0 <= i < k ==> s[i].terms.sequence <= o.terms.sequence
    ensures k < |s| ==> s[k].terms.sequence > o.terms.sequence
  {
    if s == [] || s[|s| - 1].terms.sequence <= o.terms.sequence {
      k := |s|;
    } else {
      var t, last := s[..|s| - 1], s[|s| - 1];
      k := InsertAt(t, o);
      assert t[..k] == s[..k] && t[k..] + [last] == s[k..];
    }
  }

  lemma {:induction false} SortOfSequence(s: seq<OrderView>)
    requires InSequence(s)
    ensures SortBySequence(s) == s
  {
    if s != [] {
      SortOfSequence(s[..|s| - 1]);
      assert s == s[..|s| - 1] + [s[|s| - 1]];
    }
  }

  lemma {:induction false} SortIsInSequence(s: seq<OrderView>)
    ensures InSequence(SortBySequence(s))
  {
    if s != [] {
      var t := SortBySequence(s[..|s| - 1]);
      SortIsInSequence(s[..|s| - 1]);
      var k := InsertAt(t, s[|s| - 1]);
      InsertedInSequence(t, k, s[|s| - 1]);
    }
  }

  lemma InsertedInSequence(t: seq<OrderView>, k: nat, o: OrderView)
    requires InSequence(t) && k <= |t|
    requires forall i :: 0 <= i < k ==> t[i].terms.sequence <= o.terms.sequence
    requires k < |t| ==> t[k].terms.sequence > o.terms.sequence
    ensures InSequence(t[..k] + [o] + t[k..])
  {
    var r := t[..k] + [o] + t[k..];
    forall i, j | 0 <= i < j < |r| ensures r[i].terms.sequence <= r[j].terms.sequence {
      assert r[i] == if i < k then t[i] else if i == k then o else t[i - 1];
      assert r[j] == if j < k then t[j] else if j == k then o else t[j - 1];
    }
  }

  // The orders around one: in sequence, and those behind it strictly later.
  predicate InPlace(before: seq<OrderView>, o: OrderView, behind: seq<OrderView>) {
    && InSequence(before + behind)
    && (forall i :: 0 <= i < |before| ==> before[i].terms.sequence <= o.terms.sequence)
    && (behind != [] ==> behind[0].terms.sequence > o.terms.sequence)
  }

  // Re-sorting a level puts an order back between the same neighbours exactly when
  // the level is in entry sequence there.
  lemma SortRestores(before: seq<OrderView>, o: OrderView, behind: seq<OrderView>)
    requires forall i :: 0 <= i < |behind| ==> behind[i].terms.id != o.terms.id
    ensures SortBySequence(before + behind + [o]) == before + [o] + behind <==> InPlace(before, o, behind)
  {
    var all, r := before + behind, before + [o] + behind;
    assert (all + [o])[..|all|] == all;
    assert SortBySequence(all + [o]) == InsertBySequence(SortBySequence(all), o);
    if InPlace(before, o, behind) {
      SortOfSequence(all);
      var k := InsertAt(all, o);
      InsertedBetween(before, o, behind, k);
    }
    if SortBySequence(all + [o]) == r {
      SortIsInSequence(all + [o]);
      WithoutMiddle(before, o, behind);
      SortOfSequence(all);
      var k := InsertAt(all, o);
      FoundBetween(before, o, behind, k);
    }
  }

  lemma InsertedBetween(before: seq<OrderView>, o: OrderView, behind: seq<OrderView>, k: nat)
    requires InPlace(before, o, behind) && k <= |before + behind|
    requires forall i :: 0 <= i < k ==> (before + behind)[i].terms.sequence <= o.terms.sequence
    requires k < |before + behind| ==> (before + behind)[k].terms.sequence > o.terms.sequence
    ensures (before + behind)[..k] + [o] + (before + behind)[k..] == before + [o] + behind
  {
    var all := before + behind;
    assert forall i :: 0 <= i < |before| ==> all[i] == before[i];
    assert forall i :: 0 <= i < |behind| ==> all[|before| + i] == behind[i];
    assert k == |before|;
    assert all[..k] == before && all[k..] == behind;
  }

  lemma WithoutMiddle(before: seq<OrderView>, o: OrderView, behind: seq<OrderView>)
    requires InSequence(before + [o] + behind)
    ensures InSequence(before + behind)
    ensures forall i :: 0 <= i < |before| ==> before[i].terms.sequence <= o.terms.sequence
    ensures forall i :: 0 <= i < |behind| ==> o.terms.sequence <= behind[i].terms.sequence
  {
    var r, all, n := before + [o] + behind, before + behind, |before|;
    forall i, j | 0 <= i < j < |all| ensures all[i].terms.sequence <= all[j].terms.sequence {
      assert all[i] == r[if i < n then i else i + 1] && all[j] == r[if j < n then j else j + 1];
    }
    forall i | 0 <= i < n ensures before[i].terms.sequence <= o.terms.sequence {
      assert before[i] == r[i] && r[n] == o;
    }
    forall i | 0 <= i < |behind| ensures o.terms.sequence <= behind[i].terms.sequence {
      assert behind[i] == r[n + 1 + i] && r[n] == o;
    }
  }

  lemma FoundBetween(before: seq<OrderView>, o: OrderView, behind: seq<OrderView>, k: nat)
    requires InSequence(before + behind) && k <= |before + behind|
    requires forall i :: 0 <= i < |before| ==> before[i].terms.sequence <= o.terms.sequence
    requires forall i :: 0 <= i < |behind| ==> behind[i].terms.id != o.terms.id
    requires k < |before + behind| ==> (before + behind)[k].terms.sequence > o.terms.sequence
    requires forall i :: 0 <= i < k ==> (before + behind)[i].terms.sequence <= o.terms.sequence
    requires (before + behind)[..k] + [o] + (before + behind)[k..] == before + [o] + behind
    ensures InPlace(before, o, behind)
  {
    var all, n := before + behind, |before|;
    var r := all[..k] + [o] + all[k..];
    assert forall i :: 0 <= i < n ==> all[i] == before[i];
    assert k >= n;
    assert behind != [] ==> all[n] == behind[0];
    assert (before + [o] + behind)[n] == o;
  }

  // ---- the whole queue ----------------------------------------------------------

  ghost predicate OwnId(q: seq<OrderView>, i: nat)
    requires i < |q|
  {
    forall j :: 0 <= j < |q| && j != i ==> q[j].terms.id != q[i].terms.id
  }

  // The order at i stands in entry sequence among those at its price.
  ghost predicate HoldsPlace(isBuy: bool, q: seq<OrderView>, i: nat)
    requires i < |q|
  {
    var l, h := Ahead(isBuy, q, Px(q[i])), Place(isBuy, q, Px(q[i]));
    l <= i < h && InPlace(q[l..i], q[i], q[i + 1..h])
  }

  lemma {:induction false} WithoutAt(q: seq<OrderView>, i: nat)
    requires i < |q| && OwnId(q, i)
    ensures Without(q, q[i].terms.id) == q[..i] + q[i + 1..]
    decreases i
  {
    if i == 0 {
      assert q[..0] + q[1..] == q[1..];
    } else {
      assert q[0].terms.id != q[i].terms.id;
      assert q[1..][i - 1] == q[i];
      WithoutAt(q[1..], i - 1);
      assert q[..i] + q[i + 1..] == [q[0]] + (q[1..][..i - 1] + q[1..][i..]);
    }
  }

  // Taking one order out shortens its own level only.
  lemma SpanWithout(isBuy: bool, q: seq<OrderView>, i: nat, l: nat, h: nat)
    requires Sorted(isBuy, q) && i < |q| && l == Ahead(isBuy, q, Px(q[i])) && h == Place(isBuy, q, Px(q[i]))
    ensures l <= i < h <= |q|
    ensures SpannedAt(isBuy, q[..i] + q[i + 1..], Px(q[i]), l, h - 1 - l)
  {
    LevelPrices(isBuy, q, Px(q[i]));
    var r := q[..i] + q[i + 1..];
    assert forall k :: 0 <= k < |r| ==> r[k] == if k < i then q[k] else q[k + 1];
  }

  lemma RequeueAround(isBuy: bool, q: seq<OrderView>, i: nat, l: nat, h: nat, a: OrderView)
    requires Sorted(isBuy, q) && i < |q| && Px(a) == Px(q[i])
    requires l == Ahead(isBuy, q, Px(q[i])) && h == Place(isBuy, q, Px(q[i]))
    ensures l <= i < h <= |q|
    ensures Requeue(isBuy, q[..i] + q[i + 1..], a) ==
      q[..l] + SortBySequence(q[l..i] + q[i + 1..h] + [a]) + q[h..]
  {
    SpanWithout(isBuy, q, i, l, h);
    SlicesWithout(q, i, l, h);
    RequeueSpan(isBuy, q[..i] + q[i + 1..], a, l, h - 1 - l);
  }

  lemma SlicesWithout(q: seq<OrderView>, i: nat, l: nat, h: nat)
    requires l <= i < h <= |q|
    ensures var r := q[..i] + q[i + 1..];
      r[..l] == q[..l] && r[l..l + (h - 1 - l)] == q[l..i] + q[i + 1..h] && r[l + (h - 1 - l)..] == q[h..]
  {
    var r := q[..i] + q[i + 1..];
    assert |r| == |q| - 1;
    assert forall k :: 0 <= k < i ==> r[k] == q[k];
    assert forall k :: i <= k < |r| ==> r[k] == q[k + 1];
    assert r[..l] == q[..l];
    assert r[l..h - 1] == q[l..i] + q[i + 1..h];
    assert r[h - 1..] == q[h..];
  }

  lemma MiddleDecides(q: seq<OrderView>, i: nat, l: nat, h: nat, a: OrderView, m: seq<OrderView>)
    requires l <= i < h <= |q|
    ensures q[..l] + m + q[h..] == q[i := a] <==> m == q[l..i] + [a] + q[i + 1..h]
  {
    var mid := q[l..i] + [a] + q[i + 1..h];
    assert q[i := a] == q[..l] + mid + q[h..];
    if q[..l] + m + q[h..] == q[i := a] {
      var s, t := q[..l] + m + q[h..], q[..l] + mid + q[h..];
      assert |m| == |mid|;
      assert m == s[l..l + |m|] && mid == t[l..l + |mid|];
    }
  }

  // A reduction leaves the order where it stands exactly when the order holds its
  // place in entry sequence.
  lemma ReductionKeepsPlace(isBuy: bool, q: seq<OrderView>, i: nat, a: OrderView)
    requires Sorted(isBuy, q) && i < |q| && OwnId(q, i) && a.terms == q[i].terms
    ensures Requeue(isBuy, Without(q, a.terms.id), a) == q[i := a] <==> HoldsPlace(isBuy, q, i)
  {
    var l, h := Ahead(isBuy, q, Px(q[i])), Place(isBuy, q, Px(q[i]));
    WithoutAt(q, i);
    RequeueAround(isBuy, q, i, l, h, a);
    MiddleRestores(q, i, l, h, a);
    SameInPlace(q[l..i], q[i], a, q[i + 1..h]);
  }

  lemma MiddleRestores(q: seq<OrderView>, i: nat, l: nat, h: nat, a: OrderView)
    requires l <= i < h <= |q| && OwnId(q, i) && a.terms == q[i].terms
    ensures q[..l] + SortBySequence(q[l..i] + q[i + 1..h] + [a]) + q[h..] == q[i := a] <==>
      InPlace(q[l..i], a, q[i + 1..h])
  {
    var behind := q[i + 1..h];
    assert forall k :: 0 <= k < |behind| ==> behind[k] == q[i + 1 + k];
    SortRestores(q[l..i], a, behind);
    MiddleDecides(q, i, l, h, a, SortBySequence(q[l..i] + behind + [a]));
  }

  lemma SameInPlace(before: seq<OrderView>, o: OrderView, a: OrderView, behind: seq<OrderView>)
    requires a.terms == o.terms
    ensures InPlace(before, a, behind) <==> InPlace(before, o, behind)
  {
  }

  // ---- the engine's amendment -----------------------------------------------------

  // MatchingEngine.amend lowering a quantity keeps the order's place in its queue
  // exactly when the order holds its place in entry sequence.
  lemma AmendKeepsPlace(b: BookView, isBuy: bool, i: nat, newQuantity: int)
    requires BookOk(b) && i < |SideOf(b, isBuy).queue| && OwnId(SideOf(b, isBuy).queue, i)
    requires var o := SideOf(b, isBuy).queue[i]; newQuantity <= o.quantity && Leaves(Amended(o, Some(newQuantity), None)) > 0
    ensures var q := SideOf(b, isBuy).queue;
      var a := Amended(q[i], Some(newQuantity), None);
      SideOf(AmendBook(b, q[i], Some(newQuantity), None), isBuy).queue == q[i := a] <==> HoldsPlace(isBuy, q, i)
  {
    var q := SideOf(b, isBuy).queue;
    var o := q[i];
    assert o.terms.price.Some? && IsBuy(o.terms) == isBuy;
    assert Contains(q, o.terms.id);
    ReductionKeepsPlace(isBuy, q, i, Amended(o, Some(newQuantity), None));
  }

  // An order sent to the back keeps its entry sequence, so lowering its quantity
  // afterwards takes it ahead of the later order it had lost its place to.
  lemma ReductionGainsPlace(isBuy: bool, rival: OrderView, o: OrderView, a: OrderView)
    requires Px(rival) == Px(o) && o.terms.sequence < rival.terms.sequence && rival.terms.id != o.terms.id
    requires a.terms == o.terms
    ensures Requeue(isBuy, Without([rival, o], o.terms.id), a) == [a, rival]
  {
    var q, r := [rival, o], [rival];
    WithoutAt(q, 1);
    assert q[..1] + q[2..] == r;
    assert r[1..] == [];
    RequeueSpan(isBuy, r, a, 0, 1);
    SwapTwo(rival, a);
    assert r[..0] == [] && r[0..1] == r && r[1..] == [];
  }

  lemma SwapTwo(first: OrderView, second: OrderView)
    requires second.terms.sequence < first.terms.sequence
    ensures SortBySequence([first] + [second]) == [second, first]
  {
    var s := [first] + [second];
    SortOfSequence([first]);
    assert s[..1] == [first] && s[1] == second;
    assert SortBySequence(s) == InsertBySequence([first], second);
    var k := InsertAt([first], second);
    assert k == 0 && [first][..0] == [] && [first][0..] == [first];
  }

  // ---- the market's amendment while matching ---------------------------------------

  // The orders at o's price other than o, as a reduction of o leaves them: re-sorted.
  lemma {:induction false} SortedOthers(isBuy: bool, q: seq<OrderView>, i: nat, l: nat, h: nat) returns (s: seq<OrderView>)
    requires Sorted(isBuy, q) && i < |q| && OwnId(q, i)
    requires l == Ahead(isBuy, q, Px(q[i])) && h == Place(isBuy, q, Px(q[i]))
    ensures l <= i < h <= |q| && s == SortBySequence(q[l..i] + q[i + 1..h])
    ensures InSequence(s) && |s| == h - 1 - l
    ensures forall j :: 0 <= j < |s| ==> Px(s[j]) == Px(q[i]) && s[j].terms.id != q[i].terms.id
  {
    LevelPrices(isBuy, q, Px(q[i]));
    var level := q[l..i] + q[i + 1..h];
    s := SortBySequence(level);
    SortIsInSequence(level);
    SortLength(level);
    forall j | 0 <= j < |s| ensures Px(s[j]) == Px(q[i]) && s[j].terms.id != q[i].terms.id {
      var k := SortedFrom(q[l..i], q[i + 1..h], s, j);
      var y := if k < i - l then l + k else l + k + 1;
      assert s[j] == q[y] && y != i;
    }
  }

  // Every order of a re-sorted level was in it.
  lemma SortedFrom(a: seq<OrderView>, b: seq<OrderView>, s: seq<OrderView>, j: nat) returns (k: nat)
    requires s == SortBySequence(a + b) && j < |s|
    ensures k < |a| + |b| && s[j] == if k < |a| then a[k] else b[k - |a|]
  {
    SortMembers(a + b);
    assert s[j] in s;
    k :| 0 <= k < |a + b| && (a + b)[k] == s[j];
  }

  lemma {:induction false} SortLength(s: seq<OrderView>)
    ensures |SortBySequence(s)| == |s|
  {
    if s != [] {
      SortLength(s[..|s| - 1]);
      var t := SortBySequence(s[..|s| - 1]);
      InsertLength(t, s[|s| - 1]);
    }
  }

  lemma {:induction false} InsertLength(s: seq<OrderView>, o: OrderView)
    ensures |InsertBySequence(s, o)| == |s| + 1
  {
    if s != [] {
      InsertLength(s[..|s| - 1], o);
    }
  }

  // A queue around one price: what is ahead, the orders s at it, what is behind.
  lemma SpanAround(isBuy: bool, q: seq<OrderView>, p: int, l: nat, h: nat, s: seq<OrderView>)
    requires Sorted(isBuy, q) && l == Ahead(isBuy, q, p) && h == Place(isBuy, q, p)
    requires forall j :: 0 <= j < |s| ==> Px(s[j]) == p
    ensures l <= h <= |q| && SpannedAt(isBuy, q[..l] + s + q[h..], p, l, |s|)
  {
    LevelPrices(isBuy, q, p);
    var v := q[..l] + s + q[h..];
    assert forall j :: 0 <= j < |v| ==>
      v[j] == if j < l then q[j] else if j < l + |s| then s[j - l] else q[j - l - |s| + h];
  }

  // Taking the re-inserted order out again leaves the others as they were re-sorted.
  lemma RequeuedWithout(q: seq<OrderView>, l: nat, h: nat, s: seq<OrderView>, a: OrderView)
    requires l <= h <= |q| && InSequence(s)
    requires forall j :: 0 <= j < |q| && !(l <= j < h) ==> q[j].terms.id != a.terms.id
    requires forall j :: 0 <= j < |s| ==> s[j].terms.id != a.terms.id
    ensures Without(q[..l] + InsertBySequence(s, a) + q[h..], a.terms.id) == q[..l] + s + q[h..]
  {
    var k := InsertAt(s, a);
    var v := q[..l] + (s[..k] + [a] + s[k..]) + q[h..];
    assert v[l + k] == a;
    forall j | 0 <= j < |v| && j != l + k ensures v[j].terms.id != a.terms.id {
      assert v[j] == if j < l then q[j] else if j < l + k then s[j - l]
                     else if j < l + |s| + 1 then s[j - l - 1] else q[j - l - |s| - 1 + h];
    }
    WithoutAt(v, l + k);
    CutOut(q[..l], s, q[h..], k, a);
  }

  lemma CutOut(before: seq<OrderView>, s: seq<OrderView>, behind: seq<OrderView>, k: nat, a: OrderView)
    requires k <= |s|
    ensures var v, n := before + (s[..k] + [a] + s[k..]) + behind, |before| + k;
      v[..n] + v[n + 1..] == before + s + behind
  {
    var v, n := before + (s[..k] + [a] + s[k..]) + behind, |before| + k;
    assert v[..n] == before + s[..k];
    assert v[n + 1..] == s[k..] + behind;
    assert s[..k] + s[k..] == s;
  }

  // Taking an order out, back in by sequence, out again and back in by price.
  lemma ReenteredQueue(isBuy: bool, q: seq<OrderView>, i: nat, l: nat, h: nat, a: OrderView, x: OrderView)
    returns (s: seq<OrderView>)
    requires Sorted(isBuy, q) && i < |q| && OwnId(q, i) && a.terms == q[i].terms == x.terms
    requires l == Ahead(isBuy, q, Px(q[i])) && h == Place(isBuy, q, Px(q[i]))
    ensures l <= i < h <= |q| && s == SortBySequence(q[l..i] + q[i + 1..h]) && |s| == h - 1 - l
    ensures forall j :: 0 <= j < |s| ==> s[j].terms.id != q[i].terms.id
    ensures Insert(isBuy, Without(Requeue(isBuy, Without(q, a.terms.id), a), a.terms.id), x) ==
      q[..l] + s + [x] + q[h..]
  {
    s := SortedOthers(isBuy, q, i, l, h);
    var level := q[l..i] + q[i + 1..h];
    WithoutAt(q, i);
    RequeueAround(isBuy, q, i, l, h, a);
    assert (level + [a])[..|level|] == level;
    RequeuedWithout(q, l, h, s, a);
    SpanAround(isBuy, q, Px(x), l, h, s);
    var c := q[..l] + s + q[h..];
    SpanPlaces(isBuy, c, Px(x), l, |s|);
    assert c[..l + |s|] == q[..l] + s && c[l + |s|..] == q[h..];
  }

  // Where the order ends up, and when the others keep their order.
  lemma ReenteredPlace(isBuy: bool, q: seq<OrderView>, i: nat, l: nat, h: nat, x: OrderView, s: seq<OrderView>)
    requires Sorted(isBuy, q) && i < |q| && OwnId(q, i) && x.terms == q[i].terms
    requires l == Ahead(isBuy, q, Px(q[i])) && h == Place(isBuy, q, Px(q[i])) && l <= i < h <= |q|
    requires s == SortBySequence(q[l..i] + q[i + 1..h]) && |s| == h - 1 - l
    requires forall j :: 0 <= j < |s| ==> s[j].terms.id != q[i].terms.id
    ensures var r := q[..l] + s + [x] + q[h..];
      && |r| == |q|
      && (r[i] == x <==> forall j :: i < j < |q| ==> Px(q[j]) != Px(q[i]))
      && (Without(r, x.terms.id) == Without(q, x.terms.id) <==> InSequence(q[l..i] + q[i + 1..h]))
  {
    NobodyBehind(isBuy, q, i, h);
    PlaceMoves(q, i, l, h, x, s);
    OthersMove(q, i, l, h, x, s, q[..l] + s + [x] + q[h..]);
    SortDecides(q[l..i] + q[i + 1..h]);
  }

  lemma PlaceMoves(q: seq<OrderView>, i: nat, l: nat, h: nat, x: OrderView, s: seq<OrderView>)
    requires i < |q| && x.terms == q[i].terms && l <= i < h <= |q| && |s| == h - 1 - l
    requires forall j :: 0 <= j < |s| ==> s[j].terms.id != q[i].terms.id
    ensures |q[..l] + s + [x] + q[h..]| == |q|
    ensures (q[..l] + s + [x] + q[h..])[i] == x <==> h == i + 1
  {
    var r := q[..l] + s + [x] + q[h..];
    if i < h - 1 {
      assert r[i] == s[i - l];
    }
  }

  lemma OthersMove(q: seq<OrderView>, i: nat, l: nat, h: nat, x: OrderView, s: seq<OrderView>, r: seq<OrderView>)
    requires i < |q| && OwnId(q, i) && x.terms == q[i].terms && l <= i < h <= |q| && |s| == h - 1 - l
    requires r == q[..l] + s + [x] + q[h..]
    requires forall j :: 0 <= j < |s| ==> s[j].terms.id != q[i].terms.id
    ensures Without(r, q[i].terms.id) == Without(q, q[i].terms.id) <==> s == q[l..i] + q[i + 1..h]
  {
    AloneAt(q, i, l, h, s, x, r);
    WithoutBoth(q, i, r, h - 1);
    OthersDecide(q, i, l, h, s, x, r);
  }

  lemma WithoutBoth(q: seq<OrderView>, i: nat, r: seq<OrderView>, j: nat)
    requires i < |q| && j < |r| && OwnId(q, i) && OwnId(r, j) && r[j].terms.id == q[i].terms.id
    ensures Without(r, q[i].terms.id) == Without(q, q[i].terms.id) <==> r[..j] + r[j + 1..] == q[..i] + q[i + 1..]
  {
    WithoutAt(q, i);
    WithoutAt(r, j);
  }

  lemma NobodyBehind(isBuy: bool, q: seq<OrderView>, i: nat, h: nat)
    requires Sorted(isBuy, q) && i < |q| && h == Place(isBuy, q, Px(q[i]))
    ensures i < h
    ensures h == i + 1 <==> forall j :: i < j < |q| ==> Px(q[j]) != Px(q[i])
  {
    LevelPrices(isBuy, q, Px(q[i]));
    if h > i + 1 {
      assert Px(q[i + 1]) == Px(q[i]);
    }
  }

  lemma AloneAt(q: seq<OrderView>, i: nat, l: nat, h: nat, s: seq<OrderView>, x: OrderView, r: seq<OrderView>)
    requires i < |q| && OwnId(q, i) && x.terms == q[i].terms && l <= i < h <= |q| && |s| == h - 1 - l
    requires r == q[..l] + s + [x] + q[h..]
    requires forall j :: 0 <= j < |s| ==> s[j].terms.id != q[i].terms.id
    ensures |r| == |q| && r[h - 1] == x && OwnId(r, h - 1)
  {
    forall j | 0 <= j < |r| && j != h - 1 ensures r[j].terms.id != x.terms.id {
      assert r[j] == if j < l then q[j] else if j < h - 1 then s[j - l] else q[j];
    }
  }

  lemma SortDecides(level: seq<OrderView>)
    ensures SortBySequence(level) == level <==> InSequence(level)
  {
    SortIsInSequence(level);
    if InSequence(level) {
      SortOfSequence(level);
    }
  }

  lemma OthersDecide(q: seq<OrderView>, i: nat, l: nat, h: nat, s: seq<OrderView>, x: OrderView, r: seq<OrderView>)
    requires l <= i < h <= |q| && |s| == h - 1 - l && r == q[..l] + s + [x] + q[h..]
    ensures r[..h - 1] + r[h - 1 + 1..] == q[..i] + q[i + 1..] <==> s == q[l..i] + q[i + 1..h]
  {
    var u, v := r[..h - 1] + r[h..], q[..i] + q[i + 1..];
    SlicesWithout(q, i, l, h);
    assert u == q[..l] + s + q[h..];
    assert u[l..h - 1] == s;
    assert v == v[..l] + v[l..h - 1] + v[h - 1..];
  }

  // An order that reaches nothing goes straight to its place in the book.
  lemma EnterWithoutMeeting(rules: Rules, b: BookView, a: OrderView, nextTrade: nat)
    requires BookOk(b) && Leaves(a) > 0 && LiveStatus(a.status) && a.terms.price.Some?
    requires a.terms.orderType == Limit && a.terms.tif == Day && !Meets(a.terms, SideOf(b, !IsBuy(a.terms)).queue)
    ensures var isBuy := IsBuy(a.terms);
      SideOf(Submit(rules, b, a, true, nextTrade).book, isBuy).queue ==
        Insert(isBuy, SideOf(b, isBuy).queue, Rested(Acknowledged(rules, a)))
  {
    OkBookIsOpen(b);
  }

  lemma NoMeetingInside(b: BookView, o: OrderView)
    requires BookOk(b) && Uncrossed(b) && In(b, o) && o.terms.price.Some?
    ensures !Meets(o.terms, SideOf(b, !IsBuy(o.terms)).queue)
  {
    var q := SideOf(b, IsBuy(o.terms)).queue;
    var i :| 0 <= i < |q| && q[i] == o;
    assert i > 0 ==> !Better(IsBuy(o.terms), Px(q[i]), Px(q[0]));
  }

  // While the market matches, amending takes the order out and enters it again: a
  // reduction reports that priority was kept, and yet the order goes behind everyone
  // at its price. It stands where it stood exactly when nobody did behind it, and the
  // others keep their order exactly when they stand in entry sequence.
  lemma MarketAmendPlace(rules: Rules, s: State, o: OrderView, i: nat, newQuantity: int)
    requires BookOk(s.book) && Uncrossed(s.book)
    requires var q := SideOf(s.book, IsBuy(o.terms)).queue; i < |q| && q[i] == o && OwnId(q, i)
    requires o.terms.orderType == Limit && o.terms.tif == Day
    requires newQuantity <= o.quantity && Leaves(Amended(o, Some(newQuantity), None)) > 0
    ensures In(s.book, o) && !LosesPriority(o, Amended(o, Some(newQuantity), None))
    ensures var isBuy, x := IsBuy(o.terms), Rested(Acknowledged(rules, Amended(o, Some(newQuantity), None)));
      var q := SideOf(s.book, isBuy).queue;
      var r := SideOf(ChangeStep(rules, s, o, Some(newQuantity), None, true).book, isBuy).queue;
      var l, h := Ahead(isBuy, q, Px(o)), Place(isBuy, q, Px(o));
      && l <= i < h && |r| == |q|
      && r == q[..l] + SortBySequence(q[l..i] + q[i + 1..h]) + [x] + q[h..]
      && (r[i] == x <==> forall j :: i < j < |q| ==> Px(q[j]) != Px(o))
      && (Without(r, o.terms.id) == Without(q, o.terms.id) <==> InSequence(q[l..i] + q[i + 1..h]))
  {
    var a, isBuy := Amended(o, Some(newQuantity), None), IsBuy(o.terms);
    var x, q := Rested(Acknowledged(rules, a)), SideOf(s.book, isBuy).queue;
    var l, h := Ahead(isBuy, q, Px(o)), Place(isBuy, q, Px(o));
    ReenteredBook(rules, s, o, a, newQuantity);
    var others := ReenteredQueue(isBuy, q, i, l, h, a, x);
    ReenteredPlace(isBuy, q, i, l, h, x, others);
  }

  lemma ReenteredBook(rules: Rules, s: State, o: OrderView, a: OrderView, newQuantity: int)
    requires BookOk(s.book) && Uncrossed(s.book) && In(s.book, o)
    requires o.terms.price.Some? && o.terms.orderType == Limit && o.terms.tif == Day
    requires newQuantity <= o.quantity && a == Amended(o, Some(newQuantity), None) && Leaves(a) > 0
    ensures var isBuy := IsBuy(o.terms);
      SideOf(ChangeStep(rules, s, o, Some(newQuantity), None, true).book, isBuy).queue ==
        Insert(isBuy, Without(Requeue(isBuy, Without(SideOf(s.book, isBuy).queue, a.terms.id), a), a.terms.id),
               Rested(Acknowledged(rules, a)))
  {
    var isBuy := IsBuy(o.terms);
    AmendOk(s.book, o, Some(newQuantity), None);
    var b := AmendBook(s.book, o, Some(newQuantity), None);
    RemoveOk(b, a.terms);
    var c := Remove(b, a.terms);
    NoMeetingInside(s.book, o);
    InRests(s.book, o);
    assert SideOf(c, !isBuy) == SideOf(s.book, !isBuy);
    EnterWithoutMeeting(rules, c, a, s.nextTrade);
  }
}
