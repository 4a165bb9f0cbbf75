// A sorted price list over a map of levels, read as one flat list
// (the indexed structure of exchangesim/core/book.py).
module PriceLevels {

  predicate Ascending(ps: seq<int>) {
    forall i, j :: 0 <= i < j < |ps| ==> ps[i] < ps[j]
  }

  // bisect.bisect_left: how many prices are below p.
  function BisectLeft(ps: seq<int>, p: int): (k: nat)
    requires Ascending(ps)
    ensures k <= |ps|
    ensures forall i :: 0 <= i < k ==> ps[i] < p
    ensures forall i :: k <= i < |ps| ==> ps[i] >= p
  {
    if ps == [] || ps[0] >= p then 0 else 1 + BisectLeft(ps[1..], p)
  }

  // bisect.bisect_right: how many prices are at or below p.
  function BisectRight(ps: seq<int>, p: int): (k: nat)
    requires Ascending(ps)
    ensures k <= |ps|
    ensures forall i :: 0 <= i < k ==> ps[i] <= p
    ensures forall i :: k <= i < |ps| ==> ps[i] > p
  {
    if ps == [] || ps[0] > p then 0 else 1 + BisectRight(ps[1..], p)
  }

  function Reverse<T>(s: seq<T>): (r: seq<T>)
    ensures |r| == |s| && forall i :: 0 <= i < |s| ==> r[i] == s[|s| - 1 - i]
  {
    seq(|s|, i requires 0 <= i < |s| => s[|s| - 1 - i])
  }

  function LevelAt<T>(levels: map<int, seq<T>>, p: int): seq<T> {
    if p in levels then levels[p] else []
  }

  // The levels of ps, one after another.
  function Concat<T>(ps: seq<int>, levels: map<int, seq<T>>): seq<T> {
    if ps == [] then [] else LevelAt(levels, ps[0]) + Concat(ps[1..], levels)
  }

  lemma {:induction false} ConcatAppend<T>(a: seq<int>, b: seq<int>, levels: map<int, seq<T>>)
    ensures Concat(a + b, levels) == Concat(a, levels) + Concat(b, levels)
    decreases |a|
  {
    if a == [] {
      assert a + b == b;
    } else {
      assert (a + b)[1..] == a[1..] + b;
      ConcatAppend(a[1..], b, levels);
    }
  }

  lemma ConcatOne<T>(p: int, levels: map<int, seq<T>>)
    ensures Concat([p], levels) == LevelAt(levels, p)
  {
    assert [p][1..] == [];
  }

  lemma ConcatThree<T>(a: seq<int>, p: int, c: seq<int>, levels: map<int, seq<T>>)
    ensures Concat(a + [p] + c, levels) == Concat(a, levels) + LevelAt(levels, p) + Concat(c, levels)
  {
    ConcatAppend(a + [p], c, levels);
    ConcatAppend(a, [p], levels);
    ConcatOne(p, levels);
  }

  lemma ConcatTwo<T>(a: seq<int>, c: seq<int>, levels: map<int, seq<T>>)
    ensures Concat(a + [] + c, levels) == Concat(a, levels) + [] + Concat(c, levels)
  {
    assert a + [] + c == a + c;
    ConcatAppend(a, c, levels);
  }

  lemma {:induction false} ConcatFrame<T>(ps: seq<int>, a: map<int, seq<T>>, b: map<int, seq<T>>)
    requires forall i :: 0 <= i < |ps| ==> LevelAt(a, ps[i]) == LevelAt(b, ps[i])
    ensures Concat(ps, a) == Concat(ps, b)
  {
    if ps != [] {
      ConcatFrame(ps[1..], a, b);
    }
  }

  // Everything in the flat list comes from one of its levels.
  lemma {:induction false} ConcatFrom<T>(ps: seq<int>, levels: map<int, seq<T>>, x: T)
    requires x in Concat(ps, levels)
    ensures exists i :: 0 <= i < |ps| && x in LevelAt(levels, ps[i])
  {
    if x in LevelAt(levels, ps[0]) {
    } else {
      ConcatFrom(ps[1..], levels, x);
      var i :| 0 <= i < |ps[1..]| && x in LevelAt(levels, ps[1..][i]);
      assert ps[i + 1] == ps[1..][i];
    }
  }

  // Best first: descending for bids, ascending for offers.
  function InPriority(isBuy: bool, prices: seq<int>): (r: seq<int>)
    ensures |r| == |prices|
  {
    if isBuy then Reverse(prices) else prices
  }

  predicate Better(isBuy: bool, a: int, b: int) {
    if isBuy then a > b else a < b
  }

  // The prices ahead of p and those behind it, in priority order.
  function PricesAhead(isBuy: bool, prices: seq<int>, p: int): seq<int>
    requires Ascending(prices)
  {
    InPriority(isBuy, if isBuy then prices[BisectRight(prices, p)..] else prices[..BisectLeft(prices, p)])
  }

  function PricesBehind(isBuy: bool, prices: seq<int>, p: int): seq<int>
    requires Ascending(prices)
  {
    InPriority(isBuy, if isBuy then prices[..BisectLeft(prices, p)] else prices[BisectRight(prices, p)..])
  }

  lemma {:induction false} BisectFinds(prices: seq<int>, p: int)
    requires Ascending(prices)
    ensures var l, r := BisectLeft(prices, p), BisectRight(prices, p);
      if p in prices then l < |prices| && prices[l] == p && r == l + 1 else r == l
  {
    if prices != [] && prices[0] <= p {
      assert prices == [prices[0]] + prices[1..];
      BisectFinds(prices[1..], p);
      if prices[0] == p && |prices| > 1 {
        assert prices[1..][0] > p;
      }
    }
  }

  lemma ReverseThree(prices: seq<int>, l: nat, r: nat)
    requires l <= r <= |prices|
    ensures Reverse(prices) == Reverse(prices[r..]) + Reverse(prices[l..r]) + Reverse(prices[..l])
  {
  }

  lemma SplitTwice(s: seq<int>, l: nat, r: nat)
    requires l <= r <= |s|
    ensures s == s[..l] + s[l..r] + s[r..]
    ensures r == l ==> s[l..r] == []
    ensures r == l + 1 ==> s[l..r] == [s[l]]
  {
  }

  lemma PriceInMiddle(prices: seq<int>, p: int)
    requires Ascending(prices)
    ensures var l, r := BisectLeft(prices, p), BisectRight(prices, p);
      l <= r && prices == prices[..l] + prices[l..r] + prices[r..] && prices[l..r] == if p in prices then [p] else []
  {
    BisectFinds(prices, p);
    SplitTwice(prices, BisectLeft(prices, p), BisectRight(prices, p));
  }

  lemma FrontAndBackSplit(isBuy: bool, prices: seq<int>, p: int)
    requires Ascending(prices)
    ensures InPriority(isBuy, prices) ==
      PricesAhead(isBuy, prices, p) + (if p in prices then [p] else []) + PricesBehind(isBuy, prices, p)
  {
    PriceInMiddle(prices, p);
    var l, r := BisectLeft(prices, p), BisectRight(prices, p);
    if isBuy {
      ReverseThree(prices, l, r);
      var middle := if p in prices then [p] else [];
      assert Reverse(middle) == middle;
    }
  }

  lemma FrontAndBack(isBuy: bool, prices: seq<int>, p: int)
    requires Ascending(prices)
    ensures var f, b := PricesAhead(isBuy, prices, p), PricesBehind(isBuy, prices, p);
      && InPriority(isBuy, prices) == f + (if p in prices then [p] else []) + b
      && (forall i :: 0 <= i < |f| ==> Better(isBuy, f[i], p))
      && (forall i :: 0 <= i < |b| ==> Better(isBuy, p, b[i]))
  {
    FrontAndBackSplit(isBuy, prices, p);
  }

  // The flat list around one price: what is ahead, the level, what is behind.
  lemma FlatAround<T>(isBuy: bool, prices: seq<int>, levels: map<int, seq<T>>, p: int)
    requires Ascending(prices) && forall x :: x in prices <==> x in levels
    ensures Concat(InPriority(isBuy, prices), levels) ==
      Concat(PricesAhead(isBuy, prices, p), levels) + LevelAt(levels, p) + Concat(PricesBehind(isBuy, prices, p), levels)
  {
    var f, b := PricesAhead(isBuy, prices, p), PricesBehind(isBuy, prices, p);
    FrontAndBack(isBuy, prices, p);
    if p in prices {
      ConcatThree(f, p, b, levels);
    } else {
      ConcatTwo(f, b, levels);
    }
  }

  // ---- changing one level ----------------------------------------------------------

  // bisect.insort of a price that is not there.
  method Insort(prices: seq<int>, p: int) returns (r: seq<int>)
    requires Ascending(prices) && p !in prices
    ensures Ascending(r) && forall x :: x in r <==> x in prices || x == p
  {
    var k := BisectRight(prices, p);
    assert forall i :: 0 <= i < k ==> prices[i] in prices;
    r := prices[..k] + [p] + prices[k..];
  }

  // The list without a price that is there.
  method PopPrice(prices: seq<int>, p: int) returns (r: seq<int>)
    requires Ascending(prices) && p in prices
    ensures Ascending(r) && forall x :: x in r <==> x in prices && x != p
  {
    BisectFinds(prices, p);
    var k := BisectLeft(prices, p);
    r := prices[..k] + prices[k + 1..];
    assert prices == prices[..k] + [p] + prices[k + 1..];
  }

  lemma AroundIsUnaffected(isBuy: bool, prices: seq<int>, changed: seq<int>, p: int)
    requires Ascending(prices) && Ascending(changed)
    requires forall x :: x != p ==> (x in prices <==> x in changed)
    ensures PricesAhead(isBuy, prices, p) == PricesAhead(isBuy, changed, p) && PricesBehind(isBuy, prices, p) == PricesBehind(isBuy, changed, p)
  {
    var a, b := prices[..BisectLeft(prices, p)], changed[..BisectLeft(changed, p)];
    var c, d := prices[BisectRight(prices, p)..], changed[BisectRight(changed, p)..];
    SameMembersSame(a, b) by {
      forall x ensures x in a <==> x in prices && x < p { BelowExact(prices, p, x); }
      forall x ensures x in b <==> x in changed && x < p { BelowExact(changed, p, x); }
    }
    SameMembersSame(c, d) by {
      forall x ensures x in c <==> x in prices && x > p { AboveExact(prices, p, x); }
      forall x ensures x in d <==> x in changed && x > p { AboveExact(changed, p, x); }
    }
  }

  lemma BelowExact(prices: seq<int>, p: int, x: int)
    requires Ascending(prices)
    ensures x in prices[..BisectLeft(prices, p)] <==> x in prices && x < p
  {
    var k := BisectLeft(prices, p);
    assert prices == prices[..k] + prices[k..];
    assert forall i :: 0 <= i < |prices[k..]| ==> prices[k..][i] == prices[k + i];
  }

  lemma AboveExact(prices: seq<int>, p: int, x: int)
    requires Ascending(prices)
    ensures x in prices[BisectRight(prices, p)..] <==> x in prices && x > p
  {
    var k := BisectRight(prices, p);
    assert prices == prices[..k] + prices[k..];
    assert forall i :: 0 <= i < k ==> prices[..k][i] == prices[i];
  }

  lemma TailMembers(a: seq<int>, x: int)
    requires Ascending(a) && a != []
    ensures x in a[1..] <==> x in a && x != a[0]
    ensures x in a ==> a[0] <= x
  {
    assert a == [a[0]] + a[1..];
    assert forall i :: 0 <= i < |a[1..]| ==> a[1..][i] == a[i + 1];
  }

  lemma {:induction false} SameMembersSame(a: seq<int>, b: seq<int>)
    requires Ascending(a) && Ascending(b) && forall x :: x in a <==> x in b
    ensures a == b
    decreases |a|
  {
    if a == [] {
      assert forall i :: 0 <= i < |b| ==> b[i] in b;
    } else {
      assert a[0] in a && a[0] in b;
      assert b[0] in b && b[0] in a;
      TailMembers(a, b[0]);
      TailMembers(b, a[0]);
      forall x ensures x in a[1..] <==> x in b[1..] {
        TailMembers(a, x);
        TailMembers(b, x);
      }
      SameMembersSame(a[1..], b[1..]);
      assert a == [a[0]] + a[1..] && b == [b[0]] + b[1..];
    }
  }

  lemma FrameAround<T>(isBuy: bool, prices: seq<int>, p: int, levels: map<int, seq<T>>, changed: map<int, seq<T>>)
    requires Ascending(prices) && forall x :: x != p ==> LevelAt(levels, x) == LevelAt(changed, x)
    ensures Concat(PricesAhead(isBuy, prices, p), levels) == Concat(PricesAhead(isBuy, prices, p), changed)
    ensures Concat(PricesBehind(isBuy, prices, p), levels) == Concat(PricesBehind(isBuy, prices, p), changed)
  {
    FrontAndBack(isBuy, prices, p);
    ConcatFrame(PricesAhead(isBuy, prices, p), levels, changed);
    ConcatFrame(PricesBehind(isBuy, prices, p), levels, changed);
  }

  // Changing the level at p, adding or dropping the price as the level appears or
  // empties, changes the flat list at that level only.
  lemma FlatUpdate<T>(isBuy: bool, prices: seq<int>, levels: map<int, seq<T>>, p: int,
                      changedPrices: seq<int>, changedLevels: map<int, seq<T>>)
    requires Ascending(prices) && (forall x :: x in prices <==> x in levels)
    requires Ascending(changedPrices) && (forall x :: x in changedPrices <==> x in changedLevels)
    requires forall x :: x != p ==> LevelAt(levels, x) == LevelAt(changedLevels, x) && (x in levels <==> x in changedLevels)
    ensures Concat(InPriority(isBuy, changedPrices), changedLevels) ==
      Concat(PricesAhead(isBuy, prices, p), levels) + LevelAt(changedLevels, p) + Concat(PricesBehind(isBuy, prices, p), levels)
  {
    AroundIsUnaffected(isBuy, prices, changedPrices, p);
    FlatAround(isBuy, changedPrices, changedLevels, p);
    FrameAround(isBuy, prices, p, levels, changedLevels);
  }
}
