// The call auction: one price of maximum volume, and trading at it
// (exchangesim/core/auction.py).
module Auction {
  import opened Options
  import opened Orders
  import opened PriceLevels
  import opened Matching
  import opened BookRules

  // ---- supply, demand and candidate prices -------------------------------------

  // The limit orders of one side willing to trade at p.
  function Willing(isBuy: bool, q: seq<OrderView>, p: int): (r: seq<OrderView>)
    ensures r <= q
  {
    q[..Place(isBuy, q, p)]
  }

  function Volume(isBuy: bool, s: SideView, p: int): int {
    Sum(Leaves, s.market) + Sum(Leaves, Willing(isBuy, s.queue, p))
  }

  // Matchable quantity and signed surplus if the auction were held at `price`.
  datatype Row = Row(price: int, volume: int, imbalance: int)

  function Profile(b: BookView, p: int): Row {
    var demand, supply := Volume(true, b.bids, p), Volume(false, b.asks, p);
    Row(p, Least(demand, supply), demand - supply)
  }

  function InsertPrice(ps: seq<int>, p: int): (r: seq<int>)
    requires Ascending(ps)
    ensures Ascending(r)
    ensures forall x :: x in r <==> x in ps || x == p
  {
    if ps == [] then [p]
    else if p < ps[0] then [p] + ps
    else if p == ps[0] then ps
    else
      var t := InsertPrice(ps[1..], p);
      assert forall i :: 0 <= i < |t| ==> t[i] in t && ps[0] < t[i];
      [ps[0]] + t
  }

  function PricesOf(q: seq<OrderView>, ps: seq<int>): (r: seq<int>)
    requires Ascending(ps)
    ensures Ascending(r)
    ensures forall x :: x in r <==> x in ps || exists i :: 0 <= i < |q| && Px(q[i]) == x
  {
    if q == [] then ps else InsertPrice(PricesOf(q[1..], ps), Px(q[0]))
  }

  // Every price an order names, ascending.
  function Candidates(b: BookView): (r: seq<int>)
    ensures Ascending(r)
  {
    PricesOf(b.asks.queue, PricesOf(b.bids.queue, []))
  }

  function Rows(b: BookView, ps: seq<int>): (r: seq<Row>)
    ensures |r| == |ps| && forall i :: 0 <= i < |ps| ==> r[i] == Profile(b, ps[i])
  {
    seq(|ps|, i requires 0 <= i < |ps| => Profile(b, ps[i]))
  }

  // ---- tie-breaks ------------------------------------------------------------

  datatype Rule = MaxVolume | LowestImbalance | SurplusDirection | ClosestToReference | HigherPrice

  const STANDARD_RULES: seq<Rule> :=
    [MaxVolume, LowestImbalance, SurplusDirection, ClosestToReference, HigherPrice]

  function Keep(f: Row -> bool, rows: seq<Row>): (r: seq<Row>)
    ensures forall x :: x in r <==> x in rows && f(x)
    ensures |r| <= |rows|
  {
    if rows == [] then [] else (if f(rows[0]) then [rows[0]] else []) + Keep(f, rows[1..])
  }

  // The first row at which f is greatest.
  function Greatest(f: Row -> int, rows: seq<Row>): (r: Row)
    requires rows != []
    ensures r in rows && forall x :: x in rows ==> f(x) <= f(r)
  {
    if |rows| == 1 then rows[0]
    else
      var t := Greatest(f, rows[1..]);
      if f(rows[0]) >= f(t) then rows[0] else t
  }

  function Abs(x: int): int {
    if x < 0 then -x else x
  }

  predicate AllBuySurplus(c: seq<Row>) { forall x :: x in c ==> x.imbalance > 0 }

  predicate AllSellSurplus(c: seq<Row>) { forall x :: x in c ==> x.imbalance < 0 }

  function Apply(rule: Rule, rows: seq<Row>, reference: Option<int>): (r: seq<Row>)
    requires rows != []
    ensures r != [] && (forall x :: x in r ==> x in rows) && |r| <= |rows|
  {
    match rule
    case MaxVolume =>
      var best := Greatest((x: Row) => x.volume, rows);
      var r := Keep((x: Row) => x.volume == best.volume, rows);
      assert best in r;
      r
    case LowestImbalance =>
      var least := Greatest((x: Row) => -Abs(x.imbalance), rows);
      var r := Keep((x: Row) => Abs(x.imbalance) == Abs(least.imbalance), rows);
      assert least in r;
      r
    case SurplusDirection =>
      if AllBuySurplus(rows) then [Greatest((x: Row) => x.price, rows)]
      else if AllSellSurplus(rows) then [Greatest((x: Row) => -x.price, rows)]
      else rows
    case ClosestToReference =>
      if reference.None? then rows
      else
        var nearest := Greatest((x: Row) => -Abs(x.price - reference.value), rows);
        var r := Keep((x: Row) => Abs(x.price - reference.value) == Abs(nearest.price - reference.value), rows);
        assert nearest in r;
        r
    case HigherPrice => [Greatest((x: Row) => x.price, rows)]
  }

  function Narrow(rules: seq<Rule>, rows: seq<Row>, reference: Option<int>): (r: seq<Row>)
    requires rows != []
    ensures r != [] && forall x :: x in r ==> x in rows
  {
    if rules == [] || |rows| <= 1 then rows
    else Narrow(rules[1..], Apply(rules[0], rows, reference), reference)
  }

  predicate LimitsOverlap(b: BookView) {
    b.bids.queue != [] && b.asks.queue != [] && Px(b.bids.queue[0]) >= Px(b.asks.queue[0])
  }

  // The candidates at which something would trade.
  function Tradable(b: BookView): (r: seq<Row>)
    ensures forall x :: x in r ==> x.price in Candidates(b) && x == Profile(b, x.price) && x.volume > 0
  {
    Keep((x: Row) => x.volume > 0, Rows(b, Candidates(b)))
  }

  // The auction's row, or nothing when no price can be established.
  function Uncross(b: BookView, reference: Option<int>, rules: seq<Rule>): (r: Option<Row>)
    ensures r.Some? ==> r.value.price in Candidates(b) && r.value == Profile(b, r.value.price) && r.value.volume > 0
  {
    if !LimitsOverlap(b) then None
    else
      var tradable := Tradable(b);
      if tradable == [] then None
      else
        var survivors := Narrow(rules, tradable, reference);
        assert survivors[0] in survivors;
        Some(survivors[0])
  }

  // ---- the price maximises volume everywhere ----------------------------------

  lemma {:induction false} SumOpen(q: seq<OrderView>)
    ensures Sum(Leaves, q) >= 0
    ensures AllOpen(q) && q != [] ==> Sum(Leaves, q) >= Leaves(q[0]) > 0
  {
    if q != [] {
      SumOpen(q[1..]);
    }
  }

  lemma SumPrefix(q: seq<OrderView>, i: nat, j: nat)
    requires i <= j <= |q|
    ensures Sum(Leaves, q[..i]) <= Sum(Leaves, q[..j])
    ensures AllOpen(q) && i < j ==> Sum(Leaves, q[..i]) + Leaves(q[i]) <= Sum(Leaves, q[..j])
  {
    assert q[..j] == q[..i] + q[i..j];
    SumConcat(Leaves, q[..i], q[i..j]);
    SumOpen(q[i..j]);
  }

  lemma {:induction false} PlaceExact(isBuy: bool, q: seq<OrderView>, p: int, i: nat)
    requires Sorted(isBuy, q) && i < |q|
    ensures i < Place(isBuy, q, p) <==> !Better(isBuy, p, Px(q[i]))
  {
    var k := Place(isBuy, q, p);
    if k < i {
      assert !Better(isBuy, Px(q[i]), Px(q[k]));
    }
  }

  // Volume does not shrink as a side is offered a better price.
  lemma VolumeMonotone(isBuy: bool, s: SideView, p: int, better: int)
    requires Sorted(isBuy, s.queue) && !Better(isBuy, better, p)
    ensures Place(isBuy, s.queue, p) <= Place(isBuy, s.queue, better)
    ensures Volume(isBuy, s, p) <= Volume(isBuy, s, better)
  {
    var k := Place(isBuy, s.queue, p);
    if k > 0 { PlaceExact(isBuy, s.queue, better, k - 1); }
    SumPrefix(s.queue, k, Place(isBuy, s.queue, better));
  }

  ghost predicate AuctionBook(b: BookView) {
    && Sorted(true, b.bids.queue) && Sorted(false, b.asks.queue) && OpenBook(b)
    && AllOpen(b.bids.market) && AllOpen(b.asks.market)
  }

  lemma CandidatesExact(b: BookView, p: int)
    ensures p in Candidates(b) <==>
      (exists i :: 0 <= i < |b.bids.queue| && Px(b.bids.queue[i]) == p) ||
      (exists i :: 0 <= i < |b.asks.queue| && Px(b.asks.queue[i]) == p)
  {
  }

  // Any price is matched by a quoted one that trades at least as much: the least
  // aggressive quote still willing at x.
  lemma QuotedAsGood(b: BookView, x: int) returns (c: int)
    requires AuctionBook(b) && LimitsOverlap(b)
    ensures c in Candidates(b) && Profile(b, x).volume <= Profile(b, c).volume
  {
    var k, l := Place(true, b.bids.queue, x), Place(false, b.asks.queue, x);
    if k > 0 {
      c := Px(b.bids.queue[k - 1]);
      PlaceExact(true, b.bids.queue, c, k - 1);
      SumPrefix(b.bids.queue, k, Place(true, b.bids.queue, c));
      VolumeMonotone(false, b.asks, x, c);
    } else {
      c := Px(b.asks.queue[l - 1]);
      PlaceExact(false, b.asks.queue, c, l - 1);
      SumPrefix(b.asks.queue, l, Place(false, b.asks.queue, c));
      VolumeMonotone(true, b.bids, x, c);
    }
    CandidatesExact(b, c);
  }

  lemma OverlapTrades(b: BookView)
    requires AuctionBook(b) && LimitsOverlap(b)
    ensures Profile(b, Px(b.bids.queue[0])).volume > 0 && Px(b.bids.queue[0]) in Candidates(b)
  {
    var c := Px(b.bids.queue[0]);
    PlaceExact(true, b.bids.queue, c, 0);
    PlaceExact(false, b.asks.queue, c, 0);
    SumPrefix(b.bids.queue, 0, Place(true, b.bids.queue, c));
    SumPrefix(b.asks.queue, 0, Place(false, b.asks.queue, c));
    SumOpen(b.bids.market);
    SumOpen(b.asks.market);
    CandidatesExact(b, c);
  }

  lemma NarrowStartsWithVolume(rules: seq<Rule>, rows: seq<Row>, reference: Option<int>, x: Row)
    requires rows != [] && x in rows && rules != [] && rules[0] == MaxVolume
    ensures x.volume <= Narrow(rules, rows, reference)[0].volume
  {
    var r := Narrow(rules, rows, reference);
    assert r[0] in r;
    if |rows| > 1 {
      var a := Apply(MaxVolume, rows, reference);
      assert r[0] in a;
    }
  }

  // An overlapping book always finds a price, and no integer price, quoted or
  // not, would trade more.
  lemma UncrossIsGloballyMaximal(b: BookView, reference: Option<int>, rules: seq<Rule>, x: int)
    requires AuctionBook(b) && LimitsOverlap(b) && rules != [] && rules[0] == MaxVolume
    ensures var r := Uncross(b, reference, rules);
      r.Some? && Profile(b, x).volume <= r.value.volume
  {
    OverlapTrades(b);
    TradableHas(b, Px(b.bids.queue[0]));
    var c := QuotedAsGood(b, x);
    TradableHas(b, c);
    if Profile(b, c).volume > 0 {
      NarrowStartsWithVolume(rules, Tradable(b), reference, Profile(b, c));
    }
  }

  lemma TradableHas(b: BookView, c: int)
    requires c in Candidates(b)
    ensures Profile(b, c).volume > 0 <==> Profile(b, c) in Tradable(b)
  {
    var i :| 0 <= i < |Candidates(b)| && Candidates(b)[i] == c;
    assert Rows(b, Candidates(b))[i] == Profile(b, c);
  }

  // ---- the standard chain ----------------------------------------------------

  function Distance(r: Row, reference: Option<int>): int {
    if reference.None? then 0 else Abs(r.price - reference.value)
  }

  // r and x tie on volume and on the size of the surplus.
  predicate Level(r: Row, x: Row) {
    x.volume == r.volume && Abs(x.imbalance) == Abs(r.imbalance)
  }

  // The published rules, read as one condition on the winner.
  ghost predicate Wins(rows: seq<Row>, r: Row, reference: Option<int>) {
    && r in rows
    && (forall x :: x in rows ==> x.volume <= r.volume)
    && (forall x :: x in rows && x.volume == r.volume ==> Abs(r.imbalance) <= Abs(x.imbalance))
    && if forall x :: x in rows && Level(r, x) ==> x.imbalance > 0 then
         forall x :: x in rows && Level(r, x) ==> x.price <= r.price
       else if forall x :: x in rows && Level(r, x) ==> x.imbalance < 0 then
         forall x :: x in rows && Level(r, x) ==> x.price >= r.price
       else
         forall x :: x in rows && Level(r, x) ==>
           Distance(r, reference) < Distance(x, reference) ||
           (Distance(r, reference) == Distance(x, reference) && x.price <= r.price)
  }

  lemma ApplyToOne(rule: Rule, rows: seq<Row>, reference: Option<int>)
    requires |rows| == 1
    ensures Apply(rule, rows, reference) == rows
  {
    var r := Apply(rule, rows, reference);
    assert r[0] in r;
  }

  lemma NarrowStep(rules: seq<Rule>, rows: seq<Row>, reference: Option<int>)
    requires rules != [] && rows != []
    ensures Narrow(rules, rows, reference) == Narrow(rules[1..], Apply(rules[0], rows, reference), reference)
  {
    if |rows| == 1 {
      ApplyToOne(rules[0], rows, reference);
    }
  }

  lemma FirstTwoRules(rows: seq<Row>, reference: Option<int>) returns (c: seq<Row>, best: Row)
    requires rows != []
    ensures c == Apply(LowestImbalance, Apply(MaxVolume, rows, reference), reference)
    ensures best in c
    ensures forall x :: x in rows ==> x.volume <= best.volume
    ensures forall x :: x in rows && x.volume == best.volume ==> Abs(best.imbalance) <= Abs(x.imbalance)
    ensures forall x :: x in c <==> x in rows && Level(best, x)
  {
    c := Apply(LowestImbalance, Apply(MaxVolume, rows, reference), reference);
    best := c[0];
  }

  lemma ApplyNearest(d: seq<Row>, reference: Option<int>)
    requires d != []
    ensures var e := Apply(ClosestToReference, d, reference);
      forall x :: x in e <==> x in d && forall y :: y in d ==> Distance(x, reference) <= Distance(y, reference)
  {
  }

  lemma ApplyHigher(e: seq<Row>, reference: Option<int>) returns (r: Row)
    requires e != []
    ensures [r] == Apply(HigherPrice, e, reference) && r in e && forall x :: x in e ==> x.price <= r.price
  {
    r := Apply(HigherPrice, e, reference)[0];
  }

  lemma NearestThenHigher(d: seq<Row>, reference: Option<int>) returns (r: Row)
    requires d != []
    ensures [r] == Apply(HigherPrice, Apply(ClosestToReference, d, reference), reference)
    ensures r in d
    ensures forall x :: x in d ==>
      Distance(r, reference) < Distance(x, reference) ||
      (Distance(r, reference) == Distance(x, reference) && x.price <= r.price)
  {
    var e := Apply(ClosestToReference, d, reference);
    ApplyNearest(d, reference);
    r := ApplyHigher(e, reference);
    forall x | x in d && Distance(r, reference) >= Distance(x, reference)
      ensures Distance(r, reference) == Distance(x, reference) && x.price <= r.price
    {
      assert x in e;
    }
  }

  lemma LastThreeRules(c: seq<Row>, reference: Option<int>) returns (r: Row)
    requires c != []
    ensures [r] == Apply(HigherPrice, Apply(ClosestToReference, Apply(SurplusDirection, c, reference), reference), reference)
    ensures r in c
    ensures AllBuySurplus(c) ==> forall x :: x in c ==> x.price <= r.price
    ensures !AllBuySurplus(c) && AllSellSurplus(c) ==> forall x :: x in c ==> x.price >= r.price
    ensures !AllBuySurplus(c) && !AllSellSurplus(c) ==> forall x :: x in c ==>
      Distance(r, reference) < Distance(x, reference) ||
      (Distance(r, reference) == Distance(x, reference) && x.price <= r.price)
  {
    var d := Apply(SurplusDirection, c, reference);
    r := NearestThenHigher(d, reference);
    if AllBuySurplus(c) || AllSellSurplus(c) {
      assert d == [d[0]] && r == d[0];
    }
  }

  lemma StandardChainWins(rows: seq<Row>, reference: Option<int>)
    requires rows != []
    ensures Wins(rows, Narrow(STANDARD_RULES, rows, reference)[0], reference)
  {
    var c, best := FirstTwoRules(rows, reference);
    var r := LastThreeRules(c, reference);
    assert Level(best, r);
    assert forall x :: Level(best, x) <==> Level(r, x);
    var d := Apply(SurplusDirection, c, reference);
    var e := Apply(ClosestToReference, d, reference);
    NarrowStep(STANDARD_RULES, rows, reference);
    NarrowStep(STANDARD_RULES[1..], Apply(MaxVolume, rows, reference), reference);
    NarrowStep(STANDARD_RULES[1..][1..], c, reference);
    NarrowStep(STANDARD_RULES[1..][1..][1..], d, reference);
    NarrowStep(STANDARD_RULES[1..][1..][1..][1..], e, reference);
    assert Narrow(STANDARD_RULES, rows, reference) == [r];
  }

  lemma WinnerIsUnique(rows: seq<Row>, r: Row, s: Row, reference: Option<int>)
    requires Wins(rows, r, reference) && Wins(rows, s, reference)
    requires forall x, y :: x in rows && y in rows && x.price == y.price ==> x == y
    ensures r == s
  {
    assert Level(r, s) && Level(s, r);
    assert forall x :: Level(r, x) <==> Level(s, x);
  }

  // Under the standard chain a quoted price is chosen exactly when it wins.
  lemma StandardPriceIsTheWinner(b: BookView, reference: Option<int>, r: Row)
    requires AuctionBook(b) && LimitsOverlap(b)
    ensures Uncross(b, reference, STANDARD_RULES) == Some(r) <==> Wins(Tradable(b), r, reference)
  {
    OverlapTrades(b);
    TradableHas(b, Px(b.bids.queue[0]));
    var rows := Tradable(b);
    var winner := Narrow(STANDARD_RULES, rows, reference)[0];
    assert Uncross(b, reference, STANDARD_RULES) == Some(winner);
    StandardChainWins(rows, reference);
    if Wins(rows, r, reference) {
      WinnerIsUnique(rows, r, winner, reference);
    }
  }
}
