// The call auction on the indexed book: finding the price and trading at it
// (exchangesim/core/auction.py, exchangesim/core/market.py uncross).
module CallAuction {
  import opened Options
  import opened Orders
  import opened PriceLevels
  import opened Matching
  import opened BookRules
  import opened Auction
  import opened AuctionTrading
  import opened Book

  // ---- finding the price ---------------------------------------------------------

  ghost predicate Quoted(v: seq<OrderView>, x: int) {
    exists i :: 0 <= i < |v| && Px(v[i]) == x
  }

  lemma QuotedConcat(a: seq<Order>, b: seq<Order>, x: int)
    ensures Quoted(Views(a + b), x) <==> Quoted(Views(a), x) || Quoted(Views(b), x)
  {
    assert Views(a + b) == Views(a) + Views(b);
    if Quoted(Views(b), x) {
      var i :| 0 <= i < |b| && Px(Views(b)[i]) == x;
      assert Px(Views(a + b)[|a| + i]) == x;
    }
    if Quoted(Views(a), x) {
      var i :| 0 <= i < |a| && Px(Views(a)[i]) == x;
      assert Px(Views(a + b)[i]) == x;
    }
  }

  // The levels' prices are the prices their orders name.
  lemma {:induction false} LevelsQuote(ps: seq<int>, levels: map<int, seq<Order>>, x: int)
    requires forall i :: 0 <= i < |ps| ==> ps[i] in levels && levels[ps[i]] != []
    requires forall i :: 0 <= i < |ps| ==> forall j :: 0 <= j < |levels[ps[i]]| ==> levels[ps[i]][j].price == Some(ps[i])
    ensures Quoted(Views(Concat(ps, levels)), x) <==> x in ps
  {
    if ps != [] {
      var l := levels[ps[0]];
      LevelsQuote(ps[1..], levels, x);
      QuotedConcat(l, Concat(ps[1..], levels), x);
      assert Px(Views(l)[0]) == ps[0];
      assert ps == [ps[0]] + ps[1..];
    }
  }

  lemma SideQuotes(side: BookSide, x: int)
    requires side.Valid()
    ensures x in side.prices <==> Quoted(Views(side.queue), x)
  {
    LevelsQuote(InPriority(side.isBuy, side.prices), side.levels, x);
    InPriorityMembers(side.isBuy, side.prices, x);
  }

  lemma InPriorityMembers(isBuy: bool, prices: seq<int>, x: int)
    ensures x in InPriority(isBuy, prices) <==> x in prices
  {
    var r := InPriority(isBuy, prices);
    if x in prices {
      var i :| 0 <= i < |prices| && prices[i] == x;
      assert r[if isBuy then |prices| - 1 - i else i] == x;
    }
  }

  method CollectPrices(prices: seq<int>, found: seq<int>) returns (r: seq<int>)
    requires Ascending(found)
    ensures Ascending(r) && forall x :: x in r <==> x in found || x in prices
  {
    r := found;
    for i := 0 to |prices|
      invariant Ascending(r) && forall x :: x in r <==> x in found || x in prices[..i]
    {
      r := InsertPrice(r, prices[i]);
      assert prices[..i + 1] == prices[..i] + [prices[i]];
    }
    assert prices[..|prices|] == prices;
  }

  // Every limit price that could be the auction price, ascending.
  method CandidatePrices(book: OrderBook, ghost b: BookView) returns (ps: seq<int>)
    requires book.Valid() && b == book.View()
    ensures ps == Candidates(b)
  {
    forall x ensures x in Candidates(b) <==> x in book.bids.prices || x in book.asks.prices {
      SideQuotes(book.bids, x);
      SideQuotes(book.asks, x);
    }
    ps := CollectPrices(book.bids.prices, []);
    ps := CollectPrices(book.asks.prices, ps);
    SameMembersSame(ps, Candidates(b));
  }

  function AtMarketQuantity(side: BookSide): int
    reads side, side.atMarket
  {
    SumLeaves(side.atMarket)
  }

  // Matchable quantity and imbalance at a price, counted over the levels.
  function DemandAt(book: OrderBook, price: int, buyMarket: int, sellMarket: int): Row
    requires Ascending(book.bids.prices) && Ascending(book.asks.prices)
    reads book.bids, HeldIn(book.bids.levels), book.asks, HeldIn(book.asks.levels)
  {
    var demand := buyMarket + book.bids.QuantityAbove(price - 1);
    var supply := sellMarket + book.asks.QuantityBelow(price + 1);
    Row(price, if demand <= supply then demand else supply, demand - supply)
  }

  // What the levels say is what the flat list says.
  lemma DemandIsProfile(book: OrderBook, price: int)
    requires book.Valid()
    ensures DemandAt(book, price, AtMarketQuantity(book.bids), AtMarketQuantity(book.asks)) == Profile(book.View(), price)
  {
    book.bids.WillingQuantity(price);
    book.asks.WillingQuantity(price);
    SumLeavesIsSum(book.bids.atMarket);
    SumLeavesIsSum(book.asks.atMarket);
  }

  function Profiles(book: OrderBook, candidates: seq<int>): (rows: seq<Row>)
    requires Ascending(book.bids.prices) && Ascending(book.asks.prices)
    reads book.bids, HeldIn(book.bids.levels), book.bids.atMarket
    reads book.asks, HeldIn(book.asks.levels), book.asks.atMarket
  {
    if candidates == [] then []
    else
      [DemandAt(book, candidates[0], AtMarketQuantity(book.bids), AtMarketQuantity(book.asks))] +
      Profiles(book, candidates[1..])
  }

  lemma {:induction false} ProfilesAreRows(book: OrderBook, candidates: seq<int>)
    requires book.Valid()
    ensures Profiles(book, candidates) == Rows(book.View(), candidates)
  {
    if candidates != [] {
      ProfilesAreRows(book, candidates[1..]);
      DemandIsProfile(book, candidates[0]);
    }
  }

  // The tie-breaks, one after another, while more than one price survives.
  method Survivors(rules: seq<Rule>, tradable: seq<Row>, reference: Option<int>) returns (survivors: seq<Row>)
    requires tradable != []
    ensures survivors == Narrow(rules, tradable, reference)
  {
    survivors := tradable;
    for i := 0 to |rules|
      invariant survivors != []
      invariant Narrow(rules, tradable, reference) == Narrow(rules[i..], survivors, reference)
    {
      if |survivors| <= 1 {
        break;
      }
      assert rules[i..][1..] == rules[i + 1..];
      survivors := Apply(rules[i], survivors, reference);
    }
  }

  predicate LimitsMeet(book: OrderBook)
    reads book.bids, book.asks
  {
    var bestBid, bestAsk := book.bids.BestPrice(), book.asks.BestPrice();
    bestBid.Some? && bestAsk.Some? && bestBid.value >= bestAsk.value
  }

  lemma MeetingIsOverlap(book: OrderBook)
    requires book.Valid()
    ensures LimitsMeet(book) == LimitsOverlap(book.View())
  {
    book.bids.PriorityIsQueue();
    book.asks.PriorityIsQueue();
  }

  method Choose(rows: seq<Row>, reference: Option<int>, rules: seq<Rule>, ghost b: BookView) returns (row: Option<Row>)
    requires LimitsOverlap(b) && rows == Rows(b, Candidates(b))
    ensures row == Uncross(b, reference, rules)
  {
    var tradable := Keep((x: Row) => x.volume > 0, rows);
    assert tradable == Tradable(b);
    if tradable == [] {
      return None;
    }
    var survivors := Survivors(rules, tradable, reference);
    row := Some(survivors[0]);
  }

  // The price of the auction; executes nothing.
  method UncrossPrice(book: OrderBook, reference: Option<int>, rules: seq<Rule>, ghost b: BookView) returns (row: Option<Row>)
    requires book.Valid() && b == book.View()
    ensures row == Uncross(b, reference, rules)
  {
    MeetingIsOverlap(book);
    if !LimitsMeet(book) {
      return None;
    }
    var candidates := CandidatePrices(book, b);
    ProfilesAreRows(book, candidates);
    row := Choose(Profiles(book, candidates), reference, rules, b);
  }
}
