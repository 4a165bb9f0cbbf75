// The whole auction of one book: its price, trading at it, and cancelling the
// priceless orders left over (Market.uncross, exchangesim/core/market.py).
module MarketAuction {
  import opened Options
  import opened Sequences
  import opened Orders
  import opened PriceLevels
  import opened Matching
  import opened BookRules
  import opened Auction
  import opened AuctionTrading
  import opened Book
  import opened AuctionExecution
  import CallAuction
  import Engine = MatchingEngine

  // The book b once the first i priceless orders of a side are gone.
  function LessMarket(b: BookView, isBuy: bool, i: nat): BookView
    requires i <= |SideOf(b, isBuy).market|
  {
    WithSide(b, isBuy, SideOf(b, isBuy).(market := SideOf(b, isBuy).market[i..]))
  }

  // The values of orders of which the first i have been cancelled.
  ghost predicate CancelledTo(orders: seq<Order>, v: seq<OrderView>, i: nat)
    reads orders
  {
    && i <= |orders| == |v|
    && (forall k :: 0 <= k < i ==> orders[k].View() == WithCancel(v[k]))
    && (forall k :: i <= k < |v| ==> orders[k].View() == v[k])
  }

  ghost predicate Expiring(book: OrderBook, isBuy: bool, b: BookView, orders: seq<Order>, was: seq<Order>, i: nat)
    reads book.bids, book.bids.atMarket, book.bids.queue, book.asks, book.asks.atMarket, book.asks.queue, orders
  {
    && book.Valid() && CancelledTo(orders, SideOf(b, isBuy).market, i)
    && book.View() == LessMarket(b, isBuy, i)
    && Kept(was, orders[..i], book.Members())
    && (forall k :: i <= k < |orders| ==> orders[k] in book.Members())
    && DistinctIds(orders) && forall k :: 0 <= k < |orders| ==> OnSide(isBuy, orders[k]) && orders[k].price.None?
  }

  lemma RemovesHead(b: BookView, isBuy: bool, i: nat, t: Terms)
    requires i < |SideOf(b, isBuy).market| && t.price.None? && IsBuy(t) == isBuy
    requires SideOf(b, isBuy).market[i].terms.id == t.id
    ensures BookRules.Remove(LessMarket(b, isBuy, i), t) == LessMarket(b, isBuy, i + 1)
  {
    var m := SideOf(b, isBuy).market;
    assert m[i..][0] == m[i] && m[i..][1..] == m[i + 1..];
  }

  lemma KeptThen(was: seq<Order>, orders: seq<Order>, i: nat, mid: seq<Order>, now: seq<Order>)
    requires i < |orders| && Kept(was, orders[..i], mid) && Parted(mid, orders[i], now)
    ensures Kept(was, orders[..i + 1], now)
  {
    forall o ensures o in orders[..i + 1] <==> o in orders[..i] || o == orders[i] {
      CutAt(orders, i);
      InConcat(o, orders[..i], [orders[i]]);
    }
  }

  lemma DistinctAt(orders: seq<Order>, i: nat)
    requires DistinctIds(orders) && i < |orders|
    ensures forall k :: 0 <= k < |orders| && k != i ==> orders[k] != orders[i]
  {
  }

  // Cancelling one of a list of orders leaves the others as they were.
  method CancelOne(book: OrderBook, engine: Engine.MatchingEngine, order: Order, ghost orders: seq<Order>,
                   ghost v: seq<OrderView>, ghost i: nat)
      returns (events: seq<Event>)
    requires book.Valid() && order in book.Members()
    requires DistinctIds(orders) && i < |orders| && order == orders[i] && CancelledTo(orders, v, i)
    modifies order`status, book.SideFor(order.side == Buy)
    ensures book.Valid() && book.Shows(BookRules.Remove(old(book.View()), old(order.View()).terms))
    ensures Parted(old(book.Members()), order, book.Members())
    ensures CancelledTo(orders, v, i + 1) && events == [OrderCancelled(order.id, MarketRemainder)]
  {
    Unique(book, order);
    DistinctAt(orders, i);
    events := engine.Cancel(book, order, MarketRemainder);
  }

  lemma StillThere(orders: seq<Order>, i: nat, mid: seq<Order>, now: seq<Order>)
    requires DistinctIds(orders) && i < |orders| && Parted(mid, orders[i], now)
    requires forall k :: i <= k < |orders| ==> orders[k] in mid
    ensures forall k :: i + 1 <= k < |orders| ==> orders[k] in now
  {
  }

  method ExpireOne(book: OrderBook, isBuy: bool, engine: Engine.MatchingEngine, order: Order,
                   ghost b: BookView, ghost orders: seq<Order>, ghost was: seq<Order>, ghost i: nat)
      returns (events: seq<Event>)
    requires Expiring(book, isBuy, b, orders, was, i) && i < |orders| && order == orders[i]
    modifies order`status, book.SideFor(isBuy)
    ensures Expiring(book, isBuy, b, orders, was, i + 1)
    ensures events == [OrderCancelled(SideOf(b, isBuy).market[i].terms.id, MarketRemainder)]
  {
    ghost var members, v := book.Members(), SideOf(b, isBuy).market;
    RemovesHead(b, isBuy, i, order.View().terms);
    events := CancelOne(book, engine, order, orders, v, i);
    Engine.Shown(book, LessMarket(b, isBuy, i + 1));
    KeptThen(was, orders, i, members, book.Members());
    StillThere(orders, i, members, book.Members());
  }

  lemma Unique(book: OrderBook, order: Order)
    requires book.Valid() && order in book.Members()
    ensures Alone(book.Members(), order)
  {
  }

  lemma StartsExpiring(book: OrderBook, isBuy: bool)
    requires book.Valid()
    ensures var orders := book.SideFor(isBuy).atMarket;
      Expiring(book, isBuy, book.View(), orders, book.Members(), 0)
  {
    var side := book.SideFor(isBuy);
    side.QueueSorted();
    DistinctSplit(side.atMarket, side.queue);
    assert side.atMarket[..0] == [] && SideOf(book.View(), isBuy).market[0..] == SideOf(book.View(), isBuy).market;
    forall k | 0 <= k < |side.atMarket| ensures side.atMarket[k] in book.Members() {
      assert side.atMarket[k] in side.Members();
    }
  }

  lemma EndsExpiring(book: OrderBook, isBuy: bool, b: BookView, orders: seq<Order>, was: seq<Order>)
    requires Expiring(book, isBuy, b, orders, was, |orders|)
    ensures book.View() == WithSide(b, isBuy, SideOf(b, isBuy).(market := []))
    ensures Kept(was, orders, book.Members()) && Views(orders) == CancelAll(SideOf(b, isBuy).market)
  {
    assert orders[..|orders|] == orders;
  }

  // Cancels every priceless order of a side, in arrival order.
  method ExpireSide(book: OrderBook, isBuy: bool, engine: Engine.MatchingEngine, ghost b: BookView)
      returns (events: seq<Event>, ghost orders: seq<Order>)
    requires book.Valid() && b == book.View()
    modifies book.SideFor(isBuy).atMarket`status, book.SideFor(isBuy)
    ensures book.Valid() && book.View() == WithSide(b, isBuy, SideOf(b, isBuy).(market := []))
    ensures Views(orders) == CancelAll(SideOf(b, isBuy).market) && Kept(old(book.Members()), orders, book.Members())
    ensures events == ExpiryReports(SideOf(b, isBuy).market)
    ensures orders == old(book.SideFor(isBuy).atMarket)
  {
    var expired := book.SideFor(isBuy).atMarket;
    orders := expired;
    ghost var was, v := book.Members(), SideOf(b, isBuy).market;
    StartsExpiring(book, isBuy);
    events := [];
    for i := 0 to |expired|
      invariant Expiring(book, isBuy, b, orders, was, i)
      invariant i <= |v| && events == ExpiryReports(v[..i])
    {
      ReportsOneMore(v, i);
      var made := ExpireOne(book, isBuy, engine, expired[i], b, orders, was, i);
      events := events + made;
    }
    EndsExpiring(book, isBuy, b, orders, was);
    assert v[..|v|] == v;
  }

  lemma ReportsOneMore(v: seq<OrderView>, i: nat)
    requires i < |v|
    ensures ExpiryReports(v[..i + 1]) == ExpiryReports(v[..i]) + [OrderCancelled(v[i].terms.id, MarketRemainder)]
  {
  }

  lemma KeptTwice(was: seq<Order>, first: seq<Order>, mid: seq<Order>, second: seq<Order>, now: seq<Order>)
    requires Kept(was, first, mid) && Kept(mid, second, now)
    ensures Kept(was, first + second, now)
  {
  }

  lemma GoneIsOff(was: seq<Order>, gone: seq<Order>, now: seq<Order>)
    requires Kept(was, gone, now)
    ensures forall k :: 0 <= k < |gone| ==> gone[k] !in now
  {
  }

  ghost predicate OffBook(book: OrderBook, s: seq<Order>)
    reads book.bids, book.asks
  {
    forall k :: 0 <= k < |s| ==> s[k] !in book.Members()
  }

  // Expiry touches no order that is off the book.
  method ExpireSideApart(book: OrderBook, isBuy: bool, engine: Engine.MatchingEngine, ghost b: BookView,
                         ghost gone: seq<Order>, ghost v: seq<OrderView>)
      returns (events: seq<Event>, ghost orders: seq<Order>)
    requires book.Valid() && b == book.View() && OffBook(book, gone) && Views(gone) == v
    modifies book.SideFor(isBuy).atMarket`status, book.SideFor(isBuy)
    ensures book.Valid() && book.View() == WithSide(b, isBuy, SideOf(b, isBuy).(market := []))
    ensures Kept(old(book.Members()), orders, book.Members())
    ensures Views(gone + orders) == v + CancelAll(SideOf(b, isBuy).market) && OffBook(book, gone + orders)
    ensures events == ExpiryReports(SideOf(b, isBuy).market)
  {
    ghost var members := book.Members();
    forall k | 0 <= k < |gone| ensures gone[k] !in book.SideFor(isBuy).atMarket {
      assert gone[k] !in book.SideFor(isBuy).Members();
    }
    events, orders := ExpireSide(book, isBuy, engine, b);
    Together(gone, v, orders);
    OffStays(book, gone, orders, members);
  }

  lemma Together(gone: seq<Order>, v: seq<OrderView>, orders: seq<Order>)
    requires |gone| == |v| && forall k :: 0 <= k < |gone| ==> gone[k].View() == v[k]
    ensures Views(gone + orders) == v + Views(orders)
  {
  }

  lemma OffStays(book: OrderBook, gone: seq<Order>, orders: seq<Order>, was: seq<Order>)
    requires Kept(was, orders, book.Members()) && forall k :: 0 <= k < |gone| ==> gone[k] !in was
    ensures OffBook(book, gone + orders)
  {
  }

  // Cancels the priceless orders of both sides, bids first.
  method ExpireBoth(book: OrderBook, engine: Engine.MatchingEngine, ghost b: BookView, ghost filled: seq<Order>,
                    ghost v: seq<OrderView>, ghost orders: set<Order>)
      returns (events: seq<Event>, ghost gone: seq<Order>)
    requires book.Valid() && b == book.View() && OffBook(book, filled) && Views(filled) == v
    requires (forall o :: o in book.bids.atMarket ==> o in orders) && (forall o :: o in book.asks.atMarket ==> o in orders)
    modifies orders`status, book.bids, book.asks
    ensures book.Valid() && book.View() == Expire(b)
    ensures Views(filled + gone) == v + (CancelAll(b.bids.market) + CancelAll(b.asks.market))
    ensures Kept(old(book.Members()), gone, book.Members())
    ensures events == ExpiryReports(b.bids.market) + ExpiryReports(b.asks.market)
  {
    ghost var was, mid, bids, asks := book.Members(), [], [], [];
    var bidEvents, askEvents;
    bidEvents, bids := ExpireSideApart(book, true, engine, b, filled, v);
    mid := book.Members();
    ghost var b', v' := book.View(), v + CancelAll(b.bids.market);
    askEvents, asks := ExpireSideApart(book, false, engine, b', filled + bids, v');
    KeptTwice(was, bids, mid, asks, book.Members());
    events, gone := bidEvents + askEvents, bids + asks;
    Regrouped(filled, bids, asks, v, CancelAll(b.bids.market), CancelAll(b.asks.market));
  }

  lemma Regrouped(a: seq<Order>, b: seq<Order>, c: seq<Order>, u: seq<OrderView>, v: seq<OrderView>, w: seq<OrderView>)
    requires Views((a + b) + c) == (u + v) + w
    ensures Views(a + (b + c)) == u + (v + w)
  {
    assert a + (b + c) == (a + b) + c;
  }

  // Trades at the price, if there is one; e is what that comes to.
  method TradeIfPriced(book: OrderBook, engine: Engine.MatchingEngine, price: Option<int>, ghost b: BookView, ghost e: Execution)
      returns (events: seq<Event>, ghost filled: seq<Order>)
    requires book.Valid() && b == book.View() && AllOpenBook(b)
    requires e == if price.None? then Execution(b, [], [], [], engine.nextTrade, 0)
                  else ExecuteAt(b, price.value, engine.nextTrade)
    modifies engine`nextTrade, book.Members()`cumQty, book.Members()`notional, book.Members()`status
    modifies book.bids`prices, book.bids`levels, book.bids`queue, book.bids`atMarket
    modifies book.asks`prices, book.asks`levels, book.asks`queue, book.asks`atMarket
    ensures book.Valid() && book.View() == e.book && events == e.events && engine.nextTrade == e.nextTrade
    ensures Views(filled) == e.buysDone + e.sellsDone && Kept(old(book.Members()), filled, book.Members())
  {
    if price.None? {
      events, filled := [], [];
    } else {
      ghost var bought, sold, done;
      events, done, bought, sold := TradeAt(book, price.value, engine, b);
      filled := bought + sold;
      Together(bought, e.buysDone, sold);
    }
  }

  lemma StillMembers(book: OrderBook, was: seq<Order>, gone: seq<Order>, orders: set<Order>)
    requires Kept(was, gone, book.Members()) && forall o :: o in was ==> o in orders
    ensures forall o :: o in book.bids.atMarket ==> o in orders
    ensures forall o :: o in book.asks.atMarket ==> o in orders
  {
    forall o | o in book.bids.atMarket || o in book.asks.atMarket ensures o in orders {
      assert o in book.Members();
    }
  }

  lemma OutcomeIs(b: BookView, reference: Option<int>, rules: seq<Rule>, tid: nat, e: Execution)
    requires AllOpenBook(b) && e == AuctionTrading.AuctionExecution(b, reference, rules, tid)
    ensures RunAuction(b, reference, rules, tid) ==
      Outcome(Uncross(b, reference, rules), Expire(e.book),
              e.buysDone + e.sellsDone + (CancelAll(e.book.bids.market) + CancelAll(e.book.asks.market)),
              e.events + (ExpiryReports(e.book.bids.market) + ExpiryReports(e.book.asks.market)), e.nextTrade)
  {
    Regroup(e.buysDone + e.sellsDone, CancelAll(e.book.bids.market), CancelAll(e.book.asks.market));
    Regroup(e.events, ExpiryReports(e.book.bids.market), ExpiryReports(e.book.asks.market));
  }

  // Trading and expiry, once the price is known.
  method TradeAndExpire(book: OrderBook, engine: Engine.MatchingEngine, price: Option<int>, ghost b: BookView,
                        ghost e: Execution, ghost orders: set<Order>)
      returns (events: seq<Event>, ghost gone: seq<Order>)
    requires book.Valid() && b == book.View() && AllOpenBook(b)
    requires e == if price.None? then Execution(b, [], [], [], engine.nextTrade, 0)
                  else ExecuteAt(b, price.value, engine.nextTrade)
    requires forall o :: o in book.Members() ==> o in orders
    modifies engine`nextTrade, orders`cumQty, orders`notional, orders`status, book.bids, book.asks
    ensures book.Valid() && book.View() == Expire(e.book) && engine.nextTrade == e.nextTrade
    ensures events == e.events + (ExpiryReports(e.book.bids.market) + ExpiryReports(e.book.asks.market))
    ensures Views(gone) == e.buysDone + e.sellsDone + (CancelAll(e.book.bids.market) + CancelAll(e.book.asks.market))
    ensures Kept(old(book.Members()), gone, book.Members())
  {
    ghost var was := book.Members();
    var trades, expiries;
    ghost var filled, expired;
    trades, filled := TradeIfPriced(book, engine, price, b, e);
    ghost var mid := book.Members();
    GoneIsOff(was, filled, mid);
    StillMembers(book, was, filled, orders);
    expiries, expired := ExpireBoth(book, engine, e.book, filled, e.buysDone + e.sellsDone, orders);
    KeptTwice(was, filled, mid, expired, book.Members());
    events, gone := trades + expiries, filled + expired;
  }

  lemma ExecutionIs(b: BookView, reference: Option<int>, rules: seq<Rule>, tid: nat)
    requires AllOpenBook(b)
    ensures var price := AuctionPrice(Uncross(b, reference, rules), reference);
      AuctionTrading.AuctionExecution(b, reference, rules, tid) ==
        if price.None? then Execution(b, [], [], [], tid, 0) else ExecuteAt(b, price.value, tid)
  {
  }

  // Finding the price leaves the book as it was.
  method PriceOf(book: OrderBook, reference: Option<int>, rules: seq<Rule>, ghost b: BookView) returns (row: Option<Row>)
    requires book.Valid() && b == book.View()
    ensures row == Uncross(b, reference, rules) && book.Valid() && b == book.View()
  {
    row := CallAuction.UncrossPrice(book, reference, rules, b);
  }

  // Runs the call auction on one book; `outcome` is what the rules prescribe.
  method HoldAuction(book: OrderBook, engine: Engine.MatchingEngine, reference: Option<int>, rules: seq<Rule>, ghost b: BookView,
                     ghost orders: set<Order>, ghost outcome: Outcome)
      returns (row: Option<Row>, events: seq<Event>, ghost gone: seq<Order>)
    requires book.Valid() && b == book.View() && AllOpenBook(b)
    requires outcome == RunAuction(b, reference, rules, engine.nextTrade)
    requires forall o :: o in book.Members() ==> o in orders
    modifies engine`nextTrade, orders`cumQty, orders`notional, orders`status, book.bids, book.asks
    ensures book.Valid() && book.View() == outcome.book && row == outcome.row
    ensures events == outcome.events && engine.nextTrade == outcome.nextTrade
    ensures Views(gone) == outcome.retired && Kept(old(book.Members()), gone, book.Members())
  {
    ghost var e := AuctionTrading.AuctionExecution(b, reference, rules, engine.nextTrade);
    OutcomeIs(b, reference, rules, engine.nextTrade, e);
    ExecutionIs(b, reference, rules, engine.nextTrade);
    row := PriceOf(book, reference, rules, b);
    var price := AuctionPrice(row, reference);
    events, gone := TradeAndExpire(book, engine, price, b, e, orders);
  }

  lemma Regroup<T>(a: seq<T>, b: seq<T>, c: seq<T>)
    ensures a + (b + c) == a + b + c
  {
  }
}
