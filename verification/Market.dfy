// One instrument's market: the engine, the book and the trade statistics together
// (exchangesim/core/market.py, exchangesim/core/marketdata.py).
module Market {
  import opened Options
  import opened Orders
  import opened PriceLevels
  import opened Matching
  import opened BookRules
  import opened Auction
  import opened AuctionTrading
  import opened Ledger
  import opened BookInvariants
  import opened Trading
  import opened Book
  import AuctionExecution
  import MarketAuction
  import Engine = MatchingEngine

  datatype Trade = Trade(price: int, quantity: int)

  function TradeIn(e: Event): seq<Trade> {
    if e.Traded? then [Trade(e.price, e.quantity)] else []
  }

  // The trades reported in a list of events.
  function TradesOf(events: seq<Event>): seq<Trade> {
    if events == [] then [] else TradeIn(events[0]) + TradesOf(events[1..])
  }

  // The trades of two stretches of events are those of the one and then those of the other.
  lemma {:induction false} TradesJoin(a: seq<Event>, b: seq<Event>)
    ensures TradesOf(a + b) == TradesOf(a) + TradesOf(b)
    decreases |a|
  {
    if a == [] {
      assert a + b == b;
    } else {
      assert (a + b)[1..] == a[1..] + b;
      TradesJoin(a[1..], b);
      Join(TradeIn(a[0]), TradesOf(a[1..]), TradesOf(b));
    }
  }

  lemma Join<T>(a: seq<T>, b: seq<T>, c: seq<T>)
    ensures a + b + c == a + (b + c)
  {
  }

  lemma TradesOfOne(e: Event)
    ensures TradesOf([e]) == if e.Traded? then [Trade(e.price, e.quantity)] else []
  {
    assert [e][1..] == [];
  }

  function SumQuantity(t: seq<Trade>): int {
    if t == [] then 0 else t[0].quantity + SumQuantity(t[1..])
  }

  function SumValue(t: seq<Trade>): int {
    if t == [] then 0 else t[0].price * t[0].quantity + SumValue(t[1..])
  }

  lemma {:induction false} SumsAppend(a: seq<Trade>, t: Trade)
    ensures SumQuantity(a + [t]) == SumQuantity(a) + t.quantity
    ensures SumValue(a + [t]) == SumValue(a) + t.price * t.quantity
  {
    if a == [] {
      assert a + [t] == [t] && [t][1..] == [];
    } else {
      assert (a + [t])[1..] == a[1..] + [t];
      SumsAppend(a[1..], t);
    }
  }

  lemma TradesFurther(events: seq<Event>, i: nat)
    requires i < |events|
    ensures TradesOf(events[..i + 1]) == TradesOf(events[..i]) + TradeIn(events[i])
  {
    assert events[..i + 1] == events[..i] + [events[i]];
    TradesJoin(events[..i], [events[i]]);
    TradesOfOne(events[i]);
  }

  lemma {:induction false} SumsJoin(a: seq<Trade>, b: seq<Trade>)
    ensures SumQuantity(a + b) == SumQuantity(a) + SumQuantity(b) && SumValue(a + b) == SumValue(a) + SumValue(b)
    decreases |a|
  {
    if a == [] {
      assert a + b == b;
    } else {
      assert (a + b)[1..] == a[1..] + b;
      SumsJoin(a[1..], b);
    }
  }

  lemma {:induction false} TradesSum(events: seq<Event>)
    ensures SumQuantity(TradesOf(events)) == Reported(Quantity, events)
    ensures SumValue(TradesOf(events)) == Reported(Value, events)
    decreases |events|
  {
    if events != [] {
      TradesSum(events[1..]);
      SumsJoin(TradeIn(events[0]), TradesOf(events[1..]));
      SumOfOne(events[0]);
    }
  }

  lemma SumOfOne(e: Event)
    ensures var t := TradeIn(e);
      if e.Traded? then SumQuantity(t) == e.quantity && SumValue(t) == e.price * e.quantity
      else SumQuantity(t) == 0 && SumValue(t) == 0
  {
    assert e.Traded? ==> TradeIn(e)[1..] == [];
  }

  function WithoutAccepted(events: seq<Event>): seq<Event> {
    if events == [] then []
    else (if events[0].Accepted? then [] else [events[0]]) + WithoutAccepted(events[1..])
  }

  // Acceptances go, everything else stays in order.
  lemma {:induction false} OthersStay(a: seq<Event>, b: seq<Event>, e: Event)
    ensures WithoutAccepted(a + b) == WithoutAccepted(a) + WithoutAccepted(b)
    ensures WithoutAccepted([e]) == if e.Accepted? then [] else [e]
    decreases |a|
  {
    if a == [] {
      assert a + b == b;
    } else {
      assert (a + b)[1..] == a[1..] + b;
      OthersStay(a[1..], b, e);
    }
  }

  lemma {:induction false} AcceptancesReportNothing(k: Measure, events: seq<Event>)
    ensures Reported(k, WithoutAccepted(events)) == Reported(k, events)
  {
    if events != [] {
      AcceptancesReportNothing(k, events[1..]);
      var head := if events[0].Accepted? then [] else [events[0]];
      ReportedConcat(k, head, WithoutAccepted(events[1..]));
      ReportedByFew(k, head);
    }
  }

  // The market after an amendment left the order as `a` in the book b.
  ghost function Followed(rules: Rules, s: State, b: BookView, a: OrderView, matching: bool): State
    requires BookOk(b)
  {
    if Leaves(a) == 0 then Trading.Absorb(s, b, [a], s.nextTrade, [])
    else if !matching then s.(book := b)
    else
      RemoveOk(b, a.terms);
      EnterStep(rules, s.(book := BookRules.Remove(b, a.terms)), a, true)
  }

  ghost function FollowedBy(rules: Rules, s: State, b: BookView, a: OrderView, matching: bool): seq<Event>
    requires BookOk(b)
  {
    if Leaves(a) == 0 || !matching then []
    else
      RemoveOk(b, a.terms);
      WithoutAccepted(BookRules.Submit(rules, BookRules.Remove(b, a.terms), a, true, s.nextTrade).events)
  }

  // What an amendment reports.
  ghost function ChangeReports(rules: Rules, s: State, o: OrderView, newQuantity: Option<int>, newPrice: Option<int>,
                               matching: bool): seq<Event>
    requires BookOk(s.book) && In(s.book, o)
  {
    AmendOk(s.book, o, newQuantity, newPrice);
    FollowedBy(rules, s, AmendBook(s.book, o, newQuantity, newPrice), Amended(o, newQuantity, newPrice), matching)
  }

  lemma ChangeFollows(rules: Rules, s: State, o: OrderView, newQuantity: Option<int>, newPrice: Option<int>, matching: bool)
    requires BookOk(s.book) && In(s.book, o)
    ensures var b, a := AmendBook(s.book, o, newQuantity, newPrice), Amended(o, newQuantity, newPrice);
      BookOk(b) && ChangeStep(rules, s, o, newQuantity, newPrice, matching) == Followed(rules, s, b, a, matching)
  {
    AmendOk(s.book, o, newQuantity, newPrice);
  }

  // Session statistics for one instrument, in integer price units.
  class InstrumentStatistics {
    var openPrice: Option<int>
    var highPrice: Option<int>
    var lowPrice: Option<int>
    var lastPrice: Option<int>
    var lastQuantity: Option<int>
    var volume: int
    var turnover: int
    var tradeCount: nat

    ghost var trades: seq<Trade>

    constructor ()
      ensures Valid() && trades == []
    {
      openPrice, highPrice, lowPrice, lastPrice, lastQuantity := None, None, None, None, None;
      volume, turnover, tradeCount, trades := 0, 0, 0, [];
    }

    // The fields summarise the trades recorded: first, extremes, last and sums.
    ghost predicate Valid()
      reads this
    {
      && volume == SumQuantity(trades) && turnover == SumValue(trades) && tradeCount == |trades|
      && (trades == [] <==> openPrice.None?) && (trades == [] <==> highPrice.None?) && (trades == [] <==> lowPrice.None?)
      && (trades == [] <==> lastPrice.None?) && (trades == [] <==> lastQuantity.None?)
      && (trades != [] ==>
            && openPrice.value == trades[0].price
            && lastPrice.value == trades[|trades| - 1].price && lastQuantity.value == trades[|trades| - 1].quantity
            && (exists i :: 0 <= i < |trades| && trades[i].price == highPrice.value)
            && (exists i :: 0 <= i < |trades| && trades[i].price == lowPrice.value)
            && (forall i :: 0 <= i < |trades| ==> lowPrice.value <= trades[i].price <= highPrice.value))
    }

    method Record(price: int, quantity: int)
      requires Valid()
      modifies this
      ensures Valid() && trades == old(trades) + [Trade(price, quantity)]
    {
      SumsAppend(trades, Trade(price, quantity));
      if openPrice.None? {
        openPrice := Some(price);
      }
      ghost var was := trades;
      trades := trades + [Trade(price, quantity)];
      assert trades[|was|].price == price;
      assert forall i :: 0 <= i < |was| ==> trades[i] == was[i];
      if highPrice.None? || price > highPrice.value {
        highPrice := Some(price);
      }
      if lowPrice.None? || price < lowPrice.value {
        lowPrice := Some(price);
      }
      lastPrice := Some(price);
      lastQuantity := Some(quantity);
      volume := volume + quantity;
      turnover := turnover + price * quantity;
      tradeCount := tradeCount + 1;
    }

    // Folds the trades among some events into the statistics.
    method RecordTrades(events: seq<Event>)
      requires Valid()
      modifies this
      ensures Valid() && trades == old(trades) + TradesOf(events)
      ensures volume == old(volume) + Reported(Quantity, events)
      ensures turnover == old(turnover) + Reported(Value, events)
    {
      ghost var was := trades;
      for i := 0 to |events|
        invariant Valid() && trades == was + TradesOf(events[..i])
      {
        TradesFurther(events, i);
        Join(was, TradesOf(events[..i]), TradeIn(events[i]));
        if events[i].Traded? {
          Record(events[i].price, events[i].quantity);
        } else {
          assert trades + [] == trades;
        }
      }
      assert events[..|events|] == events;
      SumsJoin(was, TradesOf(events));
      TradesSum(events);
    }
  }

  class Market {
    const book: OrderBook
    const engine: Engine.MatchingEngine
    const statistics: InstrumentStatistics
    const auctionRules: seq<Rule>

    // Orders that have left the book: filled, cancelled or refused.
    ghost var retired: seq<Order>

    constructor (stpMode: StpMode, ackOnEntry: bool, auctionRules: seq<Rule>)
      ensures Is(State(BookView(SideView([], []), SideView([], [])), [], 1, 0, 0))
      ensures engine.stpMode == stpMode && engine.ackOnEntry == ackOnEntry && this.auctionRules == auctionRules
    {
      book := new OrderBook();
      engine := new Engine.MatchingEngine(stpMode, ackOnEntry);
      statistics := new InstrumentStatistics();
      this.auctionRules := auctionRules;
      retired := [];
    }

    ghost predicate Valid()
      reads this, statistics
      reads book.bids, book.bids.atMarket`price, book.bids.queue`price
      reads book.asks, book.asks.atMarket`price, book.asks.queue`price
    {
      book.Valid() && statistics.Valid() && MarketAuction.OffBook(book, retired)
    }

    // The market, read as a value, is s.
    ghost predicate Is(s: State)
      reads this, statistics, engine`nextTrade, retired
      reads book.bids, book.bids.atMarket, book.bids.queue, book.asks, book.asks.atMarket, book.asks.queue
    {
      && Valid() && book.View() == s.book && Views(retired) == s.retired && engine.nextTrade == s.nextTrade
      && statistics.volume == s.volume && statistics.turnover == s.turnover
    }

    ghost function EntryRules(): Rules
      reads engine`stpMode, engine`ackOnEntry
    {
      Rules(engine.stpMode, engine.ackOnEntry)
    }

    // Folds engine events into the statistics.
    method Absorb(events: seq<Event>, ghost s: State, ghost t: State)
      requires Valid() && book.View() == t.book && Views(retired) == t.retired && engine.nextTrade == t.nextTrade
      requires statistics.volume == s.volume && statistics.turnover == s.turnover
      requires t.volume == s.volume + Reported(Quantity, events) && t.turnover == s.turnover + Reported(Value, events)
      modifies statistics
      ensures Is(t) && statistics.trades == old(statistics.trades) + TradesOf(events)
    {
      Fold(events, t.book, t.retired);
    }

    // The statistics are no part of the book, nor of the orders that left it.
    method Fold(events: seq<Event>, ghost b: BookView, ghost v: seq<OrderView>)
      requires Valid() && book.View() == b && Views(retired) == v
      modifies statistics
      ensures Valid() && book.View() == b && Views(retired) == v
      ensures statistics.trades == old(statistics.trades) + TradesOf(events)
      ensures statistics.volume == old(statistics.volume) + Reported(Quantity, events)
      ensures statistics.turnover == old(statistics.turnover) + Reported(Value, events)
    {
      ghost var bm, bq, am, aq := book.bids.atMarket, book.bids.queue, book.asks.atMarket, book.asks.queue;
      statistics.RecordTrades(events);
      Still(bm, b.bids.market);
      Still(bq, b.bids.queue);
      Still(am, b.asks.market);
      Still(aq, b.asks.queue);
      Still(retired, v);
    }

    // Entering an order touches none that left the book before.
    method SubmitApart(order: Order, matching: bool, ghost b: BookView, ghost v: seq<OrderView>, ghost e: Entry)
        returns (events: seq<Event>, ghost gone: seq<Order>)
      requires Valid() && b == book.View() && Views(retired) == v && OpenBook(b)
      requires Absent(book.Members(), order) && order !in retired
      requires e == BookRules.Submit(EntryRules(), b, order.View(), matching, engine.nextTrade)
      modifies engine`nextTrade, order`quantity, order`cumQty, order`notional, order`status
      modifies book.bids, book.asks, book.SideFor(order.side != Buy).queue
      ensures engine.Recorded(book, order, events, gone, e)
      ensures Engine.Membership(old(book.Members()), gone, order, e.rests, book.Members())
      ensures AuctionExecution.Unmoved(retired, v)
    {
      RetiredApart(order.side != Buy);
      events, gone := engine.SubmitBeside(book, order, matching, e, retired, v);
    }

    lemma RetiredApart(isBuy: bool)
      requires Valid()
      ensures forall k :: 0 <= k < |retired| ==> retired[k] !in book.SideFor(isBuy).queue
    {
      forall k | 0 <= k < |retired| ensures retired[k] !in book.SideFor(isBuy).queue {
        assert retired[k] !in book.SideFor(isBuy).Members();
      }
    }

    // The orders that leave the book join those that left before.
    lemma RetiredThen(was: seq<Order>, gone: seq<Order>, order: Order, e: Entry, v: seq<OrderView>)
      requires Engine.Membership(was, gone, order, e.rests, book.Members()) && order !in was && order !in retired
      requires forall k :: 0 <= k < |retired| ==> retired[k] !in was
      requires AuctionExecution.Unmoved(retired, v)
      requires Views(gone) == e.done && order.View() == e.order && order !in gone
      ensures MarketAuction.OffBook(book, retired + (gone + if e.rests then [] else [order]))
      ensures Views(retired + (gone + if e.rests then [] else [order])) == v + Leaving(e)
    {
      forall k | 0 <= k < |gone| ensures gone[k] != order && gone[k] !in book.Members() {
      }
    }

    // Notes who left the book.
    ghost method Retire(leaving: seq<Order>, v: seq<OrderView>, b: BookView)
      requires book.Valid() && statistics.Valid() && book.View() == b
      requires MarketAuction.OffBook(book, retired + leaving) && Views(retired + leaving) == v
      modifies this`retired
      ensures Valid() && book.View() == b && Views(retired) == v
    {
      ghost var bm, bq, am, aq := book.bids.atMarket, book.bids.queue, book.asks.atMarket, book.asks.queue;
      ghost var all := retired + leaving;
      retired := all;
      Still(bm, b.bids.market);
      Still(bq, b.bids.queue);
      Still(am, b.asks.market);
      Still(aq, b.asks.queue);
      Still(all, v);
    }

    // Enters an order and notes who left the book; the statistics come after.
    method Enter(order: Order, matching: bool, ghost s: State, ghost e: Entry) returns (events: seq<Event>)
      requires Is(s) && OpenBook(s.book) && Absent(book.Members(), order) && order !in retired
      requires e == BookRules.Submit(EntryRules(), s.book, order.View(), matching, s.nextTrade)
      modifies engine`nextTrade, order`quantity, order`cumQty, order`notional, order`status, this`retired
      modifies book.bids, book.asks, book.SideFor(order.side != Buy).queue
      ensures events == e.events && engine.nextTrade == e.nextTrade && Valid() && book.View() == e.book
      ensures Views(retired) == s.retired + Leaving(e)
    {
      ghost var was := book.Members();
      ghost var gone;
      events, gone := SubmitApart(order, matching, s.book, s.retired, e);
      Engine.Shown(book, e.book);
      RetiredThen(was, gone, order, e, s.retired);
      Retire(gone + (if e.rests then [] else [order]), s.retired + Leaving(e), e.book);
    }

    // Enters a validated order; the phase decides whether it may match. Here and below
    // t is the state, and `reports` the events, that the rules prescribe.
    method Submit(order: Order, matching: bool, ghost s: State, ghost t: State, ghost reports: seq<Event>)
        returns (events: seq<Event>)
      requires Is(s) && OpenBook(s.book) && Absent(book.Members(), order) && order !in retired
      requires t == EnterStep(EntryRules(), s, order.View(), matching)
      requires reports == BookRules.Submit(EntryRules(), s.book, order.View(), matching, s.nextTrade).events
      modifies engine`nextTrade, order`quantity, order`cumQty, order`notional, order`status, this`retired, statistics
      modifies book.bids, book.asks, book.SideFor(order.side != Buy).queue
      ensures Is(t) && events == reports
    {
      ghost var e := BookRules.Submit(EntryRules(), s.book, order.View(), matching, s.nextTrade);
      events := Enter(order, matching, s, e);
      Absorb(events, s, t);
    }

    // Takes an order off the book and reports it.
    method Cancel(order: Order, reason: CancelReason, ghost s: State) returns (events: seq<Event>)
      requires Is(s) && order in book.Members()
      modifies order`status, book.SideFor(order.side == Buy), this`retired, statistics
      ensures Is(WithdrawStep(s, old(order.View()))) && order.View() == WithCancel(old(order.View()))
      ensures events == [OrderCancelled(order.id, reason)]
    {
      ghost var t := WithdrawStep(s, order.View());
      events := CancelAndRetire(order, reason, s);
      ReportedByFew(Quantity, events);
      ReportedByFew(Value, events);
      Absorb(events, s, t);
    }

    method CancelAndRetire(order: Order, reason: CancelReason, ghost s: State) returns (events: seq<Event>)
      requires Is(s) && order in book.Members()
      modifies order`status, book.SideFor(order.side == Buy), this`retired
      ensures Valid() && book.View() == BookRules.Remove(s.book, old(order.View()).terms)
      ensures Views(retired) == s.retired + [WithCancel(old(order.View()))]
      ensures order.View() == WithCancel(old(order.View())) && events == [OrderCancelled(order.id, reason)]
    {
      ghost var was, o := book.Members(), order.View();
      ghost var left := BookRules.Remove(s.book, o.terms);
      events := CancelOnBook(order, reason, left);
      LeaverJoins(was, order, s.retired);
      Retire([order], s.retired + [WithCancel(o)], left);
    }

    method CancelOnBook(order: Order, reason: CancelReason, ghost left: BookView) returns (events: seq<Event>)
      requires book.Valid() && order in book.Members() && left == BookRules.Remove(book.View(), order.View().terms)
      modifies order`status, book.SideFor(order.side == Buy)
      ensures book.Valid() && book.View() == left && Parted(old(book.Members()), order, book.Members())
      ensures order.View() == WithCancel(old(order.View())) && events == [OrderCancelled(order.id, reason)]
    {
      MarketAuction.Unique(book, order);
      events := engine.Cancel(book, order, reason);
      Engine.Shown(book, left);
    }

    lemma LeaverJoins(was: seq<Order>, order: Order, v: seq<OrderView>)
      requires Parted(was, order, book.Members()) && forall k :: 0 <= k < |retired| ==> retired[k] !in was
      requires AuctionExecution.Unmoved(retired, v)
      ensures MarketAuction.OffBook(book, retired + [order]) && Views(retired + [order]) == v + [order.View()]
    {
    }

    // An order on the book is In its value.
    lemma MemberIsIn(order: Order)
      requires book.Valid() && order in book.Members()
      ensures In(book.View(), order.View())
    {
      var isBuy := order.side == Buy;
      var side := book.SideFor(isBuy);
      book.bids.QueueSorted();
      book.asks.QueueSorted();
      var list := if order.price.None? then side.atMarket else side.queue;
      assert order in list;
      var i :| 0 <= i < |list| && list[i] == order;
      assert Views(list)[i] == order.View();
    }

    method AmendResting(order: Order, newQuantity: Option<int>, newPrice: Option<int>, ghost b: BookView) returns (kept: bool)
      requires book.Valid() && order in book.Members() && b == book.View()
      modifies order`price, order`quantity, book.SideFor(order.side == Buy)
      ensures order.View() == Amended(old(order.View()), newQuantity, newPrice)
      ensures kept == !LosesPriority(old(order.View()), order.View())
      ensures book.Valid() && book.View() == AmendBook(b, old(order.View()), newQuantity, newPrice)
      ensures Engine.Membership(old(book.Members()), [order], order, order.LeavesQty() > 0, book.Members())
    {
      MemberIsIn(order);
      InRests(b, order.View());
      MarketAuction.Unique(book, order);
      ghost var o := order.View();
      kept := engine.Amend(book, order, newQuantity, newPrice);
      Engine.Shown(book, AmendBook(b, o, newQuantity, newPrice));
    }

    // The market between an amendment on the book and what follows it.
    ghost predicate Amending(order: Order, s: State, b: BookView)
      reads this, statistics, engine`nextTrade, retired, order
      reads book.bids, book.bids.atMarket, book.bids.queue, book.asks, book.asks.atMarket, book.asks.queue
    {
      && book.Valid() && statistics.Valid() && book.View() == b && AuctionExecution.Unmoved(retired, s.retired)
      && engine.nextTrade == s.nextTrade && statistics.volume == s.volume && statistics.turnover == s.turnover
      && MarketAuction.OffBook(book, retired) && (order in book.Members() <==> order.LeavesQty() > 0)
      && (order.LeavesQty() == 0 ==> MarketAuction.OffBook(book, retired + [order]))
    }

    method AmendOnBook(order: Order, newQuantity: Option<int>, newPrice: Option<int>, ghost s: State, ghost b: BookView)
        returns (kept: bool)
      requires Is(s) && order in book.Members() && b == AmendBook(s.book, order.View(), newQuantity, newPrice)
      modifies order`price, order`quantity, book.SideFor(order.side == Buy)
      ensures order.View() == Amended(old(order.View()), newQuantity, newPrice)
      ensures kept == !LosesPriority(old(order.View()), order.View())
      ensures Amending(order, s, b)
    {
      ghost var was := book.Members();
      kept := AmendResting(order, newQuantity, newPrice, s.book);
      AmendedStays(was, order, order.LeavesQty() > 0);
    }

    lemma AmendedStays(was: seq<Order>, order: Order, rests: bool)
      requires Engine.Membership(was, [order], order, rests, book.Members()) && order in was
      requires forall k :: 0 <= k < |retired| ==> retired[k] !in was
      ensures MarketAuction.OffBook(book, retired) && order !in retired
      ensures order in book.Members() <==> rests
      ensures !rests ==> MarketAuction.OffBook(book, retired + [order])
    {
    }

    // An order already acknowledged is not reported as accepted a second time.
    method SubmitQuietly(order: Order, ghost s: State, ghost t: State, ghost reports: seq<Event>) returns (events: seq<Event>)
      requires Is(s) && OpenBook(s.book) && Absent(book.Members(), order) && order !in retired
      requires t == EnterStep(EntryRules(), s, order.View(), true)
      requires reports == WithoutAccepted(BookRules.Submit(EntryRules(), s.book, order.View(), true, s.nextTrade).events)
      modifies engine`nextTrade, order`quantity, order`cumQty, order`notional, order`status, this`retired, statistics
      modifies book.bids, book.asks, book.SideFor(order.side != Buy).queue
      ensures Is(t) && events == reports
    {
      ghost var e := BookRules.Submit(EntryRules(), s.book, order.View(), true, s.nextTrade);
      var all := Enter(order, true, s, e);
      events := WithoutAccepted(all);
      AcceptancesReportNothing(Quantity, all);
      AcceptancesReportNothing(Value, all);
      Absorb(events, s, t);
    }

    // An amended order enters again: taken off the book, then matched.
    method ReEnter(order: Order, ghost s: State, ghost t: State, ghost reports: seq<Event>) returns (events: seq<Event>)
      requires Is(s) && order in book.Members() && OpenBook(BookRules.Remove(s.book, order.View().terms))
      requires t == EnterStep(EntryRules(), s.(book := BookRules.Remove(s.book, order.View().terms)), order.View(), true)
      requires reports == WithoutAccepted(BookRules.Submit(EntryRules(), BookRules.Remove(s.book, order.View().terms),
                                                           order.View(), true, s.nextTrade).events)
      modifies engine`nextTrade, order`quantity, order`cumQty, order`notional, order`status, this`retired, statistics
      modifies book.bids, book.asks, book.SideFor(order.side != Buy).queue
      ensures Is(t) && events == reports
    {
      ghost var mid := s.(book := BookRules.Remove(s.book, order.View().terms));
      TakeOff(order, s);
      events := SubmitQuietly(order, mid, t, reports);
    }

    method TakeOff(order: Order, ghost s: State)
      requires Is(s) && order in book.Members()
      modifies book.SideFor(order.side == Buy)
      ensures Is(s.(book := BookRules.Remove(s.book, order.View().terms)))
      ensures Absent(book.Members(), order) && order !in retired
      ensures book.SideFor(order.side != Buy).queue == old(book.SideFor(order.side != Buy).queue)
    {
      ghost var was := book.Members();
      Lift(order, BookRules.Remove(s.book, order.View().terms));
      StayOff(was, order);
    }

    method Lift(order: Order, ghost left: BookView)
      requires book.Valid() && order in book.Members() && left == BookRules.Remove(book.View(), order.View().terms)
      modifies book.SideFor(order.side == Buy)
      ensures book.Valid() && book.View() == left
      ensures Absent(book.Members(), order) && Parted(old(book.Members()), order, book.Members())
      ensures book.SideFor(order.side != Buy).queue == old(book.SideFor(order.side != Buy).queue)
    {
      MarketAuction.Unique(book, order);
      var found := engine.TakeOff(book, order);
      Engine.Shown(book, left);
    }

    lemma StayOff(was: seq<Order>, order: Order)
      requires Parted(was, order, book.Members()) && order in was && forall k :: 0 <= k < |retired| ==> retired[k] !in was
      ensures MarketAuction.OffBook(book, retired) && order !in retired
    {
    }

    // What follows an amendment on the book.
    method FollowUp(order: Order, matching: bool, ghost s: State, ghost b: BookView, ghost t: State, ghost reports: seq<Event>)
        returns (events: seq<Event>)
      requires Amending(order, s, b)
      requires BookOk(b) && t == Followed(EntryRules(), s, b, order.View(), matching)
      requires reports == FollowedBy(EntryRules(), s, b, order.View(), matching)
      modifies engine`nextTrade, order`quantity, order`cumQty, order`notional, order`status
      modifies this`retired, statistics, book.bids, book.asks, book.SideFor(order.side != Buy).queue
      ensures Is(t) && events == reports
    {
      events := [];
      if order.LeavesQty() == 0 {
        Finished(order, s, b);
      } else if matching {
        RemoveOk(b, order.View().terms);
        events := ReEnter(order, s.(book := b), t, reports);
      }
    }

    // Applies an amendment, and matches the order again when the phase allows.
    method Amend(order: Order, newQuantity: Option<int>, newPrice: Option<int>, matching: bool, ghost s: State, ghost t: State,
                 ghost reports: seq<Event>)
        returns (kept: bool, events: seq<Event>)
      requires Is(s) && BookOk(s.book) && order in book.Members() && In(s.book, order.View())
      requires t == ChangeStep(EntryRules(), s, order.View(), newQuantity, newPrice, matching)
      requires reports == ChangeReports(EntryRules(), s, order.View(), newQuantity, newPrice, matching)
      modifies order`price, engine`nextTrade, order`quantity, order`cumQty, order`notional, order`status
      modifies this`retired, statistics, book.bids, book.asks, book.SideFor(order.side != Buy).queue
      ensures Is(t) && events == reports
      ensures kept == !LosesPriority(old(order.View()), Amended(old(order.View()), newQuantity, newPrice))
    {
      ghost var b := AmendBook(s.book, order.View(), newQuantity, newPrice);
      ChangeFollows(EntryRules(), s, order.View(), newQuantity, newPrice, matching);
      kept := AmendOnBook(order, newQuantity, newPrice, s, b);
      events := FollowUp(order, matching, s, b, t, reports);
    }

    // An amendment that leaves nothing open takes the order off the book for good.
    ghost method Finished(order: Order, s: State, b: BookView)
      requires book.Valid() && statistics.Valid() && book.View() == b && AuctionExecution.Unmoved(retired, s.retired)
      requires MarketAuction.OffBook(book, retired + [order]) && engine.nextTrade == s.nextTrade
      requires statistics.volume == s.volume && statistics.turnover == s.turnover
      modifies this`retired
      ensures Is(Trading.Absorb(s, b, [order.View()], s.nextTrade, []))
    {
      ghost var o := order.View();
      AbsorbsNothing(s, b, o);
      Retire([order], s.retired + [o], b);
      Still([order], [o]);
    }

    lemma AbsorbsNothing(s: State, b: BookView, o: OrderView)
      ensures Trading.Absorb(s, b, [o], s.nextTrade, []) == State(b, s.retired + [o], s.nextTrade, s.volume, s.turnover)
    {
    }

    // Runs the call auction, without the statistics.
    method Hold(reference: Option<int>, ghost s: State, ghost orders: set<Order>, ghost outcome: Outcome)
        returns (row: Option<Row>, events: seq<Event>, ghost gone: seq<Order>)
      requires Is(s) && AllOpenBook(s.book) && outcome == RunAuction(s.book, reference, auctionRules, s.nextTrade)
      requires (forall o :: o in book.Members() ==> o in orders) && forall k :: 0 <= k < |retired| ==> retired[k] !in orders
      modifies engine`nextTrade, orders`cumQty, orders`notional, orders`status, book.bids, book.asks
      ensures book.Valid() && book.View() == outcome.book && row == outcome.row
      ensures events == outcome.events && engine.nextTrade == outcome.nextTrade
      ensures Views(gone) == outcome.retired && AuctionExecution.Kept(old(book.Members()), gone, book.Members())
      ensures AuctionExecution.Unmoved(retired, s.retired)
    {
      row, events, gone := MarketAuction.HoldAuction(book, engine, reference, auctionRules, s.book, orders, outcome);
    }

    lemma LeaversJoin(was: seq<Order>, gone: seq<Order>, v: seq<OrderView>)
      requires AuctionExecution.Kept(was, gone, book.Members()) && forall k :: 0 <= k < |retired| ==> retired[k] !in was
      requires AuctionExecution.Unmoved(retired, v)
      ensures MarketAuction.OffBook(book, retired + gone) && Views(retired + gone) == v + Views(gone)
    {
    }

    // The call auction: one price, trading at it, and no priceless order left.
    method Uncross(reference: Option<int>, ghost s: State, ghost t: State, ghost orders: set<Order>)
        returns (row: Option<Row>, events: seq<Event>)
      requires Is(s) && AllOpenBook(s.book) && t == AuctionStep(s, reference, auctionRules)
      requires (forall o :: o in book.Members() ==> o in orders) && forall k :: 0 <= k < |retired| ==> retired[k] !in orders
      modifies engine`nextTrade, orders`cumQty, orders`notional, orders`status, book.bids, book.asks
      modifies this`retired, statistics
      ensures Is(t) && row == Auction.Uncross(s.book, reference, auctionRules)
      ensures events == RunAuction(s.book, reference, auctionRules, s.nextTrade).events
    {
      ghost var was, outcome := book.Members(), RunAuction(s.book, reference, auctionRules, s.nextTrade);
      ghost var gone;
      row, events, gone := Hold(reference, s, orders, outcome);
      LeaversJoin(was, gone, s.retired);
      Retire(gone, s.retired + outcome.retired, outcome.book);
      Absorb(events, s, t);
    }
  }
}
