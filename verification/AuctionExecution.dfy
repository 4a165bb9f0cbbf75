// Trading at the auction price on the indexed book (exchangesim/core/auction.py
// execute), proved equal to pairing off two flat lists.
module AuctionExecution {
  import opened Options
  import opened Sequences
  import opened Orders
  import opened PriceLevels
  import opened Matching
  import opened BookRules
  import opened Auction
  import opened AuctionTrading
  import opened Book
  import Engine = MatchingEngine

  // A pairing that continues one whose first orders and events are already known.
  function PairAfter(b: seq<OrderView>, s: seq<OrderView>, events: seq<Event>, traded: int, r: Pairing): Pairing {
    Pairing(b + r.buysDone, r.buys, s + r.sellsDone, r.sells, events + r.events, r.nextTrade, traded + r.traded)
  }

  // Where pairing off two lists leads from a stage reached in it.
  ghost function Finish(st: Pairing, price: int): Pairing
    requires AllOpen(st.buys) && AllOpen(st.sells)
  {
    PairAfter(st.buysDone, st.sellsDone, st.events, st.traded, PairOff(st.buys, st.sells, price, st.nextTrade))
  }

  // The stage after the first pair has traded.
  function Pair(st: Pairing, price: int): Pairing
    requires st.buys != [] && st.sells != [] && Leaves(st.buys[0]) > 0 && Leaves(st.sells[0]) > 0
  {
    var q := Least(Leaves(st.buys[0]), Leaves(st.sells[0]));
    var b, s := WithFill(st.buys[0], q, price), WithFill(st.sells[0], q, price);
    Pairing(st.buysDone + Done(b), Next(st.buys, b), st.sellsDone + Done(s), Next(st.sells, s),
            st.events + PairEvents(b, s, q, price, st.nextTrade), st.nextTrade + 1, st.traded + q)
  }

  lemma PairAfterTwice(b: seq<OrderView>, s: seq<OrderView>, e: seq<Event>, t: int,
                       b': seq<OrderView>, s': seq<OrderView>, e': seq<Event>, t': int, r: Pairing)
    ensures PairAfter(b, s, e, t, PairAfter(b', s', e', t', r)) == PairAfter(b + b', s + s', e + e', t + t', r)
  {
    assert b + (b' + r.buysDone) == (b + b') + r.buysDone;
    assert s + (s' + r.sellsDone) == (s + s') + r.sellsDone;
    assert e + (e' + r.events) == (e + e') + r.events;
  }

  lemma PairOffStep(buys: seq<OrderView>, sells: seq<OrderView>, price: int, tid: nat)
    requires AllOpen(buys) && AllOpen(sells) && buys != [] && sells != []
    ensures var q := Least(Leaves(buys[0]), Leaves(sells[0]));
      var b, s := WithFill(buys[0], q, price), WithFill(sells[0], q, price);
      && AllOpen(Next(buys, b)) && AllOpen(Next(sells, s))
      && PairOff(buys, sells, price, tid) == PairAfter(Done(b), Done(s), PairEvents(b, s, q, price, tid), q,
                                                       PairOff(Next(buys, b), Next(sells, s), price, tid + 1))
  {
    var q := Least(Leaves(buys[0]), Leaves(sells[0]));
    OpenNext(buys, WithFill(buys[0], q, price));
    OpenNext(sells, WithFill(sells[0], q, price));
  }

  lemma OpenNext(q: seq<OrderView>, o: OrderView)
    requires AllOpen(q) && q != []
    ensures AllOpen(Next(q, o))
  {
    var r := Next(q, o);
    assert forall i :: 0 < i < |r| ==> r[i] == if Leaves(o) == 0 then q[i + 1] else q[i];
  }

  // One pair traded leaves the same pairing to finish.
  lemma PairFinishes(st: Pairing, price: int)
    requires AllOpen(st.buys) && AllOpen(st.sells) && st.buys != [] && st.sells != []
    ensures AllOpen(Pair(st, price).buys) && AllOpen(Pair(st, price).sells)
    ensures Finish(Pair(st, price), price) == Finish(st, price)
  {
    var q := Least(Leaves(st.buys[0]), Leaves(st.sells[0]));
    var b, s := WithFill(st.buys[0], q, price), WithFill(st.sells[0], q, price);
    PairOffStep(st.buys, st.sells, price, st.nextTrade);
    PairAfterTwice(st.buysDone, st.sellsDone, st.events, st.traded, Done(b), Done(s),
                   PairEvents(b, s, q, price, st.nextTrade), q,
                   PairOff(Next(st.buys, b), Next(st.sells, s), price, st.nextTrade + 1));
  }

  lemma FinishedPairing(st: Pairing, price: int)
    requires AllOpen(st.buys) && AllOpen(st.sells) && (st.buys == [] || st.sells == [])
    ensures Finish(st, price) == st
  {
  }

  lemma StartedPairing(buys: seq<OrderView>, sells: seq<OrderView>, price: int, tid: nat)
    requires AllOpen(buys) && AllOpen(sells)
    ensures Finish(Pairing([], buys, [], sells, [], tid, 0), price) == PairOff(buys, sells, price, tid)
  {
  }

  // ---- on the book -------------------------------------------------------------------

  // The orders of a side in auction priority: priceless ones, then by price.
  datatype Line = Line(market: seq<Order>, queue: seq<Order>)

  predicate Empty(l: Line) {
    l.market == [] && l.queue == []
  }

  function First(l: Line): Order
    requires !Empty(l)
  {
    if l.market != [] then l.market[0] else l.queue[0]
  }

  // The line once its first order is filled, if it is.
  function After(l: Line, filled: bool): Line
    requires !Empty(l)
  {
    if !filled then l
    else if l.market != [] then l.(market := l.market[1..])
    else l.(queue := l.queue[1..])
  }

  ghost predicate Stands(side: BookSide, l: Line)
    reads side, side.atMarket`price, side.queue`price
  {
    side.Valid() && side.atMarket == l.market && side.queue == l.queue
  }

  lemma DropHead(s: seq<Order>, o: Order)
    requires s != [] && s[0] == o
    ensures Drop(s, o.id) == s[1..]
  {
  }

  method RemoveFilled(side: BookSide, order: Order, ghost l: Line)
    requires Stands(side, l) && !Empty(l) && order == First(l)
    modifies side`prices, side`levels, side`queue, side`atMarket
    ensures Stands(side, After(l, order.LeavesQty() == 0))
  {
    if order.LeavesQty() == 0 {
      side.QueueSorted();
      assert order in side.Members();
      side.UniqueMember(order);
      DropHead(if l.market != [] then side.atMarket else side.queue, order);
      var found := side.Remove(order);
    }
  }

  // The current values of a list whose first i orders are filled.
  ghost predicate At(orders: seq<Order>, i: nat, done: seq<OrderView>, rest: seq<OrderView>)
    reads orders
  {
    && |done| == i && |done| + |rest| == |orders|
    && (forall k :: 0 <= k < i ==> done[k] == orders[k].View())
    && (forall k :: 0 <= k < |rest| ==> rest[k] == orders[i + k].View())
  }

  // Orders that would trade at `price`, in auction priority order.
  method ExecutableSide(side: BookSide, price: int) returns (orders: seq<Order>)
    requires side.Valid() && AllOpen(Views(side.atMarket)) && AllOpen(Views(side.queue))
    ensures orders == side.atMarket + side.queue[..Place(side.isBuy, Views(side.queue), price)]
  {
    side.QueueSorted();
    side.PriorityIsQueue();
    orders := WillingOrders(side.isBuy, OpenOrders(side.atMarket), side.OrdersInPriority(), price);
  }

  method WillingOrders(isBuy: bool, first: seq<Order>, queue: seq<Order>, price: int) returns (orders: seq<Order>)
    requires AllOpen(Views(queue)) && forall o :: o in queue ==> o.price.Some?
    ensures orders == first + queue[..Place(isBuy, Views(queue), price)]
  {
    orders := first;
    ghost var v := Views(queue);
    for i := 0 to |queue|
      invariant orders == first + queue[..i]
      invariant forall j :: 0 <= j < i ==> !Better(isBuy, price, Px(v[j]))
    {
      var resting := queue[i];
      assert v[i] == resting.View() && resting in queue;
      if resting.LeavesQty() <= 0 {
        continue;
      }
      if isBuy && resting.price.value < price {
        break;
      }
      if !isBuy && resting.price.value > price {
        break;
      }
      orders := orders + [resting];
      assert queue[..i + 1] == queue[..i] + [resting];
    }
  }

  function OpenOrders(s: seq<Order>): (r: seq<Order>)
    reads s
    ensures AllOpen(Views(s)) ==> r == s
  {
    if s == [] then []
    else
      assert AllOpen(Views(s)) ==> Views(s)[0] == s[0].View() && Views(s)[1..] == Views(s[1..]);
      (if s[0].LeavesQty() > 0 then [s[0]] else []) + OpenOrders(s[1..])
  }

  // What both orders and the reports are once a pair has traded.
  twostate predicate Paired(buyer: Order, seller: Order, price: int, engine: Engine.MatchingEngine, events: seq<Event>)
    requires old(buyer.LeavesQty() > 0 && seller.LeavesQty() > 0)
    reads buyer, seller, engine`nextTrade
  {
    var q := Least(old(buyer.LeavesQty()), old(seller.LeavesQty()));
    && buyer.View() == WithFill(old(buyer.View()), q, price) && seller.View() == WithFill(old(seller.View()), q, price)
    && events == PairEvents(buyer.View(), seller.View(), q, price, old(engine.nextTrade))
    && engine.nextTrade == old(engine.nextTrade) + 1
  }

  // One fill between two orders, at the auction price.
  method ExecutePair(bids: BookSide, asks: BookSide, buyer: Order, seller: Order, price: int, engine: Engine.MatchingEngine,
                     ghost lb: Line, ghost la: Line)
      returns (events: seq<Event>)
    requires Stands(bids, lb) && !Empty(lb) && First(lb) == buyer
    requires Stands(asks, la) && !Empty(la) && First(la) == seller
    requires bids != asks && buyer != seller && buyer.LeavesQty() > 0 && seller.LeavesQty() > 0
    modifies engine`nextTrade, buyer`cumQty, buyer`notional, buyer`status, seller`cumQty, seller`notional, seller`status
    modifies bids`prices, bids`levels, bids`queue, bids`atMarket, asks`prices, asks`levels, asks`queue, asks`atMarket
    ensures Stands(bids, After(lb, buyer.LeavesQty() == 0)) && Stands(asks, After(la, seller.LeavesQty() == 0))
    ensures Paired(buyer, seller, price, engine, events)
  {
    events := FillPair(buyer, seller, price, engine);
    RemoveBoth(bids, asks, buyer, seller, lb, la);
  }

  method RemoveBoth(bids: BookSide, asks: BookSide, buyer: Order, seller: Order, ghost lb: Line, ghost la: Line)
    requires Stands(bids, lb) && !Empty(lb) && First(lb) == buyer
    requires Stands(asks, la) && !Empty(la) && First(la) == seller
    requires bids != asks
    modifies bids`prices, bids`levels, bids`queue, bids`atMarket, asks`prices, asks`levels, asks`queue, asks`atMarket
    ensures Stands(bids, After(lb, buyer.LeavesQty() == 0)) && Stands(asks, After(la, seller.LeavesQty() == 0))
  {
    RemoveFilled(bids, buyer, lb);
    RemoveFilled(asks, seller, la);
  }

  // Neither order removed liquidity: an auction executes everyone at once.
  method FillPair(buyer: Order, seller: Order, price: int, engine: Engine.MatchingEngine) returns (events: seq<Event>)
    requires buyer != seller && buyer.LeavesQty() > 0 && seller.LeavesQty() > 0
    modifies engine`nextTrade, buyer`cumQty, buyer`notional, buyer`status, seller`cumQty, seller`notional, seller`status
    ensures Paired(buyer, seller, price, engine, events)
  {
    var quantity := Least(buyer.LeavesQty(), seller.LeavesQty());
    var tradeId := engine.nextTrade;
    engine.nextTrade := engine.nextTrade + 1;
    buyer.ApplyFill(quantity, price);
    seller.ApplyFill(quantity, price);
    events := [FillReport(buyer.View(), quantity, price, tradeId, Added, seller.View()),
               FillReport(seller.View(), quantity, price, tradeId, Added, buyer.View()),
               Traded(price, quantity, tradeId, buyer.id, seller.id, None)];
  }

  // ---- the loop ---------------------------------------------------------------------

  // The line is what is left of the orders to trade, then those that do not accept
  // the price.
  ghost predicate Fits(l: Line, orders: seq<Order>, m: nat, i: nat, tail: seq<Order>) {
    && i <= |orders| && m <= |orders| && l.market + l.queue == orders[i..] + tail
    && |l.market| == if i < m then m - i else 0
  }

  lemma FitsFirst(l: Line, orders: seq<Order>, m: nat, i: nat, tail: seq<Order>)
    requires Fits(l, orders, m, i, tail) && i < |orders|
    ensures !Empty(l) && First(l) == orders[i]
    ensures Fits(After(l, true), orders, m, i + 1, tail)
  {
    var s := l.market + l.queue;
    assert s[0] == orders[i] && s[1..] == orders[i + 1..] + tail;
    assert After(l, true).market + After(l, true).queue == s[1..];
  }

  function Position(o: OrderView, i: nat): nat {
    if Leaves(o) == 0 then i + 1 else i
  }

  // Every other order still has the value it had.
  ghost predicate Others(orders: seq<Order>, i: nat, v: seq<OrderView>)
    reads orders
  {
    i < |orders| == |v| && forall k :: 0 <= k < |orders| && k != i ==> v[k] == orders[k].View()
  }

  lemma AtOthers(orders: seq<Order>, i: nat, done: seq<OrderView>, rest: seq<OrderView>)
    requires At(orders, i, done, rest) && i < |orders|
    ensures Others(orders, i, done + rest)
  {
    var v := done + rest;
    assert forall k :: 0 <= k < i ==> v[k] == done[k];
    assert forall k :: i <= k < |v| ==> v[k] == rest[k - i];
  }

  // The first order of `rest` became o: it joins those done if filled.
  lemma NextValues(v: seq<OrderView>, i: nat, done: seq<OrderView>, rest: seq<OrderView>, o: OrderView)
    requires i < |v| && v[i] == o && |done| == i && |rest| == |v| - i
    requires done == v[..i] && rest[1..] == v[i + 1..]
    ensures done + Done(o) == v[..Position(o, i)] && Next(rest, o) == v[Position(o, i)..]
  {
    CutAt(v, i);
    if Leaves(o) == 0 {
      assert done + [o] == v[..i + 1];
    } else {
      assert done + [] == v[..i];
    }
  }

  lemma AtNext(orders: seq<Order>, i: nat, done: seq<OrderView>, rest: seq<OrderView>)
    requires Others(orders, i, done + rest) && |done| == i
    ensures var o := orders[i].View(); At(orders, Position(o, i), done + Done(o), Next(rest, o))
  {
    var v, w := Views(orders), done + rest;
    assert forall k :: 0 <= k < i ==> done[k] == w[k];
    assert forall k :: 0 <= k < |rest| ==> rest[k] == w[i + k];
    assert done == v[..i] && rest[1..] == v[i + 1..];
    NextValues(v, i, done, rest, orders[i].View());
  }

  lemma DistinctPair(buyers: seq<Order>, i: nat, sellers: seq<Order>, j: nat)
    requires DistinctIds(buyers + sellers) && i < |buyers| && j < |sellers|
    ensures forall k :: 0 <= k < |buyers| && k != i ==> buyers[k] != buyers[i]
    ensures forall k :: 0 <= k < |sellers| && k != j ==> sellers[k] != sellers[j]
    ensures forall k :: 0 <= k < |buyers| ==> buyers[k] != sellers[j]
    ensures forall k :: 0 <= k < |sellers| ==> sellers[k] != buyers[i]
  {
    var all, n := buyers + sellers, |buyers|;
    assert forall k :: 0 <= k < |buyers| ==> all[k] == buyers[k];
    assert forall k :: 0 <= k < |sellers| ==> all[n + k] == sellers[k];
  }

  // Trading one pair changes no other order of either list.
  method ExecuteKeeping(bids: BookSide, asks: BookSide, buyer: Order, seller: Order, price: int, engine: Engine.MatchingEngine,
                        ghost buyers: seq<Order>, ghost i: nat, ghost sellers: seq<Order>, ghost j: nat,
                        ghost lb: Line, ghost la: Line, ghost bv: seq<OrderView>, ghost sv: seq<OrderView>)
      returns (events: seq<Event>)
    requires Stands(bids, lb) && Stands(asks, la) && bids != asks
    requires i < |buyers| && buyer == buyers[i] && !Empty(lb) && First(lb) == buyer && Others(buyers, i, bv)
    requires j < |sellers| && seller == sellers[j] && !Empty(la) && First(la) == seller && Others(sellers, j, sv)
    requires buyer.LeavesQty() > 0 && seller.LeavesQty() > 0 && DistinctIds(buyers + sellers)
    modifies engine`nextTrade, buyer`cumQty, buyer`notional, buyer`status, seller`cumQty, seller`notional, seller`status
    modifies bids`prices, bids`levels, bids`queue, bids`atMarket, asks`prices, asks`levels, asks`queue, asks`atMarket
    ensures Stands(bids, After(lb, buyer.LeavesQty() == 0)) && Stands(asks, After(la, seller.LeavesQty() == 0))
    ensures Paired(buyer, seller, price, engine, events)
    ensures Others(buyers, i, bv) && Others(sellers, j, sv)
  {
    DistinctPair(buyers, i, sellers, j);
    events := ExecutePair(bids, asks, buyer, seller, price, engine, lb, la);
  }

  method TradeOne(bids: BookSide, asks: BookSide, buyer: Order, seller: Order, price: int, engine: Engine.MatchingEngine,
                  ghost buyers: seq<Order>, ghost i: nat, ghost sellers: seq<Order>, ghost j: nat,
                  ghost lb: Line, ghost la: Line, ghost st: Pairing)
      returns (events: seq<Event>, ghost now: Pairing)
    requires Stands(bids, lb) && Stands(asks, la) && bids != asks
    requires i < |buyers| && buyer == buyers[i] && !Empty(lb) && First(lb) == buyer && At(buyers, i, st.buysDone, st.buys)
    requires j < |sellers| && seller == sellers[j] && !Empty(la) && First(la) == seller && At(sellers, j, st.sellsDone, st.sells)
    requires AllOpen(st.buys) && AllOpen(st.sells) && engine.nextTrade == st.nextTrade && DistinctIds(buyers + sellers)
    modifies engine`nextTrade, buyer`cumQty, buyer`notional, buyer`status, seller`cumQty, seller`notional, seller`status
    modifies bids`prices, bids`levels, bids`queue, bids`atMarket, asks`prices, asks`levels, asks`queue, asks`atMarket
    ensures now == Pair(st, price) && now.events == st.events + events && engine.nextTrade == now.nextTrade
    ensures Stands(bids, After(lb, buyer.LeavesQty() == 0)) && Stands(asks, After(la, seller.LeavesQty() == 0))
    ensures At(buyers, Position(buyer.View(), i), now.buysDone, now.buys)
    ensures At(sellers, Position(seller.View(), j), now.sellsDone, now.sells)
  {
    now := Pair(st, price);
    AtOthers(buyers, i, st.buysDone, st.buys);
    AtOthers(sellers, j, st.sellsDone, st.sells);
    assert st.buys[0] == buyer.View() && st.sells[0] == seller.View();
    events := ExecuteKeeping(bids, asks, buyer, seller, price, engine, buyers, i, sellers, j, lb, la,
                             st.buysDone + st.buys, st.sellsDone + st.sells);
    AtNext(buyers, i, st.buysDone, st.buys);
    AtNext(sellers, j, st.sellsDone, st.sells);
  }

  // The two sides with their lists of willing orders, and those behind them.
  datatype Floor = Floor(bids: BookSide, asks: BookSide,
                         buyers: seq<Order>, ghost buyMarket: nat, ghost buyTail: seq<Order>,
                         sellers: seq<Order>, ghost sellMarket: nat, ghost sellTail: seq<Order>)

  // Both sides of the book and both lists stand at the same stage of the pairing.
  ghost predicate Going(f: Floor, lb: Line, la: Line, st: Pairing, i: nat, j: nat)
    reads f.bids, f.bids.atMarket`price, f.bids.queue`price, f.asks, f.asks.atMarket`price, f.asks.queue`price
    reads f.buyers, f.sellers
  {
    && Stands(f.bids, lb) && Stands(f.asks, la)
    && Fits(lb, f.buyers, f.buyMarket, i, f.buyTail) && Fits(la, f.sellers, f.sellMarket, j, f.sellTail)
    && At(f.buyers, i, st.buysDone, st.buys) && At(f.sellers, j, st.sellsDone, st.sells)
    && AllOpen(st.buys) && AllOpen(st.sells)
  }

  ghost predicate Apart(f: Floor) {
    f.bids != f.asks && DistinctIds(f.buyers + f.sellers)
  }

  method TradeNext(f: Floor, buyer: Order, seller: Order, price: int, engine: Engine.MatchingEngine,
                   ghost lb: Line, ghost la: Line, ghost st: Pairing, ghost i: nat, ghost j: nat)
      returns (events: seq<Event>, ghost nowLb: Line, ghost nowLa: Line, ghost now: Pairing)
    requires Apart(f) && Going(f, lb, la, st, i, j) && engine.nextTrade == st.nextTrade
    requires i < |f.buyers| && buyer == f.buyers[i] && j < |f.sellers| && seller == f.sellers[j]
    modifies engine`nextTrade, buyer`cumQty, buyer`notional, buyer`status, seller`cumQty, seller`notional, seller`status
    modifies f.bids`prices, f.bids`levels, f.bids`queue, f.bids`atMarket
    modifies f.asks`prices, f.asks`levels, f.asks`queue, f.asks`atMarket
    ensures Going(f, nowLb, nowLa, now, Position(buyer.View(), i), Position(seller.View(), j))
    ensures Finish(now, price) == Finish(st, price) && now.events == st.events + events && engine.nextTrade == now.nextTrade
    ensures buyer.LeavesQty() == 0 || seller.LeavesQty() == 0
    ensures buyer.LeavesQty() < old(buyer.LeavesQty())
  {
    FitsFirst(lb, f.buyers, f.buyMarket, i, f.buyTail);
    FitsFirst(la, f.sellers, f.sellMarket, j, f.sellTail);
    PairFinishes(st, price);
    events, now := TradeOne(f.bids, f.asks, buyer, seller, price, engine, f.buyers, i, f.sellers, j, lb, la, st);
    nowLb, nowLa := After(lb, buyer.LeavesQty() == 0), After(la, seller.LeavesQty() == 0);
  }

  // The pairing has reached the i-th buyer and the j-th seller, and will end in `whole`.
  ghost predicate Filling(f: Floor, buyer: Order, price: int, engine: Engine.MatchingEngine, events: seq<Event>,
                          lb: Line, la: Line, st: Pairing, whole: Pairing, i: nat, j: nat)
    reads f.bids, f.bids.atMarket`price, f.bids.queue`price, f.asks, f.asks.atMarket`price, f.asks.queue`price
    reads f.buyers, f.sellers, buyer, engine`nextTrade
  {
    && Going(f, lb, la, st, Position(buyer.View(), i), j)
    && Finish(st, price) == whole
    && events == st.events && engine.nextTrade == st.nextTrade
  }

  lemma BuyerWaits(f: Floor, buyer: Order, lb: Line, la: Line, st: Pairing, i: nat, j: nat)
    requires Going(f, lb, la, st, i, j) && i < |f.buyers| && buyer == f.buyers[i]
    ensures buyer.LeavesQty() > 0 && Position(buyer.View(), i) == i
  {
    assert st.buys[0] == buyer.View();
  }

  // A buyer still open against one seller.
  method FillOnce(f: Floor, buyer: Order, price: int, engine: Engine.MatchingEngine, at: nat, sofar: seq<Event>,
                  ghost lb0: Line, ghost la0: Line, ghost st0: Pairing, ghost whole: Pairing, ghost i: nat)
      returns (events: seq<Event>, j: nat, ghost lb: Line, ghost la: Line, ghost st: Pairing)
    requires Apart(f) && Filling(f, buyer, price, engine, sofar, lb0, la0, st0, whole, i, at)
    requires i < |f.buyers| && buyer == f.buyers[i] && buyer.LeavesQty() > 0 && at < |f.sellers|
    modifies engine`nextTrade, f.buyers`cumQty, f.buyers`notional, f.buyers`status
    modifies f.sellers`cumQty, f.sellers`notional, f.sellers`status
    modifies f.bids`prices, f.bids`levels, f.bids`queue, f.bids`atMarket
    modifies f.asks`prices, f.asks`levels, f.asks`queue, f.asks`atMarket
    ensures Filling(f, buyer, price, engine, events, lb, la, st, whole, i, j)
    ensures buyer.LeavesQty() < old(buyer.LeavesQty())
  {
    var seller := f.sellers[at];
    var made;
    made, lb, la, st := TradeNext(f, buyer, seller, price, engine, lb0, la0, st0, i, at);
    events := sofar + made;
    j := if seller.LeavesQty() == 0 then at + 1 else at;
  }

  // One buyer against the sellers from the j-th on. A seller met is always open,
  // since the ones filled are behind the index.
  method FillBuyer(f: Floor, buyer: Order, price: int, engine: Engine.MatchingEngine, first: nat, sofar: seq<Event>,
                   ghost lb0: Line, ghost la0: Line, ghost st0: Pairing, ghost whole: Pairing, ghost i: nat)
      returns (events: seq<Event>, j: nat, ghost lb: Line, ghost la: Line, ghost st: Pairing)
    requires Apart(f) && i < |f.buyers| && buyer == f.buyers[i]
    requires Filling(f, buyer, price, engine, sofar, lb0, la0, st0, whole, i, first)
    modifies engine`nextTrade, f.buyers`cumQty, f.buyers`notional, f.buyers`status
    modifies f.sellers`cumQty, f.sellers`notional, f.sellers`status
    modifies f.bids`prices, f.bids`levels, f.bids`queue, f.bids`atMarket
    modifies f.asks`prices, f.asks`levels, f.asks`queue, f.asks`atMarket
    ensures Filling(f, buyer, price, engine, events, lb, la, st, whole, i, j)
    ensures buyer.LeavesQty() == 0 || j >= |f.sellers|
  {
    events, j, lb, la, st := sofar, first, lb0, la0, st0;
    while buyer.LeavesQty() > 0 && j < |f.sellers|
      invariant Filling(f, buyer, price, engine, events, lb, la, st, whole, i, j)
      decreases buyer.LeavesQty()
    {
      events, j, lb, la, st := FillOnce(f, buyer, price, engine, j, events, lb, la, st, whole, i);
    }
  }

  // Every willing buyer in turn, until the sellers run out.
  method PairUp(f: Floor, price: int, engine: Engine.MatchingEngine, ghost lb0: Line, ghost la0: Line, ghost st0: Pairing)
      returns (events: seq<Event>, ghost lb: Line, ghost la: Line, ghost st: Pairing, ghost i: nat, ghost j: nat)
    requires Apart(f) && Going(f, lb0, la0, st0, 0, 0) && engine.nextTrade == st0.nextTrade && st0.events == []
    modifies engine`nextTrade, f.buyers`cumQty, f.buyers`notional, f.buyers`status
    modifies f.sellers`cumQty, f.sellers`notional, f.sellers`status
    modifies f.bids`prices, f.bids`levels, f.bids`queue, f.bids`atMarket
    modifies f.asks`prices, f.asks`levels, f.asks`queue, f.asks`atMarket
    ensures Going(f, lb, la, st, i, j)
    ensures st == Finish(st0, price) && events == st.events && engine.nextTrade == st.nextTrade
  {
    events, lb, la, st, i, j := [], lb0, la0, st0, 0, 0;
    ghost var whole := Finish(st0, price);
    var sellIndex: nat := 0;
    for b := 0 to |f.buyers|
      invariant i == b && j == sellIndex && Going(f, lb, la, st, b, sellIndex)
      invariant Finish(st, price) == whole && events == st.events
      invariant engine.nextTrade == st.nextTrade
    {
      var buyer := f.buyers[b];
      BuyerWaits(f, buyer, lb, la, st, b, sellIndex);
      events, sellIndex, lb, la, st := FillBuyer(f, buyer, price, engine, sellIndex, events, lb, la, st, whole, b);
      i, j := Position(buyer.View(), b), sellIndex;
      if sellIndex >= |f.sellers| {
        break;
      }
    }
    FinishedPairing(st, price);
  }

  // ---- the whole book -----------------------------------------------------------------

  // A side, its willing orders and those behind them, before trading.
  ghost predicate Lined(side: BookSide, price: int, orders: seq<Order>, tail: seq<Order>)
    reads side, side.atMarket, side.queue
  {
    && side.Valid() && AllOpen(Views(side.atMarket)) && AllOpen(Views(side.queue))
    && var k := Place(side.isBuy, Views(side.queue), price);
       orders == side.atMarket + side.queue[..k] && tail == side.queue[k..]
  }

  lemma SplitLine(m: seq<Order>, q: seq<Order>, k: nat)
    requires k <= |q|
    ensures m + q == (m + q[..k]) + q[k..]
    ensures Views(m + q[..k]) == Views(m) + Views(q)[..k]
  {
  }

  lemma AllAt(orders: seq<Order>)
    ensures At(orders, 0, [], Views(orders))
  {
  }

  lemma LinedFits(side: BookSide, price: int, orders: seq<Order>, tail: seq<Order>)
    requires Lined(side, price, orders, tail)
    ensures Stands(side, Line(side.atMarket, side.queue))
    ensures Fits(Line(side.atMarket, side.queue), orders, |side.atMarket|, 0, tail)
    ensures At(orders, 0, [], Accepting(side.isBuy, side.View(), price)) && AllOpen(Accepting(side.isBuy, side.View(), price))
    ensures side.Members() == orders + tail
  {
    var m, q, k := side.atMarket, side.queue, Place(side.isBuy, Views(side.queue), price);
    SplitLine(m, q, k);
    AllAt(orders);
    assert orders[0..] == orders;
  }

  // Which part of a line is priceless, told from how far trading went.
  lemma LineParts(l: Line, orders: seq<Order>, m: nat, i: nat, tail: seq<Order>)
    requires Fits(l, orders, m, i, tail)
    ensures i < m ==> l.market == orders[i..m] && l.queue == orders[m..] + tail
    ensures i >= m ==> l.market == [] && l.queue == orders[i..] + tail
  {
    var all := l.market + l.queue;
    assert l.market == all[..|l.market|] && l.queue == all[|l.market|..];
  }

  lemma AtViews(orders: seq<Order>, i: nat, done: seq<OrderView>, rest: seq<OrderView>, m: nat, tail: seq<Order>)
    requires At(orders, i, done, rest) && i <= |orders| && m <= |orders|
    ensures Views(orders[..i]) == done
    ensures Views(orders[i..] + tail) == rest + Views(tail)
    ensures i < m ==> Views(orders[i..m]) == rest[..m - i] && Views(orders[m..] + tail) == rest[m - i..] + Views(tail)
  {
  }

  // A side when trading is over, read as a value.
  lemma SideRemains(side: BookSide, s: SideView, price: int, orders: seq<Order>, tail: seq<Order>, l: Line, i: nat,
                    done: seq<OrderView>, rest: seq<OrderView>)
    requires Stands(side, l) && Fits(l, orders, |s.market|, i, tail) && At(orders, i, done, rest)
    requires var k := Place(side.isBuy, s.queue, price); |orders| == |s.market| + k && Views(tail) == s.queue[k..]
    ensures |done| + |rest| == |Accepting(side.isBuy, s, price)|
    ensures Remain(side.isBuy, s, price, |done|, rest) == side.View()
  {
    LineRemains(side.isBuy, s, price, orders, tail, l, i, done, rest);
  }

  lemma LineRemains(isBuy: bool, s: SideView, price: int, orders: seq<Order>, tail: seq<Order>, l: Line, i: nat,
                    done: seq<OrderView>, rest: seq<OrderView>)
    requires Fits(l, orders, |s.market|, i, tail) && At(orders, i, done, rest)
    requires var k := Place(isBuy, s.queue, price); |orders| == |s.market| + k && Views(tail) == s.queue[k..]
    ensures |done| + |rest| == |Accepting(isBuy, s, price)|
    ensures Remain(isBuy, s, price, |done|, rest) == SideView(Views(l.market), Views(l.queue))
  {
    LineViews(l, orders, |s.market|, i, tail, done, rest);
    RemainAs(isBuy, s, price, |done|, rest, Views(tail), Views(l.market), Views(l.queue));
  }

  // The values of the two parts of a line.
  lemma LineViews(l: Line, orders: seq<Order>, m: nat, i: nat, tail: seq<Order>, done: seq<OrderView>, rest: seq<OrderView>)
    requires Fits(l, orders, m, i, tail) && At(orders, i, done, rest)
    ensures i < m ==> Views(l.market) == rest[..m - i] && Views(l.queue) == rest[m - i..] + Views(tail)
    ensures i >= m ==> Views(l.market) == [] && Views(l.queue) == rest + Views(tail)
  {
    LineParts(l, orders, m, i, tail);
    AtViews(orders, i, done, rest, m, tail);
  }

  lemma RemainAs(isBuy: bool, s: SideView, price: int, done: nat, rest: seq<OrderView>, tail: seq<OrderView>,
                 market: seq<OrderView>, queue: seq<OrderView>)
    requires done + |rest| == |Accepting(isBuy, s, price)| && tail == s.queue[Place(isBuy, s.queue, price)..]
    requires done < |s.market| ==> market == rest[..|s.market| - done] && queue == rest[|s.market| - done..] + tail
    requires done >= |s.market| ==> market == [] && queue == rest + tail
    ensures Remain(isBuy, s, price, done, rest) == SideView(market, queue)
  {
  }

  // The orders behind the willing ones are no concern of the trading.
  lemma FloorApart(book: OrderBook, buyers: seq<Order>, buyTail: seq<Order>, sellers: seq<Order>, sellTail: seq<Order>)
    requires book.Valid() && book.bids.Members() == buyers + buyTail && book.asks.Members() == sellers + sellTail
    ensures DistinctIds(buyers + sellers)
    ensures forall k :: 0 <= k < |buyTail| ==> buyTail[k] !in buyers && buyTail[k] !in sellers
    ensures forall k :: 0 <= k < |sellTail| ==> sellTail[k] !in buyers && sellTail[k] !in sellers
    ensures forall k :: 0 <= k < |buyers| ==> buyers[k] in book.Members()
    ensures forall k :: 0 <= k < |sellers| ==> sellers[k] in book.Members()
  {
    DistinctSplit(book.bids.atMarket, book.bids.queue);
    DistinctSplit(book.asks.atMarket, book.asks.queue);
    ListsApart(buyers, buyTail, sellers, sellTail);
  }

  lemma ListsApart(xs: seq<Order>, xt: seq<Order>, ys: seq<Order>, yt: seq<Order>)
    requires DistinctIds(xs + xt) && DistinctIds(ys + yt) && ApartIds(xs + xt, ys + yt)
    ensures DistinctIds(xs + ys)
    ensures forall k :: 0 <= k < |xt| ==> xt[k] !in xs && xt[k] !in ys
    ensures forall k :: 0 <= k < |yt| ==> yt[k] !in xs && yt[k] !in ys
  {
    DistinctSplit(xs, xt);
    DistinctSplit(ys, yt);
    forall o, x | o in xs + xt && x in ys + yt ensures x.id != o.id {
    }
    assert ApartIds(ys + yt, xs + xt);
    HeadsApart(xs, xt, ys, yt);
    DistinctSplit(xs, ys);
    forall k | 0 <= k < |xt| ensures xt[k] !in xs && xt[k] !in ys {
      TailApart(xs, xt, ys, yt, xt[k]);
    }
    forall k | 0 <= k < |yt| ensures yt[k] !in xs && yt[k] !in ys {
      TailApart(ys, yt, xs, xt, yt[k]);
    }
  }

  lemma HeadsApart(xs: seq<Order>, xt: seq<Order>, ys: seq<Order>, yt: seq<Order>)
    requires ApartIds(xs + xt, ys + yt)
    ensures ApartIds(xs, ys)
  {
    forall o, x | o in xs && x in ys ensures o.id != x.id {
      InConcat(o, xs, xt);
      InConcat(x, ys, yt);
    }
  }

  lemma TailApart(xs: seq<Order>, xt: seq<Order>, ys: seq<Order>, yt: seq<Order>, o: Order)
    requires ApartIds(xs, xt) && ApartIds(xs + xt, ys + yt) && o in xt
    ensures o !in xs && o !in ys
  {
    InConcat(o, xs, xt);
    InConcat(o, ys, yt);
  }

  ghost predicate Unmoved(s: seq<Order>, v: seq<OrderView>)
    reads s
  {
    |v| == |s| && forall k :: 0 <= k < |s| ==> v[k] == s[k].View()
  }

  lemma TailsUnmoved(a: seq<Order>, b: seq<Order>, av: seq<OrderView>, bv: seq<OrderView>)
    requires |av| == |a| && |bv| == |b|
    ensures Unmoved(a + b, av + bv) <==> Unmoved(a, av) && Unmoved(b, bv)
  {
    var s, v := a + b, av + bv;
    assert forall k :: 0 <= k < |a| ==> s[k] == a[k] && v[k] == av[k];
    assert forall k :: 0 <= k < |b| ==> s[|a| + k] == b[k] && v[|a| + k] == bv[k];
  }

  // Trading on the floor leaves the orders behind the willing ones alone.
  method PairUpApart(f: Floor, price: int, engine: Engine.MatchingEngine, ghost lb0: Line, ghost la0: Line,
                     ghost st0: Pairing, ghost tails: seq<Order>, ghost v: seq<OrderView>)
      returns (events: seq<Event>, ghost lb: Line, ghost la: Line, ghost st: Pairing, ghost i: nat, ghost j: nat)
    requires Apart(f) && Going(f, lb0, la0, st0, 0, 0) && engine.nextTrade == st0.nextTrade && st0.events == []
    requires Unmoved(tails, v) && forall k :: 0 <= k < |tails| ==> tails[k] !in f.buyers && tails[k] !in f.sellers
    modifies engine`nextTrade, f.buyers`cumQty, f.buyers`notional, f.buyers`status
    modifies f.sellers`cumQty, f.sellers`notional, f.sellers`status
    modifies f.bids`prices, f.bids`levels, f.bids`queue, f.bids`atMarket
    modifies f.asks`prices, f.asks`levels, f.asks`queue, f.asks`atMarket
    ensures Going(f, lb, la, st, i, j)
    ensures st == Finish(st0, price) && events == st.events && engine.nextTrade == st.nextTrade
    ensures Unmoved(tails, v)
  {
    events, lb, la, st, i, j := PairUp(f, price, engine, lb0, la0, st0);
  }

  // The floor of an auction at a price.
  ghost predicate Opens(book: OrderBook, price: int, f: Floor, b: BookView)
    reads book.bids, book.bids.atMarket, book.bids.queue, book.asks, book.asks.atMarket, book.asks.queue
  {
    && f.bids == book.bids && f.asks == book.asks && b == book.View() && book.Valid()
    && Lined(book.bids, price, f.buyers, f.buyTail) && f.buyMarket == |book.bids.atMarket|
    && Lined(book.asks, price, f.sellers, f.sellTail) && f.sellMarket == |book.asks.atMarket|
  }

  ghost function Opening(b: BookView, price: int, tid: nat): Pairing {
    Pairing([], Accepting(true, b.bids, price), [], Accepting(false, b.asks, price), [], tid, 0)
  }

  lemma OpensGoing(book: OrderBook, price: int, f: Floor, b: BookView, tid: nat)
    requires Opens(book, price, f, b)
    ensures Apart(f)
    ensures Going(f, Line(book.bids.atMarket, book.bids.queue), Line(book.asks.atMarket, book.asks.queue),
                  Opening(b, price, tid), 0, 0)
    ensures book.bids.Members() == f.buyers + f.buyTail && book.asks.Members() == f.sellers + f.sellTail
  {
    LinedFits(book.bids, price, f.buyers, f.buyTail);
    LinedFits(book.asks, price, f.sellers, f.sellTail);
    FloorApart(book, f.buyers, f.buyTail, f.sellers, f.sellTail);
  }

  // How the floor's lists lie in the value of the book.
  ghost predicate Priced(f: Floor, b: BookView, price: int, bv: seq<OrderView>, sv: seq<OrderView>) {
    var k, l := Place(true, b.bids.queue, price), Place(false, b.asks.queue, price);
    && f.buyMarket == |b.bids.market| && |f.buyers| == |b.bids.market| + k && bv == b.bids.queue[k..]
    && f.sellMarket == |b.asks.market| && |f.sellers| == |b.asks.market| + l && sv == b.asks.queue[l..]
  }

  lemma OpensPriced(book: OrderBook, price: int, f: Floor, b: BookView)
    requires Opens(book, price, f, b)
    ensures Priced(f, b, price, Views(f.buyTail), Views(f.sellTail))
  {
    LinedPriced(book.bids, price, f.buyers, f.buyTail);
    LinedPriced(book.asks, price, f.sellers, f.sellTail);
  }

  lemma LinedPriced(side: BookSide, price: int, orders: seq<Order>, tail: seq<Order>)
    requires Lined(side, price, orders, tail)
    ensures var k := Place(side.isBuy, Views(side.queue), price);
      |orders| == |side.atMarket| + k && Views(tail) == Views(side.queue)[k..]
  {
    ViewsFrom(side.queue, Place(side.isBuy, Views(side.queue), price));
  }

  lemma ViewsFrom(q: seq<Order>, k: nat)
    requires k <= |q|
    ensures Views(q[k..]) == Views(q)[k..]
  {
    assert forall i :: 0 <= i < |q[k..]| ==> Views(q[k..])[i] == q[k + i].View();
  }

  // What the book is when the pairing is over.
  lemma Closes(f: Floor, b: BookView, price: int, lb: Line, la: Line, st: Pairing, i: nat, j: nat, tid: nat,
               bv: seq<OrderView>, sv: seq<OrderView>)
    requires AllOpenBook(b) && f.bids.isBuy && !f.asks.isBuy && Going(f, lb, la, st, i, j)
    requires Priced(f, b, price, bv, sv) && Unmoved(f.buyTail, bv) && Unmoved(f.sellTail, sv)
    requires st == Finish(Opening(b, price, tid), price)
    ensures ExecuteAt(b, price, tid) ==
      Execution(BookView(f.bids.View(), f.asks.View()), st.buysDone, st.sellsDone, st.events, st.nextTrade, st.traded)
    ensures Thinned(f, i, j) && Views(f.buyers[..i]) == st.buysDone && Views(f.sellers[..j]) == st.sellsDone
  {
    assert Views(f.buyTail) == bv && Views(f.sellTail) == sv;
    StartedPairing(Accepting(true, b.bids, price), Accepting(false, b.asks, price), price, tid);
    SideRemains(f.bids, b.bids, price, f.buyers, f.buyTail, lb, i, st.buysDone, st.buys);
    SideRemains(f.asks, b.asks, price, f.sellers, f.sellTail, la, j, st.sellsDone, st.sells);
    AtViews(f.buyers, i, st.buysDone, st.buys, 0, []);
    AtViews(f.sellers, j, st.sellsDone, st.sells, 0, []);
  }

  // Who is on the two sides afterwards: all but the first i buyers and j sellers.
  ghost predicate Thinned(f: Floor, i: nat, j: nat)
    reads f.bids, f.asks
  {
    && i <= |f.buyers| && j <= |f.sellers|
    && f.bids.Members() == f.buyers[i..] + f.buyTail && f.asks.Members() == f.sellers[j..] + f.sellTail
  }

  // Trades everything that can trade at the price, on an opened floor.
  method TradeFloor(book: OrderBook, f: Floor, price: int, engine: Engine.MatchingEngine, ghost b: BookView)
      returns (events: seq<Event>, ghost e: Execution, ghost i: nat, ghost j: nat)
    requires Opens(book, price, f, b) && AllOpenBook(b)
    modifies engine`nextTrade, f.buyers`cumQty, f.buyers`notional, f.buyers`status
    modifies f.sellers`cumQty, f.sellers`notional, f.sellers`status
    modifies book.bids`prices, book.bids`levels, book.bids`queue, book.bids`atMarket
    modifies book.asks`prices, book.asks`levels, book.asks`queue, book.asks`atMarket
    ensures e == ExecuteAt(b, price, old(engine.nextTrade))
    ensures book.bids.Valid() && book.asks.Valid() && book.View() == e.book
    ensures events == e.events && engine.nextTrade == e.nextTrade
    ensures Thinned(f, i, j) && Views(f.buyers[..i]) == e.buysDone && Views(f.sellers[..j]) == e.sellsDone
  {
    ghost var tid, lb, la := engine.nextTrade, Line(book.bids.atMarket, book.bids.queue), Line(book.asks.atMarket, book.asks.queue);
    ghost var st, bv, sv := Opening(b, price, tid), Views(f.buyTail), Views(f.sellTail);
    OpensGoing(book, price, f, b, tid);
    OpensPriced(book, price, f, b);
    FloorApart(book, f.buyers, f.buyTail, f.sellers, f.sellTail);
    TailsUnmoved(f.buyTail, f.sellTail, bv, sv);
    events, lb, la, st, i, j := PairUpApart(f, price, engine, lb, la, st, f.buyTail + f.sellTail, bv + sv);
    TailsUnmoved(f.buyTail, f.sellTail, bv, sv);
    Closes(f, b, price, lb, la, st, i, j, tid, bv, sv);
    e := ExecuteAt(b, price, tid);
  }

  // Who stays on the book: everyone but those filled.
  ghost predicate Kept(was: seq<Order>, gone: seq<Order>, now: seq<Order>) {
    && (forall o :: o in now ==> o in was && o !in gone)
    && (forall o :: o in was ==> o in gone || o in now)
  }

  lemma ThinnedKeeps(book: OrderBook, f: Floor, i: nat, j: nat, wasBids: seq<Order>, wasAsks: seq<Order>)
    requires f.bids == book.bids && f.asks == book.asks && Thinned(f, i, j)
    requires wasBids == f.buyers + f.buyTail && wasAsks == f.sellers + f.sellTail && DistinctIds(wasBids + wasAsks)
    ensures ApartIds(book.bids.Members(), book.asks.Members())
    ensures Kept(wasBids + wasAsks, f.buyers[..i] + f.sellers[..j], book.Members())
  {
    DistinctSplit(wasBids, wasAsks);
    assert wasBids == f.buyers[..i] + book.bids.Members() && wasAsks == f.sellers[..j] + book.asks.Members();
    DistinctSplit(f.buyers[..i], book.bids.Members());
    DistinctSplit(f.sellers[..j], book.asks.Members());
  }

  lemma AllDistinct(book: OrderBook)
    requires book.Valid()
    ensures DistinctIds(book.bids.Members() + book.asks.Members())
  {
    DistinctSplit(book.bids.Members(), book.asks.Members());
  }

  // The floor an auction at this price trades on.
  method OpenFloor(book: OrderBook, price: int, ghost b: BookView) returns (f: Floor)
    requires book.Valid() && b == book.View() && AllOpenBook(b)
    ensures Opens(book, price, f, b)
  {
    BothOpen(book, b);
    var buyers, sellers;
    ghost var buyTail, sellTail;
    buyers, buyTail, sellers, sellTail := LineUpBoth(book.bids, book.asks, price);
    f := Floor(book.bids, book.asks, buyers, |b.bids.market|, buyTail, sellers, |b.asks.market|, sellTail);
    OpenedAs(book, price, f, b);
  }

  lemma OpenedAs(book: OrderBook, price: int, f: Floor, b: BookView)
    requires book.Valid() && b == book.View() && f.bids == book.bids && f.asks == book.asks
    requires f.buyMarket == |b.bids.market| && f.sellMarket == |b.asks.market|
    requires Lined(book.bids, price, f.buyers, f.buyTail) && Lined(book.asks, price, f.sellers, f.sellTail)
    ensures Opens(book, price, f, b)
  {
  }

  ghost predicate Open(side: BookSide)
    reads side, side.atMarket, side.queue
  {
    side.Valid() && AllOpen(Views(side.atMarket)) && AllOpen(Views(side.queue))
  }

  lemma BothOpen(book: OrderBook, b: BookView)
    requires book.Valid() && b == book.View() && AllOpenBook(b)
    ensures Open(book.bids) && Open(book.asks)
  {
  }

  method LineUpBoth(bids: BookSide, asks: BookSide, price: int)
      returns (buyers: seq<Order>, ghost buyTail: seq<Order>, sellers: seq<Order>, ghost sellTail: seq<Order>)
    requires Open(bids) && Open(asks)
    ensures Lined(bids, price, buyers, buyTail) && Lined(asks, price, sellers, sellTail)
  {
    buyers, buyTail := LineUp(bids, price);
    sellers, sellTail := LineUp(asks, price);
  }

  method LineUp(side: BookSide, price: int) returns (orders: seq<Order>, ghost tail: seq<Order>)
    requires Open(side)
    ensures Lined(side, price, orders, tail)
  {
    orders := ExecutableSide(side, price);
    tail := side.queue[Place(side.isBuy, Views(side.queue), price)..];
  }

  // Trades everything that can trade at the price, and reports it.
  method TradeAt(book: OrderBook, price: int, engine: Engine.MatchingEngine, ghost b: BookView)
      returns (events: seq<Event>, ghost e: Execution, ghost bought: seq<Order>, ghost sold: seq<Order>)
    requires book.Valid() && b == book.View() && AllOpenBook(b)
    modifies engine`nextTrade, book.Members()`cumQty, book.Members()`notional, book.Members()`status
    modifies book.bids`prices, book.bids`levels, book.bids`queue, book.bids`atMarket
    modifies book.asks`prices, book.asks`levels, book.asks`queue, book.asks`atMarket
    ensures e == ExecuteAt(b, price, old(engine.nextTrade))
    ensures book.Valid() && book.View() == e.book && events == e.events && engine.nextTrade == e.nextTrade
    ensures Views(bought) == e.buysDone && Views(sold) == e.sellsDone
    ensures Kept(old(book.Members()), bought + sold, book.Members())
  {
    var f := OpenFloor(book, price, b);
    ghost var wasBids, wasAsks := book.bids.Members(), book.asks.Members();
    AllDistinct(book);
    OpensGoing(book, price, f, b, engine.nextTrade);
    FloorApart(book, f.buyers, f.buyTail, f.sellers, f.sellTail);
    ghost var i, j;
    events, e, i, j := TradeFloor(book, f, price, engine, b);
    ThinnedKeeps(book, f, i, j, wasBids, wasAsks);
    bought, sold := f.buyers[..i], f.sellers[..j];
  }
}
