// Trading at the auction price, and the state an auction leaves behind
// (exchangesim/core/auction.py execute, exchangesim/core/market.py uncross).
module AuctionTrading {
  import opened Options
  import opened Orders
  import opened PriceLevels
  import opened Matching
  import opened BookRules
  import opened Auction

  // Two lists in auction priority traded against each other at one price.
  // `buysDone`/`sellsDone` are the orders filled, the rests what remains.
  datatype Pairing = Pairing(buysDone: seq<OrderView>, buys: seq<OrderView>,
                             sellsDone: seq<OrderView>, sells: seq<OrderView>,
                             events: seq<Event>, nextTrade: nat, traded: int)

  // Nobody removed liquidity: both fills are reported as having added it.
  function PairEvents(buyer: OrderView, seller: OrderView, quantity: int, price: int, tradeId: nat): seq<Event> {
    [FillReport(buyer, quantity, price, tradeId, Added, seller),
     FillReport(seller, quantity, price, tradeId, Added, buyer),
     Traded(price, quantity, tradeId, buyer.terms.id, seller.terms.id, None)]
  }

  // A list whose first order became `o`: the order leaves the list once filled.
  function Done(o: OrderView): seq<OrderView> {
    if Leaves(o) == 0 then [o] else []
  }

  function Next(q: seq<OrderView>, o: OrderView): (r: seq<OrderView>)
    requires q != []
    ensures |r| + |Done(o)| == |q|
  {
    if Leaves(o) == 0 then q[1..] else [o] + q[1..]
  }

  ghost function PairOff(buys: seq<OrderView>, sells: seq<OrderView>, price: int, nextTrade: nat): Pairing
    requires AllOpen(buys) && AllOpen(sells)
    decreases |buys| + |sells|
  {
    if buys == [] || sells == [] then Pairing([], buys, [], sells, [], nextTrade, 0)
    else
      var q := Least(Leaves(buys[0]), Leaves(sells[0]));
      var b, s := WithFill(buys[0], q, price), WithFill(sells[0], q, price);
      var t := PairOff(Next(buys, b), Next(sells, s), price, nextTrade + 1);
      Pairing(Done(b) + t.buysDone, t.buys, Done(s) + t.sellsDone, t.sells,
              PairEvents(b, s, q, price, nextTrade) + t.events, t.nextTrade, q + t.traded)
  }

  // Filled orders form a prefix of each list, with at most one partly filled
  // order behind them and nothing further touched.
  ghost predicate UsesPrefix(q: seq<OrderView>, done: seq<OrderView>, rest: seq<OrderView>) {
    && |done| + |rest| == |q|
    && (forall i :: 0 <= i < |done| ==> done[i].terms == q[i].terms && done[i].status == Filled)
    && (rest != [] ==> rest[0].terms == q[|done|].terms)
    && (forall i :: 0 < i < |rest| ==> rest[i] == q[|done| + i])
  }

  lemma UsesPrefixStep(q: seq<OrderView>, o: OrderView, done: seq<OrderView>, rest: seq<OrderView>)
    requires q != [] && o.terms == q[0].terms && (Leaves(o) == 0 ==> o.status == Filled)
    requires UsesPrefix(Next(q, o), done, rest)
    ensures UsesPrefix(q, Done(o) + done, rest)
  {
    assert forall i :: 1 <= i < |q| ==> q[i] == q[1..][i - 1];
  }

  lemma {:induction false} PairOffUsesPrefixes(buys: seq<OrderView>, sells: seq<OrderView>, price: int, nextTrade: nat)
    requires AllOpen(buys) && AllOpen(sells)
    ensures var r := PairOff(buys, sells, price, nextTrade);
      && UsesPrefix(buys, r.buysDone, r.buys) && UsesPrefix(sells, r.sellsDone, r.sells)
      && AllOpen(r.buys) && AllOpen(r.sells)
      && (r.buys == [] || r.sells == [])
    decreases |buys| + |sells|
  {
    if buys != [] && sells != [] {
      var q := Least(Leaves(buys[0]), Leaves(sells[0]));
      var b, s := WithFill(buys[0], q, price), WithFill(sells[0], q, price);
      PairOffUsesPrefixes(Next(buys, b), Next(sells, s), price, nextTrade + 1);
      var t := PairOff(Next(buys, b), Next(sells, s), price, nextTrade + 1);
      UsesPrefixStep(buys, b, t.buysDone, t.buys);
      UsesPrefixStep(sells, s, t.sellsDone, t.sells);
    }
  }

  // Everything that can trade does: exactly the smaller side's open quantity.
  lemma {:induction false} PairOffTradesLeast(buys: seq<OrderView>, sells: seq<OrderView>, price: int, nextTrade: nat)
    requires AllOpen(buys) && AllOpen(sells)
    ensures PairOff(buys, sells, price, nextTrade).traded == Least(Sum(Leaves, buys), Sum(Leaves, sells))
    decreases |buys| + |sells|
  {
    SumOpen(buys);
    SumOpen(sells);
    if buys != [] && sells != [] {
      var q := Least(Leaves(buys[0]), Leaves(sells[0]));
      var b, s := WithFill(buys[0], q, price), WithFill(sells[0], q, price);
      PairOffTradesLeast(Next(buys, b), Next(sells, s), price, nextTrade + 1);
    }
  }

  lemma {:induction false} PairOffLeaves(buys: seq<OrderView>, sells: seq<OrderView>, price: int, nextTrade: nat)
    requires AllOpen(buys) && AllOpen(sells)
    ensures var r := PairOff(buys, sells, price, nextTrade);
      && Sum(Leaves, r.buys) == Sum(Leaves, buys) - r.traded
      && Sum(Leaves, r.sells) == Sum(Leaves, sells) - r.traded
    decreases |buys| + |sells|
  {
    if buys != [] && sells != [] {
      var q := Least(Leaves(buys[0]), Leaves(sells[0]));
      var b, s := WithFill(buys[0], q, price), WithFill(sells[0], q, price);
      PairOffLeaves(Next(buys, b), Next(sells, s), price, nextTrade + 1);
    }
  }

  // ---- the book after trading at a price ---------------------------------------

  // The orders of one side that accept price p, in auction priority.
  function Accepting(isBuy: bool, s: SideView, p: int): seq<OrderView> {
    s.market + Willing(isBuy, s.queue, p)
  }

  // The side once the first `done` accepting orders are gone and `rest` remains of them.
  function Remain(isBuy: bool, s: SideView, p: int, done: nat, rest: seq<OrderView>): SideView
    requires done + |rest| == |Accepting(isBuy, s, p)|
  {
    var m, k := |s.market|, Place(isBuy, s.queue, p);
    if done >= m then SideView([], rest + s.queue[k..])
    else SideView(rest[..m - done], rest[m - done..] + s.queue[k..])
  }

  datatype Execution = Execution(book: BookView, buysDone: seq<OrderView>, sellsDone: seq<OrderView>,
                                 events: seq<Event>, nextTrade: nat, traded: int)

  ghost predicate AllOpenBook(b: BookView) {
    OpenBook(b) && AllOpen(b.bids.market) && AllOpen(b.asks.market)
  }

  ghost function ExecuteAt(b: BookView, p: int, nextTrade: nat): Execution
    requires AllOpenBook(b)
  {
    var buys, sells := Accepting(true, b.bids, p), Accepting(false, b.asks, p);
    var r := PairOff(buys, sells, p, nextTrade);
    PairOffUsesPrefixes(buys, sells, p, nextTrade);
    Execution(BookView(Remain(true, b.bids, p, |r.buysDone|, r.buys),
                       Remain(false, b.asks, p, |r.sellsDone|, r.sells)),
              r.buysDone, r.sellsDone, r.events, r.nextTrade, r.traded)
  }

  // What trades at the price is what the auction announced for it.
  lemma ExecutesTheVolume(b: BookView, p: int, nextTrade: nat)
    requires AllOpenBook(b)
    ensures ExecuteAt(b, p, nextTrade).traded == Profile(b, p).volume
  {
    PairOffTradesLeast(Accepting(true, b.bids, p), Accepting(false, b.asks, p), p, nextTrade);
    SumConcat(Leaves, b.bids.market, Willing(true, b.bids.queue, p));
    SumConcat(Leaves, b.asks.market, Willing(false, b.asks.queue, p));
  }

  // The queue position from which a side survives.
  function Front(s: SideView, done: nat): nat {
    if done >= |s.market| then done - |s.market| else 0
  }

  lemma RemainTerms(isBuy: bool, s: SideView, p: int, done: seq<OrderView>, rest: seq<OrderView>)
    requires UsesPrefix(Accepting(isBuy, s, p), done, rest)
    ensures var r, h := Remain(isBuy, s, p, |done|, rest), Front(s, |done|);
      && |r.queue| + h == |s.queue|
      && (forall i :: 0 <= i < |r.queue| ==> r.queue[i].terms == s.queue[h + i].terms)
      && |r.market| == (if |done| >= |s.market| then 0 else |s.market| - |done|)
      && (forall i :: 0 <= i < |r.market| ==> r.market[i].terms == s.market[|done| + i].terms)
  {
    var m, k := |s.market|, Place(isBuy, s.queue, p);
    var l, d := Accepting(isBuy, s, p), |done|;
    var r, n := Remain(isBuy, s, p, d, rest), if d >= m then 0 else m - d;
    assert forall i :: 0 <= i < |rest| ==> rest[i].terms == l[d + i].terms;
    assert forall i :: m <= i < |l| ==> l[i] == s.queue[i - m];
    forall i | 0 <= i < |r.queue| ensures r.queue[i].terms == s.queue[Front(s, d) + i].terms {
      assert r.queue[i] == if n + i < |rest| then rest[n + i] else s.queue[k + (n + i - |rest|)];
    }
  }

  // What is traded is less than the orders up to and including the first survivor.
  lemma TradedBeforeSurvivor(l: seq<OrderView>, done: seq<OrderView>, rest: seq<OrderView>, traded: int)
    requires UsesPrefix(l, done, rest) && rest != [] && AllOpen(rest)
    requires traded == Sum(Leaves, l) - Sum(Leaves, rest)
    ensures traded < Sum(Leaves, l[..|done| + 1])
  {
    var d := |done|;
    assert l == l[..d + 1] + l[d + 1..];
    SumConcat(Leaves, l[..d + 1], l[d + 1..]);
    assert rest[1..] == l[d + 1..];
  }

  lemma AcceptingPrefix(isBuy: bool, s: SideView, p: int, n: nat, k: nat)
    requires n <= |Accepting(isBuy, s, p)| && k <= |s.queue| && n <= |s.market| + k
    ensures Sum(Leaves, Accepting(isBuy, s, p)[..n]) <= Sum(Leaves, s.market) + Sum(Leaves, s.queue[..k])
  {
    var l, m := Accepting(isBuy, s, p), |s.market|;
    if n <= m {
      assert l[..n] == s.market[..n] && s.market[..m] == s.market;
      SumPrefix(s.market, n, m);
      SumOpen(s.queue[..k]);
    } else {
      assert l[..n] == s.market + s.queue[..n - m];
      SumConcat(Leaves, s.market, s.queue[..n - m]);
      SumPrefix(s.queue, n - m, k);
    }
  }

  // If this side's first survivor accepts x, this side brings more volume at x
  // than was traded at p.
  lemma LeftoverVolume(isBuy: bool, s: SideView, p: int, x: int, done: seq<OrderView>, rest: seq<OrderView>, traded: int)
    requires AllOpen(rest) && UsesPrefix(Accepting(isBuy, s, p), done, rest)
    requires traded == Sum(Leaves, Accepting(isBuy, s, p)) - Sum(Leaves, rest)
    requires rest != [] && Front(s, |done|) < Place(isBuy, s.queue, x)
    ensures traded < Volume(isBuy, s, x)
  {
    TradedBeforeSurvivor(Accepting(isBuy, s, p), done, rest, traded);
    AcceptingPrefix(isBuy, s, p, |done| + 1, Place(isBuy, s.queue, x));
  }

  // The next quote beyond p brings more volume than p.
  lemma UsedUpVolume(isBuy: bool, s: SideView, p: int)
    requires Sorted(isBuy, s.queue) && AllOpen(s.queue) && Place(isBuy, s.queue, p) < |s.queue|
    ensures Volume(isBuy, s, Px(s.queue[Place(isBuy, s.queue, p)])) > Volume(isBuy, s, p)
  {
    var k := Place(isBuy, s.queue, p);
    var x := Px(s.queue[k]);
    PlaceExact(isBuy, s.queue, x, k);
    SumPrefix(s.queue, k, Place(isBuy, s.queue, x));
  }

  // One side has traded everything willing at p, and its next quote is x. Were
  // the other side's first survivor to accept x, x would trade more than p did.
  lemma CrossWouldTradeMore(isBuy: bool, used: SideView, other: SideView, p: int,
                            done: seq<OrderView>, rest: seq<OrderView>, traded: int)
    requires Sorted(isBuy, used.queue) && AllOpen(used.queue)
    requires Sorted(!isBuy, other.queue) && AllOpen(other.queue) && AllOpen(other.market) && AllOpen(rest)
    requires Place(isBuy, used.queue, p) < |used.queue|
    requires UsesPrefix(Accepting(!isBuy, other, p), done, rest) && Front(other, |done|) < |other.queue|
    requires traded == Sum(Leaves, Accepting(!isBuy, other, p)) - Sum(Leaves, rest)
    requires traded <= Volume(isBuy, used, p)
    requires !Better(!isBuy, Px(used.queue[Place(isBuy, used.queue, p)]), Px(other.queue[Front(other, |done|)]))
    ensures var x := Px(used.queue[Place(isBuy, used.queue, p)]);
      traded < Volume(isBuy, used, x) && traded < Volume(!isBuy, other, x)
  {
    var x, h := Px(used.queue[Place(isBuy, used.queue, p)]), Front(other, |done|);
    UsedUpVolume(isBuy, used, p);
    PlaceExact(!isBuy, other.queue, p, h);
    PlaceExact(!isBuy, other.queue, x, h);
    LeftoverVolume(!isBuy, other, p, x, done, rest, traded);
  }

  // Neither side of the book holds an order the other would trade with.
  predicate Uncrossed(b: BookView) {
    b.bids.queue == [] || b.asks.queue == [] || Px(b.bids.queue[0]) < Px(b.asks.queue[0])
  }

  // The first survivors of each side, found in the book before trading.
  lemma ExecuteHeads(b: BookView, p: int, nextTrade: nat)
    requires AllOpenBook(b)
    ensures var e := ExecuteAt(b, p, nextTrade);
      var i, j := Front(b.bids, |e.buysDone|), Front(b.asks, |e.sellsDone|);
      && (e.book.bids.queue != [] ==> i < |b.bids.queue| && e.book.bids.queue[0].terms == b.bids.queue[i].terms)
      && (e.book.asks.queue != [] ==> j < |b.asks.queue| && e.book.asks.queue[0].terms == b.asks.queue[j].terms)
  {
    var buys, sells := Accepting(true, b.bids, p), Accepting(false, b.asks, p);
    var r := PairOff(buys, sells, p, nextTrade);
    PairOffUsesPrefixes(buys, sells, p, nextTrade);
    RemainTerms(true, b.bids, p, r.buysDone, r.buys);
    RemainTerms(false, b.asks, p, r.sellsDone, r.sells);
  }

  lemma SurvivorsDoNotCross(b: BookView, p: int, r: Pairing, i: nat, j: nat)
    requires AuctionBook(b) && AllOpen(r.buys) && AllOpen(r.sells) && (r.buys == [] || r.sells == [])
    requires UsesPrefix(Accepting(true, b.bids, p), r.buysDone, r.buys)
    requires UsesPrefix(Accepting(false, b.asks, p), r.sellsDone, r.sells)
    requires r.traded == Sum(Leaves, Accepting(true, b.bids, p)) - Sum(Leaves, r.buys)
    requires r.traded == Sum(Leaves, Accepting(false, b.asks, p)) - Sum(Leaves, r.sells)
    requires r.traded == Profile(b, p).volume && forall x :: Profile(b, x).volume <= r.traded
    requires i == Front(b.bids, |r.buysDone|) && j == Front(b.asks, |r.sellsDone|)
    ensures i < |b.bids.queue| && j < |b.asks.queue| ==> Px(b.bids.queue[i]) < Px(b.asks.queue[j])
  {
    if i < |b.bids.queue| && j < |b.asks.queue| && Px(b.bids.queue[i]) >= Px(b.asks.queue[j]) {
      var atAsk, atBid := Profile(b, Px(b.asks.queue[j])), Profile(b, Px(b.bids.queue[i]));
      if r.sells == [] {
        CrossWouldTradeMore(false, b.asks, b.bids, p, r.buysDone, r.buys, r.traded);
      } else {
        CrossWouldTradeMore(true, b.bids, b.asks, p, r.sellsDone, r.sells, r.traded);
      }
      assert false;
    }
  }

  // What pairing off the accepting orders leaves behind, for whoever need not know how.
  lemma PairingAt(b: BookView, p: int, nextTrade: nat) returns (r: Pairing)
    requires AllOpenBook(b)
    ensures var e := ExecuteAt(b, p, nextTrade); e.buysDone == r.buysDone && e.sellsDone == r.sellsDone
    ensures AllOpen(r.buys) && AllOpen(r.sells) && (r.buys == [] || r.sells == [])
    ensures UsesPrefix(Accepting(true, b.bids, p), r.buysDone, r.buys)
    ensures UsesPrefix(Accepting(false, b.asks, p), r.sellsDone, r.sells)
    ensures r.traded == Sum(Leaves, Accepting(true, b.bids, p)) - Sum(Leaves, r.buys)
    ensures r.traded == Sum(Leaves, Accepting(false, b.asks, p)) - Sum(Leaves, r.sells)
    ensures r.traded == Profile(b, p).volume
  {
    var buys, sells := Accepting(true, b.bids, p), Accepting(false, b.asks, p);
    r := PairOff(buys, sells, p, nextTrade);
    PairOffUsesPrefixes(buys, sells, p, nextTrade);
    PairOffLeaves(buys, sells, p, nextTrade);
    ExecutesTheVolume(b, p, nextTrade);
  }

  // Trading at a price of maximum volume leaves no cross: had a pair survived,
  // the price of the used-up side's next order would have traded more.
  lemma MaximalPriceUncrosses(b: BookView, p: int, nextTrade: nat)
    requires AuctionBook(b)
    requires forall x :: Profile(b, x).volume <= Profile(b, p).volume
    ensures Uncrossed(ExecuteAt(b, p, nextTrade).book)
  {
    var r := PairingAt(b, p, nextTrade);
    SurvivorsDoNotCross(b, p, r, Front(b.bids, |r.buysDone|), Front(b.asks, |r.sellsDone|));
    ExecuteHeads(b, p, nextTrade);
  }

  // Without an overlap, trading at any price cannot create one.
  lemma ExecuteKeepsUncrossed(b: BookView, p: int, nextTrade: nat)
    requires AuctionBook(b) && !LimitsOverlap(b)
    ensures Uncrossed(ExecuteAt(b, p, nextTrade).book)
  {
    ExecuteHeads(b, p, nextTrade);
  }

  // ---- Market.uncross -------------------------------------------------------

  datatype Outcome = Outcome(row: Option<Row>, book: BookView, retired: seq<OrderView>,
                             events: seq<Event>, nextTrade: nat)

  function CancelAll(q: seq<OrderView>): (r: seq<OrderView>)
    ensures |r| == |q| && forall i :: 0 <= i < |q| ==> r[i] == WithCancel(q[i])
  {
    seq(|q|, i requires 0 <= i < |q| => WithCancel(q[i]))
  }

  function ExpiryReports(q: seq<OrderView>): (r: seq<Event>)
    ensures |r| == |q|
  {
    seq(|q|, i requires 0 <= i < |q| => OrderCancelled(q[i].terms.id, MarketRemainder))
  }

  // Priceless orders left over are cancelled, on both sides.
  function Expire(b: BookView): BookView {
    BookView(b.bids.(market := []), b.asks.(market := []))
  }

  // The price traded at: the auction's, or failing one the reference.
  function AuctionPrice(row: Option<Row>, reference: Option<int>): Option<int> {
    if row.Some? then Some(row.value.price) else reference
  }

  // The execution an auction carries out, if it has a price.
  ghost function AuctionExecution(b: BookView, reference: Option<int>, rules: seq<Rule>, nextTrade: nat): Execution
    requires AllOpenBook(b)
  {
    var price := AuctionPrice(Uncross(b, reference, rules), reference);
    if price.None? then Execution(b, [], [], [], nextTrade, 0) else ExecuteAt(b, price.value, nextTrade)
  }

  // The orders that leave the book in the auction: filled, or priceless and expired.
  function Retired(e: Execution): seq<OrderView> {
    e.buysDone + e.sellsDone + CancelAll(e.book.bids.market) + CancelAll(e.book.asks.market)
  }

  ghost function RunAuction(b: BookView, reference: Option<int>, rules: seq<Rule>, nextTrade: nat): Outcome
    requires AllOpenBook(b)
  {
    var e := AuctionExecution(b, reference, rules, nextTrade);
    Outcome(Uncross(b, reference, rules), Expire(e.book), Retired(e),
            e.events + ExpiryReports(e.book.bids.market) + ExpiryReports(e.book.asks.market), e.nextTrade)
  }

  // However crossed the accumulated book, the auction leaves it uncrossed with no
  // priceless order.
  lemma AuctionClearsTheCross(b: BookView, reference: Option<int>, rules: seq<Rule>, nextTrade: nat)
    requires AuctionBook(b) && rules != [] && rules[0] == MaxVolume
    ensures var r := RunAuction(b, reference, rules, nextTrade);
      Uncrossed(r.book) && r.book.bids.market == [] && r.book.asks.market == []
    ensures LimitsOverlap(b) ==> Uncross(b, reference, rules).Some?
  {
    if LimitsOverlap(b) {
      UncrossIsGloballyMaximal(b, reference, rules, 0);
      var p := Uncross(b, reference, rules).value.price;
      forall x ensures Profile(b, x).volume <= Profile(b, p).volume {
        UncrossIsGloballyMaximal(b, reference, rules, x);
      }
      MaximalPriceUncrosses(b, p, nextTrade);
    } else if reference.Some? {
      ExecuteKeepsUncrossed(b, reference.value, nextTrade);
    }
  }
}
