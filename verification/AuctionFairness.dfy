// What an auction's executions guarantee each participant
// (exchangesim/core/auction.py execute).
module AuctionFairness {
  import opened Options
  import opened Orders
  import opened PriceLevels
  import opened Matching
  import opened BookRules
  import opened Auction
  import opened AuctionTrading
  import opened Ledger
  import opened Sequences

  // Every fill and trade is at one price, and nobody removed liquidity.
  ghost predicate AllAt(p: int, events: seq<Event>) {
    forall i :: 0 <= i < |events| ==>
      match events[i]
      case FillReported(_, _, price, _, liquidity, _, _, _, _, _, _) => price == p && liquidity == Added
      case Traded(price, _, _, _, _, aggressor) => price == p && aggressor == None
      case _ => true
  }

  lemma {:induction false} PairOffReports(buys: seq<OrderView>, sells: seq<OrderView>, p: int, tid: nat)
    requires AllOpen(buys) && AllOpen(sells)
    ensures var r := PairOff(buys, sells, p, tid); Reported(Quantity, r.events) == r.traded && AllAt(p, r.events)
    decreases |buys| + |sells|
  {
    if buys != [] && sells != [] {
      var q := Least(Leaves(buys[0]), Leaves(sells[0]));
      var b, s := WithFill(buys[0], q, p), WithFill(sells[0], q, p);
      var t := PairOff(Next(buys, b), Next(sells, s), p, tid + 1);
      PairOffReports(Next(buys, b), Next(sells, s), p, tid + 1);
      ReportedConcat(Quantity, PairEvents(b, s, q, p, tid), t.events);
      ReportedByFew(Quantity, PairEvents(b, s, q, p, tid));
    }
  }

  // ---- what becomes of each order -----------------------------------------------------

  // Filled at p for all it had open.
  predicate FilledAt(p: int, o: OrderView, d: OrderView) {
    d == o.(cumQty := o.quantity, notional := o.notional + p * (o.quantity - o.cumQty), status := Filled)
  }

  // Filled at p for a part of it, if at all.
  predicate PartFilledAt(p: int, o: OrderView, r: OrderView) {
    r == o ||
    (o.cumQty < r.cumQty < o.quantity &&
     r == o.(cumQty := r.cumQty, notional := o.notional + p * (r.cumQty - o.cumQty), status := PartiallyFilled))
  }

  ghost predicate FillsPrefix(p: int, q: seq<OrderView>, done: seq<OrderView>, rest: seq<OrderView>) {
    && |done| + |rest| == |q|
    && (forall i :: 0 <= i < |done| ==> FilledAt(p, q[i], done[i]))
    && (rest != [] ==> PartFilledAt(p, q[|done|], rest[0]))
    && (forall i :: 0 < i < |rest| ==> rest[i] == q[|done| + i])
  }

  lemma FilledAgain(p: int, o: OrderView, m: OrderView, d: OrderView)
    requires Leaves(o) > 0 && PartFilledAt(p, o, m)
    ensures FilledAt(p, m, d) ==> FilledAt(p, o, d)
    ensures PartFilledAt(p, m, d) ==> PartFilledAt(p, o, d)
  {
    if m != o && d != m {
      var a, c, e := o.cumQty, m.cumQty, if FilledAt(p, m, d) then m.quantity else d.cumQty;
      assert p * (c - a) + p * (e - c) == p * (e - a);
    }
  }

  lemma FillsOn(p: int, q: seq<OrderView>, o: OrderView, done: seq<OrderView>, rest: seq<OrderView>)
    requires q != [] && FilledAt(p, q[0], o) && FillsPrefix(p, q[1..], done, rest)
    ensures FillsPrefix(p, q, [o] + done, rest)
  {
    assert forall i :: 1 <= i < |q| ==> q[i] == q[1..][i - 1];
  }

  lemma FillsAgain(p: int, q: seq<OrderView>, o: OrderView, done: seq<OrderView>, rest: seq<OrderView>)
    requires q != [] && Leaves(q[0]) > 0 && PartFilledAt(p, q[0], o) && FillsPrefix(p, [o] + q[1..], done, rest)
    ensures FillsPrefix(p, q, done, rest)
  {
    var r := [o] + q[1..];
    assert forall i :: 1 <= i < |q| ==> q[i] == r[i];
    FilledAgain(p, q[0], o, if done != [] then done[0] else rest[0]);
  }

  lemma FillsStep(p: int, q: seq<OrderView>, o: OrderView, done: seq<OrderView>, rest: seq<OrderView>)
    requires q != [] && Leaves(q[0]) > 0 && (if Leaves(o) == 0 then FilledAt(p, q[0], o) else PartFilledAt(p, q[0], o))
    requires FillsPrefix(p, Next(q, o), done, rest)
    ensures FillsPrefix(p, q, Done(o) + done, rest)
  {
    if Leaves(o) == 0 {
      FillsOn(p, q, o, done, rest);
    } else {
      FillsAgain(p, q, o, done, rest);
      assert [] + done == done;
    }
  }

  lemma FillIs(o: OrderView, quantity: int, p: int)
    requires 0 < quantity <= Leaves(o)
    ensures var f := WithFill(o, quantity, p); if Leaves(f) == 0 then FilledAt(p, o, f) else PartFilledAt(p, o, f)
  {
  }

  // Every order filled is filled in full at the price, the next in part if at all, and the
  // others are untouched.
  lemma {:induction false} PairOffFills(buys: seq<OrderView>, sells: seq<OrderView>, p: int, tid: nat)
    requires AllOpen(buys) && AllOpen(sells)
    ensures var r := PairOff(buys, sells, p, tid);
      FillsPrefix(p, buys, r.buysDone, r.buys) && FillsPrefix(p, sells, r.sellsDone, r.sells)
    decreases |buys| + |sells|
  {
    if buys != [] && sells != [] {
      var q := Least(Leaves(buys[0]), Leaves(sells[0]));
      var b, s := WithFill(buys[0], q, p), WithFill(sells[0], q, p);
      FillIs(buys[0], q, p);
      FillIs(sells[0], q, p);
      PairOffFills(Next(buys, b), Next(sells, s), p, tid + 1);
      var t := PairOff(Next(buys, b), Next(sells, s), p, tid + 1);
      FillsStep(p, buys, b, t.buysDone, t.buys);
      FillsStep(p, sells, s, t.sellsDone, t.sells);
    }
  }

  // ---- what is reported of each trade ----------------------------------------------------

  predicate OneSide(report: Event, o: Terms, other: Terms, trade: Event) {
    && report.FillReported? && trade.Traded?
    && report.orderId == o.id && report.counterparty == other.id && report.counterpartyMpid == other.mpid
    && report.quantity == trade.quantity && report.price == trade.price && report.tradeId == trade.tradeId
    && report.liquidity == Added && report.leavesQty == report.orderQty - report.cumQty
  }

  // Three reports on a trade at p: the buyer's, the seller's and the trade itself.
  predicate PairReported(p: int, b: Terms, s: Terms, tradeId: int, events: seq<Event>) {
    && |events| == 3 && OneSide(events[0], b, s, events[2]) && OneSide(events[1], s, b, events[2])
    && events[2].Traded? && events[2].price == p && events[2].tradeId == tradeId && events[2].quantity > 0
    && events[2].buyId == b.id && events[2].sellId == s.id && events[2].aggressor == None
  }

  // The k-th trade pairs the orders at pairs[k], numbered on from tid.
  ghost predicate InPairs(p: int, buys: seq<OrderView>, sells: seq<OrderView>, events: seq<Event>,
                          pairs: seq<(nat, nat)>, tid: int) {
    && |events| == 3 * |pairs|
    && forall k :: 0 <= k < |pairs| ==> PairAt(p, buys, sells, events, pairs, tid, k)
  }

  ghost predicate PairAt(p: int, buys: seq<OrderView>, sells: seq<OrderView>, events: seq<Event>,
                         pairs: seq<(nat, nat)>, tid: int, k: nat)
    requires k < |pairs| && |events| == 3 * |pairs|
  {
    && pairs[k].0 < |buys| && pairs[k].1 < |sells|
    && PairReported(p, buys[pairs[k].0].terms, sells[pairs[k].1].terms, tid + k, events[3 * k..3 * k + 3])
  }

  // Pairs found in the lists behind the heads, placed in the whole lists.
  function Placed(pairs: seq<(nat, nat)>, i: nat, j: nat): (r: seq<(nat, nat)>)
    ensures |r| == |pairs| && forall k :: 0 <= k < |r| ==> r[k] == (pairs[k].0 + i, pairs[k].1 + j)
  {
    seq(|pairs|, k requires 0 <= k < |pairs| => (pairs[k].0 + i, pairs[k].1 + j))
  }

  // Behind an order that became o, terms stand one place further unless it stays first.
  lemma NextTerms(q: seq<OrderView>, o: OrderView, x: nat)
    requires q != [] && o.terms == q[0].terms && x < |Next(q, o)|
    ensures x + |Done(o)| < |q| && q[x + |Done(o)|].terms == Next(q, o)[x].terms
  {
  }

  lemma PairsOn(p: int, buys: seq<OrderView>, sells: seq<OrderView>, b: OrderView, s: OrderView, first: seq<Event>,
                later: seq<Event>, pairs: seq<(nat, nat)>, tid: int)
    requires buys != [] && sells != [] && b.terms == buys[0].terms && s.terms == sells[0].terms
    requires PairReported(p, b.terms, s.terms, tid, first)
    requires InPairs(p, Next(buys, b), Next(sells, s), later, pairs, tid + 1)
    ensures InPairs(p, buys, sells, first + later, [(0, 0)] + Placed(pairs, |Done(b)|, |Done(s)|), tid)
  {
    var all, events := [(0, 0)] + Placed(pairs, |Done(b)|, |Done(s)|), first + later;
    forall k | 0 <= k < |all| ensures PairAt(p, buys, sells, events, all, tid, k) {
      if k == 0 {
        assert events[0..3] == first;
      } else {
        PairOn(p, buys, sells, b, s, later, pairs, tid, k - 1, events, all, k);
      }
    }
  }

  lemma PairOn(p: int, buys: seq<OrderView>, sells: seq<OrderView>, b: OrderView, s: OrderView, later: seq<Event>,
               pairs: seq<(nat, nat)>, tid: int, i: nat, events: seq<Event>, all: seq<(nat, nat)>, k: nat)
    requires buys != [] && sells != [] && b.terms == buys[0].terms && s.terms == sells[0].terms
    requires i < |pairs| && |later| == 3 * |pairs| && PairAt(p, Next(buys, b), Next(sells, s), later, pairs, tid + 1, i)
    requires k == i + 1 && |all| == |pairs| + 1 && |events| == 3 * |all| && events[3..] == later
    requires all[k] == (pairs[i].0 + |Done(b)|, pairs[i].1 + |Done(s)|)
    ensures PairAt(p, buys, sells, events, all, tid, k)
  {
    NextTerms(buys, b, pairs[i].0);
    NextTerms(sells, s, pairs[i].1);
    assert events[3 * k..3 * k + 3] == later[3 * i..3 * i + 3];
  }

  // Each trade of the pairing is reported to both sides, under numbers that run on.
  lemma {:induction false} PairOffPairs(buys: seq<OrderView>, sells: seq<OrderView>, p: int, tid: nat)
    returns (pairs: seq<(nat, nat)>)
    requires AllOpen(buys) && AllOpen(sells)
    ensures var r := PairOff(buys, sells, p, tid);
      InPairs(p, buys, sells, r.events, pairs, tid) && r.nextTrade == tid + |pairs|
    decreases |buys| + |sells|
  {
    pairs := [];
    if buys != [] && sells != [] {
      var q := Least(Leaves(buys[0]), Leaves(sells[0]));
      var b, s := WithFill(buys[0], q, p), WithFill(sells[0], q, p);
      var later := PairOff(Next(buys, b), Next(sells, s), p, tid + 1);
      var more := PairOffPairs(Next(buys, b), Next(sells, s), p, tid + 1);
      PairsOn(p, buys, sells, b, s, PairEvents(b, s, q, p, tid), later.events, more, tid);
      pairs := [(0, 0)] + Placed(more, |Done(b)|, |Done(s)|);
    }
  }

  // ---- who accepts the price ------------------------------------------------------------

  predicate Accepts(isBuy: bool, o: OrderView, p: int) {
    o.terms.price.None? || !Better(isBuy, p, Px(o))
  }

  // Auction priority: priceless orders first, then better prices; the orders that
  // accept p are those and no others.
  lemma AcceptingIsExact(isBuy: bool, s: SideView, p: int)
    requires Sorted(isBuy, s.queue) && forall i :: 0 <= i < |s.market| ==> s.market[i].terms.price.None?
    requires forall i :: 0 <= i < |s.queue| ==> s.queue[i].terms.price.Some?
    ensures var l := Accepting(isBuy, s, p);
      && l <= s.market + s.queue
      && (forall i :: 0 <= i < |s.market + s.queue| ==> (i < |l| <==> Accepts(isBuy, (s.market + s.queue)[i], p)))
  {
    var all, m := s.market + s.queue, |s.market|;
    forall i | 0 <= i < |all| ensures i < |Accepting(isBuy, s, p)| <==> Accepts(isBuy, all[i], p) {
      if i >= m {
        assert all[i] == s.queue[i - m];
        PlaceExact(isBuy, s.queue, p, i - m);
      } else {
        assert all[i] == s.market[i];
      }
    }
  }

  // The open quantity of the orders that accept p.
  function OpenFor(isBuy: bool, q: seq<OrderView>, p: int): int {
    if q == [] then 0 else (if Accepts(isBuy, q[0], p) then Leaves(q[0]) else 0) + OpenFor(isBuy, q[1..], p)
  }

  lemma {:induction false} OpenPrefix(isBuy: bool, q: seq<OrderView>, p: int, n: nat)
    requires n <= |q| && forall i :: 0 <= i < |q| ==> (i < n <==> Accepts(isBuy, q[i], p))
    ensures OpenFor(isBuy, q, p) == Sum(Leaves, q[..n])
    decreases |q|
  {
    if q != [] {
      OpenPrefix(isBuy, q[1..], p, if n == 0 then 0 else n - 1);
      if n > 0 {
        assert q[..n][1..] == q[1..][..n - 1] && q[..n][0] == q[0];
      } else {
        assert q[..0] == [] && q[1..][..0] == [];
      }
    }
  }

  lemma VolumeIs(isBuy: bool, s: SideView, p: int)
    requires Sorted(isBuy, s.queue) && Separated(s)
    ensures Volume(isBuy, s, p) == OpenFor(isBuy, s.market + s.queue, p)
  {
    var l := Accepting(isBuy, s, p);
    AcceptingIsExact(isBuy, s, p);
    OpenPrefix(isBuy, s.market + s.queue, p, |l|);
    assert (s.market + s.queue)[..|l|] == l;
    SumConcat(Leaves, s.market, Willing(isBuy, s.queue, p));
  }

  // A row is the quantity that accepts its price on both sides, and which side has how much
  // more.
  lemma ProfileIs(b: BookView, p: int)
    requires Sorted(true, b.bids.queue) && Sorted(false, b.asks.queue) && Separated(b.bids) && Separated(b.asks)
    ensures var row, buys, sells := Profile(b, p), OpenFor(true, b.bids.market + b.bids.queue, p),
                                    OpenFor(false, b.asks.market + b.asks.queue, p);
      row.price == p && row.imbalance == buys - sells && row.volume == if buys < sells then buys else sells
  {
    VolumeIs(true, b.bids, p);
    VolumeIs(false, b.asks, p);
  }

  ghost predicate Separated(s: SideView) {
    && (forall i :: 0 <= i < |s.market| ==> s.market[i].terms.price.None?)
    && (forall i :: 0 <= i < |s.queue| ==> s.queue[i].terms.price.Some?)
  }

  // One side of the book before and after trading at p: the filled orders are a
  // prefix of its priority, all accepting p, and the book holds the others just as
  // they stood, except that the first of them may be partly filled, if it accepts p.
  ghost predicate FairTo(isBuy: bool, s: SideView, p: int, done: seq<OrderView>, rest: seq<OrderView>, after: SideView) {
    var all, n := s.market + s.queue, |Accepting(isBuy, s, p)|;
    && n <= |all| && (forall i :: 0 <= i < |all| ==> (i < n <==> Accepts(isBuy, all[i], p)))
    && FillsPrefix(p, all[..n], done, rest)
    && after.market + after.queue == rest + all[n..]
    && |after.market| == (if |done| >= |s.market| then 0 else |s.market| - |done|)
  }

  lemma SideIsFair(isBuy: bool, s: SideView, p: int, done: seq<OrderView>, rest: seq<OrderView>)
    requires Sorted(isBuy, s.queue) && Separated(s) && FillsPrefix(p, Accepting(isBuy, s, p), done, rest)
    ensures FairTo(isBuy, s, p, done, rest, Remain(isBuy, s, p, |done|, rest))
  {
    AcceptingIsExact(isBuy, s, p);
    var all, l, k, m := s.market + s.queue, Accepting(isBuy, s, p), Place(isBuy, s.queue, p), |s.market|;
    assert all[..|l|] == l;
    assert all[|l|..] == s.queue[k..];
    if |done| < m {
      assert rest == rest[..m - |done|] + rest[m - |done|..];
      Associative(rest[..m - |done|], rest[m - |done|..], s.queue[k..]);
    }
  }

  // Trading at p: exactly the volume on offer there, all of it at p, in priority order on
  // both sides until one has nothing left that accepts p.
  ghost predicate TradedAt(b: BookView, p: int, e: Execution, bidsLeft: seq<OrderView>, asksLeft: seq<OrderView>) {
    && Reported(Quantity, e.events) == e.traded == Profile(b, p).volume && AllAt(p, e.events)
    && FairTo(true, b.bids, p, e.buysDone, bidsLeft, e.book.bids)
    && FairTo(false, b.asks, p, e.sellsDone, asksLeft, e.book.asks)
    && (bidsLeft == [] || asksLeft == [])
  }

  // Its trades are reported pair by pair, numbered on from tid.
  ghost predicate ReportedInPairs(b: BookView, p: int, e: Execution, tid: nat) {
    exists pairs :: InPairs(p, b.bids.market + b.bids.queue, b.asks.market + b.asks.queue, e.events, pairs, tid) &&
                    e.nextTrade == tid + |pairs|
  }

  lemma ExecutionIsFair(b: BookView, p: int, tid: nat) returns (bidsLeft: seq<OrderView>, asksLeft: seq<OrderView>)
    requires AuctionBook(b) && Separated(b.bids) && Separated(b.asks)
    ensures TradedAt(b, p, ExecuteAt(b, p, tid), bidsLeft, asksLeft)
    ensures ReportedInPairs(b, p, ExecuteAt(b, p, tid), tid)
  {
    var buys, sells := Accepting(true, b.bids, p), Accepting(false, b.asks, p);
    var r := PairOff(buys, sells, p, tid);
    bidsLeft, asksLeft := r.buys, r.sells;
    ExecutesTheVolume(b, p, tid);
    PairOffReports(buys, sells, p, tid);
    PairOffUsesPrefixes(buys, sells, p, tid);
    PairOffFills(buys, sells, p, tid);
    var pairs := PairOffPairs(buys, sells, p, tid);
    AcceptingIsExact(true, b.bids, p);
    AcceptingIsExact(false, b.asks, p);
    PairsInWhole(p, buys, sells, b.bids.market + b.bids.queue, b.asks.market + b.asks.queue, r.events, pairs, tid);
    SideIsFair(true, b.bids, p, r.buysDone, r.buys);
    SideIsFair(false, b.asks, p, r.sellsDone, r.sells);
  }

  lemma PairsInWhole(p: int, buys: seq<OrderView>, sells: seq<OrderView>, allBuys: seq<OrderView>,
                     allSells: seq<OrderView>, events: seq<Event>, pairs: seq<(nat, nat)>, tid: int)
    requires buys <= allBuys && sells <= allSells && InPairs(p, buys, sells, events, pairs, tid)
    ensures InPairs(p, allBuys, allSells, events, pairs, tid)
  {
    forall k | 0 <= k < |pairs| ensures PairAt(p, allBuys, allSells, events, pairs, tid, k) {
      assert PairAt(p, buys, sells, events, pairs, tid, k);
    }
  }

  // The priceless orders left over: cancelled as remainders, reported in order.
  ghost predicate Expired(q: seq<OrderView>, events: seq<Event>, gone: seq<OrderView>) {
    && |events| == |gone| == |q|
    && forall i :: 0 <= i < |q| ==>
         events[i] == OrderCancelled(q[i].terms.id, MarketRemainder) && gone[i] == WithCancel(q[i])
  }

  lemma Expires(q: seq<OrderView>)
    ensures Expired(q, ExpiryReports(q), CancelAll(q))
  {
  }

  // What an auction leaves once trading is over: the limit orders as they stand, the
  // priceless ones gone.
  ghost predicate Cleared(e: Execution, r: Outcome) {
    && r.book.bids == SideView([], e.book.bids.queue) && r.book.asks == SideView([], e.book.asks.queue)
    && r.nextTrade == e.nextTrade
    && exists bidReports, askReports, bidsGone, asksGone ::
         && Expired(e.book.bids.market, bidReports, bidsGone) && Expired(e.book.asks.market, askReports, asksGone)
         && r.events == e.events + bidReports + askReports
         && r.retired == e.buysDone + e.sellsDone + bidsGone + asksGone
  }

  lemma AuctionClears(b: BookView, reference: Option<int>, rules: seq<Rule>, tid: nat)
    requires AllOpenBook(b)
    ensures Cleared(AuctionExecution(b, reference, rules, tid), RunAuction(b, reference, rules, tid))
  {
    var e := AuctionExecution(b, reference, rules, tid);
    Expires(e.book.bids.market);
    Expires(e.book.asks.market);
  }

  // An auction trades exactly what was announced, at one price within every limit and in
  // priority order on both sides. Without a price of its own it does so at the reference,
  // and without a reference it only clears the priceless orders.
  lemma AuctionIsExactAndFair(b: BookView, reference: Option<int>, rules: seq<Rule>, tid: nat)
    returns (e: Execution, bidsLeft: seq<OrderView>, asksLeft: seq<OrderView>)
    requires AuctionBook(b) && Separated(b.bids) && Separated(b.asks)
    ensures var row := Uncross(b, reference, rules);
      && Cleared(e, RunAuction(b, reference, rules, tid))
      && (row.Some? ==> row.value.volume == Profile(b, row.value.price).volume &&
                        TradedAt(b, row.value.price, e, bidsLeft, asksLeft) &&
                        ReportedInPairs(b, row.value.price, e, tid))
      && (row.None? && reference.Some? ==>
            TradedAt(b, reference.value, e, bidsLeft, asksLeft) && ReportedInPairs(b, reference.value, e, tid))
      && (Uncrossed(b) ==> row.None?)
      && (row.None? && reference.None? ==> e == Execution(b, [], [], [], tid, 0))
  {
    var row := Uncross(b, reference, rules);
    e, bidsLeft, asksLeft := AuctionExecution(b, reference, rules, tid), [], [];
    if row.Some? {
      bidsLeft, asksLeft := ExecutionIsFair(b, row.value.price, tid);
    } else if reference.Some? {
      bidsLeft, asksLeft := ExecutionIsFair(b, reference.value, tid);
    }
    AuctionClears(b, reference, rules, tid);
  }
}
