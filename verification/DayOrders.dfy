// Only Day limit orders rest in continuous trading, over any run
// (exchangesim/core/matching.py submit, market.py).
module DayOrders {
  import opened Options
  import opened Orders
  import opened PriceLevels
  import opened Matching
  import opened BookRules
  import opened Auction
  import opened AuctionTrading
  import opened Ledger
  import opened BookInvariants
  import opened Trading
  import opened MarketRuns
  import opened ContinuousTrading
  import opened WalkOutcome
  import opened EntryOutcome

  ghost predicate AllDay(q: seq<OrderView>) {
    forall i :: 0 <= i < |q| ==> RestsFully(q[i].terms)
  }

  // Every resting order is a Day limit order.
  ghost predicate DayOnly(b: BookView) {
    AllDay(b.bids.queue) && AllDay(b.asks.queue) && b.bids.market == [] && b.asks.market == []
  }

  ghost predicate Within(q: seq<OrderView>, r: seq<OrderView>) {
    forall x :: x in q ==> x in r
  }

  lemma FewerDay(b: BookView, r: BookView)
    requires DayOnly(b) && Within(r.bids.queue, b.bids.queue) && Within(r.asks.queue, b.asks.queue)
    requires r.bids.market == [] && r.asks.market == []
    ensures DayOnly(r)
  {
    forall i | 0 <= i < |r.bids.queue| ensures RestsFully(r.bids.queue[i].terms) {
      assert r.bids.queue[i] in b.bids.queue;
    }
    forall i | 0 <= i < |r.asks.queue| ensures RestsFully(r.asks.queue[i].terms) {
      assert r.asks.queue[i] in b.asks.queue;
    }
  }

  lemma RemoveStaysDay(b: BookView, t: Terms)
    requires DayOnly(b)
    ensures DayOnly(Remove(b, t))
  {
    RemoveMembers(b, t, true);
    RemoveMembers(b, t, false);
    FewerDay(b, Remove(b, t));
  }

  lemma InsertStaysDay(isBuy: bool, q: seq<OrderView>, o: OrderView)
    requires AllDay(q) && RestsFully(o.terms)
    ensures AllDay(Insert(isBuy, q, o))
  {
    InsertMembers(isBuy, q, o);
    var r := Insert(isBuy, q, o);
    forall i | 0 <= i < |r| ensures RestsFully(r[i].terms) {
      assert r[i] in r;
    }
  }

  lemma MatchedStaysDay(q: seq<OrderView>, w: Walk, mode: StpMode, t: Terms)
    requires AllDay(q) && Matched(mode, t, q, w)
    ensures AllDay(w.rest)
  {
    forall i | 0 <= i < |w.rest| ensures RestsFully(w.rest[i].terms) {
      assert RestsFully(q[|w.done| + i].terms);
    }
  }

  // An entry that may match leaves nothing on the book but Day limit orders.
  lemma SubmitStaysDay(rules: Rules, b: BookView, o: OrderView, nextTrade: nat)
    requires BookOk(b) && DayOnly(b) && Valid(o)
    ensures DayOnly(Submit(rules, b, o, true, nextTrade).book)
  {
    var isBuy, a := IsBuy(o.terms), Acknowledged(rules, o);
    var q := SideOf(b, !isBuy).queue;
    TakesIs(b, o.terms);
    RefusalStays(rules, o, q);
    if !PostOnlyRefused(b, o.terms) && Refusal(rules.mode, o, q).None? {
      var w, e := MatchWalk(rules.mode, a, q, nextTrade), Submit(rules, b, o, true, nextTrade);
      WalkHasOutcome(rules.mode, a, q, nextTrade);
      SubmitSettles(rules, b, o, nextTrade, w);
      SettledBy(rules, b, o, w, e);
      EndedStaysDay(rules, b, o, w, e);
    }
  }

  lemma EndedStaysDay(rules: Rules, b: BookView, o: OrderView, w: Walk, e: Entry)
    requires DayOnly(b) && Valid(o) && EndsAs(rules, b, o, w, e)
    requires Matched(rules.mode, o.terms, SideOf(b, !IsBuy(o.terms)).queue, w)
    ensures DayOnly(e.book)
  {
    MatchedStaysDay(SideOf(b, !IsBuy(o.terms)).queue, w, rules.mode, o.terms);
    if e.rests {
      InsertStaysDay(IsBuy(o.terms), SideOf(b, IsBuy(o.terms)).queue, e.order);
    }
  }

  lemma ChangeStaysDay(rules: Rules, s: State, o: OrderView, q: Option<int>, p: Option<int>)
    requires Good(s) && Continuous(s.book) && DayOnly(s.book) && Admissible(s, Change(o, q, p, true))
    ensures DayOnly(Step(rules, s, Change(o, q, p, true)).book)
  {
    var a := Amended(o, q, p);
    DistinctBook(s, o.terms.id);
    ChangedIsValid(s, o, q, p, true);
    if Leaves(a) == 0 {
      RemoveStaysDay(s.book, o.terms);
    } else {
      var off := Remove(AmendBook(s.book, o, q, p), a.terms);
      AmendOffMembers(s.book, o, q, p);
      FewerDay(s.book, off);
      SubmitStaysDay(rules, off, a, s.nextTrade);
    }
  }

  lemma RemainsDay(isBuy: bool, s: SideView, p: int, done: seq<OrderView>, rest: seq<OrderView>)
    requires AllDay(s.queue) && UsesPrefix(Accepting(isBuy, s, p), done, rest)
    ensures AllDay(Remain(isBuy, s, p, |done|, rest).queue)
  {
    RemainTerms(isBuy, s, p, done, rest);
    var r, h := Remain(isBuy, s, p, |done|, rest), Front(s, |done|);
    forall i | 0 <= i < |r.queue| ensures RestsFully(r.queue[i].terms) {
      assert r.queue[i].terms == s.queue[h + i].terms;
    }
  }

  lemma ExecuteStaysDay(b: BookView, p: int, nextTrade: nat)
    requires AllOpenBook(b) && AllDay(b.bids.queue) && AllDay(b.asks.queue)
    ensures var r := ExecuteAt(b, p, nextTrade).book; AllDay(r.bids.queue) && AllDay(r.asks.queue)
  {
    var buys, sells := Accepting(true, b.bids, p), Accepting(false, b.asks, p);
    var r := PairOff(buys, sells, p, nextTrade);
    PairOffUsesPrefixes(buys, sells, p, nextTrade);
    RemainsDay(true, b.bids, p, r.buysDone, r.buys);
    RemainsDay(false, b.asks, p, r.sellsDone, r.sells);
  }

  lemma StepStaysDay(rules: Rules, s: State, a: Action)
    requires Good(s) && Admissible(s, a) && MatchesContinuously(a) && Continuous(s.book) && DayOnly(s.book)
    ensures DayOnly(Step(rules, s, a).book)
  {
    match a
    case Enter(o, _) => SubmitStaysDay(rules, s.book, o, s.nextTrade);
    case Withdraw(o) => RemoveStaysDay(s.book, o.terms);
    case Change(o, q, p, _) => ChangeStaysDay(rules, s, o, q, p);
    case Auction(reference, auctionRules) =>
      OkBookIsOpen(s.book);
      var price := AuctionPrice(Uncross(s.book, reference, auctionRules), reference);
      if price.Some? { ExecuteStaysDay(s.book, price.value, s.nextTrade); }
  }

  // Over any run of continuous trading, market, immediate and fill-or-kill orders never
  // come to rest.
  lemma {:induction false} RunRestsDayOrders(s: State, moves: seq<Move>)
    requires Good(s) && Allowed(s, moves) && Continuous(s.book) && DayOnly(s.book)
    requires forall i :: 0 <= i < |moves| ==> MatchesContinuously(moves[i].action)
    ensures DayOnly(Run(s, moves).book)
    decreases |moves|
  {
    if moves != [] {
      StepKeepsGood(moves[0].rules, s, moves[0].action);
      StepStaysContinuous(moves[0].rules, s, moves[0].action);
      StepStaysDay(moves[0].rules, s, moves[0].action);
      RunRestsDayOrders(Step(moves[0].rules, s, moves[0].action), moves[1..]);
    }
  }
}
