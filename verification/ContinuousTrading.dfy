// Continuous trading: the book never crosses, over any run, in every self-trade
// mode (exchangesim/core/matching.py, market.py).
module ContinuousTrading {
  import opened Options
  import opened Orders
  import opened PriceLevels
  import opened Matching
  import opened BookRules
  import opened Auction
  import opened AuctionTrading
  import opened Ledger
  import opened BookInvariants
  import opened Trading
  import opened MarketRuns

  // No bid and ask on the book would trade with each other.
  ghost predicate CrossFree(b: BookView) {
    forall x, y :: x in b.bids.queue && y in b.asks.queue ==> Px(x) < Px(y)
  }

  lemma CrossFreeIsUncrossed(b: BookView)
    requires BookOk(b)
    ensures CrossFree(b) <==> Uncrossed(b)
  {
    if Uncrossed(b) {
      forall x, y | x in b.bids.queue && y in b.asks.queue ensures Px(x) < Px(y) {
        var i :| 0 <= i < |b.bids.queue| && b.bids.queue[i] == x;
        var j :| 0 <= j < |b.asks.queue| && b.asks.queue[j] == y;
        assert i > 0 ==> !Better(true, Px(x), Px(b.bids.queue[0]));
        assert j > 0 ==> !Better(false, Px(y), Px(b.asks.queue[0]));
      }
    }
  }

  // After matching, the opposite queue has only receded.
  lemma WalkStaysUncrossed(rules: Rules, b: BookView, a: OrderView, nextTrade: nat, w: Walk, b': BookView)
    requires BookOk(b) && Continuous(b)
    requires w == MatchWalk(rules.mode, a, SideOf(b, !IsBuy(a.terms)).queue, nextTrade)
    requires b' == WithSide(b, !IsBuy(a.terms), SideOf(b, !IsBuy(a.terms)).(queue := w.rest))
    ensures Continuous(b')
  {
    var isBuy := IsBuy(a.terms);
    var q := SideOf(b, !isBuy).queue;
    WalkLeavesRest(rules.mode, a, q, nextTrade);
    if w.rest != [] {
      var d := |w.done|;
      assert Px(w.rest[0]) == Px(q[d]);
      assert d > 0 ==> !Better(!isBuy, Px(q[d]), Px(q[0]));
    }
  }

  lemma AddStaysUncrossed(b: BookView, o: OrderView)
    requires Continuous(b) && o.terms.price.Some?
    requires !Meets(o.terms, SideOf(b, !IsBuy(o.terms)).queue)
    ensures Continuous(Add(b, o))
  {
    var isBuy := IsBuy(o.terms);
    var q := SideOf(b, isBuy).queue;
    var r := Insert(isBuy, q, o);
    assert r[0] == if Place(isBuy, q, Px(o)) == 0 then o else q[0];
  }

  lemma SubmitStaysContinuous(rules: Rules, b: BookView, o: OrderView, nextTrade: nat)
    requires BookOk(b) && Continuous(b) && Valid(o)
    ensures Continuous(Submit(rules, b, o, true, nextTrade).book)
  {
    var a := Acknowledged(rules, o);
    if !PostOnlyRefused(b, o.terms) && Refusal(rules.mode, a, SideOf(b, !IsBuy(a.terms)).queue).None? {
      var w, b' := WalkKeepsBook(rules, b, a, nextTrade);
      WalkStaysUncrossed(rules, b, a, nextTrade, w, b');
      if Leaves(w.incoming) > 0 && w.incoming.terms.orderType != Market && !Immediate(w.incoming.terms) {
        AddStaysUncrossed(b', Rested(w.incoming));
      }
    }
  }

  // ---- removing and amending --------------------------------------------------------

  lemma RemoveMembers(b: BookView, t: Terms, isBuy: bool)
    ensures var r, s := SideOf(Remove(b, t), isBuy), SideOf(b, isBuy);
      (forall x :: x in r.queue ==> x in s.queue) && (forall x :: x in r.market ==> x in s.market)
  {
    WithoutMembers(SideOf(b, IsBuy(t)).queue, t.id);
    WithoutMembers(SideOf(b, IsBuy(t)).market, t.id);
  }

  lemma FewerStayContinuous(b: BookView, r: BookView)
    requires BookOk(b) && BookOk(r) && Continuous(b)
    requires forall x :: x in r.bids.queue ==> x in b.bids.queue
    requires forall x :: x in r.asks.queue ==> x in b.asks.queue
    requires r.bids.market == [] && r.asks.market == []
    ensures Continuous(r)
  {
    CrossFreeIsUncrossed(b);
    CrossFreeIsUncrossed(r);
  }

  lemma WithdrawStaysContinuous(b: BookView, o: OrderView)
    requires BookOk(b) && Continuous(b)
    ensures Continuous(Remove(b, o.terms))
  {
    RemoveOk(b, o.terms);
    RemoveMembers(b, o.terms, true);
    RemoveMembers(b, o.terms, false);
    var r := Remove(b, o.terms);
    assert |r.bids.market| <= |b.bids.market| && |r.asks.market| <= |b.asks.market|;
    FewerStayContinuous(b, r);
  }

  lemma InsertMembers(isBuy: bool, q: seq<OrderView>, o: OrderView)
    ensures forall x :: x in Insert(isBuy, q, o) <==> x in q || x == o
  {
    var k := Place(isBuy, q, Px(o));
    assert q == q[..k] + q[k..];
  }

  // Without an order's id, none of what is left carries it.
  lemma WithoutLeavesNone(q: seq<OrderView>, id: nat, isBuy: bool)
    requires AllOn(isBuy, q) && Tally(Count(id), isBuy, q) <= 1
    ensures forall x :: x in Without(q, id) ==> x.terms.id != id
  {
    if Contains(q, id) {
      var i := WithoutExact(q, id);
      forall x | x in Without(q, id) ensures x.terms.id != id {
        var j :| 0 <= j < |q| && j != i && q[j] == x;
        if x.terms.id == id {
          if i < j { CountTwice(isBuy, q, i, j); } else { CountTwice(isBuy, q, j, i); }
        }
      }
    } else {
      WithoutAbsent(q, id);
    }
  }

  // Amending in place and then taking the order off leaves only orders that were there.
  lemma AmendOffWithin(b: BookView, o: OrderView, q: Option<int>, p: Option<int>)
    requires BookOk(b) && In(b, o) && DistinctOn(b, o.terms.id) && o.terms.price.Some?
    requires Leaves(Amended(o, q, p)) > 0
    ensures var isBuy, a := IsBuy(o.terms), Amended(o, q, p);
      var off, removed := Remove(AmendBook(b, o, q, p), a.terms), Remove(b, o.terms);
      && SideOf(off, !isBuy) == SideOf(b, !isBuy) && SideOf(off, isBuy).market == SideOf(b, isBuy).market
      && (forall x :: x in SideOf(off, isBuy).queue ==> x in SideOf(removed, isBuy).queue)
  {
    var isBuy, id, a := IsBuy(o.terms), o.terms.id, Amended(o, q, p);
    var removed, changed := Remove(b, o.terms), AmendBook(b, o, q, p);
    InRests(b, o);
    AmendOk(b, o, q, p);
    RequeueMembers(isBuy, SideOf(removed, isBuy).queue, a);
    InsertMembers(isBuy, SideOf(removed, isBuy).queue, a);
    AmendTotal(Count(id), true, b, o, q, p);
    AmendTotal(Count(id), false, b, o, q, p);
    var level := SideOf(changed, isBuy).queue;
    CountsAreNatural(changed, id, true);
    CountsAreNatural(changed, id, false);
    WithoutLeavesNone(level, id, isBuy);
    WithoutMembers(level, id);
  }

  // And so a continuous book.
  lemma AmendOffMembers(b: BookView, o: OrderView, q: Option<int>, p: Option<int>)
    requires BookOk(b) && Continuous(b) && In(b, o) && DistinctOn(b, o.terms.id)
    requires Leaves(Amended(o, q, p)) > 0
    ensures var off := Remove(AmendBook(b, o, q, p), Amended(o, q, p).terms);
      && BookOk(off) && Continuous(off)
      && (forall x :: x in off.bids.queue ==> x in b.bids.queue)
      && (forall x :: x in off.asks.queue ==> x in b.asks.queue)
  {
    var isBuy, a := IsBuy(o.terms), Amended(o, q, p);
    var off := Remove(AmendBook(b, o, q, p), a.terms);
    AmendOffWithin(b, o, q, p);
    AmendOk(b, o, q, p);
    RemoveOk(AmendBook(b, o, q, p), a.terms);
    RemoveMembers(b, o.terms, isBuy);
    FewerStayContinuous(b, off);
  }

  lemma ChangeStaysContinuous(rules: Rules, s: State, o: OrderView, q: Option<int>, p: Option<int>)
    requires Good(s) && Continuous(s.book) && Admissible(s, Change(o, q, p, true))
    ensures Continuous(Step(rules, s, Change(o, q, p, true)).book)
  {
    var a := Amended(o, q, p);
    DistinctBook(s, o.terms.id);
    ChangedIsValid(s, o, q, p, true);
    if Leaves(a) == 0 {
      WithdrawStaysContinuous(s.book, o);
    } else {
      AmendOffMembers(s.book, o, q, p);
      SubmitStaysContinuous(rules, Remove(AmendBook(s.book, o, q, p), a.terms), a, s.nextTrade);
    }
  }

  // ---- runs ----------------------------------------------------------------------

  // The self-trade mode and acknowledgement setting may differ from step to step.
  datatype Move = Move(rules: Rules, action: Action)

  ghost predicate Allowed(s: State, moves: seq<Move>)
    decreases |moves|
  {
    moves == [] ||
    (BookOk(s.book) && Admissible(s, moves[0].action) &&
     Allowed(Step(moves[0].rules, s, moves[0].action), moves[1..]))
  }

  ghost function Run(s: State, moves: seq<Move>): State
    requires Allowed(s, moves)
    decreases |moves|
  {
    if moves == [] then s else Run(Step(moves[0].rules, s, moves[0].action), moves[1..])
  }

  predicate MatchesContinuously(a: Action) {
    match a
    case Enter(_, matching) => matching
    case Change(_, _, _, matching) => matching
    case _ => true
  }

  // Over any run from an empty market: price-time order, live resting orders with
  // something left, every order accounted for once, and conservation.
  lemma {:induction false} RunStaysGood(s: State, moves: seq<Move>)
    requires Good(s) && Allowed(s, moves)
    ensures Good(Run(s, moves))
    decreases |moves|
  {
    if moves != [] {
      StepKeepsGood(moves[0].rules, s, moves[0].action);
      RunStaysGood(Step(moves[0].rules, s, moves[0].action), moves[1..]);
    }
  }

  ghost predicate AllCover(moves: seq<Move>) {
    forall i :: 0 <= i < |moves| ==> CoversExecuted(moves[i].action)
  }

  lemma FirstCovers(moves: seq<Move>)
    requires moves != []
    ensures AllCover(moves) <==> CoversExecuted(moves[0].action) && AllCover(moves[1..])
  {
    assert forall i :: 0 < i < |moves| ==> moves[i] == moves[1..][i - 1];
  }

  // Over any run, every order that has left the book is within its quantity if and
  // only if no amendment asked for less than had been executed.
  lemma {:induction false} RunStaysBounded(s: State, moves: seq<Move>)
    requires Good(s) && Allowed(s, moves)
    ensures AllBounded(Run(s, moves).retired) <==> AllBounded(s.retired) && AllCover(moves)
    decreases |moves|
  {
    if moves != [] {
      StepKeepsGood(moves[0].rules, s, moves[0].action);
      StepKeepsBook(moves[0].rules, s, moves[0].action);
      FirstCovers(moves);
      RunStaysBounded(Step(moves[0].rules, s, moves[0].action), moves[1..]);
    }
  }

  predicate Empty(s: State) {
    s.book.bids == s.book.asks == SideView([], []) && s.retired == [] && s.volume == s.turnover == 0
  }

  lemma EmptyTotals(k: Measure, buys: bool, s: State)
    requires Empty(s)
    ensures Total(k, buys, s) == 0
  {
  }

  lemma EmptyIsGood(s: State)
    requires Empty(s)
    ensures Good(s) && Continuous(s.book)
  {
    forall id ensures Total(Count(id), true, s) + Total(Count(id), false, s) <= 1 {
      EmptyTotals(Count(id), true, s);
      EmptyTotals(Count(id), false, s);
    }
    EmptyTotals(Quantity, true, s);
    EmptyTotals(Quantity, false, s);
    EmptyTotals(Value, true, s);
    EmptyTotals(Value, false, s);
  }

  lemma StepStaysContinuous(rules: Rules, s: State, a: Action)
    requires Good(s) && Admissible(s, a) && MatchesContinuously(a)
    requires Continuous(s.book) || a.Auction?
    ensures Continuous(Step(rules, s, a).book)
  {
    match a
    case Enter(o, _) => SubmitStaysContinuous(rules, s.book, o, s.nextTrade);
    case Withdraw(o) => WithdrawStaysContinuous(s.book, o);
    case Change(o, q, p, _) => ChangeStaysContinuous(rules, s, o, q, p);
    case Auction(reference, auctionRules) =>
      OkBookIsOpen(s.book);
      AuctionClearsTheCross(s.book, reference, auctionRules, s.nextTrade);
  }

  // Continuous trading keeps the best bid below the best ask, and no priceless
  // order on the book, through any interleaving of entries, cancels and amends.
  lemma {:induction false} RunStaysContinuous(s: State, moves: seq<Move>)
    requires Good(s) && Allowed(s, moves) && Continuous(s.book)
    requires forall i :: 0 <= i < |moves| ==> MatchesContinuously(moves[i].action)
    ensures Continuous(Run(s, moves).book)
    decreases |moves|
  {
    if moves != [] {
      StepKeepsGood(moves[0].rules, s, moves[0].action);
      StepStaysContinuous(moves[0].rules, s, moves[0].action);
      RunStaysContinuous(Step(moves[0].rules, s, moves[0].action), moves[1..]);
    }
  }

  // A whole day: whatever was accumulated, an auction makes it fit for continuous
  // trading, which then keeps it so.
  lemma AuctionOpensTheDay(s: State, auction: Move, moves: seq<Move>)
    requires Good(s) && auction.action.Auction? && Allowed(s, [auction] + moves)
    requires forall i :: 0 <= i < |moves| ==> MatchesContinuously(moves[i].action)
    ensures Continuous(Run(s, [auction] + moves).book)
  {
    assert ([auction] + moves)[1..] == moves;
    StepKeepsGood(auction.rules, s, auction.action);
    StepStaysContinuous(auction.rules, s, auction.action);
    RunStaysContinuous(Step(auction.rules, s, auction.action), moves);
  }
}
