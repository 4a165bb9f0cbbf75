// What every run of a market keeps: the order and liveness of the book,
// conservation between the two sides and the statistics, and an uncrossed book
// throughout continuous trading.
module MarketRuns {
  import opened Options
  import opened Orders
  import opened PriceLevels
  import opened Matching
  import opened BookRules
  import opened Auction
  import opened AuctionTrading
  import opened Ledger
  import opened BookInvariants
  import opened Trading

  // ---- each step keeps the book, the tallies and the ids ---------------------------

  // What a step adds to the tallies besides what it reports as traded.
  function Entered(k: Measure, buys: bool, a: Action): int {
    if a.Enter? then One(k, buys, a.order) else 0
  }

  lemma AbsorbTotal(k: Measure, buys: bool, s: State, b: BookView, retired: seq<OrderView>, nextTrade: nat, events: seq<Event>)
    ensures Total(k, buys, Absorb(s, b, retired, nextTrade, events)) ==
      BookTally(k, buys, b) + Tally(k, buys, s.retired) + Tally(k, buys, retired)
  {
    TallyConcat(k, buys, s.retired, retired);
  }

  lemma DistinctBook(s: State, id: nat)
    requires Distinct(s)
    ensures DistinctOn(s.book, id)
  {
    CountIsNatural(id, true, s.retired);
    CountIsNatural(id, false, s.retired);
    assert Total(Count(id), true, s) + Total(Count(id), false, s) <= 1;
  }

  lemma EnterTotal(k: Measure, buys: bool, rules: Rules, s: State, o: OrderView, matching: bool)
    requires BookOk(s.book) && Valid(o)
    ensures var e := Submit(rules, s.book, o, matching, s.nextTrade);
      Total(k, buys, EnterStep(rules, s, o, matching)) == Total(k, buys, s) + One(k, buys, o) + Reported(k, e.events)
  {
    var e := Submit(rules, s.book, o, matching, s.nextTrade);
    SubmitTallies(k, buys, rules, s.book, o, matching, s.nextTrade);
    AbsorbTotal(k, buys, s, e.book, Leaving(e), e.nextTrade, e.events);
  }

  lemma AmendTotal(k: Measure, buys: bool, b: BookView, o: OrderView, newQuantity: Option<int>, newPrice: Option<int>)
    requires BookOk(b) && In(b, o) && DistinctOn(b, o.terms.id)
    ensures var a := Amended(o, newQuantity, newPrice);
      BookTally(k, buys, AmendBook(b, o, newQuantity, newPrice)) ==
        BookTally(k, buys, b) - (if Leaves(a) == 0 then One(k, buys, o) else 0)
  {
    var a := Amended(o, newQuantity, newPrice);
    InRests(b, o);
    RemoveTally(k, buys, b, o);
    if Leaves(a) > 0 {
      if LosesPriority(o, a) {
        AddTally(k, buys, Remove(b, o.terms), a);
      } else {
        ReinsertTally(k, buys, Remove(b, o.terms), a);
      }
    }
  }

  lemma AuctionTotal(k: Measure, buys: bool, s: State, reference: Option<int>, rules: seq<Rule>)
    requires BookOk(s.book)
    ensures Total(k, buys, AuctionStep(s, reference, rules)) ==
      Total(k, buys, s) + Reported(k, RunAuction(s.book, reference, rules, s.nextTrade).events)
  {
    var r := RunAuction(s.book, reference, rules, s.nextTrade);
    RunAuctionTally(k, buys, s.book, reference, rules, s.nextTrade);
    AbsorbTotal(k, buys, s, r.book, r.retired, r.nextTrade, r.events);
  }

  lemma {:induction false} CancelAllTally(k: Measure, buys: bool, q: seq<OrderView>)
    ensures Tally(k, buys, CancelAll(q)) == Tally(k, buys, q)
  {
    if q != [] {
      CancelAllTally(k, buys, q[1..]);
      assert CancelAll(q)[1..] == CancelAll(q[1..]);
    }
  }

  lemma {:induction false} ExpiryReportsNothing(k: Measure, q: seq<OrderView>)
    ensures Reported(k, ExpiryReports(q)) == 0
  {
    if q != [] {
      ExpiryReportsNothing(k, q[1..]);
      assert ExpiryReports(q)[1..] == ExpiryReports(q[1..]);
    }
  }

  lemma RemainTally(k: Measure, buys: bool, isBuy: bool, s: SideView, p: int, done: nat, rest: seq<OrderView>)
    requires done + |rest| == |Accepting(isBuy, s, p)|
    ensures SideTally(k, buys, Remain(isBuy, s, p, done, rest)) ==
      SideTally(k, buys, s) - Tally(k, buys, Accepting(isBuy, s, p)) + Tally(k, buys, rest)
  {
    var m, i := |s.market|, Place(isBuy, s.queue, p);
    TallyConcat(k, buys, s.market, s.queue[..i]);
    TallyConcat(k, buys, s.queue[..i], s.queue[i..]);
    assert s.queue == s.queue[..i] + s.queue[i..];
    if done >= m {
      TallyConcat(k, buys, rest, s.queue[i..]);
    } else {
      TallyConcat(k, buys, rest[m - done..], s.queue[i..]);
      TallyConcat(k, buys, rest[..m - done], rest[m - done..]);
      assert rest == rest[..m - done] + rest[m - done..];
    }
  }

  lemma AcceptingSides(b: BookView, p: int)
    requires BookOk(b)
    ensures AllOpenBook(b)
    ensures AllOn(true, Accepting(true, b.bids, p)) && AllOn(false, Accepting(false, b.asks, p))
  {
  }

  lemma ExecuteTally(k: Measure, buys: bool, b: BookView, p: int, nextTrade: nat)
    requires BookOk(b)
    ensures AllOpenBook(b)
    ensures var e := ExecuteAt(b, p, nextTrade);
      BookTally(k, buys, e.book) + Tally(k, buys, e.buysDone) + Tally(k, buys, e.sellsDone) ==
        BookTally(k, buys, b) + Reported(k, e.events)
  {
    AcceptingSides(b, p);
    var buyers, sellers := Accepting(true, b.bids, p), Accepting(false, b.asks, p);
    var r := PairOff(buyers, sellers, p, nextTrade);
    PairOffUsesPrefixes(buyers, sellers, p, nextTrade);
    PairOffTally(k, buyers, sellers, p, nextTrade);
    RemainTally(k, buys, true, b.bids, p, |r.buysDone|, r.buys);
    RemainTally(k, buys, false, b.asks, p, |r.sellsDone|, r.sells);
    PrefixSides(true, buyers, r.buysDone, r.buys);
    PrefixSides(false, sellers, r.sellsDone, r.sells);
    if buys {
      OtherSideTally(k, buys, sellers);
      OtherSideTally(k, buys, r.sellsDone);
      OtherSideTally(k, buys, r.sells);
    } else {
      OtherSideTally(k, buys, buyers);
      OtherSideTally(k, buys, r.buysDone);
      OtherSideTally(k, buys, r.buys);
    }
  }

  lemma PrefixSides(buys: bool, q: seq<OrderView>, done: seq<OrderView>, rest: seq<OrderView>)
    requires AllOn(buys, q) && UsesPrefix(q, done, rest)
    ensures AllOn(buys, done) && AllOn(buys, rest)
  {
  }

  lemma RunAuctionTally(k: Measure, buys: bool, b: BookView, reference: Option<int>, rules: seq<Rule>, nextTrade: nat)
    requires BookOk(b)
    ensures AllOpenBook(b)
    ensures var r := RunAuction(b, reference, rules, nextTrade);
      BookTally(k, buys, r.book) + Tally(k, buys, r.retired) == BookTally(k, buys, b) + Reported(k, r.events)
  {
    OkBookIsOpen(b);
    var price := AuctionPrice(Uncross(b, reference, rules), reference);
    if price.Some? { ExecuteTally(k, buys, b, price.value, nextTrade); }
    var e := AuctionExecution(b, reference, rules, nextTrade);
    var bids, asks := e.book.bids.market, e.book.asks.market;
    CancelAllTally(k, buys, bids);
    CancelAllTally(k, buys, asks);
    TallyConcat(k, buys, e.buysDone + e.sellsDone + CancelAll(bids), CancelAll(asks));
    TallyConcat(k, buys, e.buysDone + e.sellsDone, CancelAll(bids));
    TallyConcat(k, buys, e.buysDone, e.sellsDone);
    ExpiryReportsNothing(k, bids);
    ExpiryReportsNothing(k, asks);
    ReportedConcat(k, e.events + ExpiryReports(bids), ExpiryReports(asks));
    ReportedConcat(k, e.events, ExpiryReports(bids));
  }

  // ---- the auction keeps the book ---------------------------------------------------

  ghost predicate Restables(isBuy: bool, q: seq<OrderView>) {
    forall i :: 0 <= i < |q| ==> Restable(isBuy, q[i])
  }

  lemma FillKeeps(o: OrderView, isBuy: bool, quantity: int, price: int)
    requires Restable(isBuy, o) && 0 < quantity <= Leaves(o)
    ensures var f := WithFill(o, quantity, price);
      Bounded(f) && (Leaves(f) > 0 ==> Restable(isBuy, f))
  {
  }

  lemma NextKeeps(isBuy: bool, q: seq<OrderView>, o: OrderView)
    requires q != [] && AllOpen(q) && Restables(isBuy, q) && (Leaves(o) > 0 ==> Restable(isBuy, o))
    ensures AllOpen(Next(q, o)) && Restables(isBuy, Next(q, o))
  {
    var r := Next(q, o);
    assert forall i :: 0 < i < |r| ==> r[i] == if Leaves(o) == 0 then q[i + 1] else q[i];
  }

  lemma {:induction false} PairOffKeeps(buys: seq<OrderView>, sells: seq<OrderView>, price: int, nextTrade: nat)
    requires AllOpen(buys) && AllOpen(sells) && Restables(true, buys) && Restables(false, sells)
    ensures var r := PairOff(buys, sells, price, nextTrade);
      && Restables(true, r.buys) && Restables(false, r.sells)
      && AllBounded(r.buysDone) && AllBounded(r.sellsDone)
    decreases |buys| + |sells|
  {
    if buys != [] && sells != [] {
      var q := Least(Leaves(buys[0]), Leaves(sells[0]));
      FillKeeps(buys[0], true, q, price);
      FillKeeps(sells[0], false, q, price);
      var b, s := WithFill(buys[0], q, price), WithFill(sells[0], q, price);
      NextKeeps(true, buys, b);
      NextKeeps(false, sells, s);
      PairOffKeeps(Next(buys, b), Next(sells, s), price, nextTrade + 1);
    }
  }

  lemma RemainRestables(isBuy: bool, s: SideView, p: int, done: nat, rest: seq<OrderView>)
    requires done + |rest| == |Accepting(isBuy, s, p)|
    requires Restables(isBuy, s.queue) && Restables(isBuy, rest)
    ensures var r := Remain(isBuy, s, p, done, rest); Restables(isBuy, r.queue) && Restables(isBuy, r.market)
  {
  }

  lemma RemainOk(isBuy: bool, s: SideView, p: int, done: seq<OrderView>, rest: seq<OrderView>)
    requires SideOk(isBuy, s) && Restables(isBuy, rest) && UsesPrefix(Accepting(isBuy, s, p), done, rest)
    ensures SideOk(isBuy, Remain(isBuy, s, p, |done|, rest))
  {
    RemainRestables(isBuy, s, p, |done|, rest);
    RemainTerms(isBuy, s, p, done, rest);
    SameTermsOk(isBuy, s, Remain(isBuy, s, p, |done|, rest), Front(s, |done|), |done|);
  }

  // A side whose orders carry the terms of a well-ordered side's later orders.
  lemma SameTermsOk(isBuy: bool, s: SideView, r: SideView, h: nat, d: nat)
    requires SideOk(isBuy, s) && Restables(isBuy, r.queue) && Restables(isBuy, r.market)
    requires |r.queue| + h == |s.queue| && forall i :: 0 <= i < |r.queue| ==> r.queue[i].terms == s.queue[h + i].terms
    requires r.market == [] || |r.market| + d == |s.market|
    requires forall i :: 0 <= i < |r.market| ==> r.market[i].terms == s.market[d + i].terms
    ensures SideOk(isBuy, r)
  {
    forall i, j | 0 <= i < j < |r.queue| ensures !Better(isBuy, Px(r.queue[j]), Px(r.queue[i])) {
      assert !Better(isBuy, Px(s.queue[h + j]), Px(s.queue[h + i]));
    }
  }

  lemma ExecuteKeepsBook(b: BookView, p: int, nextTrade: nat)
    requires BookOk(b)
    ensures AllOpenBook(b)
    ensures var e := ExecuteAt(b, p, nextTrade);
      BookOk(e.book) && AllBounded(e.buysDone) && AllBounded(e.sellsDone)
  {
    OkBookIsOpen(b);
    var buyers, sellers := Accepting(true, b.bids, p), Accepting(false, b.asks, p);
    var r := PairOff(buyers, sellers, p, nextTrade);
    PairOffUsesPrefixes(buyers, sellers, p, nextTrade);
    PairOffKeeps(buyers, sellers, p, nextTrade);
    RemainOk(true, b.bids, p, r.buysDone, r.buys);
    RemainOk(false, b.asks, p, r.sellsDone, r.sells);
  }

  lemma CancelAllBounded(isBuy: bool, q: seq<OrderView>)
    requires MarketQueue(isBuy, q)
    ensures AllBounded(CancelAll(q))
  {
  }

  lemma RetiredBounded(e: Execution)
    requires BookOk(e.book) && AllBounded(e.buysDone) && AllBounded(e.sellsDone)
    ensures BookOk(Expire(e.book)) && AllBounded(Retired(e))
  {
    CancelAllBounded(true, e.book.bids.market);
    CancelAllBounded(false, e.book.asks.market);
  }

  lemma RunAuctionKeepsBook(b: BookView, reference: Option<int>, rules: seq<Rule>, nextTrade: nat)
    requires BookOk(b)
    ensures AllOpenBook(b)
    ensures var r := RunAuction(b, reference, rules, nextTrade); BookOk(r.book) && AllBounded(r.retired)
  {
    OkBookIsOpen(b);
    var price := AuctionPrice(Uncross(b, reference, rules), reference);
    if price.Some? { ExecuteKeepsBook(b, price.value, nextTrade); }
    RetiredBounded(AuctionExecution(b, reference, rules, nextTrade));
  }

  // ---- steps ----------------------------------------------------------------------

  lemma ChangedIsValid(s: State, o: OrderView, newQuantity: Option<int>, newPrice: Option<int>, matching: bool)
    requires BookOk(s.book) && Admissible(s, Change(o, newQuantity, newPrice, matching))
    ensures var a := Amended(o, newQuantity, newPrice);
      (Leaves(a) > 0 ==> Valid(a)) && forall k, buys :: One(k, buys, a) == One(k, buys, o)
  {
    InRestable(s.book, o);
  }

  // What a step reports as traded.
  ghost function StepReports(rules: Rules, s: State, a: Action): seq<Event>
    requires BookOk(s.book) && Admissible(s, a)
  {
    match a
    case Enter(o, matching) => Submit(rules, s.book, o, matching, s.nextTrade).events
    case Withdraw(_) => []
    case Change(o, q, p, matching) =>
      AmendOk(s.book, o, q, p);
      var amended := Amended(o, q, p);
      var b := AmendBook(s.book, o, q, p);
      RemoveOk(b, amended.terms);
      if matching && Leaves(amended) > 0
      then Submit(rules, Remove(b, amended.terms), amended, true, s.nextTrade).events else []
    case Auction(reference, auctionRules) =>
      OkBookIsOpen(s.book);
      RunAuction(s.book, reference, auctionRules, s.nextTrade).events
  }

  // Every tally grows by the order entered and by what is reported, on both sides.
  lemma ChangeTotal(k: Measure, buys: bool, rules: Rules, s: State, o: OrderView, q: Option<int>, p: Option<int>, matching: bool)
    requires Good(s) && Admissible(s, Change(o, q, p, matching))
    ensures var a := Change(o, q, p, matching);
      Total(k, buys, Step(rules, s, a)) == Total(k, buys, s) + Reported(k, StepReports(rules, s, a))
  {
    var a := Amended(o, q, p);
    var b := AmendBook(s.book, o, q, p);
    DistinctBook(s, o.terms.id);
    ChangedIsValid(s, o, q, p, matching);
    AmendOk(s.book, o, q, p);
    AmendTotal(k, buys, s.book, o, q, p);
    if Leaves(a) == 0 {
      AbsorbTotal(k, buys, s, b, [a], s.nextTrade, []);
    } else if matching {
      AmendTotal(Count(o.terms.id), true, s.book, o, q, p);
      AmendTotal(Count(o.terms.id), false, s.book, o, q, p);
      RemoveTally(k, buys, b, a);
      RemoveOk(b, a.terms);
      EnterTotal(k, buys, rules, s.(book := Remove(b, a.terms)), a, true);
    }
  }

  lemma WithdrawTotal(k: Measure, buys: bool, s: State, o: OrderView)
    requires Good(s) && In(s.book, o)
    ensures Total(k, buys, WithdrawStep(s, o)) == Total(k, buys, s)
  {
    DistinctBook(s, o.terms.id);
    RemoveTally(k, buys, s.book, o);
    AbsorbTotal(k, buys, s, Remove(s.book, o.terms), [WithCancel(o)], s.nextTrade, []);
  }

  lemma StepTotal(k: Measure, buys: bool, rules: Rules, s: State, a: Action)
    requires Good(s) && Admissible(s, a)
    ensures Total(k, buys, Step(rules, s, a)) ==
      Total(k, buys, s) + Entered(k, buys, a) + Reported(k, StepReports(rules, s, a))
  {
    match a
    case Enter(o, matching) => EnterTotal(k, buys, rules, s, o, matching);
    case Withdraw(o) => WithdrawTotal(k, buys, s, o);
    case Change(o, q, p, matching) => ChangeTotal(k, buys, rules, s, o, q, p, matching);
    case Auction(reference, auctionRules) => AuctionTotal(k, buys, s, reference, auctionRules);
  }

  lemma StepStatistics(rules: Rules, s: State, a: Action)
    requires Good(s) && Admissible(s, a)
    ensures var t := Step(rules, s, a);
      && t.volume == s.volume + Reported(Quantity, StepReports(rules, s, a))
      && t.turnover == s.turnover + Reported(Value, StepReports(rules, s, a))
  {
    if a.Change? {
      ChangedIsValid(s, a.order, a.newQuantity, a.newPrice, a.matching);
    }
  }

  lemma BoundedTogether(q: seq<OrderView>, r: seq<OrderView>)
    ensures AllBounded(q + r) <==> AllBounded(q) && AllBounded(r)
  {
    assert forall i :: 0 <= i < |q| ==> (q + r)[i] == q[i];
    assert forall i :: 0 <= i < |r| ==> (q + r)[|q| + i] == r[i];
  }

  lemma ChangeKeepsBook(rules: Rules, s: State, o: OrderView, q: Option<int>, p: Option<int>, matching: bool)
    requires Good(s) && Admissible(s, Change(o, q, p, matching))
    ensures var a := Change(o, q, p, matching);
      var t := Step(rules, s, a);
      BookOk(t.book) && (AllBounded(t.retired) <==> AllBounded(s.retired) && CoversExecuted(a))
  {
    var a := Amended(o, q, p);
    var b := AmendBook(s.book, o, q, p);
    ChangedIsValid(s, o, q, p, matching);
    AmendOk(s.book, o, q, p);
    InRestable(s.book, o);
    if Leaves(a) == 0 {
      BoundedTogether(s.retired, [a]);
      assert AllBounded([a]) <==> Bounded([a][0]);
    } else if matching {
      RemoveOk(b, a.terms);
      SubmitKeepsBook(rules, Remove(b, a.terms), a, true, s.nextTrade);
      BoundedTogether(s.retired, Leaving(Submit(rules, Remove(b, a.terms), a, true, s.nextTrade)));
    }
  }

  // Every order that has left stays within its quantity, unless an amendment asked
  // for less than it had executed.
  lemma StepKeepsBook(rules: Rules, s: State, a: Action)
    requires Good(s) && Admissible(s, a)
    ensures BookOk(Step(rules, s, a).book)
    ensures AllBounded(Step(rules, s, a).retired) <==> AllBounded(s.retired) && CoversExecuted(a)
  {
    match a
    case Enter(o, matching) =>
      SubmitKeepsBook(rules, s.book, o, matching, s.nextTrade);
      BoundedTogether(s.retired, Leaving(Submit(rules, s.book, o, matching, s.nextTrade)));
    case Withdraw(o) =>
      InRestable(s.book, o);
      RemoveOk(s.book, o.terms);
      BoundedTogether(s.retired, [WithCancel(o)]);
    case Change(o, q, p, matching) => ChangeKeepsBook(rules, s, o, q, p, matching);
    case Auction(reference, auctionRules) =>
      RunAuctionKeepsBook(s.book, reference, auctionRules, s.nextTrade);
      BoundedTogether(s.retired, RunAuction(s.book, reference, auctionRules, s.nextTrade).retired);
  }

  // No step duplicates an order, loses one, or breaks conservation.
  lemma StepKeepsGood(rules: Rules, s: State, a: Action)
    requires Good(s) && Admissible(s, a)
    ensures Good(Step(rules, s, a))
  {
    StepKeepsBook(rules, s, a);
    StepConserves(rules, s, a);
    StepKeepsDistinct(rules, s, a);
  }

  lemma StepConserves(rules: Rules, s: State, a: Action)
    requires Good(s) && Admissible(s, a)
    ensures Conserved(Step(rules, s, a))
  {
    var t, reports := Step(rules, s, a), StepReports(rules, s, a);
    StepStatistics(rules, s, a);
    StepBalances(Quantity, rules, s, a, t, reports);
    StepBalances(Value, rules, s, a, t, reports);
  }

  // Orders enter with nothing executed, so both sides grow by what is reported.
  lemma StepBalances(k: Measure, rules: Rules, s: State, a: Action, t: State, reports: seq<Event>)
    requires Good(s) && Admissible(s, a) && t == Step(rules, s, a) && reports == StepReports(rules, s, a)
    requires k == Quantity || k == Value
    ensures forall buys :: Total(k, buys, t) == Total(k, buys, s) + Reported(k, reports)
  {
    forall buys ensures Total(k, buys, t) == Total(k, buys, s) + Reported(k, reports) {
      StepTotal(k, buys, rules, s, a);
      assert Entered(k, buys, a) == 0;
    }
  }

  lemma StepKeepsDistinct(rules: Rules, s: State, a: Action)
    requires Good(s) && Admissible(s, a)
    ensures Distinct(Step(rules, s, a))
  {
    forall id ensures Total(Count(id), true, Step(rules, s, a)) + Total(Count(id), false, Step(rules, s, a)) <= 1 {
      StepCounts(rules, s, a, id);
    }
  }

  lemma StepCounts(rules: Rules, s: State, a: Action, id: nat)
    requires Good(s) && Admissible(s, a)
    ensures Total(Count(id), true, Step(rules, s, a)) + Total(Count(id), false, Step(rules, s, a)) <= 1
  {
    StepTotal(Count(id), true, rules, s, a);
    StepTotal(Count(id), false, rules, s, a);
    NoCountReported(id, StepReports(rules, s, a));
    EnteredOnce(s, a, id);
  }

  // An order entered is new to the market.
  lemma EnteredOnce(s: State, a: Action, id: nat)
    requires Distinct(s) && BookOk(s.book) && Admissible(s, a)
    ensures Total(Count(id), true, s) + Total(Count(id), false, s) + Entered(Count(id), true, a) + Entered(Count(id), false, a) <= 1
  {
    assert Total(Count(id), true, s) + Total(Count(id), false, s) <= 1;
  }

  lemma {:induction false} NoCountReported(id: nat, events: seq<Event>)
    ensures Reported(Count(id), events) == 0
  {
    if events != [] {
      NoCountReported(id, events[1..]);
    }
  }
}
