// One instrument's market as a state machine, and what every run of it keeps
// (exchangesim/core/market.py).
module Trading {
  import opened Options
  import opened Orders
  import opened PriceLevels
  import opened Matching
  import opened BookRules
  import opened Auction
  import opened AuctionTrading
  import opened Ledger
  import opened BookInvariants

  // The book, the orders that have left it, and the session statistics.
  datatype State = State(book: BookView, retired: seq<OrderView>, nextTrade: nat, volume: int, turnover: int)

  datatype Action =
    | Enter(order: OrderView, matching: bool)
    | Withdraw(order: OrderView)
    | Change(order: OrderView, newQuantity: Option<int>, newPrice: Option<int>, matching: bool)
    | Auction(reference: Option<int>, rules: seq<Rule>)

  // ---- steps -------------------------------------------------------------------

  function Absorb(s: State, book: BookView, retired: seq<OrderView>, nextTrade: nat, events: seq<Event>): State {
    State(book, s.retired + retired, nextTrade,
          s.volume + Reported(Quantity, events), s.turnover + Reported(Value, events))
  }

  function Leaving(e: Entry): seq<OrderView> {
    e.done + if e.rests then [] else [e.order]
  }

  ghost function EnterStep(rules: Rules, s: State, o: OrderView, matching: bool): State
    requires OpenBook(s.book)
  {
    var e := Submit(rules, s.book, o, matching, s.nextTrade);
    Absorb(s, e.book, Leaving(e), e.nextTrade, e.events)
  }

  function WithdrawStep(s: State, o: OrderView): State {
    Absorb(s, Remove(s.book, o.terms), [WithCancel(o)], s.nextTrade, [])
  }

  // Market.amend: amend in place, then enter the order again when matching.
  ghost function ChangeStep(rules: Rules, s: State, o: OrderView, newQuantity: Option<int>,
                            newPrice: Option<int>, matching: bool): State
    requires BookOk(s.book) && In(s.book, o)
  {
    var a := Amended(o, newQuantity, newPrice);
    AmendOk(s.book, o, newQuantity, newPrice);
    var b := AmendBook(s.book, o, newQuantity, newPrice);
    if Leaves(a) == 0 then Absorb(s, b, [a], s.nextTrade, [])
    else if !matching then s.(book := b)
    else
      RemoveOk(b, a.terms);
      EnterStep(rules, s.(book := Remove(b, a.terms)), a, true)
  }

  lemma InRests(b: BookView, o: OrderView)
    requires In(b, o)
    ensures Rests(b, o.terms)
  {
    var s := SideOf(b, IsBuy(o.terms));
    var q := if o.terms.price.None? then s.market else s.queue;
    var i :| 0 <= i < |q| && q[i] == o;
  }

  lemma AmendOk(b: BookView, o: OrderView, newQuantity: Option<int>, newPrice: Option<int>)
    requires BookOk(b) && In(b, o)
    ensures var a, r := Amended(o, newQuantity, newPrice), AmendBook(b, o, newQuantity, newPrice);
      BookOk(r) && (Leaves(a) > 0 ==> In(r, a) && Restable(IsBuy(a.terms), a))
  {
    var a := Amended(o, newQuantity, newPrice);
    InRests(b, o);
    RemoveOk(b, o.terms);
    InRestable(b, o);
    if Leaves(a) > 0 {
      AddOk(Remove(b, o.terms), a);
      ReinsertOk(Remove(b, o.terms), a);
    }
  }

  lemma InRestable(b: BookView, o: OrderView)
    requires BookOk(b) && In(b, o)
    ensures Restable(IsBuy(o.terms), o)
  {
  }

  ghost function AuctionStep(s: State, reference: Option<int>, rules: seq<Rule>): State
    requires AllOpenBook(s.book)
  {
    var r := RunAuction(s.book, reference, rules, s.nextTrade);
    Absorb(s, r.book, r.retired, r.nextTrade, r.events)
  }

  // ---- invariants -----------------------------------------------------------------

  function Total(k: Measure, buys: bool, s: State): int {
    BookTally(k, buys, s.book) + Tally(k, buys, s.retired)
  }

  // Buys and sells have executed the same quantity and value, and the
  // statistics say how much.
  ghost predicate Conserved(s: State) {
    && Total(Quantity, true, s) == Total(Quantity, false, s) == s.volume
    && Total(Value, true, s) == Total(Value, false, s) == s.turnover
  }

  predicate Bounded(o: OrderView) {
    0 <= o.cumQty <= o.quantity
  }

  ghost predicate AllBounded(q: seq<OrderView>) {
    forall i :: 0 <= i < |q| ==> Bounded(q[i])
  }

  ghost predicate Distinct(s: State) {
    forall id :: Total(Count(id), true, s) + Total(Count(id), false, s) <= 1
  }

  ghost predicate Good(s: State) {
    BookOk(s.book) && Distinct(s) && Conserved(s)
  }

  // Continuous trading: nothing crosses, nothing priceless rests.
  ghost predicate Continuous(b: BookView) {
    Uncrossed(b) && b.bids.market == [] && b.asks.market == []
  }

  // What validation guarantees of an order before it reaches the market.
  predicate Valid(o: OrderView) {
    LiveStatus(o.status) && Leaves(o) > 0 && 0 <= o.cumQty &&
    (o.terms.price.None? ==> o.terms.orderType == Market)
  }

  // New orders have a fresh id and no executions; the others name a resting order.
  ghost predicate Admissible(s: State, a: Action) {
    match a
    case Enter(o, _) =>
      Valid(o) && o.cumQty == 0 && o.notional == 0 &&
      Total(Count(o.terms.id), true, s) + Total(Count(o.terms.id), false, s) == 0
    case Withdraw(o) => In(s.book, o)
    case Change(o, _, _, _) => In(s.book, o)
    case Auction(_, rules) => rules != [] && rules[0] == MaxVolume
  }

  // No amendment asks for less than has been executed.
  predicate CoversExecuted(a: Action) {
    a.Change? && a.newQuantity.Some? ==> a.newQuantity.value >= a.order.cumQty
  }

  ghost function Step(rules: Rules, s: State, a: Action): State
    requires BookOk(s.book) && Admissible(s, a)
  {
    match a
    case Enter(o, matching) => EnterStep(rules, s, o, matching)
    case Withdraw(o) => WithdrawStep(s, o)
    case Change(o, q, p, matching) => ChangeStep(rules, s, o, q, p, matching)
    case Auction(reference, auctionRules) => AuctionStep(s, reference, auctionRules)
  }

  lemma OkBookIsOpen(b: BookView)
    requires BookOk(b)
    ensures AllOpenBook(b) && AuctionBook(b)
  {
  }

  // ---- entering an order -------------------------------------------------------------

  lemma WalkKeepsBook(rules: Rules, b: BookView, a: OrderView, nextTrade: nat) returns (w: Walk, b': BookView)
    requires BookOk(b) && Valid(a)
    ensures var isBuy := IsBuy(a.terms);
      && w == MatchWalk(rules.mode, a, SideOf(b, !isBuy).queue, nextTrade)
      && b' == WithSide(b, !isBuy, SideOf(b, !isBuy).(queue := w.rest))
      && BookOk(b') && AllBounded(w.done) && Sound(w.incoming) && Bounded(w.incoming)
      && w.incoming.terms == a.terms
      && (Leaves(w.incoming) > 0 ==> !Meets(a.terms, w.rest))
  {
    var isBuy := IsBuy(a.terms);
    var q := SideOf(b, !isBuy).queue;
    w := MatchWalk(rules.mode, a, q, nextTrade);
    b' := WithSide(b, !isBuy, SideOf(b, !isBuy).(queue := w.rest));
    WalkKeepsQueue(rules.mode, a, q, nextTrade, !isBuy);
    WalkUsesPrefix(rules.mode, a, q, nextTrade);
    WalkStopsAtCross(rules.mode, a, q, nextTrade);
  }

  lemma RestKeepsBook(b: BookView, o: OrderView, acknowledged: bool, done: seq<OrderView>, events: seq<Event>, nextTrade: nat)
    requires BookOk(b) && Valid(o)
    ensures BookOk(Rest(b, o, acknowledged, done, events, nextTrade).book)
  {
    AddOk(b, Rested(o));
  }

  lemma SettleKeepsBook(b: BookView, w: Walk, acknowledged: bool, events: seq<Event>)
    requires BookOk(b) && AllBounded(w.done) && Sound(w.incoming) && Bounded(w.incoming)
    requires w.incoming.terms.price.None? ==> w.incoming.terms.orderType == Market
    ensures var e := Settle(b, w, acknowledged, events); BookOk(e.book) && AllBounded(Leaving(e))
  {
    if Leaves(w.incoming) > 0 && w.incoming.terms.orderType != Market && !Immediate(w.incoming.terms) {
      AddOk(b, Rested(w.incoming));
    }
  }

  lemma SubmitKeepsBook(rules: Rules, b: BookView, o: OrderView, matching: bool, nextTrade: nat)
    requires BookOk(b) && Valid(o)
    ensures var e := Submit(rules, b, o, matching, nextTrade);
      BookOk(e.book) && AllBounded(Leaving(e))
  {
    var a, ack := Acknowledged(rules, o), Acknowledgement(rules, o);
    if !PostOnlyRefused(b, o.terms) {
      if !matching {
        RestKeepsBook(b, a, rules.ackOnEntry, [], ack, nextTrade);
      } else {
        MatchKeepsBook(rules, b, a, ack, nextTrade);
      }
    }
  }

  lemma MatchKeepsBook(rules: Rules, b: BookView, a: OrderView, events: seq<Event>, nextTrade: nat)
    requires BookOk(b) && Valid(a)
    ensures var e := EnterAndMatch(rules, b, a, events, nextTrade);
      BookOk(e.book) && AllBounded(Leaving(e))
  {
    if Refusal(rules.mode, a, SideOf(b, !IsBuy(a.terms)).queue).None? {
      var w, b' := WalkKeepsBook(rules, b, a, nextTrade);
      SettleKeepsBook(b', w, rules.ackOnEntry, events + w.events);
    }
  }

  lemma SideTallyUpdate(k: Measure, buys: bool, b: BookView, isBuy: bool, s: SideView)
    ensures BookTally(k, buys, WithSide(b, isBuy, s)) ==
      BookTally(k, buys, b) - SideTally(k, buys, SideOf(b, isBuy)) + SideTally(k, buys, s)
  {
  }

  // Matching moves the same amount into both sides and into the reports.
  lemma WalkTallies(k: Measure, buys: bool, rules: Rules, b: BookView, a: OrderView, nextTrade: nat, w: Walk, b': BookView)
    requires BookOk(b) && w == MatchWalk(rules.mode, a, SideOf(b, !IsBuy(a.terms)).queue, nextTrade)
    requires b' == WithSide(b, !IsBuy(a.terms), SideOf(b, !IsBuy(a.terms)).(queue := w.rest))
    requires w.incoming.terms == a.terms
    ensures BookTally(k, buys, b') + Tally(k, buys, w.done) + One(k, buys, w.incoming) ==
      BookTally(k, buys, b) + One(k, buys, a) + Reported(k, w.events)
  {
    var isBuy := IsBuy(a.terms);
    var opposite := SideOf(b, !isBuy);
    SideTallyUpdate(k, buys, b, !isBuy, opposite.(queue := w.rest));
    if buys == isBuy {
      WalkTallyIncoming(k, rules.mode, a, opposite.queue, nextTrade);
      WalkKeepsSides(rules, a, opposite.queue, nextTrade);
      OtherSideTally(k, buys, w.rest);
      OtherSideTally(k, buys, w.done);
      OtherSideTally(k, buys, opposite.queue);
    } else {
      WalkTallyResting(k, rules.mode, a, opposite.queue, nextTrade, buys);
    }
  }

  lemma WalkKeepsSides(rules: Rules, a: OrderView, q: seq<OrderView>, nextTrade: nat)
    requires AllOpen(q) && AllOn(!IsBuy(a.terms), q)
    ensures var w := MatchWalk(rules.mode, a, q, nextTrade);
      AllOn(!IsBuy(a.terms), w.done) && AllOn(!IsBuy(a.terms), w.rest)
  {
    WalkUsesPrefix(rules.mode, a, q, nextTrade);
    WalkLeavesRest(rules.mode, a, q, nextTrade);
  }

  // The order ends up on the book or among those that left it.
  lemma RestTallies(k: Measure, buys: bool, b: BookView, o: OrderView, acknowledged: bool,
                    done: seq<OrderView>, events: seq<Event>, nextTrade: nat)
    ensures var e := Rest(b, o, acknowledged, done, events, nextTrade);
      && BookTally(k, buys, e.book) + Tally(k, buys, Leaving(e)) ==
           BookTally(k, buys, b) + Tally(k, buys, done) + One(k, buys, o)
      && Reported(k, e.events) == Reported(k, events)
  {
    var e := Rest(b, o, acknowledged, done, events, nextTrade);
    AddTally(k, buys, b, Rested(o));
    assert Leaving(e) == done;
    var tail := if o.cumQty > 0 || acknowledged then [] else [AcceptedReport(Rested(o))];
    ReportedConcat(k, events, tail);
    ReportedByFew(k, tail);
  }

  lemma LeaveTallies(k: Measure, buys: bool, e: Entry, o: OrderView)
    requires !e.rests && One(k, buys, e.order) == One(k, buys, o)
    ensures Tally(k, buys, Leaving(e)) == Tally(k, buys, e.done) + One(k, buys, o)
  {
    TallyConcat(k, buys, e.done, [e.order]);
  }

  lemma SettleTallies(k: Measure, buys: bool, b: BookView, w: Walk, acknowledged: bool, events: seq<Event>)
    ensures var e := Settle(b, w, acknowledged, events);
      && BookTally(k, buys, e.book) + Tally(k, buys, Leaving(e)) ==
           BookTally(k, buys, b) + Tally(k, buys, w.done) + One(k, buys, w.incoming)
      && Reported(k, e.events) == Reported(k, events)
  {
    var e := Settle(b, w, acknowledged, events);
    if Leaves(w.incoming) > 0 && w.incoming.terms.orderType != Market && !Immediate(w.incoming.terms) {
      RestTallies(k, buys, b, w.incoming, acknowledged, w.done, events, w.nextTrade);
    } else {
      LeaveTallies(k, buys, e, w.incoming);
      if Leaves(w.incoming) > 0 {
        var tail := [OrderCancelled(w.incoming.terms.id,
                                    if w.incoming.terms.orderType == Market then MarketRemainder else IocRemainder)];
        ReportedConcat(k, events, tail);
        ReportedByFew(k, tail);
      }
    }
  }

  lemma MatchTallies(k: Measure, buys: bool, rules: Rules, b: BookView, a: OrderView, events: seq<Event>, nextTrade: nat)
    requires BookOk(b) && Valid(a) && Reported(k, events) == 0
    ensures var e := EnterAndMatch(rules, b, a, events, nextTrade);
      BookTally(k, buys, e.book) + Tally(k, buys, Leaving(e)) ==
        BookTally(k, buys, b) + One(k, buys, a) + Reported(k, e.events)
  {
    var refusal := Refusal(rules.mode, a, SideOf(b, !IsBuy(a.terms)).queue);
    if refusal.Some? {
      LeaveTallies(k, buys, EnterAndMatch(rules, b, a, events, nextTrade), a);
      var tail := [OrderCancelled(a.terms.id, refusal.value)];
      ReportedConcat(k, events, tail);
      ReportedByFew(k, tail);
    } else {
      var w, b' := WalkKeepsBook(rules, b, a, nextTrade);
      WalkTallies(k, buys, rules, b, a, nextTrade, w, b');
      ReportedConcat(k, events, w.events);
      SettleTallies(k, buys, b', w, rules.ackOnEntry, events + w.events);
    }
  }

  lemma SubmitTallies(k: Measure, buys: bool, rules: Rules, b: BookView, o: OrderView, matching: bool, nextTrade: nat)
    requires BookOk(b) && Valid(o)
    ensures var e := Submit(rules, b, o, matching, nextTrade);
      BookTally(k, buys, e.book) + Tally(k, buys, Leaving(e)) ==
        BookTally(k, buys, b) + One(k, buys, o) + Reported(k, e.events)
  {
    var a, ack := Acknowledged(rules, o), Acknowledgement(rules, o);
    ReportedByFew(k, ack);
    if PostOnlyRefused(b, o.terms) {
      LeaveTallies(k, buys, Submit(rules, b, o, matching, nextTrade), o);
      ReportedByFew(k, [PostOnlyRejected(o.terms.id)]);
    } else if !matching {
      RestTallies(k, buys, b, a, rules.ackOnEntry, [], ack, nextTrade);
    } else {
      MatchTallies(k, buys, rules, b, a, ack, nextTrade);
    }
  }
}
