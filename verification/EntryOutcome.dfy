// What becomes of an order entered: refused, filled, resting or cancelled, and what is
// reported of it (exchangesim/core/matching.py submit).
module EntryOutcome {
  import opened Options
  import opened Orders
  import opened PriceLevels
  import opened Matching
  import opened BookRules
  import opened BookInvariants
  import opened Trading
  import opened AllOrNothing
  import opened WalkOutcome

  // ---- what is reported of one order ------------------------------------------------

  function CancelledOf(e: Event, id: nat): seq<CancelReason> {
    if e.OrderCancelled? && e.orderId == id then [e.reason] else []
  }

  // The reasons an order was cancelled for, in order.
  function Cancels(events: seq<Event>, id: nat): seq<CancelReason> {
    if events == [] then [] else CancelledOf(events[0], id) + Cancels(events[1..], id)
  }

  function AcceptedIn(e: Event): seq<Event> {
    if e.Accepted? then [e] else []
  }

  function Acceptances(events: seq<Event>): seq<Event> {
    if events == [] then [] else AcceptedIn(events[0]) + Acceptances(events[1..])
  }

  lemma {:induction false} CancelsConcat(a: seq<Event>, b: seq<Event>, id: nat)
    ensures Cancels(a + b, id) == Cancels(a, id) + Cancels(b, id)
    decreases |a|
  {
    if a == [] {
      assert a + b == b;
    } else {
      assert (a + b)[1..] == a[1..] + b;
      CancelsConcat(a[1..], b, id);
    }
  }

  lemma {:induction false} AcceptancesConcat(a: seq<Event>, b: seq<Event>)
    ensures Acceptances(a + b) == Acceptances(a) + Acceptances(b)
    decreases |a|
  {
    if a == [] {
      assert a + b == b;
    } else {
      assert (a + b)[1..] == a[1..] + b;
      AcceptancesConcat(a[1..], b);
    }
  }

  lemma FewEvents(e: seq<Event>, id: nat)
    ensures e == [] ==> Cancels(e, id) == [] && Acceptances(e) == []
    ensures |e| == 1 ==> Cancels(e, id) == CancelledOf(e[0], id) && Acceptances(e) == AcceptedIn(e[0])
    ensures |e| == 2 ==> Cancels(e, id) == CancelledOf(e[0], id) + CancelledOf(e[1], id)
    ensures |e| == 2 ==> Acceptances(e) == AcceptedIn(e[0]) + AcceptedIn(e[1])
    ensures |e| == 3 ==>
      Cancels(e, id) == CancelledOf(e[0], id) + (CancelledOf(e[1], id) + CancelledOf(e[2], id))
    ensures |e| == 3 ==> Acceptances(e) == AcceptedIn(e[0]) + (AcceptedIn(e[1]) + AcceptedIn(e[2]))
  {
    if |e| == 2 { assert e[1..] == [e[1]]; }
    if |e| == 3 { assert e[1..] == [e[1], e[2]] && e[1..][1..] == [e[2]]; }
  }

  // ---- during matching -------------------------------------------------------------------

  ghost predicate Fresh(id: nat, q: seq<OrderView>) {
    forall i :: 0 <= i < |q| ==> q[i].terms.id != id
  }

  lemma TradingCancelsNone(inc: OrderView, o: OrderView, quantity: int, price: int, tradeId: nat, id: nat)
    ensures var events := ExecuteEvents(inc, o, quantity, price, tradeId);
      Cancels(events, id) == [] && Acceptances(events) == []
  {
    FewEvents(ExecuteEvents(inc, o, quantity, price, tradeId), id);
  }

  lemma PreventingCancels(mode: StpMode, inc: OrderView, o: OrderView)
    requires Leaves(inc) > 0 && Leaves(o) > 0 && o.terms.id != inc.terms.id
    ensures var m, events := Prevent(mode, inc, o), PreventEvents(mode, inc, o);
      && Cancels(events, inc.terms.id) == (if m.incoming.status == Cancelled then [SelfTradePrevention] else [])
      && Acceptances(events) == []
  {
    FewEvents(PreventEvents(mode, inc, o), inc.terms.id);
  }

  lemma MeetingCancels(mode: StpMode, inc: OrderView, o: OrderView, nextTrade: nat)
    requires Leaves(inc) > 0 && Leaves(o) > 0 && o.terms.id != inc.terms.id
    ensures var m := Meet(mode, inc, o);
      var events := MeetEvents(mode, inc, o, m, nextTrade);
      && Cancels(events, inc.terms.id) == (if m.incoming.status == Cancelled then [SelfTradePrevention] else [])
      && Acceptances(events) == []
  {
    if SelfTrade(mode, inc.terms, o.terms) {
      PreventingCancels(mode, inc, o);
    } else {
      var m := Meet(mode, inc, o);
      TradingCancelsNone(m.incoming, m.resting, m.traded, Px(o), nextTrade, inc.terms.id);
    }
  }

  // Matching cancels the incoming order only to prevent a self-trade, says so once, and
  // accepts nothing.
  lemma {:induction false} WalkCancels(mode: StpMode, inc: OrderView, q: seq<OrderView>, nextTrade: nat)
    requires AllOpen(q) && Fresh(inc.terms.id, q) && inc.status != Cancelled
    ensures var w := MatchWalk(mode, inc, q, nextTrade);
      && Cancels(w.events, inc.terms.id) == (if w.incoming.status == Cancelled then [SelfTradePrevention] else [])
      && Acceptances(w.events) == []
    decreases |q|
  {
    if Leaves(inc) > 0 && Meets(inc.terms, q) {
      MeetingCancels(mode, inc, q[0], nextTrade);
      var m := Meet(mode, inc, q[0]);
      if m.gone && !m.stop {
        var next := if m.traded > 0 then nextTrade + 1 else nextTrade;
        var events := MeetEvents(mode, inc, q[0], m, nextTrade);
        MeetingOutcome(mode, inc, q[0], nextTrade);
        WalkCancels(mode, m.incoming, q[1..], next);
        var rest := MatchWalk(mode, m.incoming, q[1..], next);
        WalkOn(mode, inc, q, nextTrade, m, events, next, rest);
        CancelsConcat(events, rest.events, inc.terms.id);
        AcceptancesConcat(events, rest.events);
      }
    }
  }

  // ---- post-only ---------------------------------------------------------------------------

  // Something on the other side would trade with it, or might if it has no price.
  predicate WouldTake(b: BookView, t: Terms) {
    var s := SideOf(b, !IsBuy(t));
    if t.price.None? then s.queue != [] || s.market != []
    else s.queue != [] && WithinLimit(t, Px(s.queue[0]))
  }

  lemma TakesIs(b: BookView, t: Terms)
    ensures PostOnlyRefused(b, t) <==> t.postOnly && WouldTake(b, t)
  {
    var q := SideOf(b, !IsBuy(t)).queue;
    if q != [] { LimitIsCross(t, Px(q[0])); }
  }

  // A post-only order is turned away exactly when it would take.
  lemma PostOnlyExactly(rules: Rules, b: BookView, o: OrderView, matching: bool, nextTrade: nat)
    requires BookOk(b) && Valid(o)
    ensures var e := Submit(rules, b, o, matching, nextTrade);
      && (o.terms.postOnly && WouldTake(b, o.terms) ==>
            e == Entry(b, o.(status := Rejected), false, [], [PostOnlyRejected(o.terms.id)], nextTrade))
      && (e.order.status == Rejected ==> o.terms.postOnly && WouldTake(b, o.terms))
  {
    TakesIs(b, o.terms);
    if !PostOnlyRefused(b, o.terms) && matching {
      MatchedIsNotRejected(rules, b, Acknowledged(rules, o), Acknowledgement(rules, o), nextTrade);
    }
  }

  lemma MatchedIsNotRejected(rules: Rules, b: BookView, a: OrderView, events: seq<Event>, nextTrade: nat)
    requires BookOk(b) && Valid(a)
    ensures EnterAndMatch(rules, b, a, events, nextTrade).order.status != Rejected
  {
    WalkHasOutcome(rules.mode, a, SideOf(b, !IsBuy(a.terms)).queue, nextTrade);
  }

  // And so it never trades.
  lemma PostOnlyNeverTrades(rules: Rules, b: BookView, o: OrderView, matching: bool, nextTrade: nat)
    requires BookOk(b) && Valid(o) && o.terms.postOnly
    ensures var e := Submit(rules, b, o, matching, nextTrade);
      e.nextTrade == nextTrade && e.done == [] && e.order.cumQty == o.cumQty
  {
    TakesIs(b, o.terms);
    var a := Acknowledged(rules, o);
    if !PostOnlyRefused(b, o.terms) && matching {
      var q := SideOf(b, !IsBuy(a.terms)).queue;
      assert !Meets(a.terms, q) by {
        if q != [] { LimitIsCross(o.terms, Px(q[0])); }
      }
      assert MatchWalk(rules.mode, a, q, nextTrade) == Walk(a, [], q, [], nextTrade);
      NothingTraded(rules, b, a, Acknowledgement(rules, o), nextTrade);
    }
  }

  lemma NothingTraded(rules: Rules, b: BookView, a: OrderView, events: seq<Event>, nextTrade: nat)
    requires BookOk(b)
    requires var q := SideOf(b, !IsBuy(a.terms)).queue;
      MatchWalk(rules.mode, a, q, nextTrade) == Walk(a, [], q, [], nextTrade)
    ensures var e := EnterAndMatch(rules, b, a, events, nextTrade);
      e.nextTrade == nextTrade && e.done == [] && e.order.cumQty == a.cumQty
  {
  }

  // ---- refused by the pre-check --------------------------------------------------------------

  // What others offer within the limit, wherever in the queue they stand.
  function Liquidity(mode: StpMode, t: Terms, q: seq<OrderView>): int {
    if q == [] then 0
    else
      (if WithinLimit(t, Px(q[0])) && !Own(mode, t, q[0].terms) then Leaves(q[0]) else 0) + Liquidity(mode, t, q[1..])
  }

  lemma {:induction false} NoneWithin(mode: StpMode, t: Terms, q: seq<OrderView>)
    requires forall i :: 0 <= i < |q| ==> !WithinLimit(t, Px(q[i]))
    ensures Liquidity(mode, t, q) == 0
    decreases |q|
  {
    if q != [] {
      NoneWithin(mode, t, q[1..]);
    }
  }

  lemma {:induction false} LiquidityIs(mode: StpMode, t: Terms, q: seq<OrderView>)
    requires Sorted(!IsBuy(t), q)
    ensures OthersQuantity(mode, t, q) == Liquidity(mode, t, q)
    decreases |q|
  {
    if q != [] {
      LimitIsCross(t, Px(q[0]));
      OwnIsSelfTrade(mode, t, q[0].terms);
      if Meets(t, q) {
        LiquidityIs(mode, t, q[1..]);
      } else {
        forall i | 0 <= i < |q| ensures !WithinLimit(t, Px(q[i])) {
          assert i > 0 ==> !Better(!IsBuy(t), Px(q[i]), Px(q[0]));
        }
        NoneWithin(mode, t, q);
      }
    }
  }

  // The pre-check refuses a fill-or-kill order exactly when others offer less than the
  // whole, an immediate one with a minimum exactly when they offer less than that, and no
  // other; a refused order is cancelled for that reason and nothing else happens.
  lemma RefusedExactly(rules: Rules, b: BookView, o: OrderView, events: seq<Event>, nextTrade: nat)
    requires BookOk(b) && o.terms.minQty <= o.quantity
    ensures var q := SideOf(b, !IsBuy(o.terms)).queue;
      var r, offered, t := Refusal(rules.mode, o, q), Liquidity(rules.mode, o.terms, q), o.terms;
      && (r == Some(FokUnfilled) <==> t.tif == Fok && offered < o.quantity)
      && (r == Some(MinQtyUnmet) <==> t.tif == Ioc && t.minQty != 0 && offered < t.minQty)
      && (r.Some? ==> r.value == FokUnfilled || r.value == MinQtyUnmet)
      && (r.Some? && LiveStatus(o.status) ==>
            (EnterAndMatch(rules, b, o, events, nextTrade) ==
             Entry(b, o.(status := Cancelled), false, [], events + [OrderCancelled(t.id, r.value)], nextTrade)))
  {
    var q := SideOf(b, !IsBuy(o.terms)).queue;
    LiquidityIs(rules.mode, o.terms, q);
    ExecutableIsLiquidity(rules.mode, o, q, 0, o.quantity);
    ExecutableIsLiquidity(rules.mode, o, q, 0, o.terms.minQty);
  }

  // ---- after matching -------------------------------------------------------------------------

  predicate RestsFully(t: Terms) {
    t.orderType == Limit && t.tif == Day
  }

  // Where an order would stand on its own side: behind the priceless, or by price.
  function Joined(b: BookView, o: OrderView): SideView {
    var s := SideOf(b, IsBuy(o.terms));
    if o.terms.price.None? then s.(market := s.market + [o]) else s.(queue := Insert(IsBuy(o.terms), s.queue, o))
  }

  function Standing(o: OrderView): Status {
    if o.cumQty > 0 then PartiallyFilled else New
  }

  function AcceptanceOf(o: OrderView): Event {
    Accepted(o.terms.id, o.cumQty, o.quantity - o.cumQty, o.quantity)
  }

  // Taken in without matching, every order rests, whatever its type.
  lemma Accumulates(rules: Rules, b: BookView, o: OrderView, nextTrade: nat)
    requires BookOk(b) && Valid(o) && !(o.terms.postOnly && WouldTake(b, o.terms))
    ensures var e, isBuy := Submit(rules, b, o, false, nextTrade), IsBuy(o.terms);
      && e.rests && e.done == [] && e.nextTrade == nextTrade && e.order == o.(status := Standing(o))
      && SideOf(e.book, isBuy) == Joined(b, e.order) && SideOf(e.book, !isBuy) == SideOf(b, !isBuy)
      && e.events == if rules.ackOnEntry || o.cumQty == 0 then [AcceptanceOf(o)] else []
  {
    TakesIs(b, o.terms);
  }

  // The reason for which what matching left of an order is cancelled, if it is.
  function LeftFor(t: Terms, o: OrderView): seq<CancelReason> {
    if o.status == Cancelled then [SelfTradePrevention]
    else if Leaves(o) == 0 || RestsFully(t) then []
    else if t.orderType == Market then [MarketRemainder] else [IocRemainder]
  }

  // An entry that matched, told from the order as matching left it: only what is left of a
  // Day limit order rests, with what it has not executed; anything else is cancelled.
  ghost predicate EndsAs(rules: Rules, b: BookView, o: OrderView, w: Walk, e: Entry) {
    var left, isBuy := w.incoming, IsBuy(o.terms);
    && e.done == w.done && e.nextTrade == w.nextTrade
    && (e.rests <==> Leaves(left) > 0 && RestsFully(o.terms))
    && e.order == left.(status := if e.rests then Standing(left) else if Leaves(left) > 0 then Cancelled else left.status)
    && SideOf(e.book, !isBuy) == SideOf(b, !isBuy).(queue := w.rest)
    && SideOf(e.book, isBuy) == (if e.rests then Joined(b, e.order) else SideOf(b, isBuy))
    && e.events == FirstReports(rules, o) + w.events + LastReports(rules, left)
  }

  // And it is cancelled once, for one reason, and accepted once, on entry or on resting
  // untraded.
  ghost predicate Settled(rules: Rules, b: BookView, o: OrderView, w: Walk, e: Entry) {
    && EndsAs(rules, b, o, w, e)
    && Cancels(e.events, o.terms.id) == LeftFor(o.terms, w.incoming)
    && Acceptances(e.events) ==
         (if rules.ackOnEntry then [AcceptanceOf(o)]
          else if e.rests && w.incoming.cumQty <= 0 then [AcceptanceOf(w.incoming)] else [])
  }

  function FirstReports(rules: Rules, o: OrderView): seq<Event> {
    if rules.ackOnEntry then [AcceptanceOf(o)] else []
  }

  function LastReports(rules: Rules, left: OrderView): seq<Event> {
    var t := left.terms;
    if Leaves(left) == 0 then []
    else if RestsFully(t) then if rules.ackOnEntry || left.cumQty > 0 then [] else [AcceptanceOf(left)]
    else [OrderCancelled(t.id, if t.orderType == Market then MarketRemainder else IocRemainder)]
  }

  lemma CancelsSettle(rules: Rules, o: OrderView, w: Walk)
    requires w.incoming.terms == o.terms
    requires Cancels(w.events, o.terms.id) == if w.incoming.status == Cancelled then [SelfTradePrevention] else []
    ensures Cancels(FirstReports(rules, o) + w.events + LastReports(rules, w.incoming), o.terms.id) ==
      LeftFor(o.terms, w.incoming)
  {
    var id, first, last := o.terms.id, FirstReports(rules, o), LastReports(rules, w.incoming);
    CancelsConcat(first + w.events, last, id);
    CancelsConcat(first, w.events, id);
    FewEvents(first, id);
    FewEvents(last, id);
  }

  lemma AcceptancesSettle(rules: Rules, o: OrderView, w: Walk)
    requires w.incoming.terms == o.terms && Acceptances(w.events) == []
    ensures Acceptances(FirstReports(rules, o) + w.events + LastReports(rules, w.incoming)) ==
      (if rules.ackOnEntry then [AcceptanceOf(o)]
       else if Leaves(w.incoming) > 0 && RestsFully(o.terms) && w.incoming.cumQty <= 0 then [AcceptanceOf(w.incoming)]
       else [])
  {
    var id, first, last := o.terms.id, FirstReports(rules, o), LastReports(rules, w.incoming);
    AcceptancesConcat(first + w.events, last);
    AcceptancesConcat(first, w.events);
    FewEvents(first, id);
    FewEvents(last, id);
  }

  // Matched on entry, an order ends as its type, its time in force and the queue it met say.
  lemma Settles(rules: Rules, b: BookView, o: OrderView, nextTrade: nat) returns (w: Walk)
    requires BookOk(b) && Valid(o) && !(o.terms.postOnly && WouldTake(b, o.terms))
    requires var q := SideOf(b, !IsBuy(o.terms)).queue; Fresh(o.terms.id, q) && Refusal(rules.mode, o, q).None?
    ensures var q := SideOf(b, !IsBuy(o.terms)).queue;
      Matched(rules.mode, o.terms, q, w) && Settled(rules, b, o, w, Submit(rules, b, o, true, nextTrade))
  {
    var a, q := Acknowledged(rules, o), SideOf(b, !IsBuy(o.terms)).queue;
    w := MatchWalk(rules.mode, a, q, nextTrade);
    WalkHasOutcome(rules.mode, a, q, nextTrade);
    WalkCancels(rules.mode, a, q, nextTrade);
    var e := Submit(rules, b, o, true, nextTrade);
    SubmitSettles(rules, b, o, nextTrade, w);
    SettledBy(rules, b, o, w, e);
    CancelsSettle(rules, o, w);
    AcceptancesSettle(rules, o, w);
  }

  lemma SubmitSettles(rules: Rules, b: BookView, o: OrderView, nextTrade: nat, w: Walk)
    requires BookOk(b) && !(o.terms.postOnly && WouldTake(b, o.terms))
    requires var q := SideOf(b, !IsBuy(o.terms)).queue;
      Refusal(rules.mode, o, q).None? && w == MatchWalk(rules.mode, Acknowledged(rules, o), q, nextTrade)
    ensures var isBuy := IsBuy(o.terms);
      Submit(rules, b, o, true, nextTrade) ==
        Settle(WithSide(b, !isBuy, SideOf(b, !isBuy).(queue := w.rest)), w, rules.ackOnEntry,
               Acknowledgement(rules, o) + w.events)
  {
    TakesIs(b, o.terms);
    RefusalStays(rules, o, SideOf(b, !IsBuy(o.terms)).queue);
  }

  // The pre-check does not look at an order's status.
  lemma RefusalStays(rules: Rules, o: OrderView, q: seq<OrderView>)
    ensures Refusal(rules.mode, Acknowledged(rules, o), q) == Refusal(rules.mode, o, q)
  {
    ExecutableStays(rules.mode, o, Acknowledged(rules, o), q, 0);
  }

  lemma {:induction false} ExecutableStays(mode: StpMode, o: OrderView, a: OrderView, q: seq<OrderView>, available: int)
    requires o.terms == a.terms && o.quantity == a.quantity
    ensures ExecutableFrom(mode, o, q, available) == ExecutableFrom(mode, a, q, available)
    decreases |q|
  {
    if q != [] {
      ExecutableStays(mode, o, a, q[1..], available);
      ExecutableStays(mode, o, a, q[1..], available + Leaves(q[0]));
    }
  }

  lemma SettledBy(rules: Rules, b: BookView, o: OrderView, w: Walk, e: Entry)
    requires BookOk(b) && Valid(o) && w.incoming.terms == o.terms
    requires Leaves(w.incoming) > 0 || w.incoming.status == Filled || w.incoming.status == Cancelled
    requires var isBuy := IsBuy(o.terms);
      e == Settle(WithSide(b, !isBuy, SideOf(b, !isBuy).(queue := w.rest)), w, rules.ackOnEntry,
                  Acknowledgement(rules, o) + w.events)
    ensures EndsAs(rules, b, o, w, e)
  {
    assert FirstReports(rules, o) == Acknowledgement(rules, o);
    assert FirstReports(rules, o) + w.events + [] == FirstReports(rules, o) + w.events;
  }
}
