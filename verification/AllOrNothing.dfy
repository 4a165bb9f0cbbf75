// Fill-or-kill and minimum-quantity entry: when the pre-check passes, and exactly
// when the outcome is all or nothing (exchangesim/core/matching.py _precheck).
module AllOrNothing {
  import opened Options
  import opened Orders
  import opened PriceLevels
  import opened Matching
  import opened BookRules
  import opened BookInvariants
  import opened Trading

  // The pre-check's early stop never changes its answer: it asks whether the
  // crossing quantity of others reaches n.
  lemma {:induction false} ExecutableIsLiquidity(mode: StpMode, o: OrderView, q: seq<OrderView>, available: int, n: int)
    requires n <= o.quantity
    ensures ExecutableFrom(mode, o, q, available) >= n <==> available + OthersQuantity(mode, o.terms, q) >= n
    decreases |q|
  {
    if Meets(o.terms, q) {
      ExecutableIsLiquidity(mode, o, q[1..], available, n);
      ExecutableIsLiquidity(mode, o, q[1..], available + Leaves(q[0]), n);
    }
  }

  // The order's own quantity queued ahead of the n-th unit of other liquidity.
  function SelfAhead(mode: StpMode, inc: Terms, q: seq<OrderView>, n: int): (r: int)
    ensures r >= 0
    decreases |q|
  {
    if n <= 0 || !Meets(inc, q) then 0
    else if SelfTrade(mode, inc, q[0].terms) then Leaves(q[0]) + SelfAhead(mode, inc, q[1..], n)
    else SelfAhead(mode, inc, q[1..], n - Leaves(q[0]))
  }

  lemma {:induction false} DecrementReaches(mode: StpMode, inc: Terms, q: seq<OrderView>, budget: int, n: int)
    requires AllOpen(q) && EffectiveMode(mode, inc) == Decrement && 0 < n <= OthersQuantity(mode, inc, q)
    ensures Reachable(mode, inc, q, budget) >= n <==> SelfAhead(mode, inc, q, n) + n <= budget
    decreases |q|
  {
    if budget > 0 {
      if SelfTrade(mode, inc, q[0].terms) {
        DecrementReaches(mode, inc, q[1..], budget - Leaves(q[0]), n);
      } else if n > Leaves(q[0]) {
        DecrementReaches(mode, inc, q[1..], budget - Leaves(q[0]), n - Leaves(q[0]));
      }
    }
  }

  function OppositeQueue(b: BookView, t: Terms): seq<OrderView> {
    SideOf(b, !IsBuy(t)).queue
  }

  // An accepted order trades what is reachable for it, whatever it rests or
  // cancels afterwards.
  lemma EntryTradesReachable(rules: Rules, b: BookView, o: OrderView, events: seq<Event>, nextTrade: nat)
    requires OpenBook(b) && Refusal(rules.mode, o, OppositeQueue(b, o.terms)).None?
    ensures EnterAndMatch(rules, b, o, events, nextTrade).order.cumQty - o.cumQty ==
      Reachable(rules.mode, o.terms, OppositeQueue(b, o.terms), Leaves(o))
  {
    var q, isBuy := OppositeQueue(b, o.terms), IsBuy(o.terms);
    var w := MatchWalk(rules.mode, o, q, nextTrade);
    WalkTradesReachable(rules.mode, o, q, nextTrade);
    SettleKeepsFills(w, WithSide(b, !isBuy, SideOf(b, !isBuy).(queue := w.rest)), rules.ackOnEntry, events + w.events);
  }

  lemma SettleKeepsFills(w: Walk, b: BookView, acknowledged: bool, events: seq<Event>)
    ensures Settle(b, w, acknowledged, events).order.cumQty == w.incoming.cumQty
  {
  }

  // A refused order leaves the book exactly as it was.
  lemma RefusalTouchesNothing(rules: Rules, b: BookView, o: OrderView, events: seq<Event>, nextTrade: nat)
    requires OpenBook(b) && Refusal(rules.mode, o, OppositeQueue(b, o.terms)).Some?
    ensures var e := EnterAndMatch(rules, b, o, events, nextTrade);
      e.book == b && e.done == [] && !e.rests && e.order.cumQty == o.cumQty && Leaves(e.order) == 0 &&
      e.nextTrade == nextTrade
  {
  }

  // ---- fill or kill ---------------------------------------------------------------

  // Whether a self-match stands between the order and a full fill, and trades
  // something first.
  predicate SelfMatchSplits(mode: StpMode, o: OrderView, q: seq<OrderView>) {
    var m := EffectiveMode(mode, o.terms);
    && m != CancelOldest
    && Clear(mode, o.terms, q) < Leaves(o)
    && (Clear(mode, o.terms, q) > 0 || (m == Decrement && LeadSelf(mode, o.terms, q) < Leaves(o)))
  }

  lemma FokTrades(mode: StpMode, o: OrderView, q: seq<OrderView>)
    requires AllOpen(q) && Valid(o) && OthersQuantity(mode, o.terms, q) >= o.quantity
    ensures var t := Reachable(mode, o.terms, q, Leaves(o));
      (t == 0 || t == Leaves(o)) <==> !SelfMatchSplits(mode, o, q)
  {
    var t := o.terms;
    match EffectiveMode(mode, t)
    case CancelOldest => ReachableOldest(mode, t, q, Leaves(o));
    case CancelNewest => ReachableNewest(mode, t, q, Leaves(o));
    case Decrement =>
      ReachableDecrement(mode, t, q, Leaves(o));
      DecrementTradesNothing(mode, t, q, Leaves(o));
  }

  // A fill-or-kill order passes exactly when others' crossing quantity covers it.
  // It then ends untouched or full, except exactly when a self-match splits it.
  lemma FokAllOrNothing(rules: Rules, b: BookView, o: OrderView, events: seq<Event>, nextTrade: nat)
    requires OpenBook(b) && Valid(o) && o.terms.tif == Fok
    ensures var q := OppositeQueue(b, o.terms);
      var e := EnterAndMatch(rules, b, o, events, nextTrade);
      && (Refusal(rules.mode, o, q).None? <==> OthersQuantity(rules.mode, o.terms, q) >= o.quantity)
      && (e.order.cumQty in {o.cumQty, o.quantity} <==>
            OthersQuantity(rules.mode, o.terms, q) < o.quantity || !SelfMatchSplits(rules.mode, o, q))
  {
    var q := OppositeQueue(b, o.terms);
    ExecutableIsLiquidity(rules.mode, o, q, 0, o.quantity);
    if Refusal(rules.mode, o, q).None? {
      EntryTradesReachable(rules, b, o, events, nextTrade);
      FokTrades(rules.mode, o, q);
    } else {
      RefusalTouchesNothing(rules, b, o, events, nextTrade);
    }
  }

  // Without any self-match among the orders it crosses, nothing splits it.
  lemma NoSelfMatchNoSplit(mode: StpMode, o: OrderView, q: seq<OrderView>)
    requires OthersQuantity(mode, o.terms, q) >= o.quantity && Valid(o)
    requires forall i :: 0 <= i < |q| && Crosses(o.terms, Px(q[i])) ==> !SelfTrade(mode, o.terms, q[i].terms)
    ensures !SelfMatchSplits(mode, o, q)
  {
    ClearIsLiquidity(mode, o.terms, q);
  }

  // ---- minimum quantity ----------------------------------------------------------

  predicate MinQtySplits(mode: StpMode, o: OrderView, q: seq<OrderView>) {
    var t := o.terms;
    match EffectiveMode(mode, t)
    case CancelOldest => false
    case Decrement => LeadSelf(mode, t, q) < Leaves(o) < SelfAhead(mode, t, q, t.minQty) + t.minQty
    case _ => 0 < Clear(mode, t, q) < t.minQty
  }

  lemma MinQtyTrades(mode: StpMode, o: OrderView, q: seq<OrderView>)
    requires AllOpen(q) && Valid(o) && 0 < o.terms.minQty <= Leaves(o)
    requires OthersQuantity(mode, o.terms, q) >= o.terms.minQty
    ensures var t := Reachable(mode, o.terms, q, Leaves(o));
      (t == 0 || t >= o.terms.minQty) <==> !MinQtySplits(mode, o, q)
  {
    var t := o.terms;
    match EffectiveMode(mode, t)
    case CancelOldest => ReachableOldest(mode, t, q, Leaves(o));
    case CancelNewest => ReachableNewest(mode, t, q, Leaves(o));
    case Decrement =>
      DecrementTradesNothing(mode, t, q, Leaves(o));
      DecrementReaches(mode, t, q, Leaves(o), t.minQty);
  }

  // An immediate order with a minimum ends untouched or at its minimum or more,
  // except exactly when a self-match splits it below the minimum.
  lemma MinQtyAllOrNothing(rules: Rules, b: BookView, o: OrderView, events: seq<Event>, nextTrade: nat)
    requires OpenBook(b) && Valid(o) && o.cumQty == 0 && o.terms.tif == Ioc && 0 < o.terms.minQty <= o.quantity
    ensures var q := OppositeQueue(b, o.terms);
      var e := EnterAndMatch(rules, b, o, events, nextTrade);
      && (Refusal(rules.mode, o, q).None? <==> OthersQuantity(rules.mode, o.terms, q) >= o.terms.minQty)
      && ((e.order.cumQty == 0 || e.order.cumQty >= o.terms.minQty) <==>
            OthersQuantity(rules.mode, o.terms, q) < o.terms.minQty || !MinQtySplits(rules.mode, o, q))
  {
    var q := OppositeQueue(b, o.terms);
    ExecutableIsLiquidity(rules.mode, o, q, 0, o.terms.minQty);
    if Refusal(rules.mode, o, q).None? {
      EntryTradesReachable(rules, b, o, events, nextTrade);
      MinQtyTrades(rules.mode, o, q);
    } else {
      RefusalTouchesNothing(rules, b, o, events, nextTrade);
    }
  }

  // ---- the claim that fails -------------------------------------------------------

  // Another firm's offer, the firm's own, and another's again.
  ghost predicate OwnOfferBetween(mode: StpMode, t: Terms, q: seq<OrderView>) {
    && |q| == 3 && Crosses(t, Px(q[0])) && Crosses(t, Px(q[1])) && Crosses(t, Px(q[2]))
    && !SelfTrade(mode, t, q[0].terms) && SelfTrade(mode, t, q[1].terms) && !SelfTrade(mode, t, q[2].terms)
  }

  lemma BetweenQuantities(mode: StpMode, t: Terms, q: seq<OrderView>)
    requires OwnOfferBetween(mode, t, q)
    ensures OthersQuantity(mode, t, q) == Leaves(q[0]) + Leaves(q[2]) && Clear(mode, t, q) == Leaves(q[0])
  {
    assert q[1..][0] == q[1] && q[1..][1..][0] == q[2] && q[1..][1..][1..] == [];
    assert Clear(mode, t, q[1..]) == 0;
    assert OthersQuantity(mode, t, q[1..]) == OthersQuantity(mode, t, q[1..][1..]);
    assert OthersQuantity(mode, t, q[1..][1..][1..]) == 0;
  }

  lemma OwnOfferSplits(rules: Rules, b: BookView, o: OrderView, events: seq<Event>, nextTrade: nat)
    requires OpenBook(b) && Valid(o) && o.terms.tif == Fok && o.cumQty == 0
    requires EffectiveMode(rules.mode, o.terms) == CancelNewest
    requires var q := OppositeQueue(b, o.terms);
      OwnOfferBetween(rules.mode, o.terms, q) && Leaves(q[0]) < o.quantity <= Leaves(q[0]) + Leaves(q[2])
    ensures var q := OppositeQueue(b, o.terms);
      Refusal(rules.mode, o, q).None? &&
      EnterAndMatch(rules, b, o, events, nextTrade).order.cumQty == Leaves(q[0])
  {
    var q := OppositeQueue(b, o.terms);
    BetweenQuantities(rules.mode, o.terms, q);
    ExecutableIsLiquidity(rules.mode, o, q, 0, o.quantity);
    EntryTradesReachable(rules, b, o, events, nextTrade);
    ReachableNewest(rules.mode, o.terms, q, Leaves(o));
  }

  function Offer(id: nat, mpid: nat): OrderView {
    OrderView(Terms(id, Sell, Limit, Day, Some(10), 0, false, mpid, 0, None, id), 5, 0, 0, New)
  }

  // Cancel-newest, three offers of 5, the middle one the firm's own: the pre-check
  // counts 10 and passes, and the fill-or-kill for 10 trades 5 and is cancelled.
  lemma FokCanFillPartly() returns (b: BookView, o: OrderView)
    ensures OpenBook(b) && Valid(o) && o.terms.tif == Fok && o.quantity == 10 && o.cumQty == 0
    ensures EnterAndMatch(Rules(CancelNewest, false), b, o, [], 1).order.cumQty == 5
  {
    b := BookView(SideView([], []), SideView([], [Offer(1, 7), Offer(2, 8), Offer(3, 7)]));
    o := OrderView(Terms(4, Buy, Limit, Fok, Some(10), 0, false, 8, 0, None, 4), 10, 0, 0, New);
    OwnOfferSplits(Rules(CancelNewest, false), b, o, [], 1);
  }
}
