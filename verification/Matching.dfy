// Continuous matching on one flat list of resting orders, sorted by price and
// then arrival. The indexed book and the matching engine are proved equal to
// this walk (MatchingEngine.dfy); the properties are proved about it here.
module Matching {
  import opened Options
  import opened Orders
  import opened PriceLevels
  import opened Sequences

  // The price of a limit order. Priceless orders never enter a limit queue.
  function Px(o: OrderView): int {
    match o.terms.price
    case Some(p) => p
    case None => 0
  }

  ghost predicate Sorted(isBuy: bool, q: seq<OrderView>) {
    forall i, j :: 0 <= i < j < |q| ==> !Better(isBuy, Px(q[j]), Px(q[i]))
  }

  // An order that may rest: live, with something left, on its own side, and priced
  // unless it is a market order.
  predicate Restable(isBuy: bool, o: OrderView) {
    LiveStatus(o.status) && Leaves(o) > 0 && IsBuy(o.terms) == isBuy && 0 <= o.cumQty &&
    (o.terms.price.None? ==> o.terms.orderType == OrderType.Market)
  }

  ghost predicate LimitQueue(isBuy: bool, q: seq<OrderView>) {
    forall i :: 0 <= i < |q| ==> Restable(isBuy, q[i]) && q[i].terms.price.Some?
  }

  ghost predicate MarketQueue(isBuy: bool, q: seq<OrderView>) {
    forall i :: 0 <= i < |q| ==> Restable(isBuy, q[i]) && q[i].terms.price.None?
  }

  // Where an order at price p joins: behind every order at least as good.
  function Place(isBuy: bool, q: seq<OrderView>, p: int): (k: nat)
    ensures k <= |q|
    ensures forall i :: 0 <= i < k ==> !Better(isBuy, p, Px(q[i]))
    ensures k < |q| ==> Better(isBuy, p, Px(q[k]))
  {
    if q == [] || Better(isBuy, p, Px(q[0])) then 0 else 1 + Place(isBuy, q[1..], p)
  }

  function Insert(isBuy: bool, q: seq<OrderView>, o: OrderView): seq<OrderView> {
    var k := Place(isBuy, q, Px(o));
    q[..k] + [o] + q[k..]
  }

  lemma InsertSorted(isBuy: bool, q: seq<OrderView>, o: OrderView)
    requires Sorted(isBuy, q)
    ensures Sorted(isBuy, Insert(isBuy, q, o))
  {
    var k := Place(isBuy, q, Px(o));
    var r := Insert(isBuy, q, o);
    forall i, j | 0 <= i < j < |r|
      ensures !Better(isBuy, Px(r[j]), Px(r[i]))
    {
      assert r[i] == if i < k then q[i] else if i == k then o else q[i - 1];
      assert r[j] == if j < k then q[j] else if j == k then o else q[j - 1];
    }
  }

  // ---- self-trade prevention --------------------------------------------

  predicate Crosses(inc: Terms, price: int) {
    match inc.price
    case None => true
    case Some(p) => if IsBuy(inc) then price <= p else price >= p
  }

  predicate SelfTrade(mode: StpMode, inc: Terms, resting: Terms) {
    if inc.stpId != 0 && resting.stpId != 0 then inc.stpId == resting.stpId
    else mode != NoPrevention && inc.mpid != 0 && resting.mpid != 0 && inc.mpid == resting.mpid
  }

  // The incoming order's own instruction, or the market's. A mode of "none"
  // reached through a shared id is treated as cancel-newest.
  function EffectiveMode(mode: StpMode, inc: Terms): (r: StpMode)
    ensures r != NoPrevention
  {
    var m := if inc.stpId != 0 && inc.stpInstruction.Some? then inc.stpInstruction.value else mode;
    if m == NoPrevention then CancelNewest else m
  }

  // The outcome of one meeting of the incoming order with the best resting one:
  // both orders afterwards, whether the resting one is used up, whether matching
  // stops, and the quantity traded.
  datatype Meeting = Meeting(incoming: OrderView, resting: OrderView, gone: bool, stop: bool, traded: int)

  function Prevent(mode: StpMode, inc: OrderView, resting: OrderView): Meeting
    requires Leaves(inc) > 0 && Leaves(resting) > 0
  {
    var a, b := Leaves(inc), Leaves(resting);
    match EffectiveMode(mode, inc.terms)
    case CancelOldest => Meeting(inc, WithCancel(resting), true, false, 0)
    case Decrement =>
      if a == b then Meeting(WithCancel(inc), WithCancel(resting), true, true, 0)
      else if b < a then Meeting(WithReduction(inc, b), WithCancel(resting), true, false, 0)
      else Meeting(WithCancel(inc), WithReduction(resting, a), false, true, 0)
    case _ => Meeting(WithCancel(inc), resting, false, true, 0)
  }

  function PreventEvents(mode: StpMode, inc: OrderView, resting: OrderView): seq<Event> {
    var a, b := Leaves(inc), Leaves(resting);
    var cancelInc := OrderCancelled(inc.terms.id, SelfTradePrevention);
    var cancelRes := OrderCancelled(resting.terms.id, SelfTradePrevention);
    match EffectiveMode(mode, inc.terms)
    case CancelOldest => [cancelRes]
    case Decrement =>
      if a == b then [cancelRes, cancelInc]
      else if b < a then [cancelRes, Decremented(inc.terms.id, b)]
      else [Decremented(resting.terms.id, a), cancelInc]
    case _ => [cancelInc]
  }

  function Least(a: int, b: int): int {
    if a <= b then a else b
  }

  function Execute(inc: OrderView, resting: OrderView): Meeting
    requires Leaves(inc) > 0 && Leaves(resting) > 0
  {
    var q, p := Least(Leaves(inc), Leaves(resting)), Px(resting);
    Meeting(WithFill(inc, q, p), WithFill(resting, q, p), Leaves(resting) == q, Leaves(resting) != q, q)
  }

  // Both orders are reported as they stand after the fill, resting order first.
  function ExecuteEvents(inc: OrderView, resting: OrderView, quantity: int, price: int, tradeId: nat): seq<Event> {
    var buys := IsBuy(inc.terms);
    [FillReport(resting, quantity, price, tradeId, Added, inc),
     FillReport(inc, quantity, price, tradeId, Removed, resting),
     Traded(price, quantity, tradeId, if buys then inc.terms.id else resting.terms.id,
            if buys then resting.terms.id else inc.terms.id, Some(if buys then Buy else Sell))]
  }

  function Meet(mode: StpMode, inc: OrderView, resting: OrderView): (m: Meeting)
    requires Leaves(inc) > 0 && Leaves(resting) > 0
    ensures m.incoming.terms == inc.terms && m.resting.terms == resting.terms
    ensures m.gone <==> Leaves(m.resting) == 0
    ensures m.gone ==> Terminal(m.resting.status)
    ensures !m.gone ==> m.stop && Leaves(m.incoming) == 0
    ensures m.stop ==> Leaves(m.incoming) == 0
    ensures m.traded >= 0 && (m.traded > 0 <==> !SelfTrade(mode, inc.terms, resting.terms))
  {
    if SelfTrade(mode, inc.terms, resting.terms) then Prevent(mode, inc, resting) else Execute(inc, resting)
  }

  function MeetEvents(mode: StpMode, inc: OrderView, resting: OrderView, m: Meeting, nextTrade: nat): seq<Event> {
    if SelfTrade(mode, inc.terms, resting.terms) then PreventEvents(mode, inc, resting)
    else ExecuteEvents(m.incoming, m.resting, m.traded, Px(resting), nextTrade)
  }

  // ---- the walk ----------------------------------------------------------

  // `done` are the resting orders used up, `rest` the list that remains.
  datatype Walk = Walk(incoming: OrderView, done: seq<OrderView>, rest: seq<OrderView>,
                       events: seq<Event>, nextTrade: nat)

  ghost predicate AllOpen(q: seq<OrderView>) {
    forall i :: 0 <= i < |q| ==> Leaves(q[i]) > 0
  }

  predicate Meets(inc: Terms, q: seq<OrderView>) {
    q != [] && Crosses(inc, Px(q[0]))
  }

  ghost function MatchWalk(mode: StpMode, inc: OrderView, q: seq<OrderView>, nextTrade: nat): Walk
    requires AllOpen(q)
    decreases |q|
  {
    if Leaves(inc) == 0 || !Meets(inc.terms, q) then
      Walk(inc, [], q, [], nextTrade)
    else
      var m := Meet(mode, inc, q[0]);
      var events := MeetEvents(mode, inc, q[0], m, nextTrade);
      var next := if m.traded > 0 then nextTrade + 1 else nextTrade;
      if !m.gone then Walk(m.incoming, [], [m.resting] + q[1..], events, next)
      else if m.stop then Walk(m.incoming, [m.resting], q[1..], events, next)
      else
        var w := MatchWalk(mode, m.incoming, q[1..], next);
        Walk(w.incoming, [m.resting] + w.done, w.rest, events + w.events, w.nextTrade)
  }

  // Past an order used up, the walk goes on with the next.
  lemma WalkOn(mode: StpMode, inc: OrderView, q: seq<OrderView>, nextTrade: nat, m: Meeting, events: seq<Event>, next: nat, t: Walk)
    requires AllOpen(q) && Leaves(inc) > 0 && Meets(inc.terms, q)
    requires m == Meet(mode, inc, q[0]) && m.gone && !m.stop && events == MeetEvents(mode, inc, q[0], m, nextTrade)
    requires next == (if m.traded > 0 then nextTrade + 1 else nextTrade) && t == MatchWalk(mode, m.incoming, q[1..], next)
    ensures MatchWalk(mode, inc, q, nextTrade) ==
      Walk(t.incoming, [m.resting] + t.done, t.rest, events + t.events, t.nextTrade)
  {
  }

  // Every resting order reached is used up, in queue order, except possibly the
  // last one reached.
  lemma {:induction false} WalkUsesPrefix(mode: StpMode, inc: OrderView, q: seq<OrderView>, nextTrade: nat)
    requires AllOpen(q)
    ensures var w := MatchWalk(mode, inc, q, nextTrade);
      && w.incoming.terms == inc.terms
      && |w.done| + |w.rest| == |q|
      && (forall i :: 0 <= i < |w.done| ==>
            w.done[i].terms == q[i].terms && Terminal(w.done[i].status) && Crosses(inc.terms, Px(q[i])))
    decreases |q|
  {
    if Leaves(inc) > 0 && Meets(inc.terms, q) {
      var m := Meet(mode, inc, q[0]);
      if m.gone && !m.stop {
        var next := if m.traded > 0 then nextTrade + 1 else nextTrade;
        WalkUsesPrefix(mode, m.incoming, q[1..], next);
        assert forall i :: 1 <= i < |q| ==> q[i] == q[1..][i - 1];
      }
    }
  }

  // What remains of a queue after `gone` of its orders: the first of them may have
  // changed, but not its terms.
  ghost predicate Remains(q: seq<OrderView>, gone: nat, rest: seq<OrderView>) {
    && gone + |rest| == |q|
    && (forall i :: 0 < i < |rest| ==> rest[i] == q[gone + i])
    && (rest != [] ==> rest[0].terms == q[gone].terms)
  }

  lemma RemainsAfterHead(q: seq<OrderView>, gone: nat, rest: seq<OrderView>)
    requires q != [] && Remains(q[1..], gone, rest)
    ensures Remains(q, gone + 1, rest) && (rest != [] ==> q[1..][gone] == q[gone + 1])
  {
    assert forall i :: 0 <= i < |q[1..]| ==> q[1..][i] == q[i + 1];
  }

  lemma RemainsAtOnce(q: seq<OrderView>, o: OrderView)
    requires q != [] && o.terms == q[0].terms
    ensures Remains(q, 0, [o] + q[1..]) && Remains(q, 1, q[1..])
  {
  }

  // The orders behind are untouched, the first of them only if it used up the
  // incoming order.
  lemma {:induction false} WalkLeavesRest(mode: StpMode, inc: OrderView, q: seq<OrderView>, nextTrade: nat)
    requires AllOpen(q)
    ensures var w := MatchWalk(mode, inc, q, nextTrade);
      Remains(q, |w.done|, w.rest) && (w.rest != [] && w.rest[0] != q[|w.done|] ==> Leaves(w.incoming) == 0)
    decreases |q|
  {
    if Leaves(inc) > 0 && Meets(inc.terms, q) {
      var m := Meet(mode, inc, q[0]);
      RemainsAtOnce(q, m.resting);
      if m.gone && !m.stop {
        var next := if m.traded > 0 then nextTrade + 1 else nextTrade;
        WalkLeavesRest(mode, m.incoming, q[1..], next);
        var w := MatchWalk(mode, m.incoming, q[1..], next);
        WalkOn(mode, inc, q, nextTrade, m, MeetEvents(mode, inc, q[0], m, nextTrade), next, w);
        RemainsAfterHead(q, |w.done|, w.rest);
      }
    }
  }

  // What is left on the resting side is open, and an incoming order with
  // anything left has run out of orders it crosses.
  lemma {:induction false} WalkStopsAtCross(mode: StpMode, inc: OrderView, q: seq<OrderView>, nextTrade: nat)
    requires AllOpen(q)
    ensures var w := MatchWalk(mode, inc, q, nextTrade);
      AllOpen(w.rest) && (Leaves(w.incoming) > 0 ==> !Meets(inc.terms, w.rest))
    decreases |q|
  {
    if Leaves(inc) > 0 && Meets(inc.terms, q) {
      var m := Meet(mode, inc, q[0]);
      if m.gone && !m.stop {
        WalkStopsAtCross(mode, m.incoming, q[1..], if m.traded > 0 then nextTrade + 1 else nextTrade);
      }
    }
  }

  predicate Sound(o: OrderView) {
    0 <= o.cumQty && (LiveStatus(o.status) || Terminal(o.status))
  }

  lemma MeetKeeps(mode: StpMode, inc: OrderView, resting: OrderView, isBuy: bool)
    requires Leaves(inc) > 0 && Restable(isBuy, resting) && Sound(inc)
    ensures var m := Meet(mode, inc, resting);
      && Sound(m.incoming) && m.incoming.cumQty <= m.incoming.quantity
      && (!m.gone ==> Restable(isBuy, m.resting))
      && 0 <= m.resting.cumQty <= m.resting.quantity && IsBuy(m.resting.terms) == isBuy
  {
  }

  // What survives on the resting side is still a sorted queue of live orders.
  lemma {:induction false} WalkKeepsQueue(mode: StpMode, inc: OrderView, q: seq<OrderView>, nextTrade: nat, isBuy: bool)
    requires LimitQueue(isBuy, q) && Sorted(isBuy, q) && Sound(inc)
    ensures var w := MatchWalk(mode, inc, q, nextTrade);
      && LimitQueue(isBuy, w.rest) && Sorted(isBuy, w.rest) && Sound(w.incoming)
      && (inc.cumQty <= inc.quantity ==> w.incoming.cumQty <= w.incoming.quantity)
      && (forall i :: 0 <= i < |w.done| ==>
            0 <= w.done[i].cumQty <= w.done[i].quantity && IsBuy(w.done[i].terms) == isBuy)
    decreases |q|
  {
    if Leaves(inc) > 0 && Meets(inc.terms, q) {
      MeetKeeps(mode, inc, q[0], isBuy);
      var m := Meet(mode, inc, q[0]);
      if m.gone && !m.stop {
        WalkKeepsQueue(mode, m.incoming, q[1..], if m.traded > 0 then nextTrade + 1 else nextTrade, isBuy);
      }
    }
  }

  // ---- in what order it trades -------------------------------------------

  function IfTraded(e: Event): seq<Event> {
    if e.Traded? then [e] else []
  }

  function TradesIn(events: seq<Event>): seq<Event> {
    if events == [] then [] else IfTraded(events[0]) + TradesIn(events[1..])
  }

  lemma TradesInFew(e: seq<Event>)
    ensures |e| == 1 ==> TradesIn(e) == IfTraded(e[0])
    ensures |e| == 2 ==> TradesIn(e) == IfTraded(e[0]) + IfTraded(e[1])
    ensures |e| == 3 ==> TradesIn(e) == IfTraded(e[0]) + (IfTraded(e[1]) + IfTraded(e[2]))
  {
    if |e| == 2 { assert e[1..] == [e[1]]; }
    if |e| == 3 { assert e[1..] == [e[1], e[2]] && e[1..][1..] == [e[2]]; }
  }

  lemma {:induction false} TradesInConcat(a: seq<Event>, b: seq<Event>)
    ensures TradesIn(a + b) == TradesIn(a) + TradesIn(b)
    decreases |a|
  {
    if a == [] {
      assert a + b == b;
    } else {
      assert (a + b)[0] == a[0] && (a + b)[1..] == a[1..] + b;
      TradesInConcat(a[1..], b);
      Associative(IfTraded(a[0]), TradesIn(a[1..]), TradesIn(b));
    }
  }

  // The orders of a queue the incoming one may trade with.
  function Others(mode: StpMode, inc: Terms, q: seq<OrderView>): seq<OrderView> {
    if q == [] then []
    else (if SelfTrade(mode, inc, q[0].terms) then [] else [q[0]]) + Others(mode, inc, q[1..])
  }

  predicate ExecutedWith(inc: Terms, e: Event, o: OrderView, tradeId: nat) {
    && e.Traded? && e.price == Px(o) && e.tradeId == tradeId && Crosses(inc, e.price)
    && (if IsBuy(inc) then e.sellId else e.buyId) == o.terms.id && 0 < e.quantity <= Leaves(o)
  }

  // The k-th trade is with the k-th order, at its price, and for all of it unless it
  // is the last.
  ghost predicate ExecutedInOrder(inc: Terms, trades: seq<Event>, q: seq<OrderView>, tradeId: nat) {
    && |trades| <= |q|
    && (forall k :: 0 <= k < |trades| ==> ExecutedWith(inc, trades[k], q[k], tradeId + k))
    && (forall k :: 0 <= k < |trades| - 1 ==> trades[k].quantity == Leaves(q[k]))
  }

  lemma ExecutedNext(inc: Terms, e: Event, trades: seq<Event>, o: OrderView, q: seq<OrderView>, tradeId: nat)
    requires ExecutedWith(inc, e, o, tradeId) && ExecutedInOrder(inc, trades, q, tradeId + 1)
    requires trades != [] ==> e.quantity == Leaves(o)
    ensures ExecutedInOrder(inc, [e] + trades, [o] + q, tradeId)
  {
    var t, r := [e] + trades, [o] + q;
    assert forall k :: 1 <= k < |t| ==> t[k] == trades[k - 1] && r[k] == q[k - 1];
  }

  lemma MeetingTrades(mode: StpMode, inc: OrderView, resting: OrderView, nextTrade: nat)
    requires Leaves(inc) > 0 && Leaves(resting) > 0 && Crosses(inc.terms, Px(resting))
    ensures var m := Meet(mode, inc, resting);
      var t := TradesIn(MeetEvents(mode, inc, resting, m, nextTrade));
      if SelfTrade(mode, inc.terms, resting.terms) then t == []
      else |t| == 1 && ExecutedWith(inc.terms, t[0], resting, nextTrade) && t[0].quantity == Least(Leaves(inc), Leaves(resting))
  {
    TradesInFew(MeetEvents(mode, inc, resting, Meet(mode, inc, resting), nextTrade));
  }

  // Whatever the self-trade mode, executions follow the queue, each at the resting
  // order's price and in full but for the last, passing over own orders only.
  lemma {:induction false} WalkTradesInPriority(mode: StpMode, inc: OrderView, q: seq<OrderView>, nextTrade: nat)
    requires AllOpen(q)
    ensures ExecutedInOrder(inc.terms, TradesIn(MatchWalk(mode, inc, q, nextTrade).events), Others(mode, inc.terms, q), nextTrade)
    decreases |q|
  {
    if Leaves(inc) > 0 && Meets(inc.terms, q) {
      MeetingTrades(mode, inc, q[0], nextTrade);
      var m := Meet(mode, inc, q[0]);
      var e, next := MeetEvents(mode, inc, q[0], m, nextTrade), if m.traded > 0 then nextTrade + 1 else nextTrade;
      if m.gone && !m.stop {
        WalkTradesInPriority(mode, m.incoming, q[1..], next);
        var t := MatchWalk(mode, m.incoming, q[1..], next);
        WalkOn(mode, inc, q, nextTrade, m, e, next, t);
        TradesInConcat(e, t.events);
        WalkTradesOn(mode, inc, q, nextTrade, TradesIn(e), TradesIn(t.events));
      } else {
        WalkTradesOn(mode, inc, q, nextTrade, TradesIn(e), []);
      }
    }
  }

  lemma WalkTradesOn(mode: StpMode, inc: OrderView, q: seq<OrderView>, nextTrade: nat, first: seq<Event>, later: seq<Event>)
    requires q != []
    requires var self := SelfTrade(mode, inc.terms, q[0].terms);
      && (if self then first == [] else |first| == 1 && ExecutedWith(inc.terms, first[0], q[0], nextTrade))
      && ExecutedInOrder(inc.terms, later, Others(mode, inc.terms, q[1..]), if self then nextTrade else nextTrade + 1)
      && (!self && later != [] ==> first[0].quantity == Leaves(q[0]))
    ensures ExecutedInOrder(inc.terms, first + later, Others(mode, inc.terms, q), nextTrade)
  {
    if SelfTrade(mode, inc.terms, q[0].terms) {
      assert first + later == later && Others(mode, inc.terms, q) == Others(mode, inc.terms, q[1..]);
    } else {
      assert first == [first[0]];
      ExecutedNext(inc.terms, first[0], later, q[0], Others(mode, inc.terms, q[1..]), nextTrade);
    }
  }

  // ---- what trades -------------------------------------------------------

  function Sum<T>(f: T -> int, s: seq<T>): int {
    if s == [] then 0 else f(s[0]) + Sum(f, s[1..])
  }

  lemma {:induction false} SumConcat<T>(f: T -> int, a: seq<T>, b: seq<T>)
    ensures Sum(f, a + b) == Sum(f, a) + Sum(f, b)
    decreases |a|
  {
    if a == [] {
      assert a + b == b;
    } else {
      assert (a + b)[1..] == a[1..] + b;
      SumConcat(f, a[1..], b);
    }
  }

  // ---- how much trades, told from the book beforehand -----------------------

  // Crossing quantity that is not the order's own.
  function OthersQuantity(mode: StpMode, inc: Terms, q: seq<OrderView>): (r: int)
    ensures r >= 0
    decreases |q|
  {
    if !Meets(inc, q) then 0
    else (if SelfTrade(mode, inc, q[0].terms) then 0 else Leaves(q[0])) + OthersQuantity(mode, inc, q[1..])
  }

  // The quantity before the first self-match.
  function Clear(mode: StpMode, inc: Terms, q: seq<OrderView>): (r: int)
    ensures r >= 0
    decreases |q|
  {
    if !Meets(inc, q) || SelfTrade(mode, inc, q[0].terms) then 0
    else Leaves(q[0]) + Clear(mode, inc, q[1..])
  }

  // The quantity of the leading run of self-matches.
  function LeadSelf(mode: StpMode, inc: Terms, q: seq<OrderView>): (r: int)
    ensures r >= 0
    decreases |q|
  {
    if !Meets(inc, q) || !SelfTrade(mode, inc, q[0].terms) then 0
    else Leaves(q[0]) + LeadSelf(mode, inc, q[1..])
  }

  // The quantity that trades out of an open quantity `budget`: a self-match
  // consumes none of it, its own size of it, or all of it, by mode.
  function Reachable(mode: StpMode, inc: Terms, q: seq<OrderView>, budget: int): (r: int)
    ensures 0 <= r && (r <= budget || r == 0)
    decreases |q|
  {
    if budget <= 0 || !Meets(inc, q) then 0
    else if SelfTrade(mode, inc, q[0].terms) then
      match EffectiveMode(mode, inc)
      case CancelOldest => Reachable(mode, inc, q[1..], budget)
      case Decrement => Reachable(mode, inc, q[1..], budget - Leaves(q[0]))
      case _ => 0
    else if budget <= Leaves(q[0]) then budget
    else Leaves(q[0]) + Reachable(mode, inc, q[1..], budget - Leaves(q[0]))
  }

  lemma MeetReaches(mode: StpMode, inc: OrderView, q: seq<OrderView>)
    requires AllOpen(q) && Leaves(inc) > 0 && Meets(inc.terms, q)
    ensures var m := Meet(mode, inc, q[0]);
      Reachable(mode, inc.terms, q, Leaves(inc)) == m.incoming.cumQty - inc.cumQty +
        (if m.gone && !m.stop then Reachable(mode, inc.terms, q[1..], Leaves(m.incoming)) else 0)
  {
    var m, after := Meet(mode, inc, q[0]), Leaves(inc) - Leaves(q[0]);
    if !SelfTrade(mode, inc.terms, q[0].terms) {
      assert m.gone ==> Leaves(m.incoming) == after;
    } else if EffectiveMode(mode, inc.terms) == Decrement {
      assert after > 0 ==> Leaves(m.incoming) == after && m.gone && !m.stop;
      assert after <= 0 ==> m.stop && m.incoming.cumQty == inc.cumQty;
    } else {
      assert m.incoming.cumQty == inc.cumQty;
    }
  }

  lemma {:induction false} WalkTradesReachable(mode: StpMode, inc: OrderView, q: seq<OrderView>, nextTrade: nat)
    requires AllOpen(q)
    ensures var w := MatchWalk(mode, inc, q, nextTrade);
      w.incoming.cumQty - inc.cumQty == Reachable(mode, inc.terms, q, Leaves(inc))
    decreases |q|
  {
    if Leaves(inc) > 0 && Meets(inc.terms, q) {
      MeetReaches(mode, inc, q);
      var m := Meet(mode, inc, q[0]);
      if m.gone && !m.stop {
        WalkTradesReachable(mode, m.incoming, q[1..], if m.traded > 0 then nextTrade + 1 else nextTrade);
      }
    }
  }

  lemma {:induction false} ReachableOldest(mode: StpMode, inc: Terms, q: seq<OrderView>, budget: int)
    requires EffectiveMode(mode, inc) == CancelOldest && budget >= 0
    ensures Reachable(mode, inc, q, budget) ==
      if budget <= OthersQuantity(mode, inc, q) then budget else OthersQuantity(mode, inc, q)
    decreases |q|
  {
    if Meets(inc, q) {
      ReachableOldest(mode, inc, q[1..], budget);
      if budget > Leaves(q[0]) {
        ReachableOldest(mode, inc, q[1..], budget - Leaves(q[0]));
      }
    }
  }

  lemma {:induction false} ReachableNewest(mode: StpMode, inc: Terms, q: seq<OrderView>, budget: int)
    requires EffectiveMode(mode, inc) == CancelNewest && budget >= 0
    ensures Reachable(mode, inc, q, budget) ==
      if budget <= Clear(mode, inc, q) then budget else Clear(mode, inc, q)
    decreases |q|
  {
    if Meets(inc, q) && !SelfTrade(mode, inc, q[0].terms) && budget > Leaves(q[0]) {
      ReachableNewest(mode, inc, q[1..], budget - Leaves(q[0]));
    }
  }

  // Decrement: everything up to the first self-match, and then never the whole.
  lemma {:induction false} ReachableDecrement(mode: StpMode, inc: Terms, q: seq<OrderView>, budget: int)
    requires AllOpen(q) && EffectiveMode(mode, inc) == Decrement && budget > 0
    ensures budget <= Clear(mode, inc, q) ==> Reachable(mode, inc, q, budget) == budget
    ensures Clear(mode, inc, q) < budget <= OthersQuantity(mode, inc, q) ==>
      Clear(mode, inc, q) <= Reachable(mode, inc, q, budget) < budget
    decreases |q|
  {
    if Meets(inc, q) {
      if !SelfTrade(mode, inc, q[0].terms) && budget > Leaves(q[0]) {
        ReachableDecrement(mode, inc, q[1..], budget - Leaves(q[0]));
      }
    }
  }

  // Decrement: nothing trades exactly when the leading self-matches absorb the order.
  lemma {:induction false} DecrementTradesNothing(mode: StpMode, inc: Terms, q: seq<OrderView>, budget: int)
    requires AllOpen(q) && EffectiveMode(mode, inc) == Decrement
    requires 0 < budget && 0 < OthersQuantity(mode, inc, q)
    ensures Reachable(mode, inc, q, budget) == 0 <==> LeadSelf(mode, inc, q) >= budget
    decreases |q|
  {
    if SelfTrade(mode, inc, q[0].terms) && budget > Leaves(q[0]) {
      DecrementTradesNothing(mode, inc, q[1..], budget - Leaves(q[0]));
    }
  }

  // Without a self-match in the way, every mode trades all the liquidity it can.
  lemma {:induction false} ClearIsLiquidity(mode: StpMode, inc: Terms, q: seq<OrderView>)
    ensures Clear(mode, inc, q) <= OthersQuantity(mode, inc, q)
    ensures (forall i :: 0 <= i < |q| && Crosses(inc, Px(q[i])) ==> !SelfTrade(mode, inc, q[i].terms)) ==>
      Clear(mode, inc, q) == OthersQuantity(mode, inc, q)
    decreases |q|
  {
    if Meets(inc, q) {
      ClearIsLiquidity(mode, inc, q[1..]);
    }
  }
}
