// The matching engine on the indexed book (exchangesim/core/matching.py), proved
// equal to the walk down the flat list.
module MatchingEngine {
  import opened Options
  import opened Orders
  import opened PriceLevels
  import opened Matching
  import opened BookRules
  import opened Book
  import opened Amendment

  // A walk that continues one whose first orders and events are already known.
  function WalkAfter(done: seq<OrderView>, events: seq<Event>, w: Walk): Walk {
    Walk(w.incoming, done + w.done, w.rest, events + w.events, w.nextTrade)
  }

  lemma WalkAfterTwice(d1: seq<OrderView>, e1: seq<Event>, d2: seq<OrderView>, e2: seq<Event>, w: Walk)
    ensures WalkAfter(d1, e1, WalkAfter(d2, e2, w)) == WalkAfter(d1 + d2, e1 + e2, w)
  {
    assert d1 + (d2 + w.done) == (d1 + d2) + w.done;
    assert e1 + (e2 + w.events) == (e1 + e2) + w.events;
  }

  function AfterMeeting(m: Meeting, q: seq<OrderView>): seq<OrderView>
    requires q != []
  {
    if m.gone then q[1..] else [m.resting] + q[1..]
  }

  // The walk is one meeting and then the walk from there.
  lemma WalkStep(mode: StpMode, inc: OrderView, q: seq<OrderView>, nextTrade: nat)
    requires AllOpen(q) && Leaves(inc) > 0 && Meets(inc.terms, q)
    ensures var m := Meet(mode, inc, q[0]);
      AllOpen(AfterMeeting(m, q)) &&
      MatchWalk(mode, inc, q, nextTrade) ==
        WalkAfter(if m.gone then [m.resting] else [], MeetEvents(mode, inc, q[0], m, nextTrade),
                  MatchWalk(mode, m.incoming, AfterMeeting(m, q), if m.traded > 0 then nextTrade + 1 else nextTrade))
  {
  }

  class MatchingEngine {
    var stpMode: StpMode
    var ackOnEntry: bool
    var nextTrade: nat

    constructor (stpMode: StpMode, ackOnEntry: bool)
      ensures this.stpMode == stpMode && this.ackOnEntry == ackOnEntry && nextTrade == 1
    {
      this.stpMode, this.ackOnEntry, nextTrade := stpMode, ackOnEntry, 1;
    }

    // The highest-priority resting order that `order` can trade with.
    method BestMatch(opposite: BookSide, order: Order) returns (resting: Order?)
      requires opposite.Valid() && AllOpen(Views(opposite.queue))
      ensures resting == null <==> !Meets(order.View().terms, Views(opposite.queue))
      ensures resting != null ==> opposite.queue != [] && resting == opposite.queue[0]
    {
      opposite.PriorityIsQueue();
      var best := opposite.BestPrice();
      if best.None? || !Crosses(order.View().terms, best.value) {
        return null;
      }
      var level := opposite.levels[best.value];
      assert Views(opposite.queue)[0] == level[0].View();
      for i := 0 to |level|
        invariant forall j :: 0 <= j < i ==> level[j].LeavesQty() == 0
      {
        if level[i].LeavesQty() > 0 {
          return level[i];
        }
      }
      return null;
    }

    // What both orders, the queue and the reports are after a meeting.
    twostate predicate Met(opposite: BookSide, order: Order, resting: Order, events: seq<Event>)
      requires old(opposite.queue) != [] && old(opposite.queue[0]) == resting
      requires old(order.LeavesQty() > 0 && resting.LeavesQty() > 0)
      reads this, opposite, order, resting
    {
      var m := Meet(stpMode, old(order.View()), old(resting.View()));
      && order.View() == m.incoming && resting.View() == m.resting
      && opposite.queue == (if m.gone then old(opposite.queue)[1..] else old(opposite.queue))
      && opposite.atMarket == old(opposite.atMarket)
      && nextTrade == (if m.traded > 0 then old(nextTrade) + 1 else old(nextTrade))
      && events == MeetEvents(stpMode, old(order.View()), old(resting.View()), m, old(nextTrade))
    }

    method Execute(opposite: BookSide, order: Order, resting: Order) returns (events: seq<Event>)
      requires opposite.Valid() && opposite.queue != [] && resting == opposite.queue[0] && order != resting
      requires order.LeavesQty() > 0 && resting.LeavesQty() > 0
      requires !SelfTrade(stpMode, order.View().terms, resting.View().terms)
      modifies this`nextTrade, order`cumQty, order`notional, order`status
      modifies resting`cumQty, resting`notional, resting`status
      modifies opposite`prices, opposite`levels, opposite`queue, opposite`atMarket
      ensures opposite.Valid()
      ensures Met(opposite, order, resting, events)
    {
      opposite.QueueSorted();
      events := FillBoth(order, resting);
      if resting.LeavesQty() == 0 {
        RemoveBest(opposite, resting);
      }
    }

    // Fills both orders at the resting price and reports the trade.
    method FillBoth(order: Order, resting: Order) returns (events: seq<Event>)
      requires order != resting && order.LeavesQty() > 0 && resting.LeavesQty() > 0 && resting.price.Some?
      modifies this`nextTrade, order`cumQty, order`notional, order`status
      modifies resting`cumQty, resting`notional, resting`status
      ensures var m := Matching.Execute(old(order.View()), old(resting.View()));
        && order.View() == m.incoming && resting.View() == m.resting
        && events == ExecuteEvents(m.incoming, m.resting, m.traded, resting.price.value, old(nextTrade))
      ensures nextTrade == old(nextTrade) + 1
    {
      var quantity := Least(order.LeavesQty(), resting.LeavesQty());
      var price := resting.price.value;
      var tradeId := nextTrade;
      nextTrade := nextTrade + 1;
      order.ApplyFill(quantity, price);
      resting.ApplyFill(quantity, price);
      var buyId, sellId := resting.id, order.id;
      if order.side == Buy { buyId, sellId := order.id, resting.id; }
      events := [FillReport(resting.View(), quantity, price, tradeId, Added, order.View()),
                 FillReport(order.View(), quantity, price, tradeId, Removed, resting.View()),
                 Traded(price, quantity, tradeId, buyId, sellId, Some(if order.side == Buy then Buy else Sell))];
    }

    method RemoveBest(opposite: BookSide, resting: Order)
      requires opposite.Valid() && opposite.queue != [] && resting == opposite.queue[0]
      modifies opposite`prices, opposite`levels, opposite`queue, opposite`atMarket
      ensures opposite.Valid() && opposite.queue == old(opposite.queue)[1..]
      ensures opposite.atMarket == old(opposite.atMarket)
    {
      opposite.QueueSorted();
      opposite.UniqueMember(resting);
      var found := opposite.Remove(resting);
    }

    // Resolves a self-match; returns whether matching must stop.
    method ApplyStp(opposite: BookSide, incoming: Order, resting: Order) returns (stop: bool, events: seq<Event>)
      requires opposite.Valid() && opposite.queue != [] && resting == opposite.queue[0] && incoming != resting
      requires incoming.LeavesQty() > 0 && resting.LeavesQty() > 0
      requires SelfTrade(stpMode, incoming.View().terms, resting.View().terms)
      modifies incoming`quantity, incoming`status, resting`quantity, resting`status
      modifies opposite`prices, opposite`levels, opposite`queue, opposite`atMarket
      ensures opposite.Valid()
      ensures Met(opposite, incoming, resting, events)
      ensures stop == Meet(stpMode, old(incoming.View()), old(resting.View())).stop
    {
      match EffectiveMode(stpMode, incoming.View().terms)
      case CancelOldest =>
        RemoveBest(opposite, resting);
        resting.CancelOrder();
        stop, events := false, [OrderCancelled(resting.id, SelfTradePrevention)];
      case Decrement =>
        stop, events := ApplyDecrement(opposite, incoming, resting);
      case CancelNewest =>
        incoming.CancelOrder();
        stop, events := true, [OrderCancelled(incoming.id, SelfTradePrevention)];
    }

    method ApplyDecrement(opposite: BookSide, incoming: Order, resting: Order) returns (stop: bool, events: seq<Event>)
      requires opposite.Valid() && opposite.queue != [] && resting == opposite.queue[0] && incoming != resting
      requires incoming.LeavesQty() > 0 && resting.LeavesQty() > 0
      requires SelfTrade(stpMode, incoming.View().terms, resting.View().terms)
      requires EffectiveMode(stpMode, incoming.View().terms) == Decrement
      modifies incoming`quantity, incoming`status, resting`quantity, resting`status
      modifies opposite`prices, opposite`levels, opposite`queue, opposite`atMarket
      ensures opposite.Valid()
      ensures Met(opposite, incoming, resting, events)
      ensures stop == Meet(stpMode, old(incoming.View()), old(resting.View())).stop
    {
      var incomingQty, restingQty := incoming.LeavesQty(), resting.LeavesQty();
      if incomingQty == restingQty {
        stop, events := DecrementBoth(opposite, incoming, resting);
      } else if restingQty < incomingQty {
        stop, events := DecrementIncoming(opposite, incoming, resting);
      } else {
        stop, events := DecrementResting(opposite, incoming, resting);
      }
    }

    // The incoming order is the smaller one: the resting order keeps the rest.
    method DecrementResting(opposite: BookSide, incoming: Order, resting: Order) returns (stop: bool, events: seq<Event>)
      requires opposite.Valid() && opposite.queue != [] && resting == opposite.queue[0] && incoming != resting
      requires resting.LeavesQty() > incoming.LeavesQty() > 0
      requires SelfTrade(stpMode, incoming.View().terms, resting.View().terms)
      requires EffectiveMode(stpMode, incoming.View().terms) == Decrement
      modifies incoming`status, resting`quantity, resting`status
      ensures opposite.Valid() && stop
      ensures Met(opposite, incoming, resting, events)
    {
      var incomingQty := incoming.LeavesQty();
      resting.ReduceQuantity(incomingQty);
      // The resting order is the larger one, so it always keeps something.
      assert resting.LeavesQty() > 0;
      incoming.CancelOrder();
      stop, events := true, [Decremented(resting.id, incomingQty), OrderCancelled(incoming.id, SelfTradePrevention)];
    }

    // Equal sizes: both are cancelled back to their owners.
    method DecrementBoth(opposite: BookSide, incoming: Order, resting: Order) returns (stop: bool, events: seq<Event>)
      requires opposite.Valid() && opposite.queue != [] && resting == opposite.queue[0] && incoming != resting
      requires incoming.LeavesQty() == resting.LeavesQty() > 0
      requires SelfTrade(stpMode, incoming.View().terms, resting.View().terms)
      requires EffectiveMode(stpMode, incoming.View().terms) == Decrement
      modifies incoming`status, resting`status
      modifies opposite`prices, opposite`levels, opposite`queue, opposite`atMarket
      ensures opposite.Valid() && stop
      ensures Met(opposite, incoming, resting, events)
    {
      RemoveBest(opposite, resting);
      resting.CancelOrder();
      incoming.CancelOrder();
      stop := true;
      events := [OrderCancelled(resting.id, SelfTradePrevention), OrderCancelled(incoming.id, SelfTradePrevention)];
    }

    // The smaller resting order is cancelled and the incoming one shrinks.
    method DecrementIncoming(opposite: BookSide, incoming: Order, resting: Order) returns (stop: bool, events: seq<Event>)
      requires opposite.Valid() && opposite.queue != [] && resting == opposite.queue[0] && incoming != resting
      requires incoming.LeavesQty() > resting.LeavesQty() > 0
      requires SelfTrade(stpMode, incoming.View().terms, resting.View().terms)
      requires EffectiveMode(stpMode, incoming.View().terms) == Decrement
      modifies incoming`quantity, incoming`status, resting`status
      modifies opposite`prices, opposite`levels, opposite`queue, opposite`atMarket
      ensures opposite.Valid() && !stop
      ensures Met(opposite, incoming, resting, events)
    {
      var restingQty := resting.LeavesQty();
      RemoveBest(opposite, resting);
      resting.CancelOrder();
      incoming.ReduceQuantity(restingQty);
      stop := incoming.LeavesQty() == 0;
      events := [OrderCancelled(resting.id, SelfTradePrevention), Decremented(incoming.id, restingQty)];
    }

    method MeetResting(opposite: BookSide, order: Order, resting: Order) returns (stop: bool, events: seq<Event>)
      requires opposite.Valid() && opposite.queue != [] && resting == opposite.queue[0] && order != resting
      requires order.LeavesQty() > 0 && resting.LeavesQty() > 0
      modifies this`nextTrade, order`quantity, order`cumQty, order`notional, order`status
      modifies resting`quantity, resting`cumQty, resting`notional, resting`status
      modifies opposite`prices, opposite`levels, opposite`queue, opposite`atMarket
      ensures opposite.Valid()
      ensures Met(opposite, order, resting, events)
      ensures stop ==> order.LeavesQty() == 0
    {
      if SelfTrade(stpMode, order.View().terms, resting.View().terms) {
        stop, events := ApplyStp(opposite, order, resting);
      } else {
        events := Execute(opposite, order, resting);
        stop := false;
      }
    }

    // The matching loop under way: `gone` and the queue make up the list q0 matching
    // began with, and what is known so far continues to the whole walk.
    ghost predicate Walking(opposite: BookSide, order: Order, gone: seq<Order>, events: seq<Event>, whole: Walk, q0: seq<Order>)
      reads this`stpMode, this`nextTrade, order, gone, opposite, opposite.atMarket`price, opposite.queue
    {
      && opposite.Valid() && q0 == gone + opposite.queue && DistinctIds(q0) && AllOpen(Views(opposite.queue))
      && (forall i :: 0 <= i < |q0| ==> q0[i] != order)
      && whole == WalkAfter(Views(gone), events, MatchWalk(stpMode, order.View(), Views(opposite.queue), nextTrade))
    }

    // A meeting changes neither the orders behind the one met nor those gone.
    method MeetApart(opposite: BookSide, order: Order, resting: Order, ghost gone: seq<Order>, ghost q: seq<Order>,
                     ghost v: seq<OrderView>, ghost goneV: seq<OrderView>)
        returns (stop: bool, events: seq<Event>)
      requires opposite.Valid() && opposite.queue == q && q != [] && resting == q[0] && order != resting
      requires order.LeavesQty() > 0 && resting.LeavesQty() > 0 && Views(q) == v && Views(gone) == goneV
      requires forall i :: 0 < i < |q| ==> q[i] != resting && q[i] != order
      requires forall i :: 0 <= i < |gone| ==> gone[i] != resting && gone[i] != order
      modifies this`nextTrade, order`quantity, order`cumQty, order`notional, order`status
      modifies resting`quantity, resting`cumQty, resting`notional, resting`status
      modifies opposite`prices, opposite`levels, opposite`queue, opposite`atMarket
      ensures opposite.Valid() && Met(opposite, order, resting, events) && (stop ==> order.LeavesQty() == 0)
      ensures forall i :: 0 < i < |q| ==> q[i].View() == v[i]
      ensures forall i :: 0 <= i < |gone| ==> gone[i].View() == goneV[i]
    {
      stop, events := MeetResting(opposite, order, resting);
    }

    // One turn of the matching loop.
    method MatchOne(opposite: BookSide, order: Order, resting: Order, sofar: seq<Event>, ghost gone: seq<Order>,
                    ghost whole: Walk, ghost q0: seq<Order>)
        returns (stop: bool, events: seq<Event>, ghost nowGone: seq<Order>)
      requires Walking(opposite, order, gone, sofar, whole, q0)
      requires order.LeavesQty() > 0 && Meets(order.View().terms, Views(opposite.queue)) && resting == opposite.queue[0]
      modifies this`nextTrade, order`quantity, order`cumQty, order`notional, order`status
      modifies resting`quantity, resting`cumQty, resting`notional, resting`status
      modifies opposite`prices, opposite`levels, opposite`queue, opposite`atMarket
      ensures Walking(opposite, order, nowGone, events, whole, q0) && opposite.atMarket == old(opposite.atMarket)
      ensures |opposite.queue| < old(|opposite.queue|) || (|opposite.queue| == old(|opposite.queue|) && order.LeavesQty() == 0)
      ensures stop ==> order.LeavesQty() == 0
    {
      ghost var q, v, goneV := opposite.queue, Views(opposite.queue), Views(gone);
      ghost var inc, tid := order.View(), nextTrade;
      HeadDiffers(gone, q, order);
      var made;
      stop, made := MeetApart(opposite, order, resting, gone, q, v, goneV);
      events := sofar + made;
      nowGone := if Meet(stpMode, inc, v[0]).gone then gone + [resting] else gone;
      WalksOn(opposite, order, gone, sofar, made, whole, q, v, goneV, inc, tid);
    }

    // A meeting keeps the loop on its walk.
    lemma WalksOn(opposite: BookSide, order: Order, gone: seq<Order>, sofar: seq<Event>, made: seq<Event>, whole: Walk,
                  q: seq<Order>, v: seq<OrderView>, goneV: seq<OrderView>, inc: OrderView, tid: nat)
      requires q != [] && |v| == |q| && AllOpen(v) && Leaves(inc) > 0 && Meets(inc.terms, v) && DistinctIds(gone + q)
      requires forall i :: 0 <= i < |gone + q| ==> (gone + q)[i] != order
      requires whole == WalkAfter(goneV, sofar, MatchWalk(stpMode, inc, v, tid)) && opposite.Valid()
      requires |goneV| == |gone| && (forall i :: 0 <= i < |gone| ==> gone[i].View() == goneV[i])
      requires forall i :: 0 < i < |q| ==> q[i].View() == v[i]
      requires var m := Meet(stpMode, inc, v[0]);
        && order.View() == m.incoming && q[0].View() == m.resting && opposite.queue == (if m.gone then q[1..] else q)
        && nextTrade == (if m.traded > 0 then tid + 1 else tid) && made == MeetEvents(stpMode, inc, v[0], m, tid)
      ensures Walking(opposite, order, if Meet(stpMode, inc, v[0]).gone then gone + [q[0]] else gone, sofar + made, whole, gone + q)
    {
      var m := Meet(stpMode, inc, v[0]);
      var nowGone := if m.gone then gone + [q[0]] else gone;
      MoveHead(gone, q);
      ViewsAfter(q, v, m);
      ViewsGone(gone, goneV, q[0]);
      Turn(stpMode, inc, v, tid, whole, goneV, sofar, made, order.View(), Views(opposite.queue), nextTrade, Views(nowGone));
    }

    // The matching loop, equal to the walk down the flat list: the same events,
    // the same final orders, and `gone` the resting orders used up.
    method Match(opposite: BookSide, order: Order)
        returns (events: seq<Event>, ghost gone: seq<Order>, ghost walk: Walk)
      requires opposite.Valid() && order !in opposite.Members() && AllOpen(Views(opposite.queue))
      modifies this`nextTrade, order`quantity, order`cumQty, order`notional, order`status
      modifies opposite.queue`quantity, opposite.queue`cumQty, opposite.queue`notional, opposite.queue`status
      modifies opposite`prices, opposite`levels, opposite`queue, opposite`atMarket
      ensures opposite.Valid() && opposite.atMarket == old(opposite.atMarket)
      ensures old(opposite.queue) == gone + opposite.queue
      ensures walk == MatchWalk(stpMode, old(order.View()), old(Views(opposite.queue)), old(nextTrade))
      ensures walk.incoming == order.View() && walk.events == events && walk.nextTrade == nextTrade
      ensures walk.done == Views(gone) && walk.rest == Views(opposite.queue)
    {
      ghost var q0 := opposite.queue;
      walk := MatchWalk(stpMode, order.View(), Views(q0), nextTrade);
      DistinctQueue(opposite);
      Begins(walk, Views([]));
      WalkBegins(opposite, order, walk);
      events, gone := MatchLoop(opposite, order, walk, q0);
    }

    lemma WalkBegins(opposite: BookSide, order: Order, walk: Walk)
      requires opposite.Valid() && order !in opposite.Members() && AllOpen(Views(opposite.queue))
      requires walk == MatchWalk(stpMode, order.View(), Views(opposite.queue), nextTrade)
      ensures Walking(opposite, order, [], [], walk, opposite.queue)
    {
      DistinctQueue(opposite);
      Begins(walk, Views([]));
      forall i | 0 <= i < |opposite.queue| ensures opposite.queue[i] != order {
        assert opposite.queue[i] in opposite.Members();
      }
    }

    // Meets the best resting order, if the incoming one reaches it.
    method MatchBest(opposite: BookSide, order: Order, sofar: seq<Event>, ghost gone: seq<Order>, ghost whole: Walk,
                     ghost q0: seq<Order>)
        returns (stop: bool, events: seq<Event>, ghost nowGone: seq<Order>)
      requires Walking(opposite, order, gone, sofar, whole, q0) && order.LeavesQty() > 0
      modifies this`nextTrade, order`quantity, order`cumQty, order`notional, order`status
      modifies q0`quantity, q0`cumQty, q0`notional, q0`status
      modifies opposite`prices, opposite`levels, opposite`queue, opposite`atMarket
      ensures Walking(opposite, order, nowGone, events, whole, q0) && opposite.atMarket == old(opposite.atMarket)
      ensures order.LeavesQty() > 0 && !stop ==> |opposite.queue| < old(|opposite.queue|)
      ensures |opposite.queue| <= old(|opposite.queue|)
      ensures stop ==> order.LeavesQty() == 0 || !Meets(order.View().terms, Views(opposite.queue))
    {
      var resting := BestMatch(opposite, order);
      if resting == null {
        return true, sofar, gone;
      }
      InBehind(gone, opposite.queue);
      stop, events, nowGone := MatchOne(opposite, order, resting, sofar, gone, whole, q0);
    }

    method MatchLoop(opposite: BookSide, order: Order, ghost walk: Walk, ghost q0: seq<Order>)
        returns (events: seq<Event>, ghost gone: seq<Order>)
      requires Walking(opposite, order, [], [], walk, q0) && opposite.queue == q0
      modifies this`nextTrade, order`quantity, order`cumQty, order`notional, order`status
      modifies opposite.queue`quantity, opposite.queue`cumQty, opposite.queue`notional, opposite.queue`status
      modifies opposite`prices, opposite`levels, opposite`queue, opposite`atMarket
      ensures opposite.Valid() && opposite.atMarket == old(opposite.atMarket) && q0 == gone + opposite.queue
      ensures walk.incoming == order.View() && walk.events == events && walk.nextTrade == nextTrade
      ensures walk.done == Views(gone) && walk.rest == Views(opposite.queue)
    {
      events, gone := [], [];
      while order.LeavesQty() > 0
        invariant Walking(opposite, order, gone, events, walk, q0) && opposite.atMarket == old(opposite.atMarket)
        decreases |opposite.queue|, order.LeavesQty()
      {
        var stop;
        stop, events, gone := MatchBest(opposite, order, events, gone, walk, q0);
        if stop {
          break;
        }
      }
      StopsHere(stpMode, order.View(), Views(opposite.queue), nextTrade, Views(gone), events, walk);
    }

    // ---- entry -------------------------------------------------------------------

    // Quantity that would trade, ignoring orders self-trade prevention blocks.
    method Executable(opposite: BookSide, order: Order) returns (available: int)
      requires opposite.Valid()
      ensures available == ExecutableFrom(stpMode, order.View(), Views(opposite.queue), 0)
    {
      var orders := opposite.OrdersInPriority();
      AllPriced(opposite, orders);
      available := Count(orders, order);
    }

    method Count(orders: seq<Order>, order: Order) returns (available: int)
      requires forall i :: 0 <= i < |orders| ==> orders[i].price.Some?
      ensures available == ExecutableFrom(stpMode, order.View(), Views(orders), 0)
    {
      available := 0;
      ghost var wanted, q := order.View(), Views(orders);
      ghost var total := ExecutableFrom(stpMode, wanted, q, 0);
      CountBegins(stpMode, wanted, q, 0);
      for i := 0 to |orders|
        invariant Counting(stpMode, wanted, q, i, available, total)
      {
        var resting := orders[i];
        assert q[i] == resting.View();
        CountStep(stpMode, wanted, q, i, available, total);
        if !Crosses(order.View().terms, resting.price.value) {
          return;
        }
        if SelfTrade(stpMode, order.View().terms, resting.View().terms) {
          continue;
        }
        available := available + resting.LeavesQty();
        if available >= order.quantity {
          return;
        }
      }
      CountEnds(stpMode, wanted, q, available, total);
    }

    lemma AllPriced(opposite: BookSide, orders: seq<Order>)
      requires opposite.Valid() && orders == opposite.OrdersInPriority()
      ensures orders == opposite.queue && forall i :: 0 <= i < |orders| ==> orders[i].price.Some?
    {
      opposite.PriorityIsQueue();
      opposite.QueueSorted();
    }

    method WouldCross(opposite: BookSide, order: Order) returns (crosses: bool)
      requires opposite.Valid()
      ensures crosses == BookRules.WouldCross(SideView(Views(opposite.atMarket), Views(opposite.queue)), order.View().terms)
    {
      opposite.PriorityIsQueue();
      var best := opposite.BestPrice();
      if order.price.None? {
        return best.Some? || opposite.atMarket != [];
      }
      crosses := best.Some? && Crosses(order.View().terms, best.value);
    }

    // The all-or-nothing rules; true means the order goes no further.
    method Precheck(opposite: BookSide, order: Order) returns (blocked: bool, events: seq<Event>)
      requires opposite.Valid()
      modifies order`status
      ensures var refusal := Refusal(stpMode, old(order.View()), old(Views(opposite.queue)));
        && blocked == refusal.Some?
        && order.View() == (if blocked then WithCancel(old(order.View())) else old(order.View()))
        && events == if blocked then [OrderCancelled(order.id, refusal.value)] else []
    {
      blocked, events := false, [];
      if order.tif == Fok {
        var executable := Executable(opposite, order);
        if executable < order.quantity {
          order.CancelOrder();
          return true, [OrderCancelled(order.id, FokUnfilled)];
        }
      } else if order.tif == Ioc && order.minQty != 0 {
        var executable := Executable(opposite, order);
        if executable < order.minQty {
          order.CancelOrder();
          return true, [OrderCancelled(order.id, MinQtyUnmet)];
        }
      }
    }

    method Acknowledge(order: Order) returns (events: seq<Event>)
      modifies order`status
      ensures order.View() == Acknowledged(Rules(stpMode, ackOnEntry), old(order.View()))
      ensures events == Acknowledgement(Rules(stpMode, ackOnEntry), old(order.View()))
    {
      events := [];
      if ackOnEntry {
        order.status := New;
        events := [AcceptedReport(order.View())];
      }
    }

    // Put the remainder on the book.
    method RestOrder(book: OrderBook, order: Order, acknowledged: bool) returns (events: seq<Event>)
      requires book.Valid() && Absent(book.Members(), order)
      modifies order`status, book.SideFor(order.side == Buy)
      ensures book.Valid() && order.View() == Rested(old(order.View()))
      ensures book.Shows(BookRules.Add(old(book.View()), order.View()))
      ensures events == if order.cumQty > 0 || acknowledged then [] else [AcceptedReport(order.View())]
      ensures Joined(old(book.Members()), order, book.Members())
    {
      Apart(book, order);
      order.status := if order.cumQty > 0 then PartiallyFilled else New;
      assert book.View() == old(book.View());
      book.Add(order);
      events := if order.cumQty > 0 || acknowledged then [] else [AcceptedReport(order.View())];
    }

    // An order that does not rest: filled, or its remainder cancelled.
    method Close(order: Order, made: seq<Event>, ghost b: BookView, ghost w: Walk, ghost acknowledged: bool)
        returns (events: seq<Event>)
      requires w.incoming == order.View()
      requires order.LeavesQty() > 0 ==> order.orderType == OrderType.Market || Immediate(order.View().terms)
      modifies order`status
      ensures Settle(b, w, acknowledged, made) == Entry(b, order.View(), false, w.done, events, w.nextTrade)
    {
      events := made;
      if order.LeavesQty() > 0 {
        order.CancelOrder();
        events := made + [OrderCancelled(order.id, if order.orderType == OrderType.Market then MarketRemainder else IocRemainder)];
      } else if !Terminal(order.status) {
        order.status := Filled;
      }
    }

    method CloseOffBook(book: OrderBook, order: Order, made: seq<Event>, ghost w: Walk, ghost acknowledged: bool,
                        ghost b: BookView)
        returns (events: seq<Event>)
      requires book.Valid() && Absent(book.Members(), order) && book.View() == b
      requires w.incoming == order.View()
      requires order.LeavesQty() > 0 ==> order.orderType == OrderType.Market || Immediate(order.View().terms)
      modifies order`status
      ensures book.Valid() && book.View() == b
      ensures Settle(b, w, acknowledged, made) == Entry(b, order.View(), false, w.done, events, w.nextTrade)
    {
      Apart(book, order);
      events := Close(order, made, b, w, acknowledged);
    }

    // What becomes of the order once matching is over.
    method Conclude(book: OrderBook, order: Order, acknowledged: bool, made: seq<Event>, ghost w: Walk, ghost b: BookView,
                    ghost entry: Entry)
        returns (events: seq<Event>)
      requires book.Valid() && Absent(book.Members(), order) && book.View() == b
      requires w.incoming == order.View() && entry == Settle(b, w, acknowledged, made)
      modifies order`status, book.SideFor(order.side == Buy)
      ensures book.Valid()
      ensures book.Shows(entry.book) && order.View() == entry.order && events == entry.events
      ensures Membership(old(book.Members()), [], order, entry.rests, book.Members())
    {
      if order.LeavesQty() > 0 && order.orderType != OrderType.Market && order.tif != Ioc && order.tif != Fok {
        var report := RestOrder(book, order, acknowledged);
        events := made + report;
      } else {
        events := CloseOffBook(book, order, made, w, acknowledged, b);
      }
    }

    // Matching changes no order but the incoming one and those in the queue.
    method MatchApart(opposite: BookSide, mine: BookSide, order: Order)
        returns (events: seq<Event>, ghost gone: seq<Order>, ghost walk: Walk)
      requires opposite.Valid() && AllOpen(Views(opposite.queue)) && mine != opposite && mine.Valid()
      requires order !in opposite.Members() && Elsewhere(opposite.atMarket, opposite.queue, order)
      requires Elsewhere(mine.atMarket, opposite.queue, order) && Elsewhere(mine.queue, opposite.queue, order)
      modifies this`nextTrade, order`quantity, order`cumQty, order`notional, order`status
      modifies opposite.queue`quantity, opposite.queue`cumQty, opposite.queue`notional, opposite.queue`status
      modifies opposite`prices, opposite`levels, opposite`queue, opposite`atMarket
      ensures opposite.Valid() && mine.Valid()
      ensures old(opposite.queue) == gone + opposite.queue && opposite.atMarket == old(opposite.atMarket)
      ensures mine.Members() == old(mine.Members())
      ensures walk == MatchWalk(stpMode, old(order.View()), old(Views(opposite.queue)), old(nextTrade))
      ensures walk.incoming == order.View() && walk.events == events && walk.nextTrade == nextTrade
      ensures walk.done == Views(gone) && walk.rest == Views(opposite.queue)
      ensures Views(opposite.atMarket) == old(Views(opposite.atMarket))
      ensures Views(mine.atMarket) == old(Views(mine.atMarket)) && Views(mine.queue) == old(Views(mine.queue))
    {
      ghost var om, mm, mq := opposite.atMarket, mine.atMarket, mine.queue;
      ghost var omv, mmv, mqv := Views(om), Views(mm), Views(mq);
      events, gone, walk := Match(opposite, order);
      Still(om, omv);
      Still(mm, mmv);
      Still(mq, mqv);
    }

    // Matching against the other side, seen on the whole book: b before, after it.
    method MatchSide(book: OrderBook, order: Order, ghost b: BookView)
        returns (events: seq<Event>, ghost gone: seq<Order>, ghost walk: Walk, ghost after: BookView)
      requires book.Valid() && OpenBook(b) && book.View() == b && Absent(book.Members(), order)
      modifies this`nextTrade, order`quantity, order`cumQty, order`notional, order`status
      modifies book.SideFor(order.side != Buy), book.SideFor(order.side != Buy).queue
      ensures book.Valid() && book.View() == after
      ensures var opposite := SideOf(b, order.side != Buy);
        && walk == MatchWalk(stpMode, old(order.View()), opposite.queue, old(nextTrade))
        && after == WithSide(b, order.side != Buy, opposite.(queue := walk.rest))
      ensures walk.incoming == order.View() && walk.events == events && walk.nextTrade == nextTrade
      ensures walk.done == Views(gone) && order !in gone
      ensures Membership(old(book.Members()), gone, order, false, book.Members())
    {
      Apart(book, order);
      OwnQueue(book, order.side != Buy, order);
      var opposite, mine := book.SideFor(order.side != Buy), book.SideFor(order.side == Buy);
      ghost var queue, members := opposite.queue, opposite.Members();
      assert ApartIds(members, mine.Members());
      events, gone, walk := MatchApart(opposite, mine, order);
      after := WithSide(b, order.side != Buy, SideOf(b, order.side != Buy).(queue := walk.rest));
      UsedUp(opposite.atMarket, queue, gone, opposite.queue);
      OneSideChanged(book, order.side != Buy, members, gone, b, after);
      WholeThinned(order.side != Buy, members, mine.Members(), gone, opposite.Members(), order);
    }

    // The book, the order, the trade counter and the reports are what the entry says,
    // and `gone` are the resting orders it used up.
    ghost predicate Recorded(book: OrderBook, order: Order, events: seq<Event>, gone: seq<Order>, entry: Entry)
      reads this`nextTrade, order, gone
      reads book.bids, book.bids.atMarket, book.bids.queue, book.asks, book.asks.atMarket, book.asks.queue
    {
      && book.Valid() && book.Shows(entry.book) && order.View() == entry.order && events == entry.events
      && nextTrade == entry.nextTrade && Views(gone) == entry.done && order !in gone
    }

    // Concluding an entry touches no order it used up.
    method ConcludeApart(book: OrderBook, order: Order, made: seq<Event>, ghost w: Walk, ghost b: BookView, ghost entry: Entry,
                         ghost gone: seq<Order>)
        returns (events: seq<Event>)
      requires book.Valid() && Absent(book.Members(), order) && book.View() == b
      requires w.incoming == order.View() && entry == Settle(b, w, ackOnEntry, made)
      requires w.done == Views(gone) && order !in gone
      modifies order`status, book.SideFor(order.side == Buy)
      ensures book.Valid() && Views(gone) == w.done
      ensures book.Shows(entry.book) && order.View() == entry.order && events == entry.events
      ensures Membership(old(book.Members()), [], order, entry.rests, book.Members())
    {
      assert forall i :: 0 <= i < |gone| ==> gone[i] != order;
      events := Conclude(book, order, ackOnEntry, made, w, b, entry);
      Still(gone, w.done);
    }

    // What becomes of an order once it has met the orders `gone`.
    method ConcludeMatched(book: OrderBook, order: Order, made: seq<Event>, ghost w: Walk, ghost b: BookView, ghost entry: Entry,
                           ghost gone: seq<Order>, ghost members: seq<Order>)
        returns (events: seq<Event>)
      requires book.Valid() && Absent(book.Members(), order) && book.View() == b
      requires w.incoming == order.View() && entry == Settle(b, w, ackOnEntry, made)
      requires entry.nextTrade == nextTrade && entry.done == w.done == Views(gone) && order !in gone
      requires Membership(members, gone, order, false, book.Members())
      modifies order`status, book.SideFor(order.side == Buy)
      ensures Recorded(book, order, events, gone, entry)
      ensures Membership(members, gone, order, entry.rests, book.Members())
    {
      ghost var kept := book.Members();
      events := ConcludeApart(book, order, made, w, b, entry, gone);
      MembershipThen(members, gone, kept, order, entry.rests, book.Members());
    }

    // Matching an order that passed the pre-check, and what becomes of it. Here and
    // below `entry` is what the rules say of this entry.
    method MatchAndConclude(book: OrderBook, order: Order, made: seq<Event>, ghost b: BookView, ghost w: Walk, ghost entry: Entry)
        returns (events: seq<Event>, ghost gone: seq<Order>)
      requires book.Valid() && OpenBook(b) && book.View() == b && Absent(book.Members(), order)
      requires w == MatchWalk(stpMode, order.View(), SideOf(b, order.side != Buy).queue, nextTrade)
      requires entry == SettleWalk(b, order.side != Buy, w, ackOnEntry, made)
      modifies this`nextTrade, order`quantity, order`cumQty, order`notional, order`status
      modifies book.bids, book.asks, book.SideFor(order.side != Buy).queue
      ensures Recorded(book, order, events, gone, entry)
      ensures Membership(old(book.Members()), gone, order, entry.rests, book.Members())
    {
      ghost var members := book.Members();
      var trades;
      ghost var walk, after;
      trades, gone, walk, after := MatchSide(book, order, b);
      StaysAbsent(members, gone, order, book.Members());
      SettleKeeps(after, walk, ackOnEntry, made + trades);
      events := ConcludeMatched(book, order, made + trades, walk, after, entry, gone, members);
    }

    // The pre-check on the whole book, which it leaves alone.
    method PrecheckOnBook(book: OrderBook, order: Order, ghost b: BookView) returns (blocked: bool, events: seq<Event>)
      requires book.Valid() && book.View() == b && Absent(book.Members(), order)
      modifies order`status
      ensures book.Valid() && book.View() == b
      ensures var refusal := Refusal(stpMode, old(order.View()), SideOf(b, order.side != Buy).queue);
        && blocked == refusal.Some?
        && order.View() == (if blocked then WithCancel(old(order.View())) else old(order.View()))
        && events == if blocked then [OrderCancelled(order.id, refusal.value)] else []
    {
      Apart(book, order);
      blocked, events := Precheck(book.SideFor(order.side != Buy), order);
    }

    // An acknowledged order that may match.
    method EnterMatching(book: OrderBook, order: Order, made: seq<Event>, ghost entry: Entry)
        returns (events: seq<Event>, ghost gone: seq<Order>)
      requires book.Valid() && OpenBook(book.View()) && Absent(book.Members(), order)
      requires entry == EnterAndMatch(Rules(stpMode, ackOnEntry), book.View(), order.View(), made, nextTrade)
      modifies this`nextTrade, order`quantity, order`cumQty, order`notional, order`status
      modifies book.bids, book.asks, book.SideFor(order.side != Buy).queue
      ensures Recorded(book, order, events, gone, entry)
      ensures Membership(old(book.Members()), gone, order, entry.rests, book.Members())
    {
      ghost var b, entered, tid := book.View(), order.View(), nextTrade;
      EnterIs(Rules(stpMode, ackOnEntry), b, entered, made, tid);
      var refused, refusal := PrecheckOnBook(book, order, b);
      if refused {
        events, gone := made + refusal, [];
      } else {
        ghost var w := MatchWalk(stpMode, entered, SideOf(b, order.side != Buy).queue, tid);
        events, gone := MatchAndConclude(book, order, made, b, w, entry);
      }
    }

    // A post-only order is refused outright if it would take liquidity.
    method RefusesPostOnly(book: OrderBook, order: Order) returns (refused: bool)
      requires book.Valid()
      ensures refused == PostOnlyRefused(book.View(), order.View().terms)
    {
      refused := false;
      if order.postOnly {
        refused := WouldCross(book.SideFor(order.side != Buy), order);
      }
    }

    method Reject(book: OrderBook, order: Order) returns (events: seq<Event>)
      requires book.Valid() && Absent(book.Members(), order)
      modifies order`status
      ensures order.View() == old(order.View()).(status := Rejected)
      ensures events == [PostOnlyRejected(order.id)]
      ensures book.View() == old(book.View()) && book.Valid()
    {
      Apart(book, order);
      order.status := Rejected;
      events := [PostOnlyRejected(order.id)];
    }

    // An order that is only accumulated, as in an auction's call phase.
    method Accumulate(book: OrderBook, order: Order, made: seq<Event>, ghost entry: Entry) returns (events: seq<Event>)
      requires book.Valid() && Absent(book.Members(), order)
      requires entry == Rest(book.View(), order.View(), ackOnEntry, [], made, nextTrade)
      modifies order`status, book.SideFor(order.side == Buy)
      ensures Recorded(book, order, events, [], entry)
      ensures Membership(old(book.Members()), [], order, true, book.Members())
    {
      var report := RestOrder(book, order, ackOnEntry);
      events := made + report;
    }

    method AcknowledgeEntered(book: OrderBook, order: Order) returns (events: seq<Event>)
      requires book.Valid() && Absent(book.Members(), order)
      modifies order`status
      ensures order.View() == Acknowledged(Rules(stpMode, ackOnEntry), old(order.View()))
      ensures events == Acknowledgement(Rules(stpMode, ackOnEntry), old(order.View()))
      ensures book.View() == old(book.View()) && book.Valid()
    {
      Apart(book, order);
      events := Acknowledge(order);
    }

    method Admit(book: OrderBook, order: Order, allowMatching: bool, ghost entry: Entry)
        returns (events: seq<Event>, ghost gone: seq<Order>)
      requires book.Valid() && OpenBook(book.View()) && Absent(book.Members(), order)
      requires !PostOnlyRefused(book.View(), order.View().terms)
      requires entry == BookRules.Submit(Rules(stpMode, ackOnEntry), book.View(), order.View(), allowMatching, nextTrade)
      modifies this`nextTrade, order`quantity, order`cumQty, order`notional, order`status
      modifies book.bids, book.asks, book.SideFor(order.side != Buy).queue
      ensures Recorded(book, order, events, gone, entry)
      ensures Membership(old(book.Members()), gone, order, entry.rests, book.Members())
    {
      gone := [];
      events := AcknowledgeEntered(book, order);
      if !allowMatching {
        events := Accumulate(book, order, events, entry);
      } else {
        events, gone := EnterMatching(book, order, events, entry);
      }
    }

    // Enters an order; `gone` are the resting orders it used up.
    method Submit(book: OrderBook, order: Order, allowMatching: bool, ghost entry: Entry)
        returns (events: seq<Event>, ghost gone: seq<Order>)
      requires book.Valid() && OpenBook(book.View()) && Absent(book.Members(), order)
      requires entry == BookRules.Submit(Rules(stpMode, ackOnEntry), book.View(), order.View(), allowMatching, nextTrade)
      modifies this`nextTrade, order`quantity, order`cumQty, order`notional, order`status
      modifies book.bids, book.asks, book.SideFor(order.side != Buy).queue
      ensures Recorded(book, order, events, gone, entry)
      ensures Membership(old(book.Members()), gone, order, entry.rests, book.Members())
    {
      var refused := RefusesPostOnly(book, order);
      if refused {
        gone := [];
        events := Reject(book, order);
      } else {
        events, gone := Admit(book, order, allowMatching, entry);
      }
    }

    // Entering an order touches none that is neither it nor in the opposite queue.
    method SubmitBeside(book: OrderBook, order: Order, allowMatching: bool, ghost entry: Entry,
                        ghost others: seq<Order>, ghost v: seq<OrderView>)
        returns (events: seq<Event>, ghost gone: seq<Order>)
      requires book.Valid() && OpenBook(book.View()) && Absent(book.Members(), order)
      requires entry == BookRules.Submit(Rules(stpMode, ackOnEntry), book.View(), order.View(), allowMatching, nextTrade)
      requires Views(others) == v
      requires forall k :: 0 <= k < |others| ==> others[k] != order && others[k] !in book.SideFor(order.side != Buy).queue
      modifies this`nextTrade, order`quantity, order`cumQty, order`notional, order`status
      modifies book.bids, book.asks, book.SideFor(order.side != Buy).queue
      ensures Recorded(book, order, events, gone, entry)
      ensures Membership(old(book.Members()), gone, order, entry.rests, book.Members())
      ensures forall k :: 0 <= k < |others| ==> others[k].View() == v[k]
    {
      events, gone := Submit(book, order, allowMatching, entry);
    }

    // ---- cancel and amend -----------------------------------------------------------

    // Takes an order off the book, if it is there.
    method TakeOff(book: OrderBook, order: Order) returns (found: bool)
      requires book.Valid() && Alone(book.Members(), order)
      modifies book.SideFor(order.side == Buy)
      ensures book.Valid() && found == Rests(old(book.View()), order.View().terms)
      ensures book.Shows(BookRules.Remove(old(book.View()), order.View().terms))
      ensures Parted(old(book.Members()), order, book.Members())
      ensures Absent(book.Members(), order)
    {
      RestsIsMember(book, order);
      found := book.Remove(order);
    }

    // Remove a resting order and report it.
    method Cancel(book: OrderBook, order: Order, reason: CancelReason) returns (events: seq<Event>)
      requires book.Valid() && Alone(book.Members(), order)
      modifies order`status, book.SideFor(order.side == Buy)
      ensures book.Valid() && order.View() == WithCancel(old(order.View()))
      ensures book.Shows(BookRules.Remove(old(book.View()), old(order.View()).terms))
      ensures events == [OrderCancelled(order.id, reason)]
      ensures Parted(old(book.Members()), order, book.Members())
    {
      var found := TakeOff(book, order);
      CancelOffBook(book, order);
      events := [OrderCancelled(order.id, reason)];
    }

    method CancelOffBook(book: OrderBook, order: Order)
      requires book.Valid() && order !in book.Members()
      modifies order`status
      ensures book.Valid() && book.View() == old(book.View()) && order.View() == WithCancel(old(order.View()))
    {
      OffBook(book, order);
      order.CancelOrder();
    }

    method Reinsert(book: OrderBook, order: Order)
      requires book.Valid() && Absent(book.Members(), order)
      modifies book.SideFor(order.side == Buy)
      ensures book.Valid() && book.Shows(BookRules.Reinsert(old(book.View()), order.View()))
      ensures Joined(old(book.Members()), order, book.Members())
    {
      AbsentConcat(book.bids.Members(), book.asks.Members(), order);
      ghost var wasBids, wasAsks := book.bids.Members(), book.asks.Members();
      if order.side == Buy {
        ReturnBeside(book.bids, book.asks, order);
        JoinedFirst(wasBids, wasAsks, order, book.bids.Members());
      } else {
        ReturnBeside(book.asks, book.bids, order);
        JoinedSecond(wasBids, wasAsks, order, book.asks.Members());
      }
    }

    static method ReturnBeside(side: BookSide, other: BookSide, order: Order)
      requires side != other && side.Valid() && other.Valid() && OnSide(side.isBuy, order) && Absent(side.Members(), order)
      modifies side
      ensures side.Valid() && other.Valid() && other.Members() == old(other.Members())
      ensures Views(side.atMarket) ==
        if order.price.None? then SortBySequence(old(Views(side.atMarket)) + [order.View()]) else old(Views(side.atMarket))
      ensures Views(side.queue) ==
        if order.price.None? then old(Views(side.queue)) else Requeue(side.isBuy, old(Views(side.queue)), order.View())
      ensures Views(other.atMarket) == old(Views(other.atMarket)) && Views(other.queue) == old(Views(other.queue))
      ensures Joined(old(side.Members()), order, side.Members())
    {
      ghost var m, q := Views(other.atMarket), Views(other.queue);
      ReturnTo(side, order);
      Still(other.atMarket, m);
      Still(other.queue, q);
    }

    method SetTerms(book: OrderBook, order: Order, newQuantity: Option<int>, newPrice: Option<int>)
      requires book.Valid() && order !in book.Members()
      modifies order`price, order`quantity
      ensures book.Valid() && book.View() == old(book.View()) && book.Members() == old(book.Members())
      ensures order.View() == Amended(old(order.View()), newQuantity, newPrice)
    {
      OffBook(book, order);
      order.price := if newPrice.Some? then newPrice else order.price;
      order.quantity := if newQuantity.Some? then newQuantity.value else order.quantity;
    }

    // Puts an amended order back: at its place, at the back, or not at all.
    method PutBack(book: OrderBook, order: Order, wasResting: bool, kept: bool)
      requires book.Valid() && Absent(book.Members(), order)
      modifies book.SideFor(order.side == Buy)
      ensures book.Valid()
      ensures book.Shows(Returned(old(book.View()), order.View(), wasResting, kept))
      ensures Membership(old(book.Members()), [], order,
                         order.LeavesQty() > 0 && (wasResting || LiveStatus(order.status)), book.Members())
    {
      if order.LeavesQty() > 0 {
        if wasResting && kept {
          Reinsert(book, order);
        } else if wasResting || LiveStatus(order.status) {
          book.Add(order);
        }
      }
    }

    // Applies an amendment, returning whether time priority was kept.
    method Amend(book: OrderBook, order: Order, newQuantity: Option<int>, newPrice: Option<int>) returns (kept: bool)
      requires book.Valid() && Alone(book.Members(), order)
      modifies order`price, order`quantity, book.SideFor(order.side == Buy)
      ensures book.Valid()
      ensures order.View() == Amended(old(order.View()), newQuantity, newPrice)
      ensures kept == !LosesPriority(old(order.View()), order.View())
      ensures book.Shows(AmendBook(old(book.View()), old(order.View()), newQuantity, newPrice))
      ensures var rests := order.LeavesQty() > 0 && (Rests(old(book.View()), old(order.View()).terms) || LiveStatus(order.status));
        Membership(old(book.Members()), [order], order, rests, book.Members())
    {
      ghost var before, was, members := book.View(), order.View(), book.Members();
      var price := if newPrice.Some? then newPrice else order.price;
      var quantity := if newQuantity.Some? then newQuantity.value else order.quantity;
      kept := price == order.price && quantity <= order.quantity;
      var wasResting := TakeOff(book, order);
      Shown(book, BookRules.Remove(before, was.terms));
      AmendReturns(before, was, newQuantity, newPrice);
      ghost var without := book.Members();
      SetTerms(book, order, newQuantity, newPrice);
      PutBack(book, order, wasResting, kept);
      LeftThen(members, without, order, order.LeavesQty() > 0 && (wasResting || LiveStatus(order.status)), book.Members());
    }
  }

  // A book an order was taken off, once the amended order is back.
  function Returned(b: BookView, a: OrderView, wasResting: bool, kept: bool): BookView {
    if Leaves(a) == 0 then b
    else if wasResting && kept then BookRules.Reinsert(b, a)
    else if wasResting || LiveStatus(a.status) then BookRules.Add(b, a)
    else b
  }

  lemma AmendReturns(b: BookView, o: OrderView, newQuantity: Option<int>, newPrice: Option<int>)
    ensures var a := Amended(o, newQuantity, newPrice);
      AmendBook(b, o, newQuantity, newPrice) ==
        Returned(BookRules.Remove(b, o.terms), a, Rests(b, o.terms), !LosesPriority(o, a))
  {
  }

  lemma LeftThen(was: seq<Order>, without: seq<Order>, order: Order, rests: bool, now: seq<Order>)
    requires Parted(was, order, without) && Membership(without, [], order, rests, now)
    ensures Membership(was, [order], order, rests, now)
  {
  }

  // An order is on the book exactly when its list shows its id.
  lemma RestsIsMember(book: OrderBook, order: Order)
    requires book.Valid() && Alone(book.Members(), order)
    ensures order in book.Members() <==> Rests(book.View(), order.View().terms)
  {
    var side := book.SideFor(order.side == Buy);
    var list := if order.price.None? then side.atMarket else side.queue;
    InItsList(book, order);
    AloneConcat(book.bids.Members(), book.asks.Members(), order);
    AloneConcat(side.atMarket, side.queue, order);
    ListRests(list, order);
  }

  lemma InItsList(book: OrderBook, order: Order)
    requires book.Valid()
    ensures var side := book.SideFor(order.side == Buy);
      order in book.Members() <==> order in (if order.price.None? then side.atMarket else side.queue)
  {
    book.bids.QueueSorted();
    book.asks.QueueSorted();
  }

  lemma ListRests(list: seq<Order>, order: Order)
    requires Alone(list, order)
    ensures order in list <==> Contains(Views(list), order.id)
  {
    if order in list {
      var i :| 0 <= i < |list| && list[i] == order;
      assert Views(list)[i].terms.id == order.id;
    }
  }

  // Who is on the book after an entry: who was, less those used up, and the
  // entered order if it rests.
  ghost predicate Membership(was: seq<Order>, gone: seq<Order>, order: Order, rests: bool, now: seq<Order>) {
    && (forall i :: 0 <= i < |now| ==> (now[i] in was && now[i] !in gone) || (now[i] == order && rests))
    && (forall i :: 0 <= i < |was| ==> was[i] in gone || was[i] in now)
    && (rests ==> order in now)
  }

  lemma StaysAbsent(was: seq<Order>, gone: seq<Order>, order: Order, now: seq<Order>)
    requires Membership(was, gone, order, false, now) && Absent(was, order)
    ensures Absent(now, order)
  {
  }

  lemma MembershipThen(was: seq<Order>, gone: seq<Order>, kept: seq<Order>, order: Order, rests: bool, now: seq<Order>)
    requires Membership(was, gone, order, false, kept) && Membership(kept, [], order, rests, now)
    ensures Membership(was, gone, order, rests, now)
  {
  }

  // What becomes of an order once a walk down the opposite queue is over.
  ghost function SettleWalk(b: BookView, opposite: bool, w: Walk, acknowledged: bool, made: seq<Event>): Entry {
    Settle(WithSide(b, opposite, SideOf(b, opposite).(queue := w.rest)), w, acknowledged, made + w.events)
  }

  lemma SettleKeeps(b: BookView, w: Walk, acknowledged: bool, made: seq<Event>)
    ensures var e := Settle(b, w, acknowledged, made); e.done == w.done && e.nextTrade == w.nextTrade
  {
  }

  lemma EnterIs(rules: Rules, b: BookView, o: OrderView, made: seq<Event>, tid: nat)
    requires OpenBook(b)
    ensures var opposite := SideOf(b, !IsBuy(o.terms));
      var refusal := Refusal(rules.mode, o, opposite.queue);
      EnterAndMatch(rules, b, o, made, tid) ==
        if refusal.Some? then
          Entry(b, WithCancel(o), false, [], made + [OrderCancelled(o.terms.id, refusal.value)], tid)
        else
          SettleWalk(b, !IsBuy(o.terms), MatchWalk(rules.mode, o, opposite.queue, tid), rules.ackOnEntry, made)
  {
  }

  lemma Shown(book: OrderBook, v: BookView)
    requires book.Shows(v)
    ensures book.View() == v
  {
  }

  lemma OffBook(book: OrderBook, order: Order)
    requires order !in book.Members()
    ensures order !in book.bids.atMarket && order !in book.bids.queue
    ensures order !in book.asks.atMarket && order !in book.asks.queue
  {
  }

  lemma Apart(book: OrderBook, order: Order)
    requires Absent(book.Members(), order)
    ensures order !in book.bids.atMarket && order !in book.bids.queue
    ensures order !in book.asks.atMarket && order !in book.asks.queue
    ensures order !in book.Members()
  {
    assert order !in book.Members();
  }

  // None of these orders is `order` or waits in the queue.
  predicate Elsewhere(s: seq<Order>, queue: seq<Order>, order: Order) {
    forall i :: 0 <= i < |s| ==> s[i] !in queue && s[i] != order
  }

  // A side's limit queue shares no order with the rest of the book.
  lemma OwnQueue(book: OrderBook, isBuy: bool, order: Order)
    requires book.Valid() && order !in book.Members()
    ensures var s, t := book.SideFor(isBuy), book.SideFor(!isBuy);
      && Elsewhere(s.atMarket, s.queue, order) && Elsewhere(t.atMarket, s.queue, order)
      && Elsewhere(t.queue, s.queue, order)
  {
    var s, t := book.SideFor(isBuy), book.SideFor(!isBuy);
    s.QueueSorted();
    forall o | o in s.queue ensures o !in t.Members() {
      assert o in s.Members();
    }
    assert forall o :: o in t.Members() ==> o !in s.queue;
    assert order !in s.Members() && order !in t.Members();
  }

  // The same orders, without those gone.
  predicate Thinned(was: seq<Order>, gone: seq<Order>, now: seq<Order>) {
    && (forall i :: 0 <= i < |now| ==> now[i] in was && now[i] !in gone)
    && (forall i :: 0 <= i < |was| ==> was[i] in gone || was[i] in now)
    && (forall i :: 0 <= i < |gone| ==> gone[i] in was)
  }

  // A book whose one side lost some limit orders.
  lemma OneSideChanged(book: OrderBook, isBuy: bool, was: seq<Order>, gone: seq<Order>, before: BookView, after: BookView)
    requires book.bids != book.asks && book.bids.isBuy && !book.asks.isBuy && book.bids.Valid() && book.asks.Valid()
    requires ApartIds(was, book.SideFor(!isBuy).Members()) && Thinned(was, gone, book.SideFor(isBuy).Members())
    requires Views(book.SideFor(!isBuy).atMarket) == SideOf(before, !isBuy).market
    requires Views(book.SideFor(!isBuy).queue) == SideOf(before, !isBuy).queue
    requires Views(book.SideFor(isBuy).atMarket) == SideOf(before, isBuy).market
    requires after == WithSide(before, isBuy, SideOf(before, isBuy).(queue := Views(book.SideFor(isBuy).queue)))
    ensures book.Valid() && book.View() == after
  {
    var now, others := book.SideFor(isBuy).Members(), book.SideFor(!isBuy).Members();
    forall o, x | o in now && x in others ensures o.id != x.id {
      var i :| 0 <= i < |now| && now[i] == o;
    }
  }

  // Who is on the whole book once one side has lost some orders.
  lemma WholeThinned(isBuy: bool, was: seq<Order>, others: seq<Order>, gone: seq<Order>, now: seq<Order>, order: Order)
    requires Thinned(was, gone, now) && ApartIds(was, others)
    ensures Membership(if isBuy then was + others else others + was, gone, order, false,
                       if isBuy then now + others else others + now)
  {
    forall i | 0 <= i < |others| ensures others[i] !in gone {
      assert others[i] in others;
    }
  }

  lemma UsedUp(m: seq<Order>, q: seq<Order>, gone: seq<Order>, rest: seq<Order>)
    requires q == gone + rest && DistinctIds(m + q)
    ensures Thinned(m + q, gone, m + rest)
  {
    var was, now := m + q, m + rest;
    assert forall k :: 0 <= k < |gone| ==> was[|m| + k] == gone[k];
    forall i | 0 <= i < |now| ensures now[i] in was && now[i] !in gone {
      assert now[i] == was[if i < |m| then i else i + |gone|];
    }
  }

  // Counting on from order i with so much found gives the whole count.
  ghost predicate Counting(mode: StpMode, o: OrderView, q: seq<OrderView>, i: nat, available: int, total: int) {
    i <= |q| && total == ExecutableFrom(mode, o, q[i..], available)
  }

  lemma CountBegins(mode: StpMode, o: OrderView, q: seq<OrderView>, available: int)
    ensures Counting(mode, o, q, 0, available, ExecutableFrom(mode, o, q, available))
  {
    assert q[0..] == q;
  }

  // One turn of the pre-check's count.
  lemma CountStep(mode: StpMode, o: OrderView, q: seq<OrderView>, i: nat, available: int, total: int)
    requires i < |q| && Counting(mode, o, q, i, available, total)
    ensures var more := available + Leaves(q[i]);
      if !Crosses(o.terms, Px(q[i])) then total == available
      else if SelfTrade(mode, o.terms, q[i].terms) then Counting(mode, o, q, i + 1, available, total)
      else if more >= o.quantity then total == more
      else Counting(mode, o, q, i + 1, more, total)
  {
    assert q[i..][1..] == q[i + 1..];
  }

  lemma CountEnds(mode: StpMode, o: OrderView, q: seq<OrderView>, available: int, total: int)
    requires Counting(mode, o, q, |q|, available, total)
    ensures total == available
  {
  }

  lemma Begins(w: Walk, none: seq<OrderView>)
    requires none == []
    ensures w == WalkAfter(none, [], w)
  {
  }

  lemma MoveHead(gone: seq<Order>, q: seq<Order>)
    requires q != []
    ensures (gone + [q[0]]) + q[1..] == gone + q
  {
  }

  lemma InBehind(gone: seq<Order>, q: seq<Order>)
    requires q != []
    ensures q[0] in gone + q
  {
    assert (gone + q)[|gone|] == q[0];
  }

  lemma HeadDiffers(gone: seq<Order>, q: seq<Order>, order: Order)
    requires q != [] && DistinctIds(gone + q) && forall i :: 0 <= i < |gone + q| ==> (gone + q)[i] != order
    ensures forall i :: 0 < i < |q| ==> q[i] != q[0]
    ensures forall i :: 0 <= i < |q| ==> q[i] != order
    ensures forall i :: 0 <= i < |gone| ==> gone[i] != q[0] && gone[i] != order
  {
    var all, n := gone + q, |gone|;
    assert forall i :: 0 <= i < |q| ==> q[i] == all[n + i];
    assert forall i :: 0 <= i < n ==> gone[i] == all[i] && all[i].id != all[n].id;
  }

  lemma ViewsAfter(q: seq<Order>, before: seq<OrderView>, m: Meeting)
    requires q != [] && |before| == |q| && q[0].View() == m.resting
    requires forall i :: 0 < i < |q| ==> q[i].View() == before[i]
    ensures Views(if m.gone then q[1..] else q) == AfterMeeting(m, before)
  {
  }

  lemma ViewsGone(gone: seq<Order>, before: seq<OrderView>, o: Order)
    requires |before| == |gone| && forall i :: 0 <= i < |gone| ==> gone[i].View() == before[i]
    ensures Views(gone) == before && Views(gone + [o]) == before + [o.View()]
  {
  }

  lemma DistinctQueue(side: BookSide)
    requires side.Valid()
    ensures DistinctIds(side.queue)
  {
    DistinctParts(side.atMarket, side.queue);
  }

  lemma StopsHere(mode: StpMode, inc: OrderView, q: seq<OrderView>, tid: nat, done: seq<OrderView>,
                  events: seq<Event>, walk: Walk)
    requires AllOpen(q) && (Leaves(inc) == 0 || !Meets(inc.terms, q))
    requires walk == WalkAfter(done, events, MatchWalk(mode, inc, q, tid))
    ensures walk.incoming == inc && walk.events == events && walk.nextTrade == tid
    ensures walk.done == done && walk.rest == q
  {
  }

  lemma Turn(mode: StpMode, inc: OrderView, q: seq<OrderView>, tid: nat, whole: Walk, done: seq<OrderView>,
             events: seq<Event>, made: seq<Event>, nowInc: OrderView, nowQ: seq<OrderView>, nowTid: nat, nowDone: seq<OrderView>)
    requires AllOpen(q) && Leaves(inc) > 0 && Meets(inc.terms, q)
    requires whole == WalkAfter(done, events, MatchWalk(mode, inc, q, tid))
    requires var m := Meet(mode, inc, q[0]);
      && nowInc == m.incoming && nowQ == AfterMeeting(m, q) && made == MeetEvents(mode, inc, q[0], m, tid)
      && nowTid == (if m.traded > 0 then tid + 1 else tid)
      && nowDone == done + if m.gone then [m.resting] else []
    ensures AllOpen(nowQ) && whole == WalkAfter(nowDone, events + made, MatchWalk(mode, nowInc, nowQ, nowTid))
    ensures |nowQ| < |q| || Leaves(nowInc) == 0
  {
    var m := Meet(mode, inc, q[0]);
    WalkStep(mode, inc, q, tid);
    WalkAfterTwice(done, events, if m.gone then [m.resting] else [], made, MatchWalk(mode, nowInc, nowQ, nowTid));
  }
}
