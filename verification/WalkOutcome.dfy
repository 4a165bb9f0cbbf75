// What matching does to each order it reaches, told from self-match keys, participants
// and limit prices alone (exchangesim/core/matching.py).
module WalkOutcome {
  import opened Options
  import opened Orders
  import opened PriceLevels
  import opened Matching

  // ---- whose orders may trade -------------------------------------------------------

  predicate SharesKey(a: Terms, b: Terms) {
    a.stpId != 0 && a.stpId == b.stpId
  }

  predicate LacksKey(a: Terms, b: Terms) {
    a.stpId == 0 || b.stpId == 0
  }

  predicate SameParticipant(a: Terms, b: Terms) {
    a.mpid != 0 && a.mpid == b.mpid
  }

  // One key decides; without two keys the participant does, unless the market prevents
  // nothing.
  predicate Own(mode: StpMode, a: Terms, b: Terms) {
    SharesKey(a, b) || (mode != NoPrevention && LacksKey(a, b) && SameParticipant(a, b))
  }

  predicate WithinLimit(t: Terms, price: int) {
    t.price.None? || (if t.side == Buy then price <= t.price.value else price >= t.price.value)
  }

  // What the incoming order has done about its own orders: its instruction when it has a
  // key, or the market's mode.
  predicate Asks(mode: StpMode, t: Terms, m: StpMode) {
    if t.stpId != 0 && t.stpInstruction.Some? then t.stpInstruction.value == m else mode == m
  }

  // ---- what becomes of the orders reached ---------------------------------------------

  // An order used up: cancelled if it is the incoming one's own, filled otherwise.
  predicate UsedUp(mode: StpMode, t: Terms, o: OrderView, d: OrderView) {
    if Own(mode, t, o.terms) then
      d == o.(status := Cancelled) && (Asks(mode, t, CancelOldest) || Asks(mode, t, Decrement))
    else
      d == o.(cumQty := o.quantity, notional := o.notional + Px(o) * (o.quantity - o.cumQty), status := Filled)
  }

  // An order that used up the incoming one: reduced if own, partly filled otherwise.
  predicate Touched(mode: StpMode, t: Terms, o: OrderView, r: OrderView) {
    if Own(mode, t, o.terms) then
      Asks(mode, t, Decrement) && o.cumQty < r.quantity < o.quantity && r == o.(quantity := r.quantity)
    else
      && o.cumQty < r.cumQty < o.quantity
      && r == o.(cumQty := r.cumQty, notional := o.notional + Px(o) * (r.cumQty - o.cumQty), status := PartiallyFilled)
  }

  ghost predicate AllUsedUp(mode: StpMode, t: Terms, q: seq<OrderView>, done: seq<OrderView>) {
    |done| <= |q| && forall i :: 0 <= i < |done| ==> UsedUp(mode, t, q[i], done[i]) && WithinLimit(t, Px(q[i]))
  }

  // The incoming order is live, filled, or cancelled by its own order, the one it stopped
  // at or the last used up.
  ghost predicate EndsFor(mode: StpMode, o: OrderView, q: seq<OrderView>, done: seq<OrderView>, rest: seq<OrderView>) {
    var t := o.terms;
    if Leaves(o) > 0 then rest == [] || !WithinLimit(t, Px(rest[0]))
    else if o.status == Cancelled then
      || (rest != [] && Own(mode, t, rest[0].terms) && !Asks(mode, t, CancelOldest))
      || (0 < |done| <= |q| && Own(mode, t, q[|done| - 1].terms) && Asks(mode, t, Decrement))
    else o.status == Filled && o.cumQty == o.quantity
  }

  ghost predicate Matched(mode: StpMode, t: Terms, q: seq<OrderView>, w: Walk) {
    && AllUsedUp(mode, t, q, w.done) && |w.done| + |w.rest| == |q| && w.incoming.terms == t
    && (forall i :: 0 < i < |w.rest| ==> w.rest[i] == q[|w.done| + i])
    && (w.rest != [] ==>
          (w.rest[0] == q[|w.done|] || (Touched(mode, t, q[|w.done|], w.rest[0]) && WithinLimit(t, Px(q[|w.done|])))))
    && EndsFor(mode, w.incoming, q, w.done, w.rest)
  }

  lemma LimitIsCross(t: Terms, price: int)
    ensures Crosses(t, price) <==> WithinLimit(t, price)
  {
  }

  lemma OwnIsSelfTrade(mode: StpMode, a: Terms, b: Terms)
    ensures SelfTrade(mode, a, b) <==> Own(mode, a, b)
  {
  }

  lemma AskedMode(mode: StpMode, t: Terms)
    ensures EffectiveMode(mode, t) == CancelOldest <==> Asks(mode, t, CancelOldest)
    ensures EffectiveMode(mode, t) == Decrement <==> Asks(mode, t, Decrement)
  {
  }

  lemma MeetingOutcome(mode: StpMode, inc: OrderView, o: OrderView, nextTrade: nat)
    requires Leaves(inc) > 0 && Leaves(o) > 0
    ensures var m, t := Meet(mode, inc, o), inc.terms;
      && (m.gone ==> UsedUp(mode, t, o, m.resting))
      && (!m.gone && m.resting != o ==> Touched(mode, t, o, m.resting))
      && (Leaves(m.incoming) == 0 && m.incoming.status != Filled ==>
            m.incoming.status == Cancelled && Own(mode, t, o.terms) && !Asks(mode, t, CancelOldest) &&
            (m.gone ==> Asks(mode, t, Decrement)))
      && (m.incoming.status == Filled ==> m.incoming.cumQty == m.incoming.quantity)
      && (m.gone && !m.stop ==> Leaves(m.incoming) > 0 || m.incoming.status == Filled)
  {
    OwnIsSelfTrade(mode, inc.terms, o.terms);
    AskedMode(mode, inc.terms);
  }

  lemma OutcomeOn(mode: StpMode, t: Terms, q: seq<OrderView>, d: OrderView, rest: Walk, w: Walk)
    requires q != [] && UsedUp(mode, t, q[0], d) && WithinLimit(t, Px(q[0])) && Matched(mode, t, q[1..], rest)
    requires w.incoming == rest.incoming && w.done == [d] + rest.done && w.rest == rest.rest
    ensures Matched(mode, t, q, w)
  {
    assert forall i :: 1 <= i < |q| ==> q[i] == q[1..][i - 1];
    assert forall i :: 1 <= i < |w.done| ==> w.done[i] == rest.done[i - 1];
  }

  lemma NothingMet(mode: StpMode, inc: OrderView, q: seq<OrderView>, nextTrade: nat)
    requires Leaves(inc) > 0 || (inc.status == Filled && inc.cumQty == inc.quantity)
    requires Leaves(inc) == 0 || !Meets(inc.terms, q)
    ensures Matched(mode, inc.terms, q, Walk(inc, [], q, [], nextTrade))
  {
    if q != [] { LimitIsCross(inc.terms, Px(q[0])); }
  }

  lemma LastMet(mode: StpMode, inc: OrderView, q: seq<OrderView>, nextTrade: nat, m: Meeting, w: Walk)
    requires Leaves(inc) > 0 && q != [] && Leaves(q[0]) > 0 && Crosses(inc.terms, Px(q[0]))
    requires m == Meet(mode, inc, q[0]) && (m.stop || !m.gone) && w.incoming == m.incoming
    requires w.done == (if m.gone then [m.resting] else []) && w.rest == (if m.gone then [] else [m.resting]) + q[1..]
    ensures Matched(mode, inc.terms, q, w)
  {
    LimitIsCross(inc.terms, Px(q[0]));
    MeetingOutcome(mode, inc, q[0], nextTrade);
  }

  // In every self-trade mode: orders of others used up are filled at their own price, own
  // ones are cancelled; at most the next is partly filled or reduced; and the incoming
  // order stops at its limit, filled, or at its own order.
  lemma {:induction false} WalkHasOutcome(mode: StpMode, inc: OrderView, q: seq<OrderView>, nextTrade: nat)
    requires AllOpen(q) && (Leaves(inc) > 0 || (inc.status == Filled && inc.cumQty == inc.quantity))
    ensures Matched(mode, inc.terms, q, MatchWalk(mode, inc, q, nextTrade))
    decreases |q|
  {
    var w := MatchWalk(mode, inc, q, nextTrade);
    if Leaves(inc) == 0 || !Meets(inc.terms, q) {
      NothingMet(mode, inc, q, nextTrade);
    } else {
      var m := Meet(mode, inc, q[0]);
      if m.gone && !m.stop {
        MeetingOutcome(mode, inc, q[0], nextTrade);
        LimitIsCross(inc.terms, Px(q[0]));
        var next := if m.traded > 0 then nextTrade + 1 else nextTrade;
        WalkHasOutcome(mode, m.incoming, q[1..], next);
        var rest := MatchWalk(mode, m.incoming, q[1..], next);
        WalkOn(mode, inc, q, nextTrade, m, MeetEvents(mode, inc, q[0], m, nextTrade), next, rest);
        OutcomeOn(mode, inc.terms, q, m.resting, rest, w);
      } else {
        LastMet(mode, inc, q, nextTrade, m, w);
      }
    }
  }

  // ---- what is reported --------------------------------------------------------------------

  // A trade with a resting order: both sides are told, the resting one first, under one
  // trade number, and the two may trade with each other.
  ghost predicate TradeReported(mode: StpMode, inc: OrderView, o: OrderView, events: seq<Event>, tradeId: int) {
    var t := inc.terms;
    && !SharesKey(t, o.terms) && (mode == NoPrevention || !LacksKey(t, o.terms) || !SameParticipant(t, o.terms))
    && |events| == 3 && events[0].FillReported? && events[1].FillReported? && events[2].Traded?
    && var maker, taker, trade := events[0], events[1], events[2];
    && trade.price == Px(o) && WithinLimit(t, trade.price) && 0 < trade.quantity <= o.quantity - o.cumQty
    && trade.tradeId == tradeId
    && (if t.side == Buy then trade.buyId == t.id && trade.sellId == o.terms.id && trade.aggressor == Some(Buy)
        else trade.buyId == o.terms.id && trade.sellId == t.id && trade.aggressor == Some(Sell))
    && maker.orderId == o.terms.id && maker.liquidity == Added
    && maker.counterparty == t.id && maker.counterpartyMpid == t.mpid
    && maker.cumQty == o.cumQty + trade.quantity && maker.orderQty == o.quantity
    && maker.notional == o.notional + trade.price * trade.quantity
    && taker.orderId == t.id && taker.liquidity == Removed
    && taker.counterparty == o.terms.id && taker.counterpartyMpid == o.terms.mpid
    && taker.cumQty == inc.cumQty + trade.quantity && taker.orderQty == inc.quantity
    && SameFill(maker, trade) && SameFill(taker, trade)
  }

  predicate SameFill(report: Event, trade: Event)
    requires report.FillReported? && trade.Traded?
  {
    && report.quantity == trade.quantity && report.price == trade.price && report.tradeId == trade.tradeId
    && report.leavesQty == report.orderQty - report.cumQty
  }

  function CancelledFor(id: nat): Event {
    OrderCancelled(id, SelfTradePrevention)
  }

  // An own order: whatever became of either order is told, and nothing else.
  predicate OwnReported(mode: StpMode, t: Terms, o: OrderView, after: OrderView, stopped: bool, events: seq<Event>) {
    events ==
      (if after.status == Cancelled then [CancelledFor(o.terms.id)]
       else if after != o then [Decremented(o.terms.id, o.quantity - after.quantity)] else []) +
      (if stopped then [CancelledFor(t.id)]
       else if Asks(mode, t, Decrement) then [Decremented(t.id, o.quantity - o.cumQty)] else [])
  }

  // One order's part of the reports, where the incoming order meets it.
  ghost predicate Piece(mode: StpMode, inc: OrderView, o: OrderView, after: OrderView, stopped: bool,
                        events: seq<Event>, tradeId: int) {
    if Own(mode, inc.terms, o.terms) then OwnReported(mode, inc.terms, o, after, stopped, events)
    else TradeReported(mode, inc, o, events, tradeId) && !stopped
  }

  // The open quantity of the own orders, or of the others, among the first n.
  function OpenAmong(mode: StpMode, t: Terms, q: seq<OrderView>, n: nat, own: bool): int
    requires n <= |q|
  {
    if n == 0 then 0
    else (if Own(mode, t, q[0].terms) == own then Leaves(q[0]) else 0) + OpenAmong(mode, t, q[1..], n - 1, own)
  }

  // The incoming order behind the first n: it has executed what others had open, and been
  // decremented by what its own had.
  function Behind(mode: StpMode, inc: OrderView, q: seq<OrderView>, n: nat): OrderView
    requires n <= |q|
  {
    inc.(cumQty := inc.cumQty + OpenAmong(mode, inc.terms, q, n, false),
         quantity := inc.quantity - if Asks(mode, inc.terms, Decrement) then OpenAmong(mode, inc.terms, q, n, true) else 0)
  }

  function Flatten(pieces: seq<seq<Event>>): seq<Event> {
    if pieces == [] then [] else pieces[0] + Flatten(pieces[1..])
  }

  // How many of the first n orders are others'.
  function OthersAmong(mode: StpMode, t: Terms, q: seq<OrderView>, n: nat): nat
    requires n <= |q|
  {
    if n == 0 then 0 else (if Own(mode, t, q[0].terms) then 0 else 1) + OthersAmong(mode, t, q[1..], n - 1)
  }

  function After(w: Walk, i: nat): OrderView
    requires i < |w.done| || (i == |w.done| && w.rest != [])
  {
    if i < |w.done| then w.done[i] else w.rest[0]
  }

  predicate SameAmounts(a: OrderView, b: OrderView) {
    a.terms == b.terms && a.cumQty == b.cumQty && a.quantity == b.quantity
  }

  // The i-th piece is about the i-th order.
  ghost predicate PieceAt(mode: StpMode, inc: OrderView, q: seq<OrderView>, w: Walk, pieces: seq<seq<Event>>, tradeId: nat,
                          i: nat)
    requires i < |pieces| <= |q| == |w.done| + |w.rest| && |pieces| <= |w.done| + 1
  {
    var stopped := i == |pieces| - 1 && w.incoming.status == Cancelled;
    Piece(mode, Behind(mode, inc, q, i), q[i], After(w, i), stopped, pieces[i],
          tradeId + OthersAmong(mode, inc.terms, q, i))
  }

  // The reports are a piece for each order reached, in the order of the queue, and only
  // trades take numbers.
  ghost predicate InPieces(mode: StpMode, inc: OrderView, q: seq<OrderView>, w: Walk, pieces: seq<seq<Event>>,
                           tradeId: nat) {
    var k, d := |pieces|, |w.done|;
    && d <= k <= |q| == d + |w.rest| && k <= d + 1 && Flatten(pieces) == w.events
    && (k == d && w.rest != [] ==> w.rest[0] == q[d])
    && (forall i :: 0 <= i < k ==> PieceAt(mode, inc, q, w, pieces, tradeId, i))
    && w.nextTrade == tradeId + OthersAmong(mode, inc.terms, q, k)
    && (w.incoming.status != Cancelled && k == d ==> SameAmounts(w.incoming, Behind(mode, inc, q, d)))
  }

  // The incoming order behind one more.
  function Past(mode: StpMode, inc: OrderView, o: OrderView): OrderView {
    if !Own(mode, inc.terms, o.terms) then inc.(cumQty := inc.cumQty + Leaves(o))
    else if Asks(mode, inc.terms, Decrement) then inc.(quantity := inc.quantity - Leaves(o))
    else inc
  }

  lemma BehindOn(mode: StpMode, inc: OrderView, next: OrderView, q: seq<OrderView>, n: nat)
    requires q != [] && 0 < n <= |q| && SameAmounts(next, Past(mode, inc, q[0]))
    ensures SameAmounts(Behind(mode, inc, q, n), Behind(mode, next, q[1..], n - 1))
  {
  }

  lemma BehindNone(mode: StpMode, inc: OrderView, q: seq<OrderView>)
    ensures Behind(mode, inc, q, 0) == inc
  {
  }

  lemma PieceSame(mode: StpMode, a: OrderView, b: OrderView, o: OrderView, after: OrderView, stopped: bool,
                  events: seq<Event>, tradeId: int)
    requires SameAmounts(a, b) && Piece(mode, a, o, after, stopped, events, tradeId)
    ensures Piece(mode, b, o, after, stopped, events, tradeId)
  {
  }

  lemma MeetingPiece(mode: StpMode, inc: OrderView, o: OrderView, nextTrade: nat)
    requires Leaves(inc) > 0 && Leaves(o) > 0 && Crosses(inc.terms, Px(o))
    ensures var m := Meet(mode, inc, o);
      var stopped := m.incoming.status == Cancelled;
      && Piece(mode, inc, o, m.resting, stopped, MeetEvents(mode, inc, o, m, nextTrade), nextTrade)
      && (m.gone && !m.stop ==> !stopped)
      && (m.traded > 0 <==> !Own(mode, inc.terms, o.terms))
      && (m.gone && !stopped ==> SameAmounts(m.incoming, Past(mode, inc, o)))
  {
    OwnIsSelfTrade(mode, inc.terms, o.terms);
    AskedMode(mode, inc.terms);
    LimitIsCross(inc.terms, Px(o));
  }

  lemma OnePiece(mode: StpMode, inc: OrderView, q: seq<OrderView>, nextTrade: nat, m: Meeting, w: Walk)
    requires Leaves(inc) > 0 && q != [] && Leaves(q[0]) > 0 && Crosses(inc.terms, Px(q[0]))
    requires m == Meet(mode, inc, q[0]) && (m.stop || !m.gone) && w.incoming == m.incoming
    requires w.done == (if m.gone then [m.resting] else []) && w.rest == (if m.gone then [] else [m.resting]) + q[1..]
    requires w.events == MeetEvents(mode, inc, q[0], m, nextTrade)
    requires w.nextTrade == if m.traded > 0 then nextTrade + 1 else nextTrade
    ensures InPieces(mode, inc, q, w, [w.events], nextTrade)
  {
    MeetingPiece(mode, inc, q[0], nextTrade);
    assert Flatten([w.events]) == w.events + [] == w.events;
    assert OthersAmong(mode, inc.terms, q[1..], 0) == 0;
    assert After(w, 0) == m.resting;
    BehindNone(mode, inc, q);
    if m.gone {
      BehindNone(mode, m.incoming, q[1..]);
      assert m.incoming.status == Cancelled || SameAmounts(m.incoming, Past(mode, inc, q[0]));
      if m.incoming.status != Cancelled {
        BehindOn(mode, inc, m.incoming, q, 1);
      }
    }
  }

  lemma PieceFurther(mode: StpMode, inc: OrderView, mid: OrderView, q: seq<OrderView>, rest: Walk,
                     pieces: seq<seq<Event>>, next: nat, w: Walk, all: seq<seq<Event>>, tradeId: nat, i: nat)
    requires 0 < i < |all| == |pieces| + 1 <= |q| && |q| == |w.done| + |w.rest| && |all| <= |w.done| + 1
    requires w.done != [] && w.done[1..] == rest.done && w.rest == rest.rest && w.incoming == rest.incoming
    requires all[1..] == pieces && next == tradeId + OthersAmong(mode, inc.terms, q, 1)
    requires SameAmounts(mid, Past(mode, inc, q[0])) && PieceAt(mode, mid, q[1..], rest, pieces, next, i - 1)
    ensures PieceAt(mode, inc, q, w, all, tradeId, i)
  {
    var t := inc.terms;
    assert all[i] == pieces[i - 1] && After(w, i) == After(rest, i - 1) && q[i] == q[1..][i - 1];
    assert OthersAmong(mode, t, q[1..], 0) == 0;
    BehindOn(mode, inc, mid, q, i);
    PieceSame(mode, Behind(mode, mid, q[1..], i - 1), Behind(mode, inc, q, i), q[i], After(w, i),
              i == |all| - 1 && w.incoming.status == Cancelled, all[i], tradeId + OthersAmong(mode, t, q, i));
  }

  lemma PiecesOn(mode: StpMode, inc: OrderView, mid: OrderView, q: seq<OrderView>, d: OrderView, first: seq<Event>,
                 rest: Walk, pieces: seq<seq<Event>>, tradeId: nat, next: nat, w: Walk)
    requires q != [] && SameAmounts(mid, Past(mode, inc, q[0])) && InPieces(mode, mid, q[1..], rest, pieces, next)
    requires Piece(mode, inc, q[0], d, false, first, tradeId)
    requires next == if Own(mode, inc.terms, q[0].terms) then tradeId else tradeId + 1
    requires w == Walk(rest.incoming, [d] + rest.done, rest.rest, first + rest.events, rest.nextTrade)
    requires pieces == [] ==> rest.incoming.status != Cancelled
    ensures InPieces(mode, inc, q, w, [first] + pieces, tradeId)
  {
    var all, k := [first] + pieces, |pieces| + 1;
    assert all[1..] == pieces && w.done[1..] == rest.done;
    assert OthersAmong(mode, inc.terms, q[1..], 0) == 0;
    BehindNone(mode, inc, q);
    BehindOn(mode, inc, mid, q, |w.done|);
    forall i | 0 <= i < k ensures PieceAt(mode, inc, q, w, all, tradeId, i) {
      if i == 0 {
        assert After(w, 0) == d && all[0] == first;
      } else {
        PieceFurther(mode, inc, mid, q, rest, pieces, next, w, all, tradeId, i);
      }
    }
  }

  lemma ReportsOn(mode: StpMode, inc: OrderView, q: seq<OrderView>, nextTrade: nat, m: Meeting, first: seq<Event>,
                  next: nat, rest: Walk, pieces: seq<seq<Event>>)
    requires AllOpen(q) && Leaves(inc) > 0 && Meets(inc.terms, q)
    requires m == Meet(mode, inc, q[0]) && m.gone && !m.stop && first == MeetEvents(mode, inc, q[0], m, nextTrade)
    requires next == (if m.traded > 0 then nextTrade + 1 else nextTrade) && rest == MatchWalk(mode, m.incoming, q[1..], next)
    requires InPieces(mode, m.incoming, q[1..], rest, pieces, next) && (pieces == [] ==> rest.incoming == m.incoming)
    ensures InPieces(mode, inc, q, MatchWalk(mode, inc, q, nextTrade), [first] + pieces, nextTrade)
  {
    MeetingPiece(mode, inc, q[0], nextTrade);
    WalkOn(mode, inc, q, nextTrade, m, first, next, rest);
    PiecesOn(mode, inc, m.incoming, q, m.resting, first, rest, pieces, nextTrade, next, MatchWalk(mode, inc, q, nextTrade));
  }

  // Whatever matching does is reported in full, order by order; nobody trades with himself.
  lemma {:induction false} WalkReports(mode: StpMode, inc: OrderView, q: seq<OrderView>, nextTrade: nat)
    returns (pieces: seq<seq<Event>>)
    requires AllOpen(q) && inc.status != Cancelled
    ensures InPieces(mode, inc, q, MatchWalk(mode, inc, q, nextTrade), pieces, nextTrade)
    ensures pieces == [] ==> MatchWalk(mode, inc, q, nextTrade).incoming == inc
    decreases |q|
  {
    pieces := [];
    if Leaves(inc) == 0 || !Meets(inc.terms, q) {
      NoneReported(mode, inc, q, nextTrade);
    } else {
      var m := Meet(mode, inc, q[0]);
      var first := MeetEvents(mode, inc, q[0], m, nextTrade);
      var next: nat := if m.traded > 0 then nextTrade + 1 else nextTrade;
      if m.gone && !m.stop {
        MeetingPiece(mode, inc, q[0], nextTrade);
        pieces := WalkReports(mode, m.incoming, q[1..], next);
        ReportsOn(mode, inc, q, nextTrade, m, first, next, MatchWalk(mode, m.incoming, q[1..], next), pieces);
      } else {
        LastReported(mode, inc, q, nextTrade, m, first, next);
      }
      pieces := [first] + pieces;
    }
  }

  lemma NoneReported(mode: StpMode, inc: OrderView, q: seq<OrderView>, nextTrade: nat)
    requires AllOpen(q) && (Leaves(inc) == 0 || !Meets(inc.terms, q))
    ensures MatchWalk(mode, inc, q, nextTrade).incoming == inc
    ensures InPieces(mode, inc, q, MatchWalk(mode, inc, q, nextTrade), [], nextTrade)
  {
    BehindNone(mode, inc, q);
  }

  lemma LastReported(mode: StpMode, inc: OrderView, q: seq<OrderView>, nextTrade: nat, m: Meeting, first: seq<Event>,
                     next: nat)
    requires AllOpen(q) && Leaves(inc) > 0 && Meets(inc.terms, q)
    requires m == Meet(mode, inc, q[0]) && (m.stop || !m.gone) && first == MeetEvents(mode, inc, q[0], m, nextTrade)
    requires next == if m.traded > 0 then nextTrade + 1 else nextTrade
    ensures InPieces(mode, inc, q, MatchWalk(mode, inc, q, nextTrade), [first] + [], nextTrade)
  {
    OnePiece(mode, inc, q, nextTrade, m, MatchWalk(mode, inc, q, nextTrade));
    assert [first] + [] == [first];
  }
}
