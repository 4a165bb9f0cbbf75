// Entering, cancelling and amending orders, on values: what MatchingEngine and
// Market do to one instrument's book (exchangesim/core/matching.py, market.py).
module BookRules {
  import opened Options
  import opened Orders
  import opened PriceLevels
  import opened Matching

  // One side: priceless orders in arrival order, limit orders in priority order.
  datatype SideView = SideView(market: seq<OrderView>, queue: seq<OrderView>)

  datatype BookView = BookView(bids: SideView, asks: SideView)

  function SideOf(b: BookView, isBuy: bool): SideView {
    if isBuy then b.bids else b.asks
  }

  function WithSide(b: BookView, isBuy: bool, s: SideView): BookView {
    if isBuy then b.(bids := s) else b.(asks := s)
  }

  function Add(b: BookView, o: OrderView): BookView {
    var isBuy := IsBuy(o.terms);
    var s := SideOf(b, isBuy);
    WithSide(b, isBuy,
             if o.terms.price.None? then s.(market := s.market + [o])
             else s.(queue := Insert(isBuy, s.queue, o)))
  }

  function Without(q: seq<OrderView>, id: nat): (r: seq<OrderView>)
    ensures |r| <= |q|
  {
    if q == [] then []
    else if q[0].terms.id == id then q[1..]
    else [q[0]] + Without(q[1..], id)
  }

  predicate Contains(q: seq<OrderView>, id: nat) {
    exists i :: 0 <= i < |q| && q[i].terms.id == id
  }

  function Remove(b: BookView, t: Terms): BookView {
    var isBuy := IsBuy(t);
    var s := SideOf(b, isBuy);
    WithSide(b, isBuy,
             if t.price.None? then s.(market := Without(s.market, t.id))
             else s.(queue := Without(s.queue, t.id)))
  }

  predicate Rests(b: BookView, t: Terms) {
    var s := SideOf(b, IsBuy(t));
    if t.price.None? then Contains(s.market, t.id) else Contains(s.queue, t.id)
  }

  // ---- entry ------------------------------------------------------------------

  datatype Rules = Rules(mode: StpMode, ackOnEntry: bool)

  // `order` is the entered order afterwards; `rests` whether it is on the book;
  // `done` the resting orders it used up.
  datatype Entry = Entry(book: BookView, order: OrderView, rests: bool, done: seq<OrderView>,
                         events: seq<Event>, nextTrade: nat)

  predicate WouldCross(opposite: SideView, t: Terms) {
    if t.price.None? then opposite.queue != [] || opposite.market != []
    else Meets(t, opposite.queue)
  }

  // The pre-check's count stops as soon as it covers the order.
  function ExecutableFrom(mode: StpMode, o: OrderView, q: seq<OrderView>, available: int): int
    decreases |q|
  {
    if !Meets(o.terms, q) then available
    else if SelfTrade(mode, o.terms, q[0].terms) then ExecutableFrom(mode, o, q[1..], available)
    else if available + Leaves(q[0]) >= o.quantity then available + Leaves(q[0])
    else ExecutableFrom(mode, o, q[1..], available + Leaves(q[0]))
  }

  // The reason an all-or-nothing pre-check refuses the order, if it does.
  function Refusal(mode: StpMode, o: OrderView, q: seq<OrderView>): Option<CancelReason> {
    if o.terms.tif == Fok then
      if ExecutableFrom(mode, o, q, 0) < o.quantity then Some(FokUnfilled) else None
    else if o.terms.tif == Ioc && o.terms.minQty != 0 then
      if ExecutableFrom(mode, o, q, 0) < o.terms.minQty then Some(MinQtyUnmet) else None
    else None
  }

  function Rested(o: OrderView): OrderView {
    o.(status := if o.cumQty > 0 then PartiallyFilled else New)
  }

  function Rest(b: BookView, o: OrderView, acknowledged: bool, done: seq<OrderView>,
                events: seq<Event>, nextTrade: nat): Entry
  {
    var r := Rested(o);
    Entry(Add(b, r), r, true, done,
          events + if o.cumQty > 0 || acknowledged then [] else [AcceptedReport(r)], nextTrade)
  }

  // What becomes of the order once matching is over.
  ghost function Settle(b: BookView, w: Walk, acknowledged: bool, events: seq<Event>): Entry {
    var o := w.incoming;
    if Leaves(o) > 0 then
      if o.terms.orderType == Market then
        Entry(b, WithCancel(o), false, w.done, events + [OrderCancelled(o.terms.id, MarketRemainder)], w.nextTrade)
      else if Immediate(o.terms) then
        Entry(b, WithCancel(o), false, w.done, events + [OrderCancelled(o.terms.id, IocRemainder)], w.nextTrade)
      else Rest(b, o, acknowledged, w.done, events, w.nextTrade)
    else
      Entry(b, if Terminal(o.status) then o else o.(status := Filled), false, w.done, events, w.nextTrade)
  }

  ghost predicate OpenBook(b: BookView) {
    AllOpen(b.bids.queue) && AllOpen(b.asks.queue)
  }

  function Acknowledged(rules: Rules, o: OrderView): OrderView {
    if rules.ackOnEntry then o.(status := New) else o
  }

  function Acknowledgement(rules: Rules, o: OrderView): seq<Event> {
    if rules.ackOnEntry then [AcceptedReport(Acknowledged(rules, o))] else []
  }

  ghost function EnterAndMatch(rules: Rules, b: BookView, o: OrderView, events: seq<Event>, nextTrade: nat): Entry
    requires OpenBook(b)
  {
    var isBuy := IsBuy(o.terms);
    var opposite := SideOf(b, !isBuy);
    var refusal := Refusal(rules.mode, o, opposite.queue);
    if refusal.Some? then
      Entry(b, WithCancel(o), false, [], events + [OrderCancelled(o.terms.id, refusal.value)], nextTrade)
    else
      var w := MatchWalk(rules.mode, o, opposite.queue, nextTrade);
      Settle(WithSide(b, !isBuy, opposite.(queue := w.rest)), w, rules.ackOnEntry, events + w.events)
  }

  predicate PostOnlyRefused(b: BookView, t: Terms) {
    t.postOnly && WouldCross(SideOf(b, !IsBuy(t)), t)
  }

  ghost function Submit(rules: Rules, b: BookView, o: OrderView, allowMatching: bool, nextTrade: nat): Entry
    requires OpenBook(b)
  {
    if PostOnlyRefused(b, o.terms) then
      Entry(b, o.(status := Rejected), false, [], [PostOnlyRejected(o.terms.id)], nextTrade)
    else
      var a, events := Acknowledged(rules, o), Acknowledgement(rules, o);
      if !allowMatching then Rest(b, a, rules.ackOnEntry, [], events, nextTrade)
      else EnterAndMatch(rules, b, a, events, nextTrade)
  }

  // ---- amendment ----------------------------------------------------------------

  function Amended(o: OrderView, newQuantity: Option<int>, newPrice: Option<int>): OrderView {
    o.(quantity := if newQuantity.Some? then newQuantity.value else o.quantity,
       terms := o.terms.(price := if newPrice.Some? then newPrice else o.terms.price))
  }

  predicate LosesPriority(o: OrderView, a: OrderView) {
    a.terms.price != o.terms.price || a.quantity > o.quantity
  }

  function InsertBySequence(s: seq<OrderView>, o: OrderView): seq<OrderView> {
    if s == [] then [o]
    else if s[|s| - 1].terms.sequence <= o.terms.sequence then s + [o]
    else InsertBySequence(s[..|s| - 1], o) + [s[|s| - 1]]
  }

  // Python's sorted(): a stable sort by sequence.
  function SortBySequence(s: seq<OrderView>): seq<OrderView> {
    if s == [] then [] else InsertBySequence(SortBySequence(s[..|s| - 1]), s[|s| - 1])
  }

  // The number of orders strictly ahead of price p.
  function Ahead(isBuy: bool, q: seq<OrderView>, p: int): (k: nat)
    ensures k <= |q|
    ensures forall i :: 0 <= i < k ==> Better(isBuy, Px(q[i]), p)
    ensures k < |q| ==> !Better(isBuy, Px(q[k]), p)
  {
    if q == [] || !Better(isBuy, Px(q[0]), p) then 0 else 1 + Ahead(isBuy, q[1..], p)
  }

  lemma {:induction false} AheadIsBeforePlace(isBuy: bool, q: seq<OrderView>, p: int)
    ensures Ahead(isBuy, q, p) <= Place(isBuy, q, p)
  {
    if q != [] {
      AheadIsBeforePlace(isBuy, q[1..], p);
    }
  }

  // v is f orders better than p, then l orders at p, then worse ones.
  ghost predicate SpannedAt(isBuy: bool, v: seq<OrderView>, p: int, f: nat, l: nat) {
    && f + l <= |v|
    && (forall i :: 0 <= i < f ==> Better(isBuy, Px(v[i]), p))
    && (forall i :: f <= i < f + l ==> Px(v[i]) == p)
    && (forall i :: f + l <= i < |v| ==> Better(isBuy, p, Px(v[i])))
  }

  lemma {:induction false} SpanPlaces(isBuy: bool, v: seq<OrderView>, p: int, f: nat, l: nat)
    requires SpannedAt(isBuy, v, p, f, l)
    ensures Place(isBuy, v, p) == f + l && Ahead(isBuy, v, p) == f
    decreases |v|
  {
    if f > 0 {
      SpanPlaces(isBuy, v[1..], p, f - 1, l);
    } else if l > 0 {
      SpanPlaces(isBuy, v[1..], p, 0, l - 1);
    }
  }

  // Put an order back where its sequence number places it among the orders at
  // its price, which re-sorts that whole level.
  function Requeue(isBuy: bool, q: seq<OrderView>, o: OrderView): seq<OrderView> {
    AheadIsBeforePlace(isBuy, q, Px(o));
    var i, j := Ahead(isBuy, q, Px(o)), Place(isBuy, q, Px(o));
    q[..i] + SortBySequence(q[i..j] + [o]) + q[j..]
  }

  lemma RequeueSpan(isBuy: bool, q: seq<OrderView>, o: OrderView, i: nat, n: nat)
    requires SpannedAt(isBuy, q, Px(o), i, n)
    ensures Requeue(isBuy, q, o) == q[..i] + SortBySequence(q[i..i + n] + [o]) + q[i + n..]
  {
    SpanPlaces(isBuy, q, Px(o), i, n);
  }

  function Reinsert(b: BookView, o: OrderView): BookView {
    var isBuy := IsBuy(o.terms);
    var s := SideOf(b, isBuy);
    WithSide(b, isBuy,
             if o.terms.price.None? then s.(market := SortBySequence(s.market + [o]))
             else s.(queue := Requeue(isBuy, s.queue, o)))
  }

  // MatchingEngine.amend: the book and the order afterwards.
  function AmendBook(b: BookView, o: OrderView, newQuantity: Option<int>, newPrice: Option<int>): BookView {
    var a := Amended(o, newQuantity, newPrice);
    var removed := Remove(b, o.terms);
    if Leaves(a) == 0 then removed
    else if Rests(b, o.terms) && !LosesPriority(o, a) then Reinsert(removed, a)
    else if Rests(b, o.terms) || LiveStatus(a.status) then Add(removed, a)
    else removed
  }
}
