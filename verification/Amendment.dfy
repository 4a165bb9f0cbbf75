// Putting an amended order back at its place in the queue
// (MatchingEngine._reinsert_keeping_priority, exchangesim/core/matching.py).
module Amendment {
  import opened Options
  import opened Orders
  import opened PriceLevels
  import opened Matching
  import opened BookRules
  import opened Book

  function PlaceBySequence(s: seq<Order>, o: Order): (r: seq<Order>)
    ensures forall i :: 0 <= i < |r| ==> r[i] in s || r[i] == o
    ensures o in r && forall i :: 0 <= i < |s| ==> s[i] in r
  {
    if s == [] then [o]
    else if s[|s| - 1].sequence <= o.sequence then s + [o]
    else PlaceBySequence(s[..|s| - 1], o) + [s[|s| - 1]]
  }

  // Python's sorted(): stable, by entry sequence.
  function SortedOrders(s: seq<Order>): (r: seq<Order>)
    ensures forall i :: 0 <= i < |r| ==> r[i] in s
    ensures forall i :: 0 <= i < |s| ==> s[i] in r
  {
    if s == [] then [] else PlaceBySequence(SortedOrders(s[..|s| - 1]), s[|s| - 1])
  }

  lemma {:induction false} PlacedViews(s: seq<Order>, o: Order)
    ensures Views(PlaceBySequence(s, o)) == InsertBySequence(Views(s), o.View())
  {
    if s != [] {
      PlacedViews(s[..|s| - 1], o);
      assert Views(s)[..|s| - 1] == Views(s[..|s| - 1]);
    }
  }

  lemma {:induction false} SortedViews(s: seq<Order>)
    ensures Views(SortedOrders(s)) == SortBySequence(Views(s))
  {
    if s != [] {
      SortedViews(s[..|s| - 1]);
      PlacedViews(SortedOrders(s[..|s| - 1]), s[|s| - 1]);
      assert Views(s)[..|s| - 1] == Views(s[..|s| - 1]);
    }
  }

  lemma {:induction false} PlacedDistinct(s: seq<Order>, o: Order)
    requires DistinctIds(s) && forall i :: 0 <= i < |s| ==> s[i].id != o.id
    ensures DistinctIds(PlaceBySequence(s, o))
  {
    if s != [] && s[|s| - 1].sequence > o.sequence {
      PlacedDistinct(s[..|s| - 1], o);
    }
  }

  lemma {:induction false} SortedDistinct(s: seq<Order>)
    requires DistinctIds(s)
    ensures DistinctIds(SortedOrders(s))
  {
    if s != [] {
      SortedDistinct(s[..|s| - 1]);
      PlacedDistinct(SortedOrders(s[..|s| - 1]), s[|s| - 1]);
    }
  }

  // The list of a side that holds orders at this price, and the other one.
  ghost function ListFor(side: BookSide, p: Option<int>): seq<Order>
    reads side
  {
    if p.Some? then side.queue else side.atMarket
  }

  ghost function ListBeside(side: BookSide, p: Option<int>): seq<Order>
    reads side
  {
    if p.Some? then side.atMarket else side.queue
  }

  lemma DropNext(side: BookSide, p: Option<int>, f: seq<Order>, l: seq<Order>, b: seq<Order>)
    requires side.Valid() && l != [] && ListFor(side, p) == f + l + b
    ensures Drop(f + l + b, l[0].id) == f + l[1..] + b
    ensures l[0] in side.Members() && OnSide(side.isBuy, l[0])
  {
    DistinctParts(side.atMarket, side.queue);
    assert l[0] in f + l + b;
    OthersDiffer(f, l, b, l[0]);
    DropMiddle(f, l, b, l[0].id);
  }

  lemma NothingBetween<T>(f: seq<T>, m: seq<T>, b: seq<T>)
    requires m == []
    ensures f + m + b == f + b
  {
  }

  // The two lists of a side, as order objects.
  ghost predicate Holds(side: BookSide, p: Option<int>, list: seq<Order>, beside: seq<Order>)
    reads side, side.atMarket`price, side.queue`price
  {
    side.Valid() && ListFor(side, p) == list && ListBeside(side, p) == beside
  }

  function Tail<T>(s: seq<T>): (r: seq<T>)
    requires s != []
    ensures |r| == |s| - 1 && forall i :: 0 <= i < |r| ==> r[i] == s[i + 1]
  {
    s[1..]
  }

  method RemoveNext(side: BookSide, order: Order, ghost f: seq<Order>, ghost l: seq<Order>, ghost b: seq<Order>,
                    ghost beside: seq<Order>)
    requires l != [] && order == l[0] && Holds(side, order.price, f + l + b, beside)
    modifies side`prices, side`levels, side`queue, side`atMarket
    ensures Holds(side, order.price, f + Tail(l) + b, beside)
  {
    DropNext(side, order.price, f, l, b);
    side.UniqueMember(order);
    var found := side.Remove(order);
  }

  method RemoveAt(side: BookSide, level: seq<Order>, i: nat, ghost p: Option<int>, ghost f: seq<Order>, ghost b: seq<Order>,
                  ghost beside: seq<Order>)
    requires i < |level| && level[i].price == p && Holds(side, p, f + level[i..] + b, beside)
    modifies side`prices, side`levels, side`queue, side`atMarket
    ensures Holds(side, p, f + level[i + 1..] + b, beside)
  {
    TakeOne([], level, i);
    RemoveNext(side, level[i], f, level[i..], b, beside);
  }

  // Takes a run of orders at one price off the book, one by one.
  method RemoveEach(side: BookSide, level: seq<Order>, p: Option<int>, ghost f: seq<Order>, ghost b: seq<Order>,
                    ghost beside: seq<Order>)
    requires Holds(side, p, f + level + b, beside) && forall i :: 0 <= i < |level| ==> level[i].price == p
    modifies side`prices, side`levels, side`queue, side`atMarket
    ensures Holds(side, p, f + b, beside)
  {
    Whole([], level);
    for i := 0 to |level|
      invariant Holds(side, p, f + level[i..] + b, beside)
    {
      RemoveAt(side, level, i, p, f, b, beside);
    }
    NothingBetween(f, level[|level|..], b);
  }

  // The list at this price in front of the given orders and behind them.
  ghost predicate Between(isBuy: bool, p: Option<int>, f: seq<OrderView>, b: seq<OrderView>) {
    match p
    case None => b == []
    case Some(x) =>
      && (forall i :: 0 <= i < |f| ==> !Better(isBuy, x, Px(f[i])))
      && (forall i :: 0 <= i < |b| ==> Better(isBuy, x, Px(b[i])))
  }

  lemma {:induction false} PlaceBetween(isBuy: bool, x: int, f: seq<OrderView>, b: seq<OrderView>)
    requires Between(isBuy, Some(x), f, b)
    ensures Place(isBuy, f + b, x) == |f|
    decreases |f|
  {
    if f == [] {
      assert f + b == b;
    } else {
      assert (f + b)[1..] == f[1..] + b;
      PlaceBetween(isBuy, x, f[1..], b);
    }
  }

  lemma JoinsBetween(isBuy: bool, p: Option<int>, f: seq<OrderView>, l: seq<OrderView>, b: seq<OrderView>, o: OrderView)
    requires Between(isBuy, p, f, b) && o.terms.price == p
    requires forall i :: 0 <= i < |l| ==> l[i].terms.price == p
    ensures (if p.Some? then Insert(isBuy, f + l + b, o) else f + l + b + [o]) == f + (l + [o]) + b
  {
    if p.Some? {
      PlaceBetween(isBuy, p.value, f + l, b);
      var q, k := f + l + b, |f + l|;
      assert q[..k] == f + l && q[k..] == b;
    }
  }

  predicate SameOrders(a: seq<Order>, b: seq<Order>) {
    (forall i :: 0 <= i < |a| ==> a[i] in b) && (forall i :: 0 <= i < |b| ==> b[i] in a)
  }

  lemma SameOrdersAbsent(a: seq<Order>, b: seq<Order>, order: Order)
    requires SameOrders(a, b) && Absent(b, order)
    ensures Absent(a, order)
  {
  }

  lemma JoinsHere(was: seq<Order>, here: seq<Order>, order: Order, now: seq<Order>)
    requires SameOrders(was, here) && Joined(was, order, now)
    ensures SameOrders(now, here + [order])
  {
    forall i | 0 <= i < |now| ensures now[i] in here + [order] {
      assert now[i] in was || now[i] == order;
    }
  }

  lemma SameOrdersJoined(was: seq<Order>, order: Order, now: seq<Order>)
    requires SameOrders(now, was + [order])
    ensures Joined(was, order, now)
  {
    assert (was + [order])[|was|] == order;
    assert forall i :: 0 <= i < |was| ==> (was + [order])[i] == was[i];
  }

  // Orders of one side and one price, not yet on the book.
  ghost predicate Waiting(side: BookSide, orders: seq<Order>, p: Option<int>, here: seq<Order>)
    reads orders
  {
    && (forall i :: 0 <= i < |orders| ==> OnSide(side.isBuy, orders[i]) && orders[i].price == p)
    && DistinctIds(here + orders)
  }

  lemma NextWaits(side: BookSide, orders: seq<Order>, rest: seq<Order>, p: Option<int>, here: seq<Order>, next: seq<Order>)
    requires Waiting(side, orders, p, here) && orders != []
    requires rest == Tail(orders) && next == here + [orders[0]]
    ensures Waiting(side, rest, p, next)
    ensures Absent(here, orders[0])
  {
    assert here + orders == next + rest;
    forall i | 0 <= i < |here| ensures here[i].id != orders[0].id {
      assert (here + orders)[i] == here[i] && (here + orders)[|here|] == orders[0];
    }
  }

  // The two lists of a side, as values, and who is on them.
  ghost predicate Lists(side: BookSide, p: Option<int>, list: seq<OrderView>, beside: seq<OrderView>, here: seq<Order>)
    reads side, side.atMarket, side.queue
  {
    && side.Valid() && Views(ListFor(side, p)) == list && Views(ListBeside(side, p)) == beside
    && SameOrders(side.Members(), here)
  }

  method AddNext(side: BookSide, order: Order, ghost p: Option<int>, ghost f: seq<OrderView>, ghost l: seq<OrderView>,
                 ghost longer: seq<OrderView>, ghost b: seq<OrderView>, ghost beside: seq<OrderView>,
                 ghost here: seq<Order>, ghost next: seq<Order>)
    requires Lists(side, p, f + l + b, beside, here) && Between(side.isBuy, p, f, b)
    requires OnSide(side.isBuy, order) && order.price == p && forall i :: 0 <= i < |l| ==> l[i].terms.price == p
    requires Absent(here, order) && longer == l + [order.View()] && next == here + [order]
    modifies side`prices, side`levels, side`queue, side`atMarket
    ensures Lists(side, p, f + longer + b, beside, next)
  {
    JoinsBetween(side.isBuy, p, f, l, b, order.View());
    ghost var members := side.Members();
    SameOrdersAbsent(members, here, order);
    side.Enter(order);
    JoinsHere(members, here, order, side.Members());
  }

  method AddAt(side: BookSide, orders: seq<Order>, i: nat, ghost p: Option<int>, ghost f: seq<OrderView>,
               ghost v: seq<OrderView>, ghost b: seq<OrderView>, ghost beside: seq<OrderView>, ghost here: seq<Order>)
    requires i < |orders| == |v| && forall k :: 0 <= k < |v| ==> v[k] == orders[k].View()
    requires Lists(side, p, f + v[..i] + b, beside, here + orders[..i]) && Between(side.isBuy, p, f, b)
    requires Waiting(side, orders[i..], p, here + orders[..i]) && forall k :: 0 <= k < |v| ==> v[k].terms.price == p
    modifies side`prices, side`levels, side`queue, side`atMarket
    ensures Lists(side, p, f + v[..i + 1] + b, beside, here + orders[..i + 1])
    ensures Waiting(side, orders[i + 1..], p, here + orders[..i + 1])
  {
    TakeOne(here, orders, i);
    TakeOne([], v, i);
    NextWaits(side, orders[i..], orders[i + 1..], p, here + orders[..i], here + orders[..i + 1]);
    AddNext(side, orders[i], p, f, v[..i], v[..i + 1], b, beside, here + orders[..i], here + orders[..i + 1]);
  }

  // Puts orders at one price on the book, one by one; v are their values.
  method AddEach(side: BookSide, orders: seq<Order>, ghost p: Option<int>, ghost f: seq<OrderView>,
                 ghost v: seq<OrderView>, ghost b: seq<OrderView>, ghost beside: seq<OrderView>, ghost here: seq<Order>)
    requires Show(orders, v)
    requires Lists(side, p, f + b, beside, here) && Between(side.isBuy, p, f, b)
    requires Waiting(side, orders, p, here)
    modifies side`prices, side`levels, side`queue, side`atMarket
    ensures Lists(side, p, f + v + b, beside, here + orders)
  {
    NothingBetween(f, v[..0], b);
    Whole(here, orders);
    for i := 0 to |orders|
      invariant forall k :: 0 <= k < |v| ==> v[k] == orders[k].View()
      invariant Lists(side, p, f + v[..i] + b, beside, here + orders[..i])
      invariant Waiting(side, orders[i..], p, here + orders[..i])
    {
      AddAt(side, orders, i, p, f, v, b, beside, here);
    }
    Whole([], v);
  }

  lemma Whole<T>(here: seq<T>, s: seq<T>)
    ensures s[0..] == s && here + s[..0] == here && s[..|s|] == s
  {
  }

  lemma TakeOne<T>(here: seq<T>, s: seq<T>, i: nat)
    requires i < |s|
    ensures s[i..] != [] && s[i..][0] == s[i] && Tail(s[i..]) == s[i + 1..]
    ensures s[..i + 1] == s[..i] + [s[i]] && (here + s[..i]) + [s[i]] == here + s[..i + 1]
  {
  }

  // The orders at a price, in arrival order.
  function LevelOf(side: BookSide, p: Option<int>): seq<Order>
    reads side
  {
    if p.None? then side.atMarket else LevelAt(side.levels, p.value)
  }

  // What lies around them.
  lemma LevelAround(side: BookSide, p: Option<int>) returns (f: seq<Order>, b: seq<Order>)
    requires side.Valid()
    ensures var level := LevelOf(side, p);
      && ListFor(side, p) == f + level + b && Between(side.isBuy, p, Views(f), Views(b))
      && (forall i :: 0 <= i < |level| ==> level[i].price == p && OnSide(side.isBuy, level[i]))
      && (p.Some? ==> SpannedAt(side.isBuy, Views(side.queue), p.value, |f|, |level|))
      && (p.None? ==> f == b == [])
  {
    side.QueueSorted();
    var level := LevelOf(side, p);
    if p.None? {
      f, b := [], [];
      NothingAround(level);
      assert forall i :: 0 <= i < |level| ==> level[i] in side.atMarket;
    } else {
      f, b := Around(side.isBuy, side.prices, side.levels, side.atMarket, side.queue, p.value);
      LevelPriced(side.levels, side.atMarket, side.queue, p.value);
      assert forall i :: 0 <= i < |level| ==> level[i] in level;
      SpanBetween(side.isBuy, f, level, b, p.value);
    }
  }

  lemma NothingAround<T>(s: seq<T>)
    ensures [] + s + [] == s
  {
  }

  lemma SpanBetween(isBuy: bool, f: seq<Order>, l: seq<Order>, b: seq<Order>, x: int)
    requires SpannedAt(isBuy, Views(f + l + b), x, |f|, |l|)
    ensures Between(isBuy, Some(x), Views(f), Views(b))
  {
    var q := f + l + b;
    forall i | 0 <= i < |f| ensures !Better(isBuy, x, Px(Views(f)[i])) {
      assert q[i] == f[i] && Better(isBuy, Px(Views(q)[i]), x);
    }
    forall i | 0 <= i < |b| ensures Better(isBuy, x, Px(Views(b)[i])) {
      assert q[|f| + |l| + i] == b[i] && Better(isBuy, x, Px(Views(q)[|f| + |l| + i]));
    }
  }

  lemma Slices<T>(q: seq<T>, f: seq<T>, l: seq<T>, b: seq<T>)
    requires q == f + l + b
    ensures q[..|f|] == f && q[|f|..|f| + |l|] == l && q[|f| + |l|..] == b
  {
  }

  lemma ThreeViews(f: seq<Order>, l: seq<Order>, b: seq<Order>)
    ensures Views(f + l + b) == Views(f) + Views(l) + Views(b)
  {
  }

  lemma RequeuedIs(isBuy: bool, q: seq<Order>, f: seq<Order>, l: seq<Order>, b: seq<Order>, order: Order)
    requires q == f + l + b && order.price.Some? && SpannedAt(isBuy, Views(q), order.price.value, |f|, |l|)
    ensures Requeue(isBuy, Views(q), order.View()) == Views(f) + Views(SortedOrders(l + [order])) + Views(b)
  {
    ThreeViews(f, l, b);
    SortedTogether(l, order);
    RequeueParts(isBuy, Views(q), Views(f), Views(l), Views(b), order.View());
  }

  lemma RequeueParts(isBuy: bool, v: seq<OrderView>, f: seq<OrderView>, l: seq<OrderView>, b: seq<OrderView>, o: OrderView)
    requires v == f + l + b && SpannedAt(isBuy, v, Px(o), |f|, |l|)
    ensures Requeue(isBuy, v, o) == f + SortBySequence(l + [o]) + b
  {
    Slices(v, f, l, b);
    RequeueSpan(isBuy, v, o, |f|, |l|);
  }

  lemma SortedTogether(l: seq<Order>, order: Order)
    ensures Views(SortedOrders(l + [order])) == SortBySequence(Views(l) + [order.View()])
  {
    SortedViews(l + [order]);
    assert Views(l + [order]) == Views(l) + [order.View()];
  }

  // Taking a run of orders out and putting it back with one more keeps ids distinct.
  lemma RunMoves(rest: seq<Order>, f: seq<Order>, l: seq<Order>, b: seq<Order>, order: Order)
    requires DistinctIds(rest + (f + l + b))
    requires Absent(rest + (f + l + b), order)
    ensures DistinctIds((rest + (f + b)) + SortedOrders(l + [order]))
  {
    DistinctSplit(rest, f + l + b);
    DistinctSplit(f + l, b);
    DistinctSplit(f, l);
    DistinctSplit(f, b);
    DistinctSplit(rest, f + b);
    AbsentConcat(rest, f + l + b, order);
    AbsentConcat(f + l, b, order);
    AbsentConcat(f, l, order);
    RunApart(rest + (f + b), l, order);
  }

  // A sorted run put behind orders it shares no id with.
  lemma RunApart(here: seq<Order>, l: seq<Order>, order: Order)
    requires DistinctIds(here) && DistinctIds(l) && ApartIds(here, l) && Absent(here, order) && Absent(l, order)
    ensures DistinctIds(here + SortedOrders(l + [order]))
  {
    var sorted := SortedOrders(l + [order]);
    assert l + [order] == l + [order] + [] && l + [] == l;
    DistinctInsert(l, [], order);
    SortedDistinct(l + [order]);
    forall o, x | o in here && x in sorted ensures o.id != x.id {
      var i :| 0 <= i < |here| && here[i] == o;
      var j :| 0 <= j < |sorted| && sorted[j] == x;
      assert sorted[j] in l + [order];
    }
    DistinctSplit(here, sorted);
  }

  lemma RunMembers(rest: seq<Order>, f: seq<Order>, l: seq<Order>, b: seq<Order>, order: Order)
    ensures SameOrders((rest + (f + b)) + SortedOrders(l + [order]), (rest + (f + l + b)) + [order])
  {
    var sorted := SortedOrders(l + [order]);
    forall o | o in sorted ensures o in l || o == order {
      assert o in l + [order];
    }
    forall o | o in l || o == order ensures o in sorted {
      assert o in l + [order];
    }
  }

  // The list at a price after an order is put back there by its entry sequence.
  function Reinserted(isBuy: bool, list: seq<OrderView>, o: OrderView): seq<OrderView> {
    if o.terms.price.Some? then Requeue(isBuy, list, o) else SortBySequence(list + [o])
  }

  lemma ReinsertedIs(isBuy: bool, list: seq<Order>, f: seq<Order>, l: seq<Order>, b: seq<Order>, order: Order)
    requires list == f + l + b
    requires order.price.Some? ==> SpannedAt(isBuy, Views(list), order.price.value, |f|, |l|)
    requires order.price.None? ==> f == b == []
    ensures Reinserted(isBuy, Views(list), order.View()) == Views(f) + Views(SortedOrders(l + [order])) + Views(b)
  {
    if order.price.Some? {
      RequeuedIs(isBuy, list, f, l, b, order);
    } else {
      assert list == l;
      SortedTogether(l, order);
    }
  }

  // Where the rest of a side stands while a run at one price is taken out.
  lemma RunLeaves(side: BookSide, p: Option<int>, f: seq<Order>, l: seq<Order>, b: seq<Order>, order: Order)
    requires side.Valid() && ListFor(side, p) == f + l + b && Absent(side.Members(), order)
    ensures var here := ListBeside(side, p) + (f + b);
      && DistinctIds(here + SortedOrders(l + [order]))
      && SameOrders(here + SortedOrders(l + [order]), side.Members() + [order])
  {
    var rest, list := ListBeside(side, p), f + l + b;
    DistinctSplit(rest, list);
    DistinctSplit(list, rest);
    AbsentConcat(rest, list, order);
    AbsentConcat(list, rest, order);
    RunMoves(rest, f, l, b, order);
    RunMembers(rest, f, l, b, order);
    SameOrdersSwap((rest + (f + b)) + SortedOrders(l + [order]), rest, list, order);
  }

  lemma SameOrdersSwap(a: seq<Order>, rest: seq<Order>, list: seq<Order>, order: Order)
    requires SameOrders(a, (rest + list) + [order])
    ensures SameOrders(a, (list + rest) + [order])
  {
    var b, c := (rest + list) + [order], (list + rest) + [order];
    forall i | 0 <= i < |c| ensures c[i] in a {
      assert c[i] in b;
      var j :| 0 <= j < |b| && b[j] == c[i];
    }
  }

  lemma ListsSame(side: BookSide, p: Option<int>, list: seq<OrderView>, beside: seq<OrderView>, here: seq<Order>, there: seq<Order>)
    requires Lists(side, p, list, beside, here) && SameOrders(here, there)
    ensures Lists(side, p, list, beside, there)
  {
  }

  predicate Show(s: seq<Order>, v: seq<OrderView>)
    reads s
  {
    |v| == |s| && forall i :: 0 <= i < |s| ==> v[i] == s[i].View()
  }

  lemma ShownAs(s: seq<Order>, v: seq<OrderView>)
    requires Show(s, v)
    ensures Views(s) == v
  {
  }

  // A side after its run of orders at one price has been taken off.
  lemma RunTaken(side: BookSide, p: Option<int>, f: seq<Order>, b: seq<Order>, beside: seq<Order>,
                 fv: seq<OrderView>, bv: seq<OrderView>, besideV: seq<OrderView>)
    requires Holds(side, p, f + b, beside) && Show(f, fv) && Show(b, bv) && Show(beside, besideV)
    ensures Lists(side, p, fv + bv, besideV, beside + (f + b))
  {
    ShownAs(f, fv);
    ShownAs(b, bv);
    ShownAs(beside, besideV);
    ThreeViews(f, [], b);
    NothingBetween(f, [], b);
    NothingBetween(fv, Views([]), bv);
  }

  lemma RunWaits(side: BookSide, orders: seq<Order>, l: seq<Order>, order: Order, here: seq<Order>)
    requires side.Valid() && OnSide(side.isBuy, order) && DistinctIds(here + orders) && orders == SortedOrders(l + [order])
    requires forall i :: 0 <= i < |l| ==> l[i].price == order.price && OnSide(side.isBuy, l[i])
    ensures Waiting(side, orders, order.price, here)
  {
  }

  // The level an order goes back to, sorted with the order itself.
  method PlanLevel(side: BookSide, order: Order)
      returns (level: seq<Order>, restored: seq<Order>, ghost f: seq<Order>, ghost b: seq<Order>)
    requires side.Valid() && OnSide(side.isBuy, order) && Absent(side.Members(), order)
    ensures ListFor(side, order.price) == f + level + b && Between(side.isBuy, order.price, Views(f), Views(b))
    ensures forall i :: 0 <= i < |level| ==> level[i].price == order.price
    ensures var here := ListBeside(side, order.price) + (f + b);
      Waiting(side, restored, order.price, here) && SameOrders(here + restored, side.Members() + [order])
    ensures Views(f) + Views(restored) + Views(b) ==
      Reinserted(side.isBuy, Views(ListFor(side, order.price)), order.View())
  {
    level := LevelOf(side, order.price);
    f, b := LevelAround(side, order.price);
    restored := SortedOrders(level + [order]);
    ReinsertedIs(side.isBuy, ListFor(side, order.price), f, level, b, order);
    RunLeaves(side, order.price, f, level, b, order);
    RunWaits(side, restored, level, order, ListBeside(side, order.price) + (f + b));
  }

  method TakeRun(side: BookSide, level: seq<Order>, p: Option<int>, ghost f: seq<Order>, ghost b: seq<Order>,
                 ghost beside: seq<Order>)
    requires Holds(side, p, f + level + b, beside) && forall i :: 0 <= i < |level| ==> level[i].price == p
    modifies side`prices, side`levels, side`queue, side`atMarket
    ensures Lists(side, p, old(Views(f)) + old(Views(b)), old(Views(beside)), beside + (f + b))
  {
    ghost var fv, bv, besideV := Views(f), Views(b), Views(beside);
    RemoveEach(side, level, p, f, b, beside);
    RunTaken(side, p, f, b, beside, fv, bv, besideV);
  }

  // Taking the run off changes nothing about the orders to be put back.
  method TakeRunBeside(side: BookSide, level: seq<Order>, p: Option<int>, ghost f: seq<Order>, ghost b: seq<Order>,
                       ghost beside: seq<Order>, ghost restored: seq<Order>, ghost v: seq<OrderView>)
    requires Holds(side, p, f + level + b, beside) && forall i :: 0 <= i < |level| ==> level[i].price == p
    requires Waiting(side, restored, p, beside + (f + b)) && Show(restored, v)
    modifies side`prices, side`levels, side`queue, side`atMarket
    ensures Lists(side, p, old(Views(f)) + old(Views(b)), old(Views(beside)), beside + (f + b))
    ensures Waiting(side, restored, p, beside + (f + b)) && Show(restored, v)
  {
    TakeRun(side, level, p, f, b, beside);
  }

  method TakeLevel(side: BookSide, order: Order)
      returns (restored: seq<Order>, ghost f: seq<OrderView>, ghost v: seq<OrderView>, ghost b: seq<OrderView>,
               ghost beside: seq<OrderView>, ghost here: seq<Order>)
    requires side.Valid() && OnSide(side.isBuy, order) && Absent(side.Members(), order)
    modifies side`prices, side`levels, side`queue, side`atMarket
    ensures Lists(side, order.price, f + b, beside, here) && Between(side.isBuy, order.price, f, b)
    ensures Waiting(side, restored, order.price, here) && Show(restored, v)
    ensures f + v + b == Reinserted(side.isBuy, old(Views(ListFor(side, order.price))), order.View())
    ensures beside == old(Views(ListBeside(side, order.price)))
    ensures SameOrders(here + restored, old(side.Members()) + [order])
  {
    ghost var others := ListBeside(side, order.price);
    var level;
    ghost var front, back;
    level, restored, front, back := PlanLevel(side, order);
    f, v, b, beside, here := Views(front), Views(restored), Views(back), Views(others), others + (front + back);
    TakeRunBeside(side, level, order.price, front, back, others, restored, v);
  }

  // Puts an order back among those at its price, which re-sorts them all by entry
  // sequence.
  method ReinsertKeepingPriority(side: BookSide, order: Order)
    requires side.Valid() && OnSide(side.isBuy, order) && Absent(side.Members(), order)
    modifies side`prices, side`levels, side`queue, side`atMarket
    ensures Lists(side, order.price, Reinserted(side.isBuy, old(Views(ListFor(side, order.price))), order.View()),
                  old(Views(ListBeside(side, order.price))), old(side.Members()) + [order])
  {
    ghost var members := side.Members() + [order];
    var restored;
    ghost var f, v, b, beside, here;
    restored, f, v, b, beside, here := TakeLevel(side, order);
    AddEach(side, restored, order.price, f, v, b, beside, here);
    ListsSame(side, order.price, f + v + b, beside, here + restored, members);
  }

  // The reinsertion, read as values.
  method ReturnTo(side: BookSide, order: Order)
    requires side.Valid() && OnSide(side.isBuy, order) && Absent(side.Members(), order)
    modifies side`prices, side`levels, side`queue, side`atMarket
    ensures side.Valid()
    ensures Views(side.atMarket) ==
      if order.price.None? then SortBySequence(old(Views(side.atMarket)) + [order.View()]) else old(Views(side.atMarket))
    ensures Views(side.queue) ==
      if order.price.None? then old(Views(side.queue)) else Requeue(side.isBuy, old(Views(side.queue)), order.View())
    ensures Joined(old(side.Members()), order, side.Members())
  {
    ghost var members := side.Members();
    ReinsertKeepingPriority(side, order);
    SameOrdersJoined(members, order, side.Members());
  }
}
