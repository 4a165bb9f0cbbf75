// The price-time priority order book (exchangesim/core/book.py): a sorted price
// list, a map of levels in arrival order, and a queue of priceless orders.
module Book {
  import opened Options
  import opened Orders
  import opened PriceLevels
  import opened Matching
  import opened BookRules

  predicate DistinctIds(s: seq<Order>) {
    forall i, j :: 0 <= i < j < |s| ==> s[i].id != s[j].id
  }

  predicate ApartIds(a: seq<Order>, b: seq<Order>) {
    forall o, x :: o in a && x in b ==> o.id != x.id
  }

  lemma AbsentConcat(a: seq<Order>, b: seq<Order>, order: Order)
    ensures Absent(a + b, order) <==> Absent(a, order) && Absent(b, order)
  {
    assert forall i :: 0 <= i < |a| ==> (a + b)[i] == a[i];
    assert forall i :: 0 <= i < |b| ==> (a + b)[|a| + i] == b[i];
  }

  lemma AloneConcat(a: seq<Order>, b: seq<Order>, order: Order)
    ensures Alone(a + b, order) <==> Alone(a, order) && Alone(b, order)
  {
    assert forall i :: 0 <= i < |a| ==> (a + b)[i] == a[i];
    assert forall i :: 0 <= i < |b| ==> (a + b)[|a| + i] == b[i];
  }

  lemma JoinedBehind(m: seq<Order>, q: seq<Order>, order: Order, now: seq<Order>)
    requires Joined(q, order, now)
    ensures Joined(m + q, order, m + now)
  {
  }

  lemma JoinedFront(m: seq<Order>, q: seq<Order>, order: Order)
    ensures Joined(m + q, order, (m + [order]) + q)
  {
  }

  lemma DistinctSplit(a: seq<Order>, b: seq<Order>)
    ensures DistinctIds(a + b) <==> DistinctIds(a) && DistinctIds(b) && ApartIds(a, b)
  {
    var s := a + b;
    assert forall i :: 0 <= i < |a| ==> s[i] == a[i];
    assert forall i :: 0 <= i < |b| ==> s[|a| + i] == b[i];
    if DistinctIds(s) {
      forall o, x | o in a && x in b ensures o.id != x.id {
        var i, j :| 0 <= i < |a| && a[i] == o && 0 <= j < |b| && b[j] == x;
        assert s[i].id != s[|a| + j].id;
      }
    }
    if DistinctIds(a) && DistinctIds(b) && ApartIds(a, b) {
      forall i, j | 0 <= i < j < |s| ensures s[i].id != s[j].id {
        assert i < |a| ==> s[i] in a;
        assert j >= |a| ==> s[j] == b[j - |a|] && s[j] in b;
      }
    }
  }

  // No order of the list has this one's id.
  predicate Absent(s: seq<Order>, order: Order) {
    forall i :: 0 <= i < |s| ==> s[i].id != order.id
  }

  // Only the order itself has its id.
  predicate Alone(s: seq<Order>, order: Order) {
    forall i :: 0 <= i < |s| && s[i].id == order.id ==> s[i] == order
  }

  // The same orders, and one more.
  predicate Joined(was: seq<Order>, order: Order, now: seq<Order>) {
    && order in now
    && (forall i :: 0 <= i < |now| ==> now[i] in was || now[i] == order)
    && (forall i :: 0 <= i < |was| ==> was[i] in now)
  }

  // The same orders, without one.
  predicate Parted(was: seq<Order>, order: Order, now: seq<Order>) {
    && (forall i :: 0 <= i < |now| ==> now[i] in was && now[i] != order)
    && (forall i :: 0 <= i < |was| ==> was[i] == order || was[i] in now)
  }

  lemma Still(s: seq<Order>, v: seq<OrderView>)
    requires |v| == |s| && forall i :: 0 <= i < |s| ==> s[i].View() == v[i]
    ensures Views(s) == v
  {
  }

  // OrderedDict.pop: the queue without the order of that id.
  function Drop(s: seq<Order>, id: nat): (r: seq<Order>)
    ensures |s| - 1 <= |r| <= |s|
    ensures forall o :: o in r ==> o in s
  {
    if s == [] then []
    else if s[0].id == id then s[1..]
    else [s[0]] + Drop(s[1..], id)
  }

  lemma DistinctInsert(a: seq<Order>, b: seq<Order>, o: Order)
    requires DistinctIds(a + b) && Absent(a + b, o)
    ensures DistinctIds(a + [o] + b)
  {
    forall i, j | 0 <= i < j < |a + [o] + b| ensures (a + [o] + b)[i].id != (a + [o] + b)[j].id {
      var s := a + b;
      var i', j' := if i < |a| then i else i - 1, if j < |a| then j else j - 1;
      assert i != |a| ==> (a + [o] + b)[i] == s[i'];
      assert j != |a| ==> (a + [o] + b)[j] == s[j'];
    }
  }

  lemma {:induction false} DropAt(s: seq<Order>, i: nat)
    requires i < |s| && DistinctIds(s)
    ensures Drop(s, s[i].id) == s[..i] + s[i + 1..]
    decreases i
  {
    if i == 0 {
      assert s[..0] + s[1..] == s[1..];
    } else {
      assert s[0].id != s[i].id && s[1..][i - 1] == s[i];
      DropAt(s[1..], i - 1);
      assert [s[0]] + (s[1..][..i - 1] + s[1..][i..]) == s[..i] + s[i + 1..];
    }
  }

  lemma DropSplits(s: seq<Order>, o: Order) returns (i: nat)
    requires o in s && DistinctIds(s)
    ensures i < |s| && s[i] == o && Drop(s, o.id) == s[..i] + s[i + 1..]
  {
    i :| 0 <= i < |s| && s[i] == o;
    DropAt(s, i);
  }

  lemma {:induction false} DropAbsent(s: seq<Order>, id: nat)
    requires forall o :: o in s ==> o.id != id
    ensures Drop(s, id) == s
  {
    if s != [] {
      assert s == [s[0]] + s[1..];
      DropAbsent(s[1..], id);
    }
  }

  lemma DropDistinct(s: seq<Order>, id: nat)
    requires DistinctIds(s)
    ensures DistinctIds(Drop(s, id))
  {
    if exists o :: o in s && o.id == id {
      var o :| o in s && o.id == id;
      var i := DropSplits(s, o);
    } else {
      DropAbsent(s, id);
    }
  }

  lemma {:induction false} DropBehind(a: seq<Order>, s: seq<Order>, id: nat)
    requires forall i :: 0 <= i < |a| ==> a[i].id != id
    ensures Drop(a + s, id) == a + Drop(s, id)
    decreases |a|
  {
    if a == [] {
      assert a + s == s && [] + Drop(s, id) == Drop(s, id);
    } else {
      assert (a + s)[1..] == a[1..] + s;
      DropBehind(a[1..], s, id);
    }
  }

  lemma {:induction false} DropBefore(m: seq<Order>, c: seq<Order>, id: nat)
    requires forall i :: 0 <= i < |c| ==> c[i].id != id
    ensures Drop(m + c, id) == Drop(m, id) + c
    decreases |m|
  {
    if m == [] {
      assert m + c == c && [] + c == c;
      forall o | o in c ensures o.id != id {
      }
      DropAbsent(c, id);
    } else {
      assert (m + c)[1..] == m[1..] + c;
      DropBefore(m[1..], c, id);
    }
  }

  // Dropping an id found only in the middle.
  lemma DropMiddle(a: seq<Order>, m: seq<Order>, c: seq<Order>, id: nat)
    requires forall o :: o in a || o in c ==> o.id != id
    ensures Drop(a + m + c, id) == a + Drop(m, id) + c
  {
    assert a + m + c == a + (m + c);
    assert forall i :: 0 <= i < |a| ==> a[i] in a;
    assert forall i :: 0 <= i < |c| ==> c[i] in c;
    DropBehind(a, m + c, id);
    DropBefore(m, c, id);
  }

  // ---- the index, apart from what the orders currently say -----------------------

  ghost function Flat(isBuy: bool, prices: seq<int>, levels: map<int, seq<Order>>): seq<Order> {
    Concat(InPriority(isBuy, prices), levels)
  }

  predicate OnSide(isBuy: bool, o: Order) {
    (o.side == Buy) == isBuy
  }

  // The index agrees with itself, and no order is held twice or on the wrong side.
  ghost predicate Indexed(isBuy: bool, prices: seq<int>, levels: map<int, seq<Order>>, atMarket: seq<Order>) {
    Keyed(prices, levels) && Listed(isBuy, atMarket + Flat(isBuy, prices, levels))
  }

  ghost function FlatAhead(isBuy: bool, prices: seq<int>, levels: map<int, seq<Order>>, p: int): seq<Order>
    requires Ascending(prices)
  {
    Concat(PricesAhead(isBuy, prices, p), levels)
  }

  ghost function FlatBehind(isBuy: bool, prices: seq<int>, levels: map<int, seq<Order>>, p: int): seq<Order>
    requires Ascending(prices)
  {
    Concat(PricesBehind(isBuy, prices, p), levels)
  }

  // The list stays one of distinct orders on one side.
  ghost predicate Listed(isBuy: bool, s: seq<Order>) {
    DistinctIds(s) && forall o :: o in s ==> OnSide(isBuy, o)
  }

  lemma ListedInsert(isBuy: bool, m: seq<Order>, f: seq<Order>, l: seq<Order>, b: seq<Order>, o: Order)
    requires Listed(isBuy, m + (f + l + b)) && OnSide(isBuy, o)
    requires Absent(m + (f + l + b), o)
    ensures Listed(isBuy, m + (f + (l + [o]) + b))
  {
    assert m + (f + l + b) == (m + f + l) + b;
    DistinctInsert(m + f + l, b, o);
    assert m + (f + (l + [o]) + b) == (m + f + l) + [o] + b;
  }

  lemma ListedDrop(isBuy: bool, m: seq<Order>, f: seq<Order>, l: seq<Order>, b: seq<Order>, o: Order)
    requires Listed(isBuy, m + (f + l + b)) && o in l
    ensures Listed(isBuy, m + (f + Drop(l, o.id) + b)) && Drop(f + l + b, o.id) == f + Drop(l, o.id) + b
  {
    assert m + (f + l + b) == (m + f) + l + b;
    OthersDiffer(m + f, l, b, o);
    DropMiddle(f, l, b, o.id);
    DropMiddle(m + f, l, b, o.id);
    DropDistinct((m + f) + l + b, o.id);
    assert m + (f + Drop(l, o.id) + b) == (m + f) + Drop(l, o.id) + b;
  }

  lemma ListedDropFront(isBuy: bool, m: seq<Order>, q: seq<Order>, o: Order)
    requires Listed(isBuy, m + q) && o !in q
    requires Alone(m + q, o)
    ensures Listed(isBuy, Drop(m, o.id) + q)
  {
    AloneConcat(m, q, o);
    assert forall i :: 0 <= i < |q| ==> q[i] in q;
    DropBefore(m, q, o.id);
    DropDistinct(m + q, o.id);
  }

  // The price list is strictly ascending and lists exactly the non-empty levels.
  ghost predicate Keyed(prices: seq<int>, levels: map<int, seq<Order>>) {
    && Ascending(prices)
    && (forall p :: p in prices <==> p in levels)
    && (forall p :: p in levels ==> levels[p] != [])
  }

  // One level changed, the price list changed to match.
  ghost predicate LevelChanged(prices: seq<int>, levels: map<int, seq<Order>>, p: int, level: seq<Order>,
                               newPrices: seq<int>, newLevels: map<int, seq<Order>>)
  {
    && Keyed(newPrices, newLevels)
    && (forall x :: x != p ==> LevelAt(levels, x) == LevelAt(newLevels, x) && (x in levels <==> x in newLevels))
    && LevelAt(newLevels, p) == level
  }

  lemma FlatChanges(isBuy: bool, prices: seq<int>, levels: map<int, seq<Order>>, atMarket: seq<Order>, p: int,
                    level: seq<Order>, newPrices: seq<int>, newLevels: map<int, seq<Order>>)
      returns (f: seq<Order>, b: seq<Order>)
    requires Indexed(isBuy, prices, levels, atMarket)
    requires LevelChanged(prices, levels, p, level, newPrices, newLevels)
    ensures f == FlatAhead(isBuy, prices, levels, p) && b == FlatBehind(isBuy, prices, levels, p)
    ensures Flat(isBuy, prices, levels) == f + LevelAt(levels, p) + b
    ensures Flat(isBuy, newPrices, newLevels) == f + level + b
    ensures Listed(isBuy, atMarket + (f + level + b)) ==> Indexed(isBuy, newPrices, newLevels, atMarket)
  {
    f, b := FlatAhead(isBuy, prices, levels, p), FlatBehind(isBuy, prices, levels, p);
    FlatUpdate(isBuy, prices, levels, p, newPrices, newLevels);
    FlatAround(isBuy, prices, levels, p);
  }

  lemma OthersDiffer(a: seq<Order>, m: seq<Order>, c: seq<Order>, o: Order)
    requires DistinctIds(a + m + c) && o in m
    ensures forall x :: x in a || x in c ==> x.id != o.id
  {
    var s := a + m + c;
    var j :| 0 <= j < |m| && m[j] == o;
    assert s[|a| + j] == o;
    forall x | x in a ensures x.id != o.id {
      var i :| 0 <= i < |a| && a[i] == x;
      assert s[i] == x;
    }
    forall x | x in c ensures x.id != o.id {
      var i :| 0 <= i < |c| && c[i] == x;
      assert s[|a| + |m| + i] == x;
    }
  }

  // Order objects that are priced better than p, at p, and worse.
  lemma SpanOf(isBuy: bool, f: seq<Order>, l: seq<Order>, b: seq<Order>, p: int)
    requires forall o :: o in f ==> o.price.Some? && Better(isBuy, o.price.value, p)
    requires forall o :: o in l ==> o.price == Some(p)
    requires forall o :: o in b ==> o.price.Some? && Better(isBuy, p, o.price.value)
    ensures SpannedAt(isBuy, Views(f + l + b), p, |f|, |l|)
  {
    var q := f + l + b;
    forall i | 0 <= i < |q|
      ensures i < |f| ==> Better(isBuy, Px(Views(q)[i]), p)
      ensures |f| <= i < |f| + |l| ==> Px(Views(q)[i]) == p
      ensures |f| + |l| <= i ==> Better(isBuy, p, Px(Views(q)[i]))
    {
      assert i < |f| ==> q[i] == f[i];
      assert |f| <= i < |f| + |l| ==> q[i] == l[i - |f|];
      assert |f| + |l| <= i ==> q[i] == b[i - |f| - |l|];
    }
  }

  // An order at p lies only in the middle span.
  lemma SpanPrices(isBuy: bool, f: seq<Order>, l: seq<Order>, b: seq<Order>, p: int, o: Order)
    requires SpannedAt(isBuy, Views(f + l + b), p, |f|, |l|) && o.price == Some(p)
    ensures o !in f && o !in b
  {
    var q := f + l + b;
    forall i | 0 <= i < |f| ensures f[i] != o {
      assert q[i] == f[i] && Better(isBuy, Px(Views(q)[i]), p);
    }
    forall i | 0 <= i < |b| ensures b[i] != o {
      assert q[|f| + |l| + i] == b[i] && Better(isBuy, p, Px(Views(q)[|f| + |l| + i]));
    }
  }

  lemma SliceInsert(f: seq<Order>, l: seq<Order>, b: seq<Order>, o: Order)
    ensures var q, k := f + l + b, |f| + |l|; q[..k] + [o] + q[k..] == f + (l + [o]) + b
  {
    var q, k := f + l + b, |f| + |l|;
    assert q[..k] == f + l && q[k..] == b;
  }

  lemma SpanOrders(isBuy: bool, v: seq<OrderView>, f: nat, l: nat, i: nat, j: nat)
    requires i < j < |v| && SpannedAt(isBuy, v, Px(v[i]), f, l)
    ensures !Better(isBuy, Px(v[j]), Px(v[i]))
  {
  }

  // ---- the index and what the orders say --------------------------------------------

  // Every order is filed under the price it carries.
  ghost predicate Filed(levels: map<int, seq<Order>>, atMarket: seq<Order>, queue: seq<Order>)
    reads atMarket`price, queue`price
  {
    && (forall o :: o in atMarket ==> o.price == None)
    && (forall p, i :: p in levels && 0 <= i < |levels[p]| ==>
          levels[p][i] in queue && levels[p][i].price == Some(p))
  }

  ghost predicate Consistent(isBuy: bool, prices: seq<int>, levels: map<int, seq<Order>>,
                             atMarket: seq<Order>, queue: seq<Order>)
    reads atMarket`price, queue`price
  {
    Indexed(isBuy, prices, levels, atMarket) && queue == Flat(isBuy, prices, levels) && Filed(levels, atMarket, queue)
  }

  lemma QueuePriced(isBuy: bool, prices: seq<int>, levels: map<int, seq<Order>>,
                    atMarket: seq<Order>, queue: seq<Order>, ps: seq<int>, o: Order)
    requires Consistent(isBuy, prices, levels, atMarket, queue) && o in Concat(ps, levels)
    ensures o.price.Some? && o.price.value in ps
  {
    ConcatFrom(ps, levels, o);
  }

  // The flat list around a price: strictly better, equal, strictly worse.
  lemma Around(isBuy: bool, prices: seq<int>, levels: map<int, seq<Order>>, atMarket: seq<Order>,
               queue: seq<Order>, p: int) returns (f: seq<Order>, b: seq<Order>)
    requires Consistent(isBuy, prices, levels, atMarket, queue)
    ensures f == FlatAhead(isBuy, prices, levels, p) && b == FlatBehind(isBuy, prices, levels, p)
    ensures queue == f + LevelAt(levels, p) + b
    ensures SpannedAt(isBuy, Views(queue), p, |f|, |LevelAt(levels, p)|)
  {
    f, b := FlatAhead(isBuy, prices, levels, p), FlatBehind(isBuy, prices, levels, p);
    FlatAround(isBuy, prices, levels, p);
    FrontAndBack(isBuy, prices, p);
    forall o | o in f ensures o.price.Some? && Better(isBuy, o.price.value, p) {
      QueuePriced(isBuy, prices, levels, atMarket, queue, PricesAhead(isBuy, prices, p), o);
    }
    forall o | o in b ensures o.price.Some? && Better(isBuy, p, o.price.value) {
      QueuePriced(isBuy, prices, levels, atMarket, queue, PricesBehind(isBuy, prices, p), o);
    }
    SpanOf(isBuy, f, LevelAt(levels, p), b, p);
  }

  // The orders of every level but p are where they were; those at p carry p.
  lemma Refiled(p: int, levels: map<int, seq<Order>>, newLevels: map<int, seq<Order>>, atMarket: seq<Order>,
                queue: seq<Order>, newQueue: seq<Order>)
    requires Filed(levels, atMarket, queue)
    requires forall x :: x != p ==> LevelAt(levels, x) == LevelAt(newLevels, x)
    requires forall o :: o in LevelAt(newLevels, p) ==> o in newQueue && o.price == Some(p)
    requires forall o :: o in queue && o !in LevelAt(levels, p) ==> o in newQueue
    ensures Filed(newLevels, atMarket, newQueue)
  {
    forall x, i | x in newLevels && 0 <= i < |newLevels[x]|
      ensures newLevels[x][i] in newQueue && newLevels[x][i].price == Some(x)
    {
      if x == p {
        assert newLevels[x][i] in LevelAt(newLevels, p);
      } else {
        assert LevelAt(newLevels, x) == LevelAt(levels, x);
        var o := levels[x][i];
      }
    }
  }

  lemma LevelPriced(levels: map<int, seq<Order>>, atMarket: seq<Order>, queue: seq<Order>, p: int)
    requires Filed(levels, atMarket, queue)
    ensures forall o :: o in LevelAt(levels, p) ==> o in queue && o.price == Some(p)
  {
    forall o | o in LevelAt(levels, p) ensures o in queue && o.price == Some(p) {
      var i :| 0 <= i < |levels[p]| && levels[p][i] == o;
    }
  }

  lemma ViewsInsert(isBuy: bool, q: seq<Order>, r: seq<Order>, order: Order)
    requires order.price.Some?
    requires var k := Place(isBuy, Views(q), order.price.value); r == q[..k] + [order] + q[k..]
    ensures Views(r) == Insert(isBuy, Views(q), order.View())
  {
    var k := Place(isBuy, Views(q), order.price.value);
    var v := Insert(isBuy, Views(q), order.View());
    assert v == Views(q)[..k] + [order.View()] + Views(q)[k..];
    assert forall i :: 0 <= i < |r| ==> Views(r)[i] == v[i];
  }

  lemma AddPlaced(isBuy: bool, queue: seq<Order>, f: seq<Order>, level: seq<Order>, b: seq<Order>, order: Order)
    requires queue == f + level + b && order.price.Some?
    requires SpannedAt(isBuy, Views(queue), order.price.value, |f|, |level|)
    ensures Views(f + (level + [order]) + b) == Insert(isBuy, Views(queue), order.View())
    ensures Joined(queue, order, f + (level + [order]) + b)
  {
    SpanPlaces(isBuy, Views(queue), order.price.value, |f|, |level|);
    SliceInsert(f, level, b, order);
    ViewsInsert(isBuy, queue, f + (level + [order]) + b, order);
    assert f + (level + [order]) + b == (f + level) + [order] + b;
    JoinedMiddle(f + level, b, order);
  }

  lemma JoinedMiddle(a: seq<Order>, b: seq<Order>, order: Order)
    ensures Joined(a + b, order, a + [order] + b)
  {
  }

  lemma AddFiled(levels: map<int, seq<Order>>, newLevels: map<int, seq<Order>>, atMarket: seq<Order>, queue: seq<Order>,
                 newQueue: seq<Order>, p: int, order: Order)
    requires Filed(levels, atMarket, queue) && order.price == Some(p) && Joined(queue, order, newQueue)
    requires forall x :: x != p ==> LevelAt(levels, x) == LevelAt(newLevels, x)
    requires LevelAt(newLevels, p) == LevelAt(levels, p) + [order]
    ensures Filed(newLevels, atMarket, newQueue)
  {
    LevelPriced(levels, atMarket, queue, p);
    Refiled(p, levels, newLevels, atMarket, queue, newQueue);
  }

  // An order appended at its level joins the flat list behind the level.
  lemma AddConsistent(isBuy: bool, prices: seq<int>, levels: map<int, seq<Order>>, atMarket: seq<Order>, queue: seq<Order>,
                      p: int, order: Order, newPrices: seq<int>, newLevels: map<int, seq<Order>>)
      returns (newQueue: seq<Order>)
    requires Consistent(isBuy, prices, levels, atMarket, queue) && OnSide(isBuy, order) && order.price == Some(p)
    requires Absent(atMarket + queue, order)
    requires LevelChanged(prices, levels, p, LevelAt(levels, p) + [order], newPrices, newLevels)
    ensures Consistent(isBuy, newPrices, newLevels, atMarket, newQueue)
    ensures Views(newQueue) == Insert(isBuy, Views(queue), order.View())
    ensures Joined(queue, order, newQueue)
  {
    var level := LevelAt(levels, p);
    var f, b := Around(isBuy, prices, levels, atMarket, queue, p);
    newQueue := f + (level + [order]) + b;
    AddPlaced(isBuy, queue, f, level, b, order);
    ListedInsert(isBuy, atMarket, f, level, b, order);
    f, b := FlatChanges(isBuy, prices, levels, atMarket, p, level + [order], newPrices, newLevels);
    AddFiled(levels, newLevels, atMarket, queue, newQueue, p, order);
  }

  // An order is found at its own price or not at all.
  lemma OnlyAtItsPrice(isBuy: bool, prices: seq<int>, levels: map<int, seq<Order>>, atMarket: seq<Order>,
                       queue: seq<Order>, p: int, order: Order)
    requires Consistent(isBuy, prices, levels, atMarket, queue) && order.price == Some(p)
    requires Alone(atMarket + queue, order)
    ensures order in atMarket + queue <==> order in LevelAt(levels, p)
    ensures order !in LevelAt(levels, p) ==> Drop(queue, order.id) == queue
  {
    var f, b := Around(isBuy, prices, levels, atMarket, queue, p);
    SpanPrices(isBuy, f, LevelAt(levels, p), b, p, order);
    AloneConcat(atMarket, queue, order);
    if order !in LevelAt(levels, p) {
      AloneAbsent(queue, order);
    }
  }

  lemma AloneAbsent(q: seq<Order>, order: Order)
    requires Alone(q, order) && order !in q
    ensures Drop(q, order.id) == q
  {
    assert forall i :: 0 <= i < |q| ==> q[i] in q;
    forall o | o in q ensures o.id != order.id {
      var i :| 0 <= i < |q| && q[i] == o;
    }
    DropAbsent(q, order.id);
  }

  lemma RemoveConsistent(isBuy: bool, prices: seq<int>, levels: map<int, seq<Order>>, atMarket: seq<Order>, queue: seq<Order>,
                         p: int, order: Order, newPrices: seq<int>, newLevels: map<int, seq<Order>>)
    requires Consistent(isBuy, prices, levels, atMarket, queue) && order in LevelAt(levels, p)
    requires LevelChanged(prices, levels, p, Drop(LevelAt(levels, p), order.id), newPrices, newLevels)
    ensures Consistent(isBuy, newPrices, newLevels, atMarket, Drop(queue, order.id))
  {
    var f, b := Around(isBuy, prices, levels, atMarket, queue, p);
    var level := LevelAt(levels, p);
    ListedDrop(isBuy, atMarket, f, level, b, order);
    f, b := FlatChanges(isBuy, prices, levels, atMarket, p, Drop(level, order.id), newPrices, newLevels);
    LevelPriced(levels, atMarket, queue, p);
    Refiled(p, levels, newLevels, atMarket, queue, Drop(queue, order.id));
  }

  function SumLeaves(s: seq<Order>): int
    reads s
  {
    if s == [] then 0 else s[0].LeavesQty() + SumLeaves(s[1..])
  }

  lemma {:induction false} SumLeavesIsSum(s: seq<Order>)
    ensures SumLeaves(s) == Sum(Leaves, Views(s))
  {
    if s != [] {
      SumLeavesIsSum(s[1..]);
      assert Views(s)[1..] == Views(s[1..]);
    }
  }

  function HeldIn(levels: map<int, seq<Order>>): set<Order> {
    set p, i | p in levels && 0 <= i < |levels[p]| :: levels[p][i]
  }

  function LevelsTotal(ps: seq<int>, levels: map<int, seq<Order>>): int
    reads HeldIn(levels)
  {
    if ps == [] then 0 else SumLeaves(LevelAt(levels, ps[0])) + LevelsTotal(ps[1..], levels)
  }

  lemma {:induction false} TotalIsFlat(ps: seq<int>, levels: map<int, seq<Order>>)
    ensures LevelsTotal(ps, levels) == Sum(Leaves, Views(Concat(ps, levels)))
  {
    if ps != [] {
      TotalIsFlat(ps[1..], levels);
      SumLeavesIsSum(LevelAt(levels, ps[0]));
      SumViewsConcat(LevelAt(levels, ps[0]), Concat(ps[1..], levels));
    }
  }

  lemma SumViewsConcat(l: seq<Order>, t: seq<Order>)
    ensures Sum(Leaves, Views(l + t)) == Sum(Leaves, Views(l)) + Sum(Leaves, Views(t))
  {
    assert Views(l + t) == Views(l) + Views(t);
    SumConcat(Leaves, Views(l), Views(t));
  }

  lemma {:induction false} TotalConcat(a: seq<int>, b: seq<int>, levels: map<int, seq<Order>>)
    ensures LevelsTotal(a + b, levels) == LevelsTotal(a, levels) + LevelsTotal(b, levels)
    decreases |a|
  {
    if a == [] {
      assert a + b == b;
    } else {
      assert (a + b)[1..] == a[1..] + b;
      TotalConcat(a[1..], b, levels);
    }
  }

  lemma {:induction false} TotalReversed(ps: seq<int>, levels: map<int, seq<Order>>)
    ensures LevelsTotal(Reverse(ps), levels) == LevelsTotal(ps, levels)
    decreases |ps|
  {
    if ps != [] {
      assert Reverse(ps) == Reverse(ps[1..]) + [ps[0]];
      TotalConcat(Reverse(ps[1..]), [ps[0]], levels);
      TotalReversed(ps[1..], levels);
      assert [ps[0]][1..] == [];
    }
  }

  // The quantity ahead of x, counted in ascending price, is that of the flat list.
  lemma AheadTotal(isBuy: bool, prices: seq<int>, levels: map<int, seq<Order>>, x: int)
    requires Ascending(prices)
    ensures LevelsTotal(if isBuy then prices[BisectRight(prices, x)..] else prices[..BisectLeft(prices, x)], levels) ==
      Sum(Leaves, Views(FlatAhead(isBuy, prices, levels, x)))
  {
    TotalIsFlat(PricesAhead(isBuy, prices, x), levels);
    if isBuy {
      TotalReversed(prices[BisectRight(prices, x)..], levels);
    }
  }

  // Strictly better than the next price over is at least as good as this one.
  lemma {:induction false} AheadIsPlace(isBuy: bool, v: seq<OrderView>, p: int)
    ensures BookRules.Ahead(isBuy, v, if isBuy then p - 1 else p + 1) == Place(isBuy, v, p)
  {
    if v != [] {
      AheadIsPlace(isBuy, v[1..], p);
    }
  }

  lemma WillingIsAhead(isBuy: bool, f: seq<Order>, l: seq<Order>, b: seq<Order>, p: int)
    requires SpannedAt(isBuy, Views(f + l + b), if isBuy then p - 1 else p + 1, |f|, |l|)
    ensures Views(f + l + b)[..Place(isBuy, Views(f + l + b), p)] == Views(f)
  {
    var v := Views(f + l + b);
    SpanPlaces(isBuy, v, if isBuy then p - 1 else p + 1, |f|, |l|);
    AheadIsPlace(isBuy, v, p);
    assert v[..|f|] == Views(f);
  }

  lemma {:induction false} ViewsDrop(s: seq<Order>, id: nat)
    ensures Views(Drop(s, id)) == Without(Views(s), id)
  {
    if s != [] {
      ViewsDrop(s[1..], id);
      assert Views(s)[1..] == Views(s[1..]);
      if s[0].id != id {
        assert Views(Drop(s, id)) == [s[0].View()] + Views(Drop(s[1..], id));
      }
    }
  }

  lemma OneLess(q: seq<Order>, i: nat)
    requires i < |q| && DistinctIds(q)
    ensures Parted(q, q[i], q[..i] + q[i + 1..])
  {
    var r := q[..i] + q[i + 1..];
    forall k | 0 <= k < |r| ensures r[k] in q && r[k] != q[i] {
      assert r[k] == if k < i then q[k] else q[k + 1];
    }
    forall k | 0 <= k < |q| ensures q[k] == q[i] || q[k] in r {
      assert k < i ==> r[k] == q[k];
      assert k > i ==> r[k - 1] == q[k];
    }
  }

  lemma DroppedMembers(q: seq<Order>, order: Order)
    requires DistinctIds(q) && Alone(q, order)
    ensures Parted(q, order, Drop(q, order.id))
  {
    if order in q {
      var i := DropSplits(q, order);
      OneLess(q, i);
    } else {
      AloneAbsent(q, order);
    }
  }

  lemma PartedFront(m: seq<Order>, q: seq<Order>, order: Order, now: seq<Order>)
    requires Parted(m, order, now) && order !in q
    ensures Parted(m + q, order, now + q)
  {
  }

  lemma PartedBehind(m: seq<Order>, q: seq<Order>, order: Order, now: seq<Order>)
    requires Parted(q, order, now) && order !in m
    ensures Parted(m + q, order, m + now)
  {
  }

  lemma DistinctParts(a: seq<Order>, b: seq<Order>)
    requires DistinctIds(a + b)
    ensures DistinctIds(a) && DistinctIds(b)
  {
    assert forall i :: 0 <= i < |a| ==> (a + b)[i] == a[i];
    assert forall i :: 0 <= i < |b| ==> (a + b)[|a| + i] == b[i];
  }

  class BookSide {
    const isBuy: bool
    var prices: seq<int>
    var levels: map<int, seq<Order>>
    var atMarket: seq<Order>

    // Limit orders, best price first and in arrival order within a price.
    ghost var queue: seq<Order>

    constructor (isBuy: bool)
      ensures Valid() && this.isBuy == isBuy && atMarket == queue == []
    {
      this.isBuy := isBuy;
      prices, levels, atMarket, queue := [], map[], [], [];
    }

    ghost function Members(): seq<Order>
      reads this`atMarket, this`queue
    {
      atMarket + queue
    }

    ghost predicate Valid()
      reads this, atMarket`price, queue`price
    {
      Consistent(isBuy, prices, levels, atMarket, queue)
    }

    ghost function View(): SideView
      reads this, atMarket, queue
    {
      SideView(Views(atMarket), Views(queue))
    }

    lemma UniqueMember(order: Order)
      requires Valid() && order in Members()
      ensures Alone(Members(), order)
    {
    }

    // The flat list is in price priority, and only of this side's limit orders.
    lemma QueueSorted()
      requires Valid()
      ensures Sorted(isBuy, Views(queue))
      ensures forall o :: o in queue ==> o.price.Some? && OnSide(isBuy, o)
      ensures forall o :: o in atMarket ==> o.price.None? && OnSide(isBuy, o)
    {
      forall o | o in queue ensures o.price.Some? {
        QueuePriced(isBuy, prices, levels, atMarket, queue, InPriority(isBuy, prices), o);
      }
      forall o | o in queue ensures OnSide(isBuy, o) {
        assert o in atMarket + queue;
      }
      forall o | o in atMarket ensures OnSide(isBuy, o) {
        assert o in atMarket + queue;
      }
      forall i, j | 0 <= i < j < |queue| ensures !Better(isBuy, Px(Views(queue)[j]), Px(Views(queue)[i])) {
        var p := Px(Views(queue)[i]);
        var f, b := Around(isBuy, prices, levels, atMarket, queue, p);
        SpanOrders(isBuy, Views(queue), |f|, |LevelAt(levels, p)|, i, j);
      }
    }

    // ---- inspection -------------------------------------------------------------------

    function BestPrice(): Option<int>
      reads this
    {
      if prices == [] then None
      else if isBuy then Some(prices[|prices| - 1])
      else Some(prices[0])
    }

    function OrdersInPriority(): seq<Order>
      reads this
    {
      Concat(InPriority(isBuy, prices), levels)
    }

    lemma PriorityIsQueue()
      requires Valid()
      ensures OrdersInPriority() == queue
      ensures BestPrice().None? <==> queue == []
      ensures queue != [] ==> queue[0].price == BestPrice()
      ensures queue != [] ==> BestPrice().value in levels && queue[0] == levels[BestPrice().value][0]
    {
      var ps := InPriority(isBuy, prices);
      if prices != [] {
        var p := BestPrice().value;
        assert ps[0] == p && p in prices;
        assert levels[p][0] in queue;
      }
    }

    // Total resting quantity strictly above a price, and strictly below.
    function QuantityAbove(p: int): int
      requires Ascending(prices)
      reads this, HeldIn(levels)
    {
      LevelsTotal(prices[BisectRight(prices, p)..], levels)
    }

    function QuantityBelow(p: int): int
      requires Ascending(prices)
      reads this, HeldIn(levels)
    {
      LevelsTotal(prices[..BisectLeft(prices, p)], levels)
    }

    // What a side offers at a price, counted over its levels, is what the flat list
    // offers: bids at p or above, offers at p or below.
    lemma WillingQuantity(p: int)
      requires Valid()
      ensures (if isBuy then QuantityAbove(p - 1) else QuantityBelow(p + 1)) ==
        Sum(Leaves, Views(queue)[..Place(isBuy, Views(queue), p)])
    {
      var x := if isBuy then p - 1 else p + 1;
      AheadTotal(isBuy, prices, levels, x);
      var f, b := Around(isBuy, prices, levels, atMarket, queue, x);
      WillingIsAhead(isBuy, f, LevelAt(levels, x), b, p);
    }

    // ---- mutation ------------------------------------------------------------------

    method AddAtMarket(order: Order)
      requires Valid() && OnSide(isBuy, order) && order.price.None? && Absent(Members(), order)
      modifies this`atMarket
      ensures Valid() && queue == old(queue)
      ensures Views(atMarket) == old(Views(atMarket)) + [order.View()] && Views(queue) == old(Views(queue))
      ensures Joined(old(Members()), order, Members())
    {
      ghost var m, q := Views(atMarket), Views(queue);
      DistinctInsert(atMarket, queue, order);
      JoinedFront(atMarket, queue, order);
      SetMarket(atMarket + [order]);
      Still(atMarket, m + [order.View()]);
      Still(queue, q);
    }

    method SetMarket(newMarket: seq<Order>)
      requires Consistent(isBuy, prices, levels, newMarket, queue)
      modifies this`atMarket
      ensures Valid() && atMarket == newMarket
    {
      atMarket := newMarket;
    }

    method AddAtPrice(order: Order, p: int)
      requires Valid() && OnSide(isBuy, order) && order.price == Some(p) && Absent(Members(), order)
      modifies this`prices, this`levels, this`queue
      ensures Valid() && atMarket == old(atMarket)
      ensures Views(queue) == Insert(isBuy, old(Views(queue)), order.View()) && Views(atMarket) == old(Views(atMarket))
      ensures Joined(old(Members()), order, Members())
    {
      ghost var m := Views(atMarket);
      var newPrices, newLevels;
      ghost var newQueue;
      newPrices, newLevels, newQueue := PutInLevel(isBuy, prices, levels, atMarket, queue, p, order);
      ghost var v := Views(newQueue);
      JoinedBehind(atMarket, queue, order, newQueue);
      Install(newPrices, newLevels, newQueue);
      Still(queue, v);
      Still(atMarket, m);
    }

    // Sets the fields a change of one level touches.
    method Install(newPrices: seq<int>, newLevels: map<int, seq<Order>>, ghost newQueue: seq<Order>)
      requires Consistent(isBuy, newPrices, newLevels, atMarket, newQueue)
      modifies this`prices, this`levels, this`queue
      ensures Valid() && queue == newQueue
    {
      prices, levels, queue := newPrices, newLevels, newQueue;
    }

    static method PutInLevel(isBuy: bool, prices: seq<int>, levels: map<int, seq<Order>>, ghost atMarket: seq<Order>,
                             ghost queue: seq<Order>, p: int, order: Order)
        returns (newPrices: seq<int>, newLevels: map<int, seq<Order>>, ghost newQueue: seq<Order>)
      requires Consistent(isBuy, prices, levels, atMarket, queue) && OnSide(isBuy, order) && order.price == Some(p)
      requires Absent(atMarket + queue, order)
      ensures Consistent(isBuy, newPrices, newLevels, atMarket, newQueue)
      ensures Views(newQueue) == Insert(isBuy, Views(queue), order.View())
      ensures Joined(queue, order, newQueue)
    {
      newPrices, newLevels := WithOrder(prices, levels, p, order);
      newQueue := AddConsistent(isBuy, prices, levels, atMarket, queue, p, order, newPrices, newLevels);
    }

    static method WithOrder(prices: seq<int>, levels: map<int, seq<Order>>, p: int, order: Order)
        returns (newPrices: seq<int>, newLevels: map<int, seq<Order>>)
      requires Keyed(prices, levels)
      ensures LevelChanged(prices, levels, p, LevelAt(levels, p) + [order], newPrices, newLevels)
    {
      newPrices, newLevels := prices, levels;
      if p !in levels {
        newLevels := newLevels[p := []];
        newPrices := Insort(prices, p);
      }
      newLevels := newLevels[p := newLevels[p] + [order]];
    }

    method RemoveAtMarket(order: Order) returns (found: bool)
      requires Valid() && order.price.None? && Alone(Members(), order)
      modifies this`atMarket
      ensures Valid() && atMarket == Drop(old(atMarket), order.id) && queue == old(queue)
      ensures found <==> order in old(Members())
    {
      found := order in atMarket;
      QueueSorted();
      ListedDropFront(isBuy, atMarket, queue, order);
      SetMarket(Drop(atMarket, order.id));
    }

    static method WithoutOrder(prices: seq<int>, levels: map<int, seq<Order>>, p: int, id: nat)
        returns (newPrices: seq<int>, newLevels: map<int, seq<Order>>)
      requires Keyed(prices, levels) && p in levels
      ensures LevelChanged(prices, levels, p, Drop(levels[p], id), newPrices, newLevels)
    {
      newPrices := prices;
      var level := Drop(levels[p], id);
      if level == [] {
        newLevels := levels - {p};
        newPrices := PopPrice(prices, p);
      } else {
        newLevels := levels[p := level];
      }
    }

    static method DropFromLevel(isBuy: bool, prices: seq<int>, levels: map<int, seq<Order>>, ghost atMarket: seq<Order>,
                                ghost queue: seq<Order>, p: int, order: Order)
        returns (newPrices: seq<int>, newLevels: map<int, seq<Order>>, found: bool)
      requires Consistent(isBuy, prices, levels, atMarket, queue) && order.price == Some(p)
      requires Alone(atMarket + queue, order)
      ensures Consistent(isBuy, newPrices, newLevels, atMarket, Drop(queue, order.id))
      ensures found <==> order in atMarket + queue
    {
      OnlyAtItsPrice(isBuy, prices, levels, atMarket, queue, p, order);
      if p !in levels || order !in levels[p] {
        return prices, levels, false;
      }
      found := true;
      newPrices, newLevels := WithoutOrder(prices, levels, p, order.id);
      RemoveConsistent(isBuy, prices, levels, atMarket, queue, p, order, newPrices, newLevels);
    }

    method RemoveAtPrice(order: Order, p: int) returns (found: bool)
      requires Valid() && order.price == Some(p) && Alone(Members(), order)
      modifies this`prices, this`levels, this`queue
      ensures Valid() && queue == Drop(old(queue), order.id) && atMarket == old(atMarket)
      ensures found <==> order in old(Members())
    {
      var newPrices, newLevels;
      newPrices, newLevels, found := DropFromLevel(isBuy, prices, levels, atMarket, queue, p, order);
      Install(newPrices, newLevels, Drop(queue, order.id));
    }

    // Returns whether the order was there.
    method Remove(order: Order) returns (found: bool)
      requires Valid() && OnSide(isBuy, order)
      requires Alone(Members(), order)
      modifies this`prices, this`levels, this`queue, this`atMarket
      ensures Valid()
      ensures found <==> order in old(Members())
      ensures atMarket == if order.price.None? then Drop(old(atMarket), order.id) else old(atMarket)
      ensures queue == if order.price.Some? then Drop(old(queue), order.id) else old(queue)
    {
      if order.price.None? {
        found := RemoveAtMarket(order);
      } else {
        found := RemoveAtPrice(order, order.price.value);
      }
    }

    // Adding and removing, read as values.
    method Enter(order: Order)
      requires Valid() && OnSide(isBuy, order) && Absent(Members(), order)
      modifies this`prices, this`levels, this`queue, this`atMarket
      ensures Valid()
      ensures Views(atMarket) == old(Views(atMarket)) + if order.price.None? then [order.View()] else []
      ensures Views(queue) == if order.price.None? then old(Views(queue)) else Insert(isBuy, old(Views(queue)), order.View())
      ensures Joined(old(Members()), order, Members())
    {
      if order.price.None? {
        AddAtMarket(order);
      } else {
        AddAtPrice(order, order.price.value);
      }
    }

    // What dropping an order from its list leaves, as a value and as a set of orders.
    lemma Drops(order: Order)
      requires Valid() && Alone(Members(), order)
      ensures Views(Drop(queue, order.id)) == Without(Views(queue), order.id)
      ensures Views(Drop(atMarket, order.id)) == Without(Views(atMarket), order.id)
      ensures order.price.None? ==> Parted(Members(), order, Drop(atMarket, order.id) + queue)
      ensures order.price.Some? ==> Parted(Members(), order, atMarket + Drop(queue, order.id))
    {
      ViewsDrop(queue, order.id);
      ViewsDrop(atMarket, order.id);
      DistinctParts(atMarket, queue);
      AloneConcat(atMarket, queue, order);
      DroppedMembers(queue, order);
      DroppedMembers(atMarket, order);
      QueueSorted();
      if order.price.None? {
        PartedFront(atMarket, queue, order, Drop(atMarket, order.id));
      } else {
        PartedBehind(atMarket, queue, order, Drop(queue, order.id));
      }
    }

    method Leave(order: Order) returns (found: bool)
      requires Valid() && OnSide(isBuy, order) && Alone(Members(), order)
      modifies this`prices, this`levels, this`queue, this`atMarket
      ensures Valid()
      ensures found <==> order in old(Members())
      ensures Views(atMarket) == if order.price.None? then Without(old(Views(atMarket)), order.id) else old(Views(atMarket))
      ensures Views(queue) == if order.price.Some? then Without(old(Views(queue)), order.id) else old(Views(queue))
      ensures Parted(old(Members()), order, Members())
    {
      ghost var m := if order.price.None? then Views(Drop(atMarket, order.id)) else Views(atMarket);
      ghost var q := if order.price.Some? then Views(Drop(queue, order.id)) else Views(queue);
      Drops(order);
      found := Remove(order);
      Still(atMarket, m);
      Still(queue, q);
    }

    method Clear()
      modifies this`prices, this`levels, this`queue, this`atMarket
      ensures Valid() && atMarket == queue == []
    {
      prices, levels, atMarket, queue := [], map[], [], [];
    }
  }

  class OrderBook {
    const bids: BookSide
    const asks: BookSide

    constructor ()
      ensures Valid() && fresh(bids) && fresh(asks)
      ensures bids.atMarket == bids.queue == [] && asks.atMarket == asks.queue == []
    {
      bids := new BookSide(true);
      asks := new BookSide(false);
    }

    function SideFor(isBuy: bool): BookSide {
      if isBuy then bids else asks
    }

    ghost function Members(): seq<Order>
      reads bids, asks
    {
      bids.Members() + asks.Members()
    }

    ghost predicate Valid()
      reads bids, bids.atMarket`price, bids.queue`price, asks, asks.atMarket`price, asks.queue`price
    {
      && bids != asks && bids.isBuy && !asks.isBuy && bids.Valid() && asks.Valid()
      && ApartIds(bids.Members(), asks.Members())
    }

    ghost function View(): BookView
      reads bids, bids.atMarket, bids.queue, asks, asks.atMarket, asks.queue
    {
      BookView(bids.View(), asks.View())
    }

    // The book, read as a value, is v.
    ghost predicate Shows(v: BookView)
      reads bids, bids.atMarket, bids.queue, asks, asks.atMarket, asks.queue
    {
      && Views(bids.atMarket) == v.bids.market && Views(bids.queue) == v.bids.queue
      && Views(asks.atMarket) == v.asks.market && Views(asks.queue) == v.asks.queue
    }

    method Add(order: Order)
      requires Valid() && Absent(Members(), order)
      modifies SideFor(order.side == Buy)
      ensures Valid()
      ensures Shows(BookRules.Add(old(View()), order.View()))
      ensures Joined(old(Members()), order, Members())
    {
      AbsentConcat(bids.Members(), asks.Members(), order);
      ghost var wasBids, wasAsks := bids.Members(), asks.Members();
      if order.side == Buy {
        EnterBeside(bids, asks, order);
        JoinedFirst(wasBids, wasAsks, order, bids.Members());
      } else {
        EnterBeside(asks, bids, order);
        JoinedSecond(wasBids, wasAsks, order, asks.Members());
      }
    }

    static method EnterBeside(side: BookSide, other: BookSide, order: Order)
      requires side != other && side.Valid() && other.Valid() && OnSide(side.isBuy, order) && Absent(side.Members(), order)
      modifies side
      ensures side.Valid() && other.Valid() && other.Members() == old(other.Members())
      ensures Views(side.atMarket) == old(Views(side.atMarket)) + if order.price.None? then [order.View()] else []
      ensures Views(side.queue) ==
        if order.price.None? then old(Views(side.queue)) else Insert(side.isBuy, old(Views(side.queue)), order.View())
      ensures Views(other.atMarket) == old(Views(other.atMarket)) && Views(other.queue) == old(Views(other.queue))
      ensures Joined(old(side.Members()), order, side.Members())
    {
      ghost var m, q := Views(other.atMarket), Views(other.queue);
      side.Enter(order);
      Still(other.atMarket, m);
      Still(other.queue, q);
    }

    method Remove(order: Order) returns (found: bool)
      requires Valid() && Alone(Members(), order)
      modifies SideFor(order.side == Buy)
      ensures Valid()
      ensures found <==> order in old(Members())
      ensures Shows(BookRules.Remove(old(View()), order.View().terms))
      ensures Parted(old(Members()), order, Members())
    {
      AloneConcat(bids.Members(), asks.Members(), order);
      ghost var wasBids, wasAsks := bids.Members(), asks.Members();
      OtherSide(order);
      if order.side == Buy {
        found := LeaveBeside(bids, asks, order);
        PartedFirst(wasBids, wasAsks, order, bids.Members());
      } else {
        found := LeaveBeside(asks, bids, order);
        PartedSecond(wasBids, wasAsks, order, asks.Members());
      }
    }

    // An order is on its own side or on neither.
    lemma OtherSide(order: Order)
      requires Valid()
      ensures order !in SideFor(order.side != Buy).Members()
    {
      var side := SideFor(order.side != Buy);
      side.QueueSorted();
      assert order !in side.queue && order !in side.atMarket;
    }

    static method LeaveBeside(side: BookSide, other: BookSide, order: Order) returns (found: bool)
      requires side != other && side.Valid() && other.Valid() && OnSide(side.isBuy, order) && Alone(side.Members(), order)
      modifies side
      ensures side.Valid() && other.Valid() && other.Members() == old(other.Members())
      ensures found <==> order in old(side.Members())
      ensures Views(side.atMarket) ==
        if order.price.None? then Without(old(Views(side.atMarket)), order.id) else old(Views(side.atMarket))
      ensures Views(side.queue) ==
        if order.price.Some? then Without(old(Views(side.queue)), order.id) else old(Views(side.queue))
      ensures Views(other.atMarket) == old(Views(other.atMarket)) && Views(other.queue) == old(Views(other.queue))
      ensures Parted(old(side.Members()), order, side.Members())
    {
      ghost var m, q := Views(other.atMarket), Views(other.queue);
      found := side.Leave(order);
      Still(other.atMarket, m);
      Still(other.queue, q);
    }
  }

  // One side gains or loses an order: the sides stay apart, and so does the book.
  lemma JoinedFirst(a: seq<Order>, b: seq<Order>, order: Order, now: seq<Order>)
    requires ApartIds(a, b) && Absent(b, order) && Joined(a, order, now)
    ensures ApartIds(now, b) && Joined(a + b, order, now + b)
  {
    forall o, x | o in now && x in b ensures o.id != x.id {
      assert o in a || o == order;
    }
  }

  lemma JoinedSecond(a: seq<Order>, b: seq<Order>, order: Order, now: seq<Order>)
    requires ApartIds(a, b) && Absent(a, order) && Joined(b, order, now)
    ensures ApartIds(a, now) && Joined(a + b, order, a + now)
  {
    forall o, x | o in a && x in now ensures o.id != x.id {
      assert x in b || x == order;
    }
  }

  lemma PartedFirst(a: seq<Order>, b: seq<Order>, order: Order, now: seq<Order>)
    requires ApartIds(a, b) && order !in b && Parted(a, order, now)
    ensures ApartIds(now, b) && Parted(a + b, order, now + b)
  {
    forall o, x | o in now && x in b ensures o.id != x.id {
      assert o in a;
    }
    PartedFront(a, b, order, now);
  }

  lemma PartedSecond(a: seq<Order>, b: seq<Order>, order: Order, now: seq<Order>)
    requires ApartIds(a, b) && order !in a && Parted(b, order, now)
    ensures ApartIds(a, now) && Parted(a + b, order, a + now)
  {
    forall o, x | o in a && x in now ensures o.id != x.id {
      assert x in b;
    }
    PartedBehind(a, b, order, now);
  }
}
