// What adding, removing and re-queueing an order keep of a book: its order, the
// liveness of what rests on it, and its tallies.
module BookInvariants {
  import opened Options
  import opened Orders
  import opened Sequences
  import opened PriceLevels
  import opened Matching
  import opened BookRules
  import opened AuctionTrading
  import opened Ledger

  ghost predicate SideOk(isBuy: bool, s: SideView) {
    LimitQueue(isBuy, s.queue) && Sorted(isBuy, s.queue) && MarketQueue(isBuy, s.market)
  }

  ghost predicate BookOk(b: BookView) {
    SideOk(true, b.bids) && SideOk(false, b.asks)
  }

  function SideTally(k: Measure, buys: bool, s: SideView): int {
    Tally(k, buys, s.market) + Tally(k, buys, s.queue)
  }

  function BookTally(k: Measure, buys: bool, b: BookView): int {
    SideTally(k, buys, b.bids) + SideTally(k, buys, b.asks)
  }

  ghost predicate In(b: BookView, o: OrderView) {
    var s := SideOf(b, IsBuy(o.terms));
    if o.terms.price.None? then o in s.market else o in s.queue
  }

  // ---- adding ---------------------------------------------------------------------

  lemma AddOk(b: BookView, o: OrderView)
    requires BookOk(b) && Restable(IsBuy(o.terms), o)
    ensures BookOk(Add(b, o)) && In(Add(b, o), o)
  {
    var isBuy := IsBuy(o.terms);
    var s := SideOf(b, isBuy);
    if o.terms.price.Some? {
      InsertSorted(isBuy, s.queue, o);
      InsertLimit(isBuy, s.queue, o);
    } else {
      AppendMarket(isBuy, s.market, o);
    }
  }

  lemma InsertLimit(isBuy: bool, q: seq<OrderView>, o: OrderView)
    requires LimitQueue(isBuy, q) && Restable(isBuy, o) && o.terms.price.Some?
    ensures LimitQueue(isBuy, Insert(isBuy, q, o)) && o in Insert(isBuy, q, o)
  {
    var k, r := Place(isBuy, q, Px(o)), Insert(isBuy, q, o);
    assert r[k] == o;
    forall i | 0 <= i < |r| ensures Restable(isBuy, r[i]) && r[i].terms.price.Some? {
      assert r[i] == if i < k then q[i] else if i == k then o else q[i - 1];
    }
  }

  lemma AppendMarket(isBuy: bool, q: seq<OrderView>, o: OrderView)
    requires MarketQueue(isBuy, q) && Restable(isBuy, o) && o.terms.price.None?
    ensures MarketQueue(isBuy, q + [o]) && o in q + [o]
  {
    assert (q + [o])[|q|] == o;
  }

  lemma InsertTally(k: Measure, buys: bool, isBuy: bool, q: seq<OrderView>, o: OrderView)
    ensures Tally(k, buys, Insert(isBuy, q, o)) == Tally(k, buys, q) + One(k, buys, o)
  {
    var i := Place(isBuy, q, Px(o));
    TallyConcat(k, buys, q[..i] + [o], q[i..]);
    TallyConcat(k, buys, q[..i], [o]);
    TallyConcat(k, buys, q[..i], q[i..]);
    assert q == q[..i] + q[i..];
  }

  lemma AddTally(k: Measure, buys: bool, b: BookView, o: OrderView)
    ensures BookTally(k, buys, Add(b, o)) == BookTally(k, buys, b) + One(k, buys, o)
  {
    var s := SideOf(b, IsBuy(o.terms));
    if o.terms.price.None? {
      TallyConcat(k, buys, s.market, [o]);
    } else {
      InsertTally(k, buys, IsBuy(o.terms), s.queue, o);
    }
  }

  // ---- removing -------------------------------------------------------------------

  // Without drops exactly the first order with the id.
  lemma {:induction false} WithoutExact(q: seq<OrderView>, id: nat) returns (i: nat)
    requires Contains(q, id)
    ensures i < |q| && q[i].terms.id == id && Without(q, id) == q[..i] + q[i + 1..]
  {
    if q[0].terms.id == id {
      i := 0;
    } else {
      assert Contains(q[1..], id) by {
        var j :| 0 <= j < |q| && q[j].terms.id == id;
        assert q[1..][j - 1] == q[j];
      }
      var j := WithoutExact(q[1..], id);
      i := j + 1;
    }
  }

  lemma {:induction false} WithoutAbsent(q: seq<OrderView>, id: nat)
    requires !Contains(q, id)
    ensures Without(q, id) == q
  {
    if q != [] {
      assert q[0].terms.id != id;
      assert !Contains(q[1..], id) by {
        assert forall j :: 0 <= j < |q| - 1 ==> q[1..][j] == q[j + 1];
      }
      WithoutAbsent(q[1..], id);
    }
  }

  lemma WithoutMembers(q: seq<OrderView>, id: nat)
    ensures forall x :: x in Without(q, id) ==> x in q
  {
    if Contains(q, id) {
      var i := WithoutExact(q, id);
    } else {
      WithoutAbsent(q, id);
    }
  }

  lemma WithoutSorted(isBuy: bool, q: seq<OrderView>, id: nat)
    requires Sorted(isBuy, q)
    ensures Sorted(isBuy, Without(q, id))
  {
    if Contains(q, id) {
      var i := WithoutExact(q, id);
    } else {
      WithoutAbsent(q, id);
    }
  }

  lemma RemoveOk(b: BookView, t: Terms)
    requires BookOk(b)
    ensures BookOk(Remove(b, t))
  {
    var isBuy := IsBuy(t);
    var s := SideOf(b, isBuy);
    WithoutMembers(s.queue, t.id);
    WithoutMembers(s.market, t.id);
    WithoutSorted(isBuy, s.queue, t.id);
    var r := SideOf(Remove(b, t), isBuy);
    forall i | 0 <= i < |r.queue| ensures Restable(isBuy, r.queue[i]) && r.queue[i].terms.price.Some? {
      assert r.queue[i] in s.queue;
    }
    forall i | 0 <= i < |r.market| ensures Restable(isBuy, r.market[i]) && r.market[i].terms.price.None? {
      assert r.market[i] in s.market;
    }
  }

  lemma TallySplit(k: Measure, buys: bool, q: seq<OrderView>, i: nat)
    requires i < |q|
    ensures Tally(k, buys, q) == Tally(k, buys, q[..i]) + One(k, buys, q[i]) + Tally(k, buys, q[i + 1..])
  {
    assert q == q[..i] + ([q[i]] + q[i + 1..]);
    TallyConcat(k, buys, q[..i], [q[i]] + q[i + 1..]);
    TallyConcat(k, buys, [q[i]], q[i + 1..]);
  }

  lemma {:induction false} CountIsNatural(id: nat, buys: bool, q: seq<OrderView>)
    ensures Tally(Count(id), buys, q) >= 0
  {
    if q != [] {
      CountIsNatural(id, buys, q[1..]);
    }
  }

  // Two orders with one id count for two.
  lemma CountTwice(buys: bool, q: seq<OrderView>, i: nat, j: nat)
    requires i < j < |q| && q[i].terms.id == q[j].terms.id
    requires IsBuy(q[i].terms) == IsBuy(q[j].terms) == buys
    ensures Tally(Count(q[i].terms.id), buys, q) >= 2
  {
    var k := Count(q[i].terms.id);
    TallySplit(k, buys, q, i);
    TallySplit(k, buys, q[i + 1..], j - i - 1);
    CountIsNatural(k.id, buys, q[..i]);
    CountIsNatural(k.id, buys, q[i + 1..][..j - i - 1]);
    CountIsNatural(k.id, buys, q[i + 1..][j - i..]);
  }

  lemma WithoutTally(k: Measure, buys: bool, q: seq<OrderView>, o: OrderView)
    requires o in q && AllOn(IsBuy(o.terms), q)
    requires Tally(Count(o.terms.id), IsBuy(o.terms), q) <= 1
    ensures Tally(k, buys, Without(q, o.terms.id)) == Tally(k, buys, q) - One(k, buys, o)
  {
    var j :| 0 <= j < |q| && q[j] == o;
    assert Contains(q, o.terms.id);
    var i := WithoutExact(q, o.terms.id);
    if i < j { CountTwice(IsBuy(o.terms), q, i, j); }
    if j < i { CountTwice(IsBuy(o.terms), q, j, i); }
    TallySplit(k, buys, q, i);
    TallyConcat(k, buys, q[..i], q[i + 1..]);
  }

  // No order id occurs twice on the book.
  ghost predicate DistinctOn(b: BookView, id: nat) {
    BookTally(Count(id), true, b) + BookTally(Count(id), false, b) <= 1
  }

  lemma RemoveTally(k: Measure, buys: bool, b: BookView, o: OrderView)
    requires BookOk(b) && In(b, o) && DistinctOn(b, o.terms.id)
    ensures BookTally(k, buys, Remove(b, o.terms)) == BookTally(k, buys, b) - One(k, buys, o)
  {
    var id, isBuy := o.terms.id, IsBuy(o.terms);
    var s := SideOf(b, isBuy);
    CountsAreNatural(b, id, true);
    CountsAreNatural(b, id, false);
    if o.terms.price.None? {
      WithoutTally(k, buys, s.market, o);
    } else {
      WithoutTally(k, buys, s.queue, o);
    }
  }

  lemma CountsAreNatural(b: BookView, id: nat, buys: bool)
    ensures Tally(Count(id), buys, b.bids.market) >= 0 && Tally(Count(id), buys, b.bids.queue) >= 0
    ensures Tally(Count(id), buys, b.asks.market) >= 0 && Tally(Count(id), buys, b.asks.queue) >= 0
  {
    CountIsNatural(id, buys, b.bids.market);
    CountIsNatural(id, buys, b.bids.queue);
    CountIsNatural(id, buys, b.asks.market);
    CountIsNatural(id, buys, b.asks.queue);
  }

  // ---- re-queueing by sequence -----------------------------------------------------

  lemma {:induction false} InsertBySequenceMembers(s: seq<OrderView>, o: OrderView)
    ensures forall x :: x in InsertBySequence(s, o) <==> x in s || x == o
    decreases |s|
  {
    if s != [] && s[|s| - 1].terms.sequence > o.terms.sequence {
      InsertBySequenceMembers(s[..|s| - 1], o);
      assert s == s[..|s| - 1] + [s[|s| - 1]];
    }
  }

  lemma {:induction false} InsertBySequenceTally(k: Measure, buys: bool, s: seq<OrderView>, o: OrderView)
    ensures Tally(k, buys, InsertBySequence(s, o)) == Tally(k, buys, s) + One(k, buys, o)
    decreases |s|
  {
    if s == [] {
    } else if s[|s| - 1].terms.sequence <= o.terms.sequence {
      TallyConcat(k, buys, s, [o]);
    } else {
      var front, last := s[..|s| - 1], s[|s| - 1];
      InsertBySequenceTally(k, buys, front, o);
      TallyConcat(k, buys, InsertBySequence(front, o), [last]);
      TallyConcat(k, buys, front, [last]);
      assert s == front + [last];
    }
  }

  lemma {:induction false} SortMembers(s: seq<OrderView>)
    ensures forall x :: x in SortBySequence(s) <==> x in s
    decreases |s|
  {
    if s != [] {
      SortMembers(s[..|s| - 1]);
      InsertBySequenceMembers(SortBySequence(s[..|s| - 1]), s[|s| - 1]);
      assert s == s[..|s| - 1] + [s[|s| - 1]];
    }
  }

  lemma {:induction false} SortTally(k: Measure, buys: bool, s: seq<OrderView>)
    ensures Tally(k, buys, SortBySequence(s)) == Tally(k, buys, s)
    decreases |s|
  {
    if s != [] {
      var front, last := s[..|s| - 1], s[|s| - 1];
      SortTally(k, buys, front);
      InsertBySequenceTally(k, buys, SortBySequence(front), last);
      TallyConcat(k, buys, front, [last]);
      assert s == front + [last];
    }
  }

  lemma RequeueTally(k: Measure, buys: bool, isBuy: bool, q: seq<OrderView>, o: OrderView)
    ensures Tally(k, buys, Requeue(isBuy, q, o)) == Tally(k, buys, q) + One(k, buys, o)
  {
    AheadIsBeforePlace(isBuy, q, Px(o));
    var i, j := Ahead(isBuy, q, Px(o)), Place(isBuy, q, Px(o));
    SortTally(k, buys, q[i..j] + [o]);
    ReplaceMiddle(k, buys, q, i, j, SortBySequence(q[i..j] + [o]), o);
  }

  lemma ReplaceMiddle(k: Measure, buys: bool, q: seq<OrderView>, i: nat, j: nat, middle: seq<OrderView>, o: OrderView)
    requires i <= j <= |q| && Tally(k, buys, middle) == Tally(k, buys, q[i..j] + [o])
    ensures Tally(k, buys, q[..i] + middle + q[j..]) == Tally(k, buys, q) + One(k, buys, o)
  {
    CutInThree(q, i, j);
    TallyConcat(k, buys, q[i..j], [o]);
    TallyOfThree(k, buys, q[..i], middle, q[j..]);
    TallyOfThree(k, buys, q[..i], q[i..j], q[j..]);
  }

  lemma TallyOfThree(k: Measure, buys: bool, a: seq<OrderView>, b: seq<OrderView>, c: seq<OrderView>)
    ensures Tally(k, buys, a + b + c) == Tally(k, buys, a) + Tally(k, buys, b) + Tally(k, buys, c)
  {
    TallyConcat(k, buys, a + b, c);
    TallyConcat(k, buys, a, b);
  }

  lemma ReinsertTally(k: Measure, buys: bool, b: BookView, o: OrderView)
    ensures BookTally(k, buys, Reinsert(b, o)) == BookTally(k, buys, b) + One(k, buys, o)
  {
    var isBuy := IsBuy(o.terms);
    var s := SideOf(b, isBuy);
    if o.terms.price.None? {
      SortTally(k, buys, s.market + [o]);
      TallyConcat(k, buys, s.market, [o]);
    } else {
      RequeueTally(k, buys, isBuy, s.queue, o);
    }
  }

  // Around the cuts i and j of a sorted queue: better than p, at p, worse.
  lemma CutPrices(isBuy: bool, q: seq<OrderView>, p: int, i: nat, j: nat, x: nat)
    requires Sorted(isBuy, q) && x < |q| && i <= j <= |q|
    requires forall k :: 0 <= k < i ==> Better(isBuy, Px(q[k]), p)
    requires forall k :: 0 <= k < j ==> !Better(isBuy, p, Px(q[k]))
    requires i < |q| ==> !Better(isBuy, Px(q[i]), p)
    requires j < |q| ==> Better(isBuy, p, Px(q[j]))
    ensures x < i ==> Better(isBuy, Px(q[x]), p)
    ensures i <= x < j ==> Px(q[x]) == p
    ensures j <= x ==> Better(isBuy, p, Px(q[x]))
  {
    if i < x { assert !Better(isBuy, Px(q[x]), Px(q[i])); }
    if j < x { assert !Better(isBuy, Px(q[x]), Px(q[j])); }
  }

  // The orders at one price are the queue between Ahead and Place.
  lemma LevelPrices(isBuy: bool, q: seq<OrderView>, p: int)
    requires Sorted(isBuy, q)
    ensures var i, j := Ahead(isBuy, q, p), Place(isBuy, q, p);
      && i <= j
      && (forall x :: 0 <= x < i ==> Better(isBuy, Px(q[x]), p))
      && (forall x :: i <= x < j ==> Px(q[x]) == p)
      && (forall x :: j <= x < |q| ==> Better(isBuy, p, Px(q[x])))
  {
    AheadIsBeforePlace(isBuy, q, p);
    var i, j := Ahead(isBuy, q, p), Place(isBuy, q, p);
    forall x | 0 <= x < |q|
      ensures (x < i ==> Better(isBuy, Px(q[x]), p)) && (i <= x < j ==> Px(q[x]) == p)
      ensures j <= x ==> Better(isBuy, p, Px(q[x]))
    {
      CutPrices(isBuy, q, p, i, j, x);
    }
  }

  lemma RequeueMembers(isBuy: bool, q: seq<OrderView>, o: OrderView)
    ensures forall x :: x in Requeue(isBuy, q, o) <==> x in q || x == o
  {
    AheadIsBeforePlace(isBuy, q, Px(o));
    var i, j := Ahead(isBuy, q, Px(o)), Place(isBuy, q, Px(o));
    CutInThree(q, i, j);
    forall x ensures x in Requeue(isBuy, q, o) <==> x in q || x == o {
      RequeueMember(q[..i], q[i..j], q[j..], o, x);
    }
  }

  lemma InThree(a: seq<OrderView>, b: seq<OrderView>, c: seq<OrderView>, x: OrderView)
    ensures x in a + b + c <==> x in a || x in b || x in c
  {
    InConcat(x, a + b, c);
    InConcat(x, a, b);
  }

  lemma RequeueMember(a: seq<OrderView>, level: seq<OrderView>, c: seq<OrderView>, o: OrderView, x: OrderView)
    ensures x in a + SortBySequence(level + [o]) + c <==> x in a + level + c || x == o
  {
    SortMembers(level + [o]);
    InConcat(x, level, [o]);
    InThree(a, SortBySequence(level + [o]), c, x);
    InThree(a, level, c, x);
  }

  lemma SortedInThree(isBuy: bool, a: seq<OrderView>, b: seq<OrderView>, c: seq<OrderView>, p: int)
    requires Sorted(isBuy, a) && Sorted(isBuy, c)
    requires forall i :: 0 <= i < |a| ==> Better(isBuy, Px(a[i]), p)
    requires forall i :: 0 <= i < |b| ==> Px(b[i]) == p
    requires forall i :: 0 <= i < |c| ==> Better(isBuy, p, Px(c[i]))
    ensures Sorted(isBuy, a + b + c)
  {
    var all, n, m := a + b + c, |a|, |a + b|;
    forall i, j | 0 <= i < j < |all| ensures !Better(isBuy, Px(all[j]), Px(all[i])) {
      assert all[i] == if i < n then a[i] else if i < m then b[i - n] else c[i - m];
      assert all[j] == if j < n then a[j] else if j < m then b[j - n] else c[j - m];
    }
  }

  lemma LevelSorted(level: seq<OrderView>, o: OrderView, p: int)
    requires Px(o) == p && forall x :: 0 <= x < |level| ==> Px(level[x]) == p
    ensures forall x :: 0 <= x < |SortBySequence(level + [o])| ==> Px(SortBySequence(level + [o])[x]) == p
  {
    var r := SortBySequence(level + [o]);
    SortMembers(level + [o]);
    forall x | 0 <= x < |r| ensures Px(r[x]) == p {
      assert r[x] in r;
      assert r[x] in level + [o];
    }
  }

  lemma RequeueSorted(isBuy: bool, q: seq<OrderView>, o: OrderView)
    requires Sorted(isBuy, q)
    ensures Sorted(isBuy, Requeue(isBuy, q, o))
  {
    var p := Px(o);
    LevelPrices(isBuy, q, p);
    var i, j := Ahead(isBuy, q, p), Place(isBuy, q, p);
    FrontSorted(isBuy, q, p, i);
    BackSorted(isBuy, q, p, j);
    LevelAlike(q, i, j, p);
    LevelSorted(q[i..j], o, p);
    SortedInThree(isBuy, q[..i], SortBySequence(q[i..j] + [o]), q[j..], p);
  }

  lemma FrontSorted(isBuy: bool, q: seq<OrderView>, p: int, i: nat)
    requires Sorted(isBuy, q) && i <= |q| && forall x :: 0 <= x < i ==> Better(isBuy, Px(q[x]), p)
    ensures Sorted(isBuy, q[..i]) && forall x :: 0 <= x < |q[..i]| ==> Better(isBuy, Px(q[..i][x]), p)
  {
  }

  lemma BackSorted(isBuy: bool, q: seq<OrderView>, p: int, j: nat)
    requires Sorted(isBuy, q) && j <= |q| && forall x :: j <= x < |q| ==> Better(isBuy, p, Px(q[x]))
    ensures Sorted(isBuy, q[j..]) && forall x :: 0 <= x < |q[j..]| ==> Better(isBuy, p, Px(q[j..][x]))
  {
  }

  lemma LevelAlike(q: seq<OrderView>, i: nat, j: nat, p: int)
    requires i <= j <= |q| && forall x :: i <= x < j ==> Px(q[x]) == p
    ensures forall x :: 0 <= x < |q[i..j]| ==> Px(q[i..j][x]) == p
  {
  }

  lemma ReinsertOk(b: BookView, o: OrderView)
    requires BookOk(b) && Restable(IsBuy(o.terms), o)
    ensures BookOk(Reinsert(b, o)) && In(Reinsert(b, o), o)
  {
    var isBuy := IsBuy(o.terms);
    var s := SideOf(b, isBuy);
    if o.terms.price.None? {
      var r := SortBySequence(s.market + [o]);
      SortMembers(s.market + [o]);
      forall x | 0 <= x < |r| ensures Restable(isBuy, r[x]) && r[x].terms.price.None? {
        assert r[x] in r;
        assert r[x] in s.market || r[x] == o;
      }
    } else {
      RequeueMembers(isBuy, s.queue, o);
      RequeueSorted(isBuy, s.queue, o);
      var r := Requeue(isBuy, s.queue, o);
      forall x | 0 <= x < |r| ensures Restable(isBuy, r[x]) && r[x].terms.price.Some? {
        assert r[x] in r;
        assert r[x] in s.queue || r[x] == o;
      }
    }
  }
}
