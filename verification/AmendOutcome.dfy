// Where an amended order stands when it loses its place, or has nothing left
// (exchangesim/core/matching.py amend).
module AmendOutcome {
  import opened Options
  import opened Orders
  import opened PriceLevels
  import opened Matching
  import opened BookRules
  import opened Ledger
  import opened BookInvariants
  import opened Trading

  // The list an order stands on.
  function ListOf(s: SideView, t: Terms): seq<OrderView> {
    if t.price.None? then s.market else s.queue
  }

  // A side whose list is l, as the terms say which.
  function WithList(s: SideView, t: Terms, l: seq<OrderView>): SideView {
    if t.price.None? then s.(market := l) else s.(queue := l)
  }

  // The order as amended: quantity and price where they are given, and nothing else.
  predicate AmendedTo(o: OrderView, newQuantity: Option<int>, newPrice: Option<int>, a: OrderView) {
    && a.quantity == (if newQuantity.Some? then newQuantity.value else o.quantity)
    && a.terms.price == (if newPrice.Some? then newPrice else o.terms.price)
    && a == o.(quantity := a.quantity, terms := o.terms.(price := a.terms.price))
  }

  // An order of the side comes off its list, and the others close up.
  ghost predicate Off(s: SideView, o: OrderView, i: nat, off: SideView) {
    var l := ListOf(s, o.terms);
    i < |l| && l[i] == o && off == WithList(s, o.terms, l[..i] + l[i + 1..])
  }

  // An order comes on behind everyone at least as good; a priceless one behind all such.
  ghost predicate On(isBuy: bool, off: SideView, a: OrderView, j: nat, s: SideView) {
    var l := ListOf(off, a.terms);
    && j <= |l| && s == WithList(off, a.terms, l[..j] + [a] + l[j..])
    && (if a.terms.price.None? then j == |l|
        else
          && (forall k :: 0 <= k < j ==> !Better(isBuy, Px(a), Px(l[k])))
          && (forall k :: j <= k < |l| ==> Better(isBuy, Px(a), Px(l[k]))))
  }

  lemma ComesOff(b: BookView, o: OrderView) returns (i: nat)
    requires BookOk(b) && In(b, o) && DistinctOn(b, o.terms.id)
    ensures Off(SideOf(b, IsBuy(o.terms)), o, i, SideOf(Remove(b, o.terms), IsBuy(o.terms)))
  {
    var l := ListOf(SideOf(b, IsBuy(o.terms)), o.terms);
    InRests(b, o);
    i := WithoutExact(l, o.terms.id);
    var j :| 0 <= j < |l| && l[j] == o;
    ListedOnce(b, o);
    FoundOnce(IsBuy(o.terms), l, i, j);
  }

  lemma ListedOnce(b: BookView, o: OrderView)
    requires BookOk(b) && DistinctOn(b, o.terms.id)
    ensures var isBuy := IsBuy(o.terms);
      var l := ListOf(SideOf(b, isBuy), o.terms);
      Tally(Count(o.terms.id), isBuy, l) <= 1 && AllOn(isBuy, l)
  {
    CountsAreNatural(b, o.terms.id, true);
    CountsAreNatural(b, o.terms.id, false);
  }

  lemma FoundOnce(isBuy: bool, l: seq<OrderView>, i: nat, j: nat)
    requires i < |l| && j < |l| && l[i].terms.id == l[j].terms.id && Tally(Count(l[i].terms.id), isBuy, l) <= 1
    requires IsBuy(l[i].terms) == IsBuy(l[j].terms) == isBuy
    ensures i == j
  {
    if i < j { CountTwice(isBuy, l, i, j); }
    if j < i { CountTwice(isBuy, l, j, i); }
  }

  lemma ComesOn(isBuy: bool, off: SideView, a: OrderView) returns (j: nat)
    requires LimitQueue(isBuy, off.queue) && Sorted(isBuy, off.queue)
    ensures On(isBuy, off, a, j, if a.terms.price.None? then off.(market := off.market + [a])
                                 else off.(queue := Insert(isBuy, off.queue, a)))
  {
    var l := ListOf(off, a.terms);
    if a.terms.price.None? {
      j := |l|;
      assert l[..j] + [a] + l[j..] == l + [a];
    } else {
      j := Place(isBuy, l, Px(a));
      forall k | j <= k < |l| ensures Better(isBuy, Px(a), Px(l[k])) {
        assert k > j ==> !Better(isBuy, Px(l[k]), Px(l[j]));
      }
    }
  }

  lemma BookBehind(b: BookView, o: OrderView, newQuantity: Option<int>, newPrice: Option<int>, a: OrderView)
    requires Rests(b, o.terms) && AmendedTo(o, newQuantity, newPrice, a) && LiveStatus(a.status)
    requires a.quantity > o.quantity || a.terms.price != o.terms.price || a.quantity <= a.cumQty
    ensures AmendBook(b, o, newQuantity, newPrice) ==
      if a.quantity <= a.cumQty then Remove(b, o.terms) else Add(Remove(b, o.terms), a)
  {
    assert a == Amended(o, newQuantity, newPrice);
  }

  lemma AddedTo(b: BookView, a: OrderView)
    ensures var isBuy := IsBuy(a.terms);
      var off := SideOf(b, isBuy);
      && SideOf(Add(b, a), !isBuy) == SideOf(b, !isBuy)
      && SideOf(Add(b, a), isBuy) == if a.terms.price.None? then off.(market := off.market + [a])
                                     else off.(queue := Insert(isBuy, off.queue, a))
  {
  }

  // Raised in quantity or changed in price, the order goes behind everyone at its price;
  // with nothing left it leaves; and the others keep their order either way.
  lemma AmendGoesBehind(b: BookView, o: OrderView, newQuantity: Option<int>, newPrice: Option<int>, a: OrderView)
    returns (i: nat, off: SideView, j: nat)
    requires BookOk(b) && In(b, o) && DistinctOn(b, o.terms.id) && AmendedTo(o, newQuantity, newPrice, a)
    requires a.quantity > o.quantity || a.terms.price != o.terms.price || a.quantity <= a.cumQty
    ensures var isBuy, r := IsBuy(o.terms), AmendBook(b, o, newQuantity, newPrice);
      && SideOf(r, !isBuy) == SideOf(b, !isBuy) && Off(SideOf(b, isBuy), o, i, off)
      && if a.quantity <= a.cumQty then SideOf(r, isBuy) == off else On(isBuy, off, a, j, SideOf(r, isBuy))
  {
    var isBuy, t := IsBuy(o.terms), Remove(b, o.terms);
    i := ComesOff(b, o);
    j := 0;
    off := SideOf(t, isBuy);
    InRests(b, o);
    InRestable(b, o);
    RemoveOk(b, o.terms);
    BookBehind(b, o, newQuantity, newPrice, a);
    if a.quantity > a.cumQty {
      AddedTo(t, a);
      j := ComesOn(isBuy, off, a);
    }
  }

  // An order that is not on the book is put there by an amendment exactly when it is live
  // and has something left.
  lemma AmendOffTheBook(b: BookView, o: OrderView, newQuantity: Option<int>, newPrice: Option<int>, a: OrderView)
    requires !Rests(b, o.terms) && AmendedTo(o, newQuantity, newPrice, a)
    ensures AmendBook(b, o, newQuantity, newPrice) == if LiveStatus(o.status) && a.quantity > a.cumQty then Add(b, a) else b
  {
    var s := SideOf(b, IsBuy(o.terms));
    assert a == Amended(o, newQuantity, newPrice);
    WithoutAbsent(ListOf(s, o.terms), o.terms.id);
  }
}
