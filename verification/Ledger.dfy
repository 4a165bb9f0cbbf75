// What orders have executed, what trades were reported, and which orders exist:
// one tally for all three, so that one set of lemmas accounts for them.
module Ledger {
  import opened Options
  import opened Orders
  import opened PriceLevels
  import opened Matching
  import opened BookRules
  import opened Auction
  import opened AuctionTrading

  // Executed quantity, executed value, or the number of orders with a given id.
  datatype Measure = Quantity | Value | Count(id: nat)

  function Amount(k: Measure, o: OrderView): int {
    match k
    case Quantity => o.cumQty
    case Value => o.notional
    case Count(id) => if o.terms.id == id then 1 else 0
  }

  // An order's amount, if it is on the side counted.
  function One(k: Measure, buys: bool, o: OrderView): int {
    if IsBuy(o.terms) == buys then Amount(k, o) else 0
  }

  function Tally(k: Measure, buys: bool, s: seq<OrderView>): int {
    if s == [] then 0 else One(k, buys, s[0]) + Tally(k, buys, s[1..])
  }

  function ReportedBy(k: Measure, e: Event): int {
    if !e.Traded? then 0
    else
      match k
      case Quantity => e.quantity
      case Value => e.price * e.quantity
      case Count(_) => 0
  }

  function Reported(k: Measure, events: seq<Event>): int {
    if events == [] then 0 else ReportedBy(k, events[0]) + Reported(k, events[1..])
  }

  lemma {:induction false} TallyConcat(k: Measure, buys: bool, a: seq<OrderView>, b: seq<OrderView>)
    ensures Tally(k, buys, a + b) == Tally(k, buys, a) + Tally(k, buys, b)
    decreases |a|
  {
    if a == [] {
      assert a + b == b;
    } else {
      assert (a + b)[1..] == a[1..] + b;
      TallyConcat(k, buys, a[1..], b);
    }
  }

  lemma {:induction false} ReportedConcat(k: Measure, a: seq<Event>, b: seq<Event>)
    ensures Reported(k, a + b) == Reported(k, a) + Reported(k, b)
    decreases |a|
  {
    if a == [] {
      assert a + b == b;
    } else {
      assert (a + b)[1..] == a[1..] + b;
      ReportedConcat(k, a[1..], b);
    }
  }

  lemma ReportedByFew(k: Measure, e: seq<Event>)
    ensures e == [] ==> Reported(k, e) == 0
    ensures |e| == 1 ==> Reported(k, e) == ReportedBy(k, e[0])
    ensures |e| == 2 ==> Reported(k, e) == ReportedBy(k, e[0]) + ReportedBy(k, e[1])
    ensures |e| == 3 ==> Reported(k, e) == ReportedBy(k, e[0]) + ReportedBy(k, e[1]) + ReportedBy(k, e[2])
  {
    if |e| == 2 { assert e[1..] == [e[1]]; }
    if |e| == 3 { assert e[1..] == [e[1], e[2]] && e[1..][1..] == [e[2]]; }
  }

  // ---- matching ------------------------------------------------------------------

  lemma MeetTally(k: Measure, mode: StpMode, inc: OrderView, resting: OrderView, nextTrade: nat)
    requires Leaves(inc) > 0 && Leaves(resting) > 0
    ensures var m := Meet(mode, inc, resting);
      var reported := Reported(k, MeetEvents(mode, inc, resting, m, nextTrade));
      Amount(k, m.incoming) - Amount(k, inc) == Amount(k, m.resting) - Amount(k, resting) == reported
  {
    var m := Meet(mode, inc, resting);
    ReportedByFew(k, MeetEvents(mode, inc, resting, m, nextTrade));
  }

  ghost predicate AllOn(buys: bool, q: seq<OrderView>) {
    forall i :: 0 <= i < |q| ==> IsBuy(q[i].terms) == buys
  }

  // The incoming order and the resting side each gain exactly what is reported.
  lemma {:induction false} WalkTallyIncoming(k: Measure, mode: StpMode, inc: OrderView, q: seq<OrderView>, nextTrade: nat)
    requires AllOpen(q)
    ensures var w := MatchWalk(mode, inc, q, nextTrade);
      Amount(k, w.incoming) == Amount(k, inc) + Reported(k, w.events)
    decreases |q|
  {
    if Leaves(inc) > 0 && Meets(inc.terms, q) {
      MeetTally(k, mode, inc, q[0], nextTrade);
      var m := Meet(mode, inc, q[0]);
      if m.gone && !m.stop {
        var e, next := MeetEvents(mode, inc, q[0], m, nextTrade), if m.traded > 0 then nextTrade + 1 else nextTrade;
        WalkTallyIncoming(k, mode, m.incoming, q[1..], next);
        ReportedConcat(k, e, MatchWalk(mode, m.incoming, q[1..], next).events);
      }
    }
  }

  lemma {:induction false} WalkTallyResting(k: Measure, mode: StpMode, inc: OrderView, q: seq<OrderView>, nextTrade: nat, buys: bool)
    requires AllOpen(q) && AllOn(buys, q)
    ensures var w := MatchWalk(mode, inc, q, nextTrade);
      Tally(k, buys, w.done) + Tally(k, buys, w.rest) == Tally(k, buys, q) + Reported(k, w.events)
    decreases |q|
  {
    if Leaves(inc) > 0 && Meets(inc.terms, q) {
      MeetTally(k, mode, inc, q[0], nextTrade);
      var m := Meet(mode, inc, q[0]);
      if m.gone && !m.stop {
        var e, next := MeetEvents(mode, inc, q[0], m, nextTrade), if m.traded > 0 then nextTrade + 1 else nextTrade;
        WalkTallyResting(k, mode, m.incoming, q[1..], next, buys);
        var t := MatchWalk(mode, m.incoming, q[1..], next);
        WalkOn(mode, inc, q, nextTrade, m, e, next, t);
        ReportedConcat(k, e, t.events);
        TallyConcat(k, buys, [m.resting], t.done);
      }
    }
  }

  lemma {:induction false} OtherSideTally(k: Measure, buys: bool, s: seq<OrderView>)
    requires AllOn(!buys, s)
    ensures Tally(k, buys, s) == 0
  {
    if s != [] {
      OtherSideTally(k, buys, s[1..]);
    }
  }

  // ---- the auction ----------------------------------------------------------------

  lemma TallyStep(k: Measure, buys: bool, q: seq<OrderView>, o: OrderView, done: seq<OrderView>)
    requires q != []
    ensures Tally(k, buys, Done(o) + done) + Tally(k, buys, Next(q, o)) ==
      Tally(k, buys, done) + Tally(k, buys, q) - One(k, buys, q[0]) + One(k, buys, o)
  {
    TallyConcat(k, buys, Done(o), done);
    assert Leaves(o) == 0 ==> Done(o)[1..] == [];
    assert Leaves(o) != 0 ==> Next(q, o)[1..] == q[1..];
  }

  lemma {:induction false} PairOffTally(k: Measure, buys: seq<OrderView>, sells: seq<OrderView>, price: int, nextTrade: nat)
    requires AllOpen(buys) && AllOpen(sells) && AllOn(true, buys) && AllOn(false, sells)
    ensures var r := PairOff(buys, sells, price, nextTrade);
      && Tally(k, true, r.buysDone) + Tally(k, true, r.buys) == Tally(k, true, buys) + Reported(k, r.events)
      && Tally(k, false, r.sellsDone) + Tally(k, false, r.sells) == Tally(k, false, sells) + Reported(k, r.events)
    decreases |buys| + |sells|
  {
    if buys != [] && sells != [] {
      var q := Least(Leaves(buys[0]), Leaves(sells[0]));
      var b, s := WithFill(buys[0], q, price), WithFill(sells[0], q, price);
      PairOffTally(k, Next(buys, b), Next(sells, s), price, nextTrade + 1);
      var t := PairOff(Next(buys, b), Next(sells, s), price, nextTrade + 1);
      TallyStep(k, true, buys, b, t.buysDone);
      TallyStep(k, false, sells, s, t.sellsDone);
      var e := PairEvents(b, s, q, price, nextTrade);
      ReportedByFew(k, e);
      ReportedConcat(k, e, t.events);
    }
  }
}
