// Orders, their execution state and the events the core reports
// (exchangesim/core/orders.py, enums.py, events.py).
module Orders {
  import opened Options

  datatype Side = Buy | Sell | SellShort | SellShortExempt

  datatype OrderType = Limit | Market

  datatype TimeInForce = Day | Ioc | Fok

  datatype Status =
    | PendingNew | New | PartiallyFilled | Filled | Cancelled
    | Replaced | PendingCancel | PendingReplace | Rejected | Expired

  datatype StpMode = NoPrevention | CancelNewest | CancelOldest | Decrement

  datatype Liquidity = Added | Removed

  datatype CancelReason =
    | UserRequest | IocRemainder | MarketRemainder | FokUnfilled | MinQtyUnmet
    | SelfTradePrevention

  predicate Terminal(s: Status) {
    s.Filled? || s.Cancelled? || s.Replaced? || s.Rejected? || s.Expired?
  }

  predicate LiveStatus(s: Status) {
    s.New? || s.PartiallyFilled? || s.PendingCancel? || s.PendingReplace?
  }

  // What an order asks for. A participant or self-match key of 0 means absent.
  datatype Terms = Terms(
    id: nat, side: Side, orderType: OrderType, tif: TimeInForce, price: Option<int>,
    minQty: int, postOnly: bool, mpid: nat, stpId: nat, stpInstruction: Option<StpMode>,
    sequence: int)

  // The value of an order at one moment: its terms and its execution state.
  datatype OrderView = OrderView(
    terms: Terms, quantity: int, cumQty: int, notional: int, status: Status)

  predicate IsBuy(t: Terms) {
    t.side == Buy
  }

  function Leaves(o: OrderView): (r: int)
    ensures r >= 0
    ensures Terminal(o.status) ==> r == 0
    ensures r > 0 ==> r == o.quantity - o.cumQty
  {
    if Terminal(o.status) || o.quantity <= o.cumQty then 0 else o.quantity - o.cumQty
  }

  predicate Immediate(t: Terms) {
    t.tif == Ioc || t.tif == Fok
  }

  function WithFill(o: OrderView, quantity: int, price: int): (r: OrderView)
    requires 0 < quantity <= Leaves(o)
    ensures Leaves(r) == Leaves(o) - quantity
    ensures Leaves(r) == 0 <==> r.status == Filled
  {
    o.(cumQty := o.cumQty + quantity,
       notional := o.notional + price * quantity,
       status := if o.cumQty + quantity >= o.quantity then Filled else PartiallyFilled)
  }

  function WithReduction(o: OrderView, amount: int): (r: OrderView)
    ensures 0 <= amount <= Leaves(o) ==> Leaves(r) == Leaves(o) - amount
    ensures 0 <= amount && Leaves(o) <= amount ==> Leaves(r) == 0
  {
    var q := if o.cumQty >= o.quantity - amount then o.cumQty else o.quantity - amount;
    var shrunk := o.(quantity := q);
    if Leaves(shrunk) == 0 && !Terminal(o.status)
    then shrunk.(status := if o.cumQty != 0 then Filled else Cancelled)
    else shrunk
  }

  function WithCancel(o: OrderView): (r: OrderView)
    ensures Leaves(r) == 0 && Terminal(r.status)
    ensures Terminal(o.status) ==> r == o
  {
    if Terminal(o.status) then o else o.(status := Cancelled)
  }

  datatype Event =
    | Accepted(orderId: nat, cumQty: int, leavesQty: int, orderQty: int)
    | PostOnlyRejected(orderId: nat)
    | FillReported(orderId: nat, quantity: int, price: int, tradeId: nat, liquidity: Liquidity,
             counterparty: nat, counterpartyMpid: nat,
             cumQty: int, leavesQty: int, notional: int, orderQty: int)
    | Traded(price: int, quantity: int, tradeId: nat, buyId: nat, sellId: nat,
             aggressor: Option<Side>)
    | OrderCancelled(orderId: nat, reason: CancelReason)
    | Decremented(orderId: nat, amount: int)

  function FillReport(o: OrderView, quantity: int, price: int, tradeId: nat,
                      liquidity: Liquidity, other: OrderView): Event
  {
    FillReported(o.terms.id, quantity, price, tradeId, liquidity, other.terms.id, other.terms.mpid,
                 o.cumQty, Leaves(o), o.notional, o.quantity)
  }

  function AcceptedReport(o: OrderView): Event {
    Accepted(o.terms.id, o.cumQty, Leaves(o), o.quantity)
  }

  class Order {
    const id: nat
    const side: Side
    const orderType: OrderType
    const mpid: nat
    const stpId: nat
    const stpInstruction: Option<StpMode>
    const sequence: int
    var tif: TimeInForce
    var price: Option<int>
    var quantity: int
    var minQty: int
    var postOnly: bool
    var cumQty: int
    var notional: int
    var status: Status

    constructor (id: nat, side: Side, orderType: OrderType, tif: TimeInForce,
                 price: Option<int>, quantity: int, minQty: int, postOnly: bool,
                 mpid: nat, stpId: nat, stpInstruction: Option<StpMode>, sequence: int)
      ensures View() == OrderView(Terms(id, side, orderType, tif, price, minQty, postOnly,
                                        mpid, stpId, stpInstruction, sequence),
                                  quantity, 0, 0, New)
      ensures this.id == id && this.side == side && this.sequence == sequence
    {
      this.id, this.side, this.orderType, this.tif := id, side, orderType, tif;
      this.price, this.quantity, this.minQty, this.postOnly := price, quantity, minQty, postOnly;
      this.mpid, this.stpId, this.stpInstruction := mpid, stpId, stpInstruction;
      this.sequence := sequence;
      cumQty, notional, status := 0, 0, New;
    }

    function View(): (v: OrderView)
      reads this
    {
      OrderView(Terms(id, side, orderType, tif, price, minQty, postOnly, mpid, stpId,
                      stpInstruction, sequence),
                quantity, cumQty, notional, status)
    }

    function LeavesQty(): (r: int)
      reads this
      ensures r == Leaves(View())
    {
      if Terminal(status) then 0 else if quantity - cumQty > 0 then quantity - cumQty else 0
    }

    method ApplyFill(quantity: int, price: int)
      requires 0 < quantity <= LeavesQty()
      modifies this`cumQty, this`notional, this`status
      ensures View() == WithFill(old(View()), quantity, price)
    {
      cumQty := cumQty + quantity;
      notional := notional + price * quantity;
      status := if cumQty >= this.quantity then Filled else PartiallyFilled;
    }

    method ReduceQuantity(amount: int)
      modifies this`quantity, this`status
      ensures View() == WithReduction(old(View()), amount)
    {
      quantity := if cumQty >= quantity - amount then cumQty else quantity - amount;
      if LeavesQty() == 0 && !Terminal(status) {
        status := if cumQty != 0 then Filled else Cancelled;
      }
    }

    method CancelOrder()
      modifies this`status
      ensures View() == WithCancel(old(View()))
    {
      if !Terminal(status) {
        status := Cancelled;
      }
    }
  }

  // The values, position by position, of a list of order objects.
  function Views(s: seq<Order>): (r: seq<OrderView>)
    reads s
    ensures |r| == |s|
    ensures forall i :: 0 <= i < |s| ==> r[i] == s[i].View()
  {
    seq(|s|, i requires 0 <= i < |s| reads s => s[i].View())
  }
}
