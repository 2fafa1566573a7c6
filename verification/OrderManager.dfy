/** The order manager as it runs: a table of order slots by ticker and side that its methods change in
    place, and the requests it sends (trading/strategy/order_manager.h and .cpp). Position and total PnL
    are read from the position keeper and come in as arguments. */
module OrderManager {
  import opened Types
  import opened OrderSlots
  import opened Exposure

  /** sideToIndex (common/types.h). */
  function SideIndex(side: Side): (k: nat)
    ensures k < 4
  {
    (SideValue(side) + 1) as nat
  }

  /** The request a move sends, if any. */
  function Sent(client: nat, slot: Slot, id: nat, side: Side, price: int, qty: nat, move: Move): seq<Request> {
    match move
    case Stay => []
    case Withdraw => [Cancel(client, slot.orderId)]
    case Place => [New(client, id, side, price, qty)]
  }

  function Moved(slot: Slot, ticker: nat, id: nat, side: Side, price: int, qty: nat, move: Move): Slot {
    match move
    case Stay => slot
    case Withdraw => slot.(state := PendingCancel)
    case Place => Slot(ticker, id, side, price, qty, PendingNew)
  }

  class OrderManager {
    const client: nat
    const slots: array2<Slot>
    const hysteresis: seq<int>
    const limits: seq<Limits>
    var nextOrderId: nat
    var outgoing: seq<Request>

    ghost predicate Valid() {
      slots.Length0 == |hysteresis| == |limits| == ME_MAX_TICKERS && slots.Length1 == 4
    }

    constructor (client: nat, hysteresis: seq<int>, limits: seq<Limits>)
      requires |hysteresis| == |limits| == ME_MAX_TICKERS
      ensures Valid() && fresh(slots) && nextOrderId == 1 && outgoing == []
      ensures forall t, k :: 0 <= t < ME_MAX_TICKERS && 0 <= k < 4 ==> slots[t, k] == NO_ORDER
      ensures this.client == client && this.hysteresis == hysteresis && this.limits == limits
    {
      this.client, this.hysteresis, this.limits := client, hysteresis, limits;
      slots := new Slot[ME_MAX_TICKERS, 4]((_, _) => NO_ORDER);
      nextOrderId, outgoing := 1, [];
    }

    function At(ticker: nat, side: Side): Slot
      requires Valid() && ticker < ME_MAX_TICKERS
      reads slots
    {
      slots[ticker, SideIndex(side)]
    }

    /** Only one slot may differ from before. */
    twostate predicate OnlySlot(ticker: nat, side: Side)
      requires Valid()
      reads slots
    {
      forall t, k :: 0 <= t < ME_MAX_TICKERS && 0 <= k < 4 && (t != ticker || k != SideIndex(side)) ==>
        slots[t, k] == old(slots[t, k])
    }

    /** onOrderUpdate (order_manager.h:28-59). */
    method OnOrderUpdate(ticker: nat, r: Response)
      requires Valid() && ticker < ME_MAX_TICKERS
      modifies slots
      ensures At(ticker, r.side) == React(old(At(ticker, r.side)), r) && OnlySlot(ticker, r.side)
    {
      var order := slots[ticker, SideIndex(r.side)];
      match r.kind {
        case Accepted => order := order.(state := Live);
        case Canceled => order := order.(state := Dead);
        case Filled =>
          order := order.(qty := r.leavesQty);
          if order.qty == 0 {
            order := order.(state := Dead);
          }
        case CancelRejected =>
      }
      slots[ticker, SideIndex(r.side)] := order;
    }

    /** newOrder (order_manager.cpp:6-25). */
    method NewOrder(ticker: nat, price: int, side: Side, qty: nat)
      requires Valid() && ticker < ME_MAX_TICKERS
      modifies this, slots
      ensures outgoing == old(outgoing) + [New(client, old(nextOrderId), side, price, qty)] && nextOrderId == old(nextOrderId) + 1
      ensures At(ticker, side) == Slot(ticker, old(nextOrderId), side, price, qty, PendingNew) && OnlySlot(ticker, side)
    {
      outgoing := outgoing + [New(client, nextOrderId, side, price, qty)];
      slots[ticker, SideIndex(side)] := Slot(ticker, nextOrderId, side, price, qty, PendingNew);
      nextOrderId := nextOrderId + 1;
    }

    /** cancelOrder (order_manager.cpp:27-44). */
    method CancelOrder(ticker: nat, side: Side)
      requires Valid() && ticker < ME_MAX_TICKERS
      modifies `outgoing, slots
      ensures outgoing == old(outgoing) + [Cancel(client, old(At(ticker, side)).orderId)]
      ensures At(ticker, side) == old(At(ticker, side)).(state := PendingCancel) && OnlySlot(ticker, side)
    {
      var order := slots[ticker, SideIndex(side)];
      outgoing := outgoing + [Cancel(client, order.orderId)];
      slots[ticker, SideIndex(side)] := order.(state := PendingCancel);
    }

    /** moveOrder (order_manager.h:70-114). */
    method MoveOrder(ticker: nat, price: int, side: Side, qty: nat, position: int, lossTooLarge: bool)
      requires Valid() && ticker < ME_MAX_TICKERS
      modifies this, slots
      ensures var move := MoveOf(old(At(ticker, side)), price, hysteresis[ticker],
                                 CheckPreTradeRisk(limits[ticker], position, side, qty, lossTooLarge));
              && At(ticker, side) == Moved(old(At(ticker, side)), ticker, old(nextOrderId), side, price, qty, move)
              && outgoing == old(outgoing) + Sent(client, old(At(ticker, side)), old(nextOrderId), side, price, qty, move)
              && nextOrderId == old(nextOrderId) + (if move.Place? then 1 else 0)
      ensures OnlySlot(ticker, side)
    {
      var order := slots[ticker, SideIndex(side)];
      match order.state {
        case Live =>
          if Distance(order, price) > hysteresis[ticker] {
            CancelOrder(ticker, side);
          }
        case Unset =>
          if price != PRICE_INVALID {
            if CheckPreTradeRisk(limits[ticker], position, side, qty, lossTooLarge).Allowed? {
              NewOrder(ticker, price, side, qty);
            }
          }
        case Dead =>
          if price != PRICE_INVALID {
            if CheckPreTradeRisk(limits[ticker], position, side, qty, lossTooLarge).Allowed? {
              NewOrder(ticker, price, side, qty);
            }
          }
        case PendingNew =>
        case PendingCancel =>
      }
    }

    function MoveAt(ticker: nat, price: int, side: Side, qty: nat, position: int, loss: bool): Move
      requires Valid() && ticker < ME_MAX_TICKERS
      reads slots
    {
      MoveOf(At(ticker, side), price, hysteresis[ticker], CheckPreTradeRisk(limits[ticker], position, side, qty, loss))
    }

    /** Only the two quoting slots of a ticker may differ from before. */
    twostate predicate OnlyTicker(ticker: nat)
      requires Valid()
      reads slots
    {
      forall t, k :: 0 <= t < ME_MAX_TICKERS && 0 <= k < 4 && (t != ticker || (k != SideIndex(Buy) && k != SideIndex(Sell))) ==>
        slots[t, k] == old(slots[t, k])
    }

    /** moveOrders (order_manager.h:116-131): both sides see the same position, and the ask takes the id
        after the bid's. */
    method MoveOrders(ticker: nat, bid: int, ask: int, clip: nat, position: int, loss: bool)
      requires Valid() && ticker < ME_MAX_TICKERS
      modifies this, slots
      ensures var b, a := old(MoveAt(ticker, bid, Buy, clip, position, loss)), old(MoveAt(ticker, ask, Sell, clip, position, loss));
              var id := old(nextOrderId);
              var id' := if b.Place? then id + 1 else id;
              && At(ticker, Buy) == Moved(old(At(ticker, Buy)), ticker, id, Buy, bid, clip, b)
              && At(ticker, Sell) == Moved(old(At(ticker, Sell)), ticker, id', Sell, ask, clip, a)
              && outgoing == old(outgoing) + Sent(client, old(At(ticker, Buy)), id, Buy, bid, clip, b)
                             + Sent(client, old(At(ticker, Sell)), id', Sell, ask, clip, a)
              && nextOrderId == if a.Place? then id' + 1 else id'
      ensures OnlyTicker(ticker)
    {
      MoveOrder(ticker, bid, Buy, clip, position, loss);
      MoveOrder(ticker, ask, Sell, clip, position, loss);
    }

    /** cancelOrders (order_manager.h:136-145): every live order of the ticker is withdrawn and nothing
        is placed. */
    method CancelOrders(ticker: nat)
      requires Valid() && ticker < ME_MAX_TICKERS
      modifies `outgoing, slots
      ensures forall side: Side :: !side.NoSide? ==>
                At(ticker, side) == (if old(At(ticker, side)).state.Live? then old(At(ticker, side)).(state := PendingCancel)
                                     else old(At(ticker, side)))
      ensures outgoing == old(outgoing)
                + (if old(At(ticker, Buy)).state.Live? then [Cancel(client, old(At(ticker, Buy)).orderId)] else [])
                + (if old(At(ticker, Sell)).state.Live? then [Cancel(client, old(At(ticker, Sell)).orderId)] else [])
      ensures OnlyTicker(ticker)
    {
      if slots[ticker, SideIndex(Buy)].state.Live? {
        CancelOrder(ticker, Buy);
      }
      if slots[ticker, SideIndex(Sell)].state.Live? {
        CancelOrder(ticker, Sell);
      }
    }
  }

  /** The protocol's quote step is the order manager's move: same slot, same counter, same request. */
  lemma QuoteIsMove(s: System, lim: Limits, side: Side, price: int, qty: nat, tolerance: int, loss: bool)
    requires !side.NoSide?
    ensures var c, slot := s.client, s.client.On(side);
            var move := MoveOf(slot, price, tolerance, CheckPreTradeRisk(lim, c.position, side, qty, loss));
            var t := QuoteStep(s, lim, side, price, qty, tolerance, loss);
            && t.client.On(side) == Moved(slot, 0, c.nextId, side, price, qty, move)
            && t.client.On(Opposite(side)) == c.On(Opposite(side))
            && t.requests == s.requests + multiset(Sent(0, slot, c.nextId, side, price, qty, move))
            && t.client.nextId == c.nextId + (if move.Place? then 1 else 0)
            && t.live == s.live && t.responses == s.responses && t.executed == s.executed && t.client.position == c.position
  {
    assert s.requests + multiset([]) == s.requests;
  }
}
