/** The backtest engine's phases as they run, on queues and slots changed in place
    (backtest/backtest_engine.cpp:235-439), each proved to do what Backtest says. */
module BacktestEngine {
  import opened Types
  import opened OrderSlots
  import opened Exposure
  import opened Backtest

  lemma {:induction false} TakeFirst(t: Told, rs: seq<AlgoRequest>)
    requires rs != []
    ensures TakeAll(t, rs) == TakeAll(TakeOnce(t, rs[0]), rs[1..])
    decreases |rs|
  {
    if |rs| > 1 {
      TakeFirst(t, rs[..|rs| - 1]);
      assert rs[..|rs| - 1][1..] == rs[1..][..|rs| - 2];
    } else {
      assert rs[..0] == [];
    }
  }

  lemma {:induction false} HearFirst(s: Sim, rs: seq<Response>)
    requires rs != []
    ensures HearAll(s, rs) == HearAll(HearOnce(s, rs[0]), rs[1..])
    decreases |rs|
  {
    if |rs| > 1 {
      HearFirst(s, rs[..|rs| - 1]);
      assert rs[..|rs| - 1][1..] == rs[1..][..|rs| - 2];
    } else {
      assert rs[..0] == [];
    }
  }

  class BacktestEngine {
    var buy: Slot
    var sell: Slot
    var nextOrderId: nat
    var bid: AlgoOrder
    var ask: AlgoOrder
    var touch: Touch
    var clientRequests: seq<AlgoRequest>
    var clientResponses: seq<Response>

    constructor ()
      ensures State() == OPENING && clientRequests == [] && clientResponses == []
    {
      buy, sell, nextOrderId := NO_ORDER, NO_ORDER, 1;
      bid, ask, touch := NOTHING, NOTHING, Touch(PRICE_INVALID, 0, PRICE_INVALID, 0);
      clientRequests, clientResponses := [], [];
    }

    function State(): Sim
      reads this
    {
      Sim(buy, sell, nextOrderId, bid, ask, touch)
    }

    function Now(): Told
      reads this
    {
      Told(State(), clientResponses)
    }

    method Hold(side: Side, o: AlgoOrder)
      modifies `bid, `ask
      ensures State() == old(State()).Holding(side, o)
    {
      if side.Buy? {
        bid := o;
      } else {
        ask := o;
      }
    }

    method PublishResponse(r: Response)
      modifies `clientResponses
      ensures clientResponses == old(clientResponses) + [r]
    {
      clientResponses := clientResponses + [r];
    }

    /** The fill that both matchers share (lines 323-337, 397-411). */
    method FillOrder(side: Side, o: AlgoOrder, price: int, qty: nat)
      requires qty <= o.leaves
      modifies `bid, `ask, `clientResponses
      ensures State() == old(State()).Holding(side, Filling(o, side, price, qty).order)
      ensures clientResponses == old(clientResponses) + Filling(o, side, price, qty).replies
    {
      var leaves := o.leaves - qty;
      Hold(side, if leaves == 0 then NOTHING else o.(leaves := leaves));
      PublishResponse(Said(Filled, o.id, side, price, qty, leaves));
    }

    /** sweepBid and sweepAsk with their guards (lines 307-383). */
    method Sweep(side: Side)
      modifies `bid, `ask, `clientResponses
      ensures var r := Swept(old(State()).Held(side), side, old(touch));
              State() == old(State()).Holding(side, r.order) && clientResponses == old(clientResponses) + r.replies
    {
      var o := if side.Buy? then bid else ask;
      var price, qty := touch.Price(Opposite(side)), touch.Qty(Opposite(side));
      if o.leaves > 0 && price != PRICE_INVALID && (if side.Buy? then o.price >= price else o.price <= price) {
        if o.ahead > 0 {
          PublishResponse(Said(Canceled, o.id, side, o.price, 0, 0));
          Hold(side, NOTHING);
        } else {
          FillOrder(side, o, price, Min(o.leaves, qty));
        }
      }
    }

    /** matchAgainstBBO (lines 296-385). */
    method MatchAgainstBBO()
      modifies `bid, `ask, `clientResponses
      ensures Now() == MatchSide(MatchSide(old(Now()), Buy, BookEvent(old(touch), [])), Sell, BookEvent(old(touch), []))
    {
      Sweep(Buy);
      Sweep(Sell);
    }

    /** The two arms of matchAgainstTrade (lines 389-437). */
    method Print(side: Side, tradeSide: Side, price: int, qty: nat)
      modifies `bid, `ask, `clientResponses
      ensures var r := Printed(old(State()).Held(side), side, tradeSide, price, qty);
              State() == old(State()).Holding(side, r.order) && clientResponses == old(clientResponses) + r.replies
    {
      var o := if side.Buy? then bid else ask;
      if tradeSide == Opposite(side) && o.leaves > 0 && (if side.Buy? then price <= o.price else price >= o.price) {
        var eat := Min(o.ahead, qty);
        var left := o.(ahead := o.ahead - eat);
        Hold(side, left);
        var remaining := qty - eat;
        if remaining > 0 && left.ahead == 0 {
          FillOrder(side, left, o.price, Min(left.leaves, remaining));
        }
      }
    }

    /** matchAgainstTrade (lines 387-439): a print of one side concerns the resting order of the other. */
    method MatchAgainstTrade(tradeSide: Side, price: int, qty: nat)
      modifies `bid, `ask, `clientResponses
      ensures var e := TradeEvent(tradeSide, price, qty, []);
              Now() == MatchSide(MatchSide(old(Now()), Buy, e), Sell, e)
    {
      Print(Buy, tradeSide, price, qty);
      Print(Sell, tradeSide, price, qty);
    }

    /** pumpClientRequests, one request (lines 238-277). */
    method TakeRequest(r: AlgoRequest)
      modifies `bid, `ask, `clientResponses
      ensures Now() == TakeOnce(old(Now()), r)
    {
      if r.isNew {
        Hold(r.side, AlgoOrder(r.id, r.price, r.qty, if r.price == touch.Price(r.side) then touch.Qty(r.side) else 0));
        PublishResponse(Said(Accepted, r.id, r.side, r.price, 0, r.qty));
      } else {
        Hold(r.side, NOTHING);
        PublishResponse(Said(Canceled, r.id, r.side, r.price, 0, r.qty));
      }
    }

    /** pumpClientRequests (lines 235-279). */
    method PumpClientRequests()
      modifies `bid, `ask, `clientRequests, `clientResponses
      ensures Now() == TakeAll(old(Now()), old(clientRequests)) && clientRequests == []
    {
      while clientRequests != []
        invariant TakeAll(Now(), clientRequests) == TakeAll(old(Now()), old(clientRequests))
        decreases |clientRequests|
      {
        TakeFirst(Now(), clientRequests);
        TakeRequest(clientRequests[0]);
        clientRequests := clientRequests[1..];
      }
    }

    /** pumpClientResponses (lines 281-287), down to the order manager's slots. */
    method PumpClientResponses()
      modifies `buy, `sell, `clientResponses
      ensures State() == HearAll(old(State()), old(clientResponses)) && clientResponses == []
    {
      while clientResponses != []
        invariant HearAll(State(), clientResponses) == HearAll(old(State()), old(clientResponses))
        decreases |clientResponses|
      {
        var r := clientResponses[0];
        HearFirst(State(), clientResponses);
        match r.side {
          case Buy => buy := React(buy, r);
          case Sell => sell := React(sell, r);
          case NoSide =>
        }
        clientResponses := clientResponses[1..];
      }
    }

    /** A quote during a callback: the order manager moves its slot and may queue a request
        (trading/strategy/order_manager.h:70-114). */
    method MoveOrder(q: Quoting)
      modifies `buy, `sell, `nextOrderId, `clientRequests
      ensures Asked(State(), clientRequests) == QuoteOnce(old(Asked(State(), clientRequests)), q)
    {
      var slot := if q.side.Buy? then buy else sell;
      var id := nextOrderId;
      match MoveOf(slot, q.price, q.tolerance, q.risk) {
        case Stay =>
          assert clientRequests + [] == clientRequests;
        case Withdraw =>
          clientRequests := clientRequests + [AlgoRequest(false, slot.orderId, q.side, slot.price, slot.qty)];
          SetSlot(q.side, slot.(state := PendingCancel));
        case Place =>
          clientRequests := clientRequests + [AlgoRequest(true, id, q.side, q.price, q.qty)];
          SetSlot(q.side, Slot(0, id, q.side, q.price, q.qty, PendingNew));
          nextOrderId := nextOrderId + 1;
      }
    }

    method SetSlot(side: Side, slot: Slot)
      modifies `buy, `sell
      ensures State() == old(State()).With(side, slot)
    {
      if side.Buy? {
        buy := slot;
      } else {
        sell := slot;
      }
    }

    method Quotes(quotes: seq<Quoting>)
      requires clientRequests == []
      modifies `buy, `sell, `nextOrderId, `clientRequests
      ensures Asked(State(), clientRequests) == QuoteAll(old(State()), quotes)
    {
      var i := 0;
      while i < |quotes|
        invariant i <= |quotes| && Asked(State(), clientRequests) == QuoteAll(old(State()), quotes[..i])
      {
        assert quotes[..i + 1][..i] == quotes[..i];
        MoveOrder(quotes[i]);
        i := i + 1;
      }
      assert quotes[..i] == quotes;
    }

    /** One event from end to end (lines 113-131): market data and the quotes it provokes, the touch, the
        simulated fills, the queued requests, the queued responses. */
    method OnEvent(e: Backtest.Event)
      requires clientRequests == [] && clientResponses == []
      modifies this
      ensures State() == After(old(State()), e) && clientRequests == [] && clientResponses == []
    {
      Quotes(e.quotes);
      match e {
        case BookEvent(t, _) =>
          touch := t;
          MatchAgainstBBO();
        case TradeEvent(side, price, qty, _) =>
          MatchAgainstTrade(side, price, qty);
      }
      PumpClientRequests();
      PumpClientResponses();
    }
  }
}
