/** What a quote comes to (trading/strategy/order_manager.h:70-114): when it withdraws, places or leaves
    alone, and that once its answers are heard whatever is live is within tolerance of it. */
module Quotes {
  import opened Types
  import opened OrderSlots
  import opened Exposure

  predicate Pending(slot: Slot) {
    slot.state.PendingNew? || slot.state.PendingCancel?
  }

  /** Two prices are at most `tolerance` apart. */
  predicate Near(p: int, q: int, tolerance: int) {
    -tolerance <= p - q <= tolerance
  }

  /** The quote is too far from the order that is out; no price at all is far from every one. */
  predicate Far(slot: Slot, price: int, tolerance: int) {
    if price == PRICE_INVALID then tolerance < PRICE_INVALID else !Near(slot.price, price, tolerance)
  }

  /** The whole effect of a quote: a live order that is too far is withdrawn, an empty slot takes an order of
      exactly that price and quantity if a price was given and the check allows it, and in every other case
      nothing is sent and nothing changes. */
  lemma QuoteDecides(s: System, lim: Limits, side: Side, price: int, qty: nat, tolerance: int, loss: bool)
    requires !side.NoSide?
    ensures var c, slot := s.client, s.client.On(side);
            QuoteStep(s, lim, side, price, qty, tolerance, loss) ==
            if slot.state.Live? && Far(slot, price, tolerance) then
              s.(client := c.With(side, slot.(state := PendingCancel)), requests := s.requests + multiset{Cancel(0, slot.orderId)})
            else if (slot.state.Unset? || slot.state.Dead?) && price != PRICE_INVALID
                    && CheckPreTradeRisk(lim, c.position, side, qty, loss).Allowed? then
              s.(client := c.With(side, Slot(0, c.nextId, side, price, qty, PendingNew)).(nextId := c.nextId + 1),
                 requests := s.requests + multiset{New(0, c.nextId, side, price, qty)})
            else s
  {
  }

  /** What a response does to its slot: acceptance makes it live, a cancellation or a last fill ends it, a fill
      leaves it what is left, and a rejection changes nothing; which order is in the slot never changes. */
  lemma AnswerDecides(slot: Slot, r: Response)
    ensures var t := React(slot, r);
            && t.ticker == slot.ticker && t.orderId == slot.orderId && t.side == slot.side && t.price == slot.price
            && t.qty == (if r.kind.Filled? then r.leavesQty else slot.qty)
            && t.state == (if r.kind.Accepted? then Live
                           else if r.kind.Canceled? || (r.kind.Filled? && r.leavesQty == 0) then Dead
                           else slot.state)
  {
  }

  // ---------------------------------------------------------------------- live orders are as the slots say

  ghost predicate LivePrices(s: System) {
    forall id :: id in s.live ==> s.live[id].price == s.client.On(s.live[id].side).price
  }

  lemma QuoteLivePrices(s: System, t: System, lim: Limits, side: Side, price: int, qty: nat, tolerance: int, loss: bool)
    requires Flow(s) && LivePrices(s) && !side.NoSide? && t == QuoteStep(s, lim, side, price, qty, tolerance, loss)
    ensures LivePrices(t)
  {
    QuoteDecides(s, lim, side, price, qty, tolerance, loss);
    forall id | id in t.live
      ensures t.live[id].price == t.client.On(t.live[id].side).price
    {
      LiveIsOwn(s, id);
    }
  }

  lemma RespondLivePrices(s: System, t: System)
    requires LivePrices(s) && s.responses != [] && t == RespondStep(s)
    ensures LivePrices(t)
  {
    assert forall side: Side :: t.client.On(side).price == s.client.On(side).price;
  }

  lemma StepLivePrices(s: System, t: System, lim: Limits, e: Event)
    requires Flow(s) && LivePrices(s) && Possible(s, e) && t == Step(s, lim, e)
    ensures LivePrices(t)
  {
    match e
    case Quote(side, price, qty, tolerance, loss) => QuoteLivePrices(s, t, lim, side, price, qty, tolerance, loss);
    case Elsewhere =>
    case TakeNew(id, side, price, qty) => AskedFor(s, id, side, price, qty);
    case TakeCancel(id) =>
    case Fill(id, exec) => assert t.client == s.client;
    case Respond => RespondLivePrices(s, t);
  }

  // ---------------------------------------------------------------------- until the next quote

  /** An order that is out or on its way, and not being withdrawn, is within tolerance of the quote. */
  ghost predicate Meets(slot: Slot, price: int, tolerance: int) {
    slot.state.Live? || slot.state.PendingNew? ==> price != PRICE_INVALID && Near(slot.price, price, tolerance)
  }

  lemma QuoteMeets(s: System, t: System, lim: Limits, side: Side, price: int, qty: nat, tolerance: int, loss: bool)
    requires !side.NoSide? && !Pending(s.client.On(side)) && 0 <= tolerance < PRICE_INVALID
    requires t == QuoteStep(s, lim, side, price, qty, tolerance, loss)
    ensures Meets(t.client.On(side), price, tolerance)
  {
    QuoteDecides(s, lim, side, price, qty, tolerance, loss);
  }

  /** No quote for this side. */
  ghost predicate Unquoted(es: seq<Event>, side: Side) {
    forall i :: 0 <= i < |es| && es[i].Quote? ==> es[i].side != side
  }

  lemma QuoteElsewhere(s: System, t: System, lim: Limits, side: Side, other: Side, price: int, qty: nat, tolerance: int, loss: bool)
    requires !side.NoSide? && !other.NoSide? && side != other && t == QuoteStep(s, lim, other, price, qty, tolerance, loss)
    ensures t.client.On(side) == s.client.On(side)
  {
    QuoteDecides(s, lim, other, price, qty, tolerance, loss);
  }

  lemma RespondMeets(s: System, t: System, side: Side, price: int, tolerance: int)
    requires Flow(s) && !side.NoSide? && s.responses != [] && t == RespondStep(s) && Meets(s.client.On(side), price, tolerance)
    ensures Meets(t.client.On(side), price, tolerance)
  {
    if s.responses[0].side == side {
      RespondSide(s, t, side);
      assert t.client.On(side).price == s.client.On(side).price;
    } else {
      RespondOther(s, t, side);
    }
  }

  lemma StepMeets(s: System, t: System, lim: Limits, e: Event, side: Side, price: int, tolerance: int)
    requires Flow(s) && !side.NoSide? && Possible(s, e) && t == Step(s, lim, e) && (e.Quote? ==> e.side != side)
    requires Meets(s.client.On(side), price, tolerance)
    ensures Meets(t.client.On(side), price, tolerance)
  {
    match e
    case Quote(other, p, q, tol, loss) => QuoteElsewhere(s, t, lim, side, other, p, q, tol, loss);
    case Elsewhere =>
    case TakeNew(id, _, _, _) =>
    case TakeCancel(id) =>
    case Fill(id, exec) =>
    case Respond => RespondMeets(s, t, side, price, tolerance);
  }

  lemma {:induction false} RunMeets(s: System, lim: Limits, es: seq<Event>, side: Side, price: int, tolerance: int)
    requires Flow(s) && Current(s) && LivePrices(s) && !side.NoSide? && PossibleAll(s, lim, es) && Unquoted(es, side)
    requires Meets(s.client.On(side), price, tolerance)
    ensures var t := StepAll(s, lim, es); Flow(t) && LivePrices(t) && Meets(t.client.On(side), price, tolerance)
    decreases |es|
  {
    if es != [] {
      var t := Step(s, lim, es[0]);
      StepKeeps(s, t, lim, es[0]);
      StepCurrent(s, t, lim, es[0]);
      StepLivePrices(s, t, lim, es[0]);
      StepMeets(s, t, lim, es[0], side, price, tolerance);
      RunMeets(t, lim, es[1..], side, price, tolerance);
    }
  }

  lemma {:induction false} RunLivePrices(s: System, lim: Limits, es: seq<Event>)
    requires Flow(s) && Current(s) && LivePrices(s) && PossibleAll(s, lim, es)
    ensures var t := StepAll(s, lim, es); Flow(t) && Current(t) && LivePrices(t)
    decreases |es|
  {
    if es != [] {
      var t := Step(s, lim, es[0]);
      StepKeeps(s, t, lim, es[0]);
      StepCurrent(s, t, lim, es[0]);
      StepLivePrices(s, t, lim, es[0]);
      RunLivePrices(t, lim, es[1..]);
    }
  }

  /** Every order of the side at the exchange is within tolerance of the price. */
  ghost predicate AllNear(s: System, side: Side, price: int, tolerance: int) {
    forall id :: id in s.live && s.live[id].side == side ==> price != PRICE_INVALID && Near(s.live[id].price, price, tolerance)
  }

  lemma MeetsIsNear(s: System, side: Side, price: int, tolerance: int)
    requires Flow(s) && LivePrices(s) && !s.client.On(side).state.PendingCancel? && Meets(s.client.On(side), price, tolerance)
    ensures AllNear(s, side, price, tolerance)
  {
    forall id | id in s.live && s.live[id].side == side
      ensures price != PRICE_INVALID && Near(s.live[id].price, price, tolerance)
    {
      LiveIsOwn(s, id);
    }
  }

  /** In any run, whatever the limits: a quote is made while the slot waits for nothing, and anything may
      follow but another quote for that side. Whenever the slot is not waiting for a cancel, every order of
      that side that is live at the exchange is within tolerance of the quote; a quote at no price leaves
      none. */
  lemma QuoteIsMet(lim: Limits, es: seq<Event>, side: Side, price: int, qty: nat, tolerance: int, loss: bool, fs: seq<Event>)
    requires PossibleAll(IDLE, lim, es) && !side.NoSide? && qty < TWO_32 && 0 <= tolerance < PRICE_INVALID
    requires !Pending(StepAll(IDLE, lim, es).client.On(side)) && Unquoted(fs, side)
    requires PossibleAll(QuoteStep(StepAll(IDLE, lim, es), lim, side, price, qty, tolerance, loss), lim, fs)
    ensures var t := StepAll(QuoteStep(StepAll(IDLE, lim, es), lim, side, price, qty, tolerance, loss), lim, fs);
            && (t.client.On(side).state.Live? ==> price != PRICE_INVALID && Near(t.client.On(side).price, price, tolerance))
            && (!t.client.On(side).state.PendingCancel? ==> AllNear(t, side, price, tolerance))
  {
    assert Flow(IDLE) && Current(IDLE) && LivePrices(IDLE);
    RunLivePrices(IDLE, lim, es);
    var s := StepAll(IDLE, lim, es);
    var q := QuoteStep(s, lim, side, price, qty, tolerance, loss);
    QuoteKeeps(s, q, lim, side, price, qty, tolerance, loss);
    QuoteCurrent(s, q, lim, side, price, qty, tolerance, loss);
    QuoteLivePrices(s, q, lim, side, price, qty, tolerance, loss);
    QuoteMeets(s, q, lim, side, price, qty, tolerance, loss);
    RunMeets(q, lim, fs, side, price, tolerance);
    var t := StepAll(q, lim, fs);
    if !t.client.On(side).state.PendingCancel? {
      MeetsIsNear(t, side, price, tolerance);
    }
  }

  /** In any run, whatever the limits: a side never has two live orders, each live order is at the price its
      slot holds, and every response on its way answers the order that is in its slot. */
  lemma SlotsAreCurrent(lim: Limits, es: seq<Event>)
    requires PossibleAll(IDLE, lim, es)
    ensures var s := StepAll(IDLE, lim, es);
            && Current(s) && LivePrices(s)
            && (forall i, j :: i in s.live && j in s.live && s.live[i].side == s.live[j].side ==> i == j)
  {
    assert Flow(IDLE) && Current(IDLE) && LivePrices(IDLE);
    RunLivePrices(IDLE, lim, es);
    var s := StepAll(IDLE, lim, es);
    forall i, j | i in s.live && j in s.live && s.live[i].side == s.live[j].side
      ensures i == j
    {
      LiveIsOwn(s, i);
      LiveIsOwn(s, j);
    }
  }
}
