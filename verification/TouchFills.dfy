/** When the touch fills a resting order of the backtest and when it does not (backtest/backtest_engine.cpp:296-385),
    what a print fills and at which price (lines 387-439), and where a new order starts in the queue
    (lines 253-268), told by what the client hears and what is left. */
module TouchFills {
  import opened Types
  import opened OrderSlots
  import Exposure
  import opened Backtest
  import Lobster

  // ---------------------------------------------------------------------- what an event executes

  /** What the client hears about a side during an event, oldest first. */
  function Hears(s: Sim, e: Event, side: Side): seq<Response> {
    Exposure.Due(Done(s, e).replies, side)
  }

  function Best(side: Side, touch: Touch): int {
    if side.Buy? then touch.bidPrice else touch.askPrice
  }

  function Depth(side: Side, touch: Touch): nat {
    if side.Buy? then touch.bidQty else touch.askQty
  }

  /** What an event executes of an order: a touch that has come through it and finds it first in its queue takes
      what the touch shows, and a print that reaches it takes what the queue ahead leaves. */
  function Executes(o: AlgoOrder, side: Side, e: Event): nat {
    match e
    case BookEvent(touch, _) => if Through(o, side, touch) && o.ahead == 0 then Min(o.leaves, Depth(Opposite(side), touch)) else 0
    case TradeEvent(tradeSide, price, qty, _) =>
      Min(o.leaves, Beyond(if Reaches(Print(tradeSide, price, qty), side, o.price) then qty else 0, o.ahead))
  }

  lemma {:induction false} ExecutingConcat(rs: seq<Response>, ts: seq<Response>)
    ensures Exposure.Executing(rs + ts) == Exposure.Executing(rs) + Exposure.Executing(ts)
    decreases |rs|
  {
    if rs == [] {
      assert rs + ts == ts;
    } else {
      assert (rs + ts)[1..] == rs[1..] + ts;
      ExecutingConcat(rs[1..], ts);
    }
  }

  /** Requests execute nothing. */
  lemma {:induction false} TakenExecutesNothing(o: AlgoOrder, touch: Touch, rs: seq<AlgoRequest>)
    ensures Exposure.Executing(TakeSide(o, touch, rs).replies) == 0
    ensures forall i :: 0 <= i < |TakeSide(o, touch, rs).replies| ==> !TakeSide(o, touch, rs).replies[i].kind.Filled?
    decreases |rs|
  {
    if rs != [] {
      var r := TakeSide(o, touch, rs[..|rs| - 1]);
      var t := Taken(r.order, touch, rs[|rs| - 1]);
      TakenExecutesNothing(o, touch, rs[..|rs| - 1]);
      assert t.replies == [t.replies[0]];
      OneReply(t.replies[0]);
      ExecutingConcat(r.replies, t.replies);
    }
  }

  /** What the matchers say of one order: at most one thing. A fill is at the touch that came, or, by a print, at
      the order's own price; an order with a queue ahead that the touch has come through is cancelled. */
  ghost predicate MatchSays(o: AlgoOrder, side: Side, e: Event, rs: seq<Response>) {
    && Exposure.Executing(rs) == Executes(o, side, e) && |rs| <= 1
    && (rs != [] ==> rs[0].coid == o.id && rs[0].side == side)
    && (rs != [] && rs[0].kind.Filled? ==> rs[0].price == (if e.BookEvent? then Best(Opposite(side), e.touch) else o.price))
    && (rs != [] && rs[0].kind.Filled? ==> rs[0].leavesQty == o.leaves - rs[0].execQty)
    && (e.BookEvent? ==> (rs != [] <==> Through(o, side, e.touch)))
    && (e.BookEvent? && rs != [] ==> if o.ahead > 0 then rs[0].kind.Canceled? else rs[0].kind.Filled?)
  }

  lemma SweptSays(o: AlgoOrder, side: Side, e: Event)
    requires e.BookEvent? && !side.NoSide?
    ensures MatchSays(o, side, e, MatchOf(o, side, e.touch, e).replies)
  {
    var rs := MatchOf(o, side, e.touch, e).replies;
    if rs != [] {
      assert rs == [rs[0]];
      OneReply(rs[0]);
    }
  }

  lemma PrintedSays(o: AlgoOrder, side: Side, touch: Touch, e: Event)
    requires e.TradeEvent? && !side.NoSide?
    ensures MatchSays(o, side, e, MatchOf(o, side, touch, e).replies)
  {
    PrintFills(o, side, Print(e.side, e.price, e.qty));
  }

  /** Every event and side, in any state: the client hears of exactly what the event executes of the order that
      was resting, first, and hears of no other fill. */
  lemma EventExecutes(s: Sim, e: Event, side: Side) returns (first: seq<Response>, rest: seq<Response>)
    requires SidedQuotes(e.quotes) && !side.NoSide?
    ensures Hears(s, e, side) == first + rest && MatchSays(s.Held(side), side, e, first)
    ensures Exposure.Executing(Hears(s, e, side)) == Executes(s.Held(side), side, e)
    ensures forall i :: 0 <= i < |rest| ==> !rest[i].kind.Filled?
  {
    var o, touch := s.Held(side), TouchAt(s, e);
    var r := MatchOf(o, side, touch, e);
    var t := TakeSide(r.order, touch, Of(QuoteAll(s, e.quotes).requests, side));
    first, rest := r.replies, t.replies;
    EventSide(s, e, side);
    if e.BookEvent? {
      SweptSays(o, side, e);
    } else {
      PrintedSays(o, side, touch, e);
    }
    TakenExecutesNothing(r.order, touch, Of(QuoteAll(s, e.quotes).requests, side));
    ExecutingConcat(first, rest);
  }

  // ---------------------------------------------------------------------- over runs

  /** What the client hears is executed on a side in a run. */
  function ExecutedIn(s: Sim, es: seq<Event>, side: Side): nat
    decreases |es|
  {
    if es == [] then 0 else Exposure.Executing(Hears(s, es[0], side)) + ExecutedIn(After(s, es[0]), es[1..], side)
  }

  /** The same from the orders that rest and the events alone. */
  function Reckoned(s: Sim, es: seq<Event>, side: Side): nat
    decreases |es|
  {
    if es == [] then 0 else Executes(s.Held(side), side, es[0]) + Reckoned(After(s, es[0]), es[1..], side)
  }

  /** Over every run: all that is ever executed is what touches and prints take from the orders resting when they
      come. */
  lemma {:induction false} RunExecutes(s: Sim, es: seq<Event>, side: Side)
    requires SidedEvents(es) && !side.NoSide?
    ensures ExecutedIn(s, es, side) == Reckoned(s, es, side)
    decreases |es|
  {
    if es != [] {
      var first, rest := EventExecutes(s, es[0], side);
      RunExecutes(After(s, es[0]), es[1..], side);
    }
  }

  // ---------------------------------------------------------------------- what survives the touch

  /** The order is strictly on its own side of the touch. */
  predicate Inside(o: AlgoOrder, side: Side, touch: Touch) {
    if side.Buy? then touch.askPrice == PRICE_INVALID || o.price < touch.askPrice
    else touch.bidPrice == PRICE_INVALID || o.price > touch.bidPrice
  }

  lemma SweptLeaves(o: AlgoOrder, side: Side, touch: Touch)
    requires !side.NoSide? && o.leaves > 0
    ensures var t := Swept(o, side, touch).order;
            && (Inside(o, side, touch) ==> t == o)
            && (!Inside(o, side, touch) && o.ahead > 0 ==> t == NOTHING)
            && (!Inside(o, side, touch) && o.ahead == 0 ==> t.leaves == Beyond(o.leaves, Depth(Opposite(side), touch)))
            && (t.leaves > 0 ==> t == o.(leaves := t.leaves))
  {
  }

  lemma CancelLeavesNothing(slot: Slot, after: Slot, rs: seq<AlgoRequest>, side: Side, o: AlgoOrder, touch: Touch)
    requires AskedOnce(slot, after, rs, side) && slot.state.Live?
    ensures rs != [] ==> TakeSide(o, touch, rs).order == NOTHING
  {
    if rs != [] {
      TakeOne(o, touch, rs[0]);
    }
  }

  /** A cancel leaves nothing and a new order replaces whatever was there, so only without either does an order
      survive an event. */
  lemma SurvivorUnasked(s: Sim, e: Event, side: Side)
    requires InStep(s.On(side), s.Held(side)) && SidedQuotes(e.quotes) && !side.NoSide?
    requires s.Held(side).leaves > 0 && After(s, e).Held(side).leaves > 0
    ensures After(s, e).Held(side) == MatchOf(s.Held(side), side, TouchAt(s, e), e).order
  {
    var a, touch := QuoteAll(s, e.quotes), TouchAt(s, e);
    var r, rs := MatchOf(s.Held(side), side, touch, e), Of(a.requests, side);
    QuoteAllAsks(s, e.quotes, side);
    EventSide(s, e, side);
    CancelLeavesNothing(s.On(side), a.sim.On(side), rs, side, r.order, touch);
    TakeNone(r.order, touch);
  }

  /** After a book event an order that was there before is strictly inside the new touch and untouched, or was
      first in its queue and has taken all that the touch showed. */
  lemma SurvivorInside(s: Sim, e: Event, side: Side)
    requires InStep(s.On(side), s.Held(side)) && SidedQuotes(e.quotes) && !side.NoSide? && e.BookEvent?
    requires s.Held(side).leaves > 0 && After(s, e).Held(side).leaves > 0
    ensures var o, t := s.Held(side), After(s, e).Held(side);
            if Inside(o, side, e.touch) then t == o
            else o.ahead == 0 && t == o.(leaves := t.leaves) && t.leaves + Depth(Opposite(side), e.touch) == o.leaves
  {
    SurvivorUnasked(s, e, side);
    SweptLeaves(s.Held(side), side, e.touch);
  }

  /** Over every run with positive clips from the opening state. */
  lemma SurvivorsInside(es: seq<Event>, e: Event, side: Side)
    requires SidedEvents(es) && (forall i :: 0 <= i < |es| ==> PositiveClips(es[i].quotes))
    requires SidedQuotes(e.quotes) && !side.NoSide? && e.BookEvent?
    requires var s := AfterAll(OPENING, es); s.Held(side).leaves > 0 && After(s, e).Held(side).leaves > 0
    ensures var s := AfterAll(OPENING, es);
            var o, t := s.Held(side), After(s, e).Held(side);
            if Inside(o, side, e.touch) then t == o
            else o.ahead == 0 && t == o.(leaves := t.leaves) && t.leaves + Depth(Opposite(side), e.touch) == o.leaves
  {
    OpeningInStep();
    PositiveClipsStayInStep(OPENING, es);
    SurvivorInside(AfterAll(OPENING, es), e, side);
  }

  // ---------------------------------------------------------------------- where a new order queues

  /** What is displayed where an order joins: the depth of its own side's touch if it joins it, nothing if it
      improves on it or rests away from it. */
  function Displayed(side: Side, price: int, touch: Touch): nat {
    if price == Best(side, touch) then Depth(side, touch) else 0
  }

  lemma NewOrderRests(s: Sim, e: Event, side: Side, id: nat, price: int, qty: nat)
    requires SidedQuotes(e.quotes) && !side.NoSide?
    requires Of(QuoteAll(s, e.quotes).requests, side) == [AlgoRequest(true, id, side, price, qty)]
    ensures After(s, e).Held(side) == AlgoOrder(id, price, qty, Displayed(side, price, TouchAt(s, e)))
  {
    var touch, r := TouchAt(s, e), AlgoRequest(true, id, side, price, qty);
    EventSide(s, e, side);
    TakeOne(MatchOf(s.Held(side), side, touch, e).order, touch, r);
  }

  /** From its placement on: an order placed during an event, and then left alone by quotes and by the touch, is
      filled by the prints that reach its price beyond the depth displayed where it joined. */
  lemma PlacedOrderLaw(s: Sim, e: Event, side: Side, id: nat, price: int, qty: nat, es: seq<Event>)
    requires SidedQuotes(e.quotes) && SidedEvents(es) && !side.NoSide?
    requires Of(QuoteAll(s, e.quotes).requests, side) == [AlgoRequest(true, id, side, price, qty)]
    requires UndisturbedAll(After(s, e), es, side)
    ensures AfterAll(After(s, e), es).Held(side).leaves ==
            qty - Min(qty, Beyond(Reaching(PrintsOf(es), side, price), Displayed(side, price, TouchAt(s, e))))
  {
    NewOrderRests(s, e, side, id, price, qty);
    QueueLawOverRuns(After(s, e), es, side);
  }

  // ---------------------------------------------------------------------- order ids

  /** New orders among the requests carry consecutive ids from `from` up to `to`. */
  ghost predicate Numbered(rs: seq<AlgoRequest>, from: nat, to: nat) {
    if rs == [] then from == to
    else if rs[|rs| - 1].isNew then to > from && rs[|rs| - 1].id == to - 1 && Numbered(rs[..|rs| - 1], from, to - 1)
    else Numbered(rs[..|rs| - 1], from, to)
  }

  lemma NumberedSnoc(rs: seq<AlgoRequest>, r: AlgoRequest, from: nat, to: nat)
    requires from <= to && Numbered(rs, from, to) && (r.isNew ==> r.id == to)
    ensures Numbered(rs + [r], from, if r.isNew then to + 1 else to)
  {
    assert (rs + [r])[..|rs|] == rs;
  }

  /** A quote asks for at most one thing, and uses up an id exactly if that is a new order. */
  lemma QuoteAsks(a: Asked, q: Quoting, m: SlotMove, id: nat)
    requires id == a.sim.nextId && m == QuoteSlot(a.sim.On(q.side), id, q)
    ensures m.requests == [] || (m.requests == [m.requests[0]] && (m.requests[0].isNew ==> m.requests[0].id == id))
    ensures QuoteOnce(a, q).requests == a.requests + m.requests
    ensures QuoteOnce(a, q).sim.nextId == if m.requests != [] && m.requests[0].isNew then id + 1 else id
  {
  }

  lemma QuoteNumbers(a: Asked, q: Quoting, from: nat)
    requires from <= a.sim.nextId && Numbered(a.requests, from, a.sim.nextId)
    ensures var b := QuoteOnce(a, q); from <= b.sim.nextId && Numbered(b.requests, from, b.sim.nextId)
  {
    var m := QuoteSlot(a.sim.On(q.side), a.sim.nextId, q);
    QuoteAsks(a, q, m, a.sim.nextId);
    if m.requests == [] {
      assert a.requests + m.requests == a.requests;
    } else {
      NumberedSnoc(a.requests, m.requests[0], from, a.sim.nextId);
    }
  }

  lemma {:induction false} QuotesNumber(s: Sim, quotes: seq<Quoting>)
    ensures var a := QuoteAll(s, quotes); s.nextId <= a.sim.nextId && Numbered(a.requests, s.nextId, a.sim.nextId)
    decreases |quotes|
  {
    if quotes != [] {
      QuotesNumber(s, quotes[..|quotes| - 1]);
      QuoteNumbers(QuoteAll(s, quotes[..|quotes| - 1]), quotes[|quotes| - 1], s.nextId);
    }
  }

  lemma {:induction false} TakingKeepsIds(t: Told, rs: seq<AlgoRequest>)
    ensures TakeAll(t, rs).sim.nextId == t.sim.nextId
    decreases |rs|
  {
    if rs != [] {
      TakingKeepsIds(t, rs[..|rs| - 1]);
    }
  }

  lemma {:induction false} HearingKeepsIds(s: Sim, rs: seq<Response>)
    ensures HearAll(s, rs).nextId == s.nextId
    decreases |rs|
  {
    if rs != [] {
      HearingKeepsIds(s, rs[..|rs| - 1]);
    }
  }

  /** Every event hands out fresh, consecutive order ids, one for each new order and no other. */
  lemma EventNumbers(s: Sim, e: Event)
    ensures s.nextId <= After(s, e).nextId && Numbered(QuoteAll(s, e.quotes).requests, s.nextId, After(s, e).nextId)
  {
    var a := QuoteAll(s, e.quotes);
    QuotesNumber(s, e.quotes);
    var sim := match e case BookEvent(touch, _) => a.sim.(touch := touch) case TradeEvent(_, _, _, _) => a.sim;
    TakingKeepsIds(MatchSide(MatchSide(Told(sim, []), Buy, e), Sell, e), a.requests);
    HearingKeepsIds(Done(s, e).sim, Done(s, e).replies);
  }

  // ---------------------------------------------------------------------- an execution on a recorded tape

  /** An execution of a recorded tape, once it has become a print, takes from simulated orders of the side that was
      hit and of no other: an executed buy order (direction 1) means a seller came, who takes from bids at or
      above the price; any other direction takes from asks at or below it. */
  lemma TapeExecution(o: AlgoOrder, side: Side, direction: int, price: int, qty: nat)
    requires !side.NoSide?
    ensures var us := Lobster.PrintOf(true, direction, price, qty);
            && |us| == 1 && us[0].kind.Trade?
            && var hit := if side.Buy? then direction == 1 && price <= o.price else direction != 1 && price >= o.price;
            Exposure.Executing(Printed(o, side, us[0].side, us[0].price, us[0].qty).replies) ==
            Min(o.leaves, Beyond(if hit then qty else 0, o.ahead))
  {
    var u := Lobster.PrintOf(true, direction, price, qty)[0];
    PrintFills(o, side, Print(u.side, u.price, u.qty));
  }
}
