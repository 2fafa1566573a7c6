/** The backtest's fill simulator against the order manager (backtest/backtest_engine.cpp:235-439). Each
    event runs to completion: market data and quoting, simulated fills, then the queued requests, then
    the queued responses. */
module Backtest {
  import opened Types
  import opened OrderSlots
  import opened Exposure

  // ---------------------------------------------------------------------- one simulated order

  /** The simulator's slot for a side; empty when nothing is left to fill. */
  datatype AlgoOrder = AlgoOrder(id: nat, price: int, leaves: nat, ahead: nat)

  const NOTHING: AlgoOrder := AlgoOrder(ORDER_ID_INVALID, PRICE_INVALID, 0, 0)

  /** The best prices and quantities that the simulator keeps. */
  datatype Touch = Touch(bidPrice: int, bidQty: nat, askPrice: int, askQty: nat) {
    function Price(side: Side): int {
      if side.Buy? then bidPrice else askPrice
    }
    function Qty(side: Side): nat {
      if side.Buy? then bidQty else askQty
    }
  }

  /** A request in the simulator's queue; a cancel carries its side. */
  datatype AlgoRequest = AlgoRequest(isNew: bool, id: nat, side: Side, price: int, qty: nat)

  /** A step of the simulator on one slot: the slot afterwards and what the client will be told. */
  datatype Result = Result(order: AlgoOrder, replies: seq<Response>)

  /** The simulator answers under the client's own order id. */
  function Said(kind: ResponseKind, id: nat, side: Side, price: int, exec: nat, leaves: nat): Response {
    Response(kind, 0, id, id, side, price, exec, leaves)
  }

  function Filling(o: AlgoOrder, side: Side, price: int, qty: nat): Result
    requires qty <= o.leaves
  {
    var leaves := o.leaves - qty;
    Result(if leaves == 0 then NOTHING else o.(leaves := leaves), [Said(Filled, o.id, side, price, qty, leaves)])
  }

  /** matchAgainstBBO for one side: the opposite touch at or through our price (lines 307-383). */
  function Swept(o: AlgoOrder, side: Side, touch: Touch): Result {
    var price, qty := touch.Price(Opposite(side)), touch.Qty(Opposite(side));
    if o.leaves > 0 && price != PRICE_INVALID && (if side.Buy? then o.price >= price else o.price <= price) then
      if o.ahead > 0 then Result(NOTHING, [Said(Canceled, o.id, side, o.price, 0, 0)])
      else Filling(o, side, price, Min(o.leaves, qty))
    else Result(o, [])
  }

  predicate Eligible(o: AlgoOrder, side: Side, tradeSide: Side, price: int) {
    tradeSide == Opposite(side) && o.leaves > 0 && if side.Buy? then price <= o.price else price >= o.price
  }

  /** matchAgainstTrade for one side: the queue ahead is eaten first (lines 387-438). */
  function Printed(o: AlgoOrder, side: Side, tradeSide: Side, price: int, qty: nat): Result {
    if Eligible(o, side, tradeSide, price) then
      var eat := Min(o.ahead, qty);
      var left := o.(ahead := o.ahead - eat);
      if qty - eat > 0 && left.ahead == 0 then Filling(left, side, o.price, Min(o.leaves, qty - eat))
      else Result(left, [])
    else Result(o, [])
  }

  /** pumpClientRequests for one request: a new order joins behind the displayed depth if it joins the
      touch (lines 253-275). */
  function Taken(o: AlgoOrder, touch: Touch, r: AlgoRequest): Result {
    if r.isNew then
      Result(AlgoOrder(r.id, r.price, r.qty, if r.price == touch.Price(r.side) then touch.Qty(r.side) else 0),
             [Said(Accepted, r.id, r.side, r.price, 0, r.qty)])
    else Result(NOTHING, [Said(Canceled, r.id, r.side, r.price, 0, r.qty)])
  }

  // ---------------------------------------------------------------------- the queue law

  /** A trade print. */
  datatype Print = Print(side: Side, price: int, qty: nat)

  /** The print takes from orders of `side` at `price`: it is of the other side, at or through it. */
  predicate Reaches(p: Print, side: Side, price: int) {
    p.side == Opposite(side) && if side.Buy? then p.price <= price else p.price >= price
  }

  /** The volume of the prints that reach a price. */
  function Reaching(ps: seq<Print>, side: Side, price: int): nat {
    if ps == [] then 0 else (if Reaches(ps[0], side, price) then ps[0].qty else 0) + Reaching(ps[1..], side, price)
  }

  /** What prints fill of an order, one after the other. */
  function FilledBy(o: AlgoOrder, side: Side, ps: seq<Print>): nat
    decreases |ps|
  {
    if ps == [] then 0
    else
      var r := Printed(o, side, ps[0].side, ps[0].price, ps[0].qty);
      Executing(r.replies) + FilledBy(r.order, side, ps[1..])
  }

  function Beyond(total: nat, ahead: nat): nat {
    if total <= ahead then 0 else total - ahead
  }

  lemma OneReply(r: Response)
    ensures Executing([r]) == if r.kind.Filled? then r.execQty else 0
  {
    assert [r][1..] == [];
  }

  /** One print: if it reaches us it eats the queue ahead, then us. */
  lemma PrintFills(o: AlgoOrder, side: Side, p: Print)
    requires !side.NoSide?
    ensures var r, volume := Printed(o, side, p.side, p.price, p.qty), if Reaches(p, side, o.price) then p.qty else 0;
            && Executing(r.replies) == Min(o.leaves, Beyond(volume, o.ahead))
            && r.order.leaves == o.leaves - Min(o.leaves, Beyond(volume, o.ahead))
            && (r.order.leaves > 0 ==> r.order.ahead == Beyond(o.ahead, volume) && r.order.price == o.price)
  {
    var r := Printed(o, side, p.side, p.price, p.qty);
    if r.replies != [] {
      assert r.replies == [r.replies[0]];
      OneReply(r.replies[0]);
    }
  }

  /** Behind a queue of A, an order for L is filled by prints that reach it, of total volume T, for
      min(L, max(0, T - A)), however T is split and whatever else prints in between. */
  lemma {:induction false} QueueLaw(o: AlgoOrder, side: Side, ps: seq<Print>)
    requires !side.NoSide?
    ensures FilledBy(o, side, ps) == Min(o.leaves, Beyond(Reaching(ps, side, o.price), o.ahead))
    decreases |ps|
  {
    if ps != [] {
      PrintFills(o, side, ps[0]);
      QueueLaw(Printed(o, side, ps[0].side, ps[0].price, ps[0].qty).order, side, ps[1..]);
    }
  }

  // ---------------------------------------------------------------------- one event

  datatype Quoting = Quoting(side: Side, price: int, qty: nat, tolerance: int, risk: RiskCheckResult)

  datatype Event =
    | BookEvent(touch: Touch, quotes: seq<Quoting>)
    | TradeEvent(side: Side, price: int, qty: nat, quotes: seq<Quoting>)

  /** The order manager's slots, the simulator's slots and the touch, between events; both queues are
      empty then. */
  datatype Sim = Sim(buy: Slot, sell: Slot, nextId: nat, bid: AlgoOrder, ask: AlgoOrder, touch: Touch) {
    function On(side: Side): Slot {
      if side.Buy? then buy else sell
    }
    function With(side: Side, slot: Slot): Sim {
      if side.Buy? then this.(buy := slot) else this.(sell := slot)
    }
    function Held(side: Side): AlgoOrder {
      if side.Buy? then bid else ask
    }
    function Holding(side: Side, o: AlgoOrder): Sim {
      if side.Buy? then this.(bid := o) else this.(ask := o)
    }
  }

  const OPENING: Sim := Sim(NO_ORDER, NO_ORDER, 1, NOTHING, NOTHING, Touch(PRICE_INVALID, 0, PRICE_INVALID, 0))

  /** Requests queued while the strategy is called back, with the slots as they then are. */
  datatype Asked = Asked(sim: Sim, requests: seq<AlgoRequest>)

  datatype SlotMove = SlotMove(slot: Slot, requests: seq<AlgoRequest>)

  /** moveOrder on one slot, with the request it queues. */
  function QuoteSlot(slot: Slot, id: nat, q: Quoting): SlotMove {
    match MoveOf(slot, q.price, q.tolerance, q.risk)
    case Stay => SlotMove(slot, [])
    case Withdraw => SlotMove(slot.(state := PendingCancel), [AlgoRequest(false, slot.orderId, q.side, slot.price, slot.qty)])
    case Place => SlotMove(Slot(0, id, q.side, q.price, q.qty, PendingNew), [AlgoRequest(true, id, q.side, q.price, q.qty)])
  }

  function QuoteOnce(a: Asked, q: Quoting): Asked {
    var m := QuoteSlot(a.sim.On(q.side), a.sim.nextId, q);
    Asked(a.sim.With(q.side, m.slot).(nextId := a.sim.nextId + if m.slot.state.PendingNew? && m.requests != [] then 1 else 0),
          a.requests + m.requests)
  }

  function QuoteAll(s: Sim, quotes: seq<Quoting>): Asked {
    if quotes == [] then Asked(s, []) else QuoteOnce(QuoteAll(s, quotes[..|quotes| - 1]), quotes[|quotes| - 1])
  }

  datatype Told = Told(sim: Sim, replies: seq<Response>)

  function MatchOf(o: AlgoOrder, side: Side, touch: Touch, e: Event): Result {
    match e
    case BookEvent(_, _) => Swept(o, side, touch)
    case TradeEvent(tradeSide, price, qty, _) => Printed(o, side, tradeSide, price, qty)
  }

  /** One side of the simulated matching. */
  function MatchSide(t: Told, side: Side, e: Event): Told {
    var r := MatchOf(t.sim.Held(side), side, t.sim.touch, e);
    Told(t.sim.Holding(side, r.order), t.replies + r.replies)
  }

  function TakeOnce(t: Told, r: AlgoRequest): Told {
    var res := Taken(t.sim.Held(r.side), t.sim.touch, r);
    Told(t.sim.Holding(r.side, res.order), t.replies + res.replies)
  }

  function TakeAll(t: Told, rs: seq<AlgoRequest>): Told {
    if rs == [] then t else TakeOnce(TakeAll(t, rs[..|rs| - 1]), rs[|rs| - 1])
  }

  function HearOnce(s: Sim, r: Response): Sim {
    if r.side.NoSide? then s else s.With(r.side, React(s.On(r.side), r))
  }

  function HearAll(s: Sim, rs: seq<Response>): Sim {
    if rs == [] then s else HearOnce(HearAll(s, rs[..|rs| - 1]), rs[|rs| - 1])
  }

  /** The whole event (lines 118-131 and 153-213): quotes as market data is published, the touch, fills,
      requests, responses. */
  function After(s: Sim, e: Event): Sim {
    var done := Done(s, e);
    HearAll(done.sim, done.replies)
  }

  /** Everything up to the responses, with the responses that are then queued. */
  function Done(s: Sim, e: Event): Told {
    var a := QuoteAll(s, e.quotes);
    var sim := match e case BookEvent(touch, _) => a.sim.(touch := touch) case TradeEvent(_, _, _, _) => a.sim;
    var matched := MatchSide(MatchSide(Told(sim, []), Buy, e), Sell, e);
    TakeAll(matched, a.requests)
  }

  function AfterAll(s: Sim, es: seq<Event>): Sim
    decreases |es|
  {
    if es == [] then s else AfterAll(After(s, es[0]), es[1..])
  }

  // ---------------------------------------------------------------------- lockstep

  /** The order manager's order is live exactly when the simulator holds it, with the same id, price and
      remaining quantity; nothing is pending. */
  ghost predicate InStep(slot: Slot, o: AlgoOrder) {
    match slot.state
    case Live => 0 < o.leaves == slot.qty && o.id == slot.orderId && o.price == slot.price
    case Unset => o == NOTHING
    case Dead => o == NOTHING
    case PendingNew => false
    case PendingCancel => false
  }

  ghost predicate Lockstep(s: Sim) {
    InStep(s.buy, s.bid) && InStep(s.sell, s.ask)
  }

  ghost predicate SidedQuotes(quotes: seq<Quoting>) {
    forall i :: 0 <= i < |quotes| ==> !quotes[i].side.NoSide?
  }

  /** The requests of one side. */
  function Of(rs: seq<AlgoRequest>, side: Side): seq<AlgoRequest> {
    if rs == [] then []
    else if rs[|rs| - 1].side == side then Of(rs[..|rs| - 1], side) + [rs[|rs| - 1]]
    else Of(rs[..|rs| - 1], side)
  }

  lemma OfAppend(rs: seq<AlgoRequest>, ts: seq<AlgoRequest>, own: Side, side: Side)
    requires |ts| <= 1 && (ts != [] ==> ts[0].side == own)
    ensures Of(rs + ts, side) == if own == side then Of(rs, side) + ts else Of(rs, side)
  {
    if ts == [] {
      assert rs + ts == rs;
      assert Of(rs, side) + ts == Of(rs, side);
    } else {
      assert ts == [ts[0]] && (rs + ts)[..|rs|] == rs;
    }
  }

  /** During an event a side asks for at most one thing: a cancel of its live order, or a new order when
      it has none. */
  ghost predicate AskedOnce(before: Slot, after: Slot, rs: seq<AlgoRequest>, side: Side) {
    || (rs == [] && after == before)
    || (before.state.Live? && after == before.(state := PendingCancel)
        && rs == [AlgoRequest(false, before.orderId, side, before.price, before.qty)])
    || (!before.state.Live? && after.state.PendingNew?
        && rs == [AlgoRequest(true, after.orderId, side, after.price, after.qty)])
  }

  lemma QuoteSlotAsks(before: Slot, slot: Slot, rs: seq<AlgoRequest>, id: nat, q: Quoting)
    requires AskedOnce(before, slot, rs, q.side)
    ensures AskedOnce(before, QuoteSlot(slot, id, q).slot, rs + QuoteSlot(slot, id, q).requests, q.side)
  {
    var m := QuoteSlot(slot, id, q);
    if m.requests == [] {
      assert rs + [] == rs;
    } else {
      assert rs == [] && [] + m.requests == m.requests;
    }
  }

  lemma QuoteOnceAsks(s: Sim, a: Asked, q: Quoting, side: Side)
    requires AskedOnce(s.On(side), a.sim.On(side), Of(a.requests, side), side) && !side.NoSide?
    requires !q.side.NoSide?
    ensures var b := QuoteOnce(a, q);
            AskedOnce(s.On(side), b.sim.On(side), Of(b.requests, side), side)
            && b.sim.Held(side) == a.sim.Held(side) && b.sim.touch == a.sim.touch
  {
    OfAppend(a.requests, QuoteSlot(a.sim.On(q.side), a.sim.nextId, q).requests, q.side, side);
    if q.side == side {
      QuoteSlotAsks(s.On(side), a.sim.On(side), Of(a.requests, side), a.sim.nextId, q);
    }
  }

  lemma {:induction false} QuoteAllAsks(s: Sim, quotes: seq<Quoting>, side: Side)
    requires SidedQuotes(quotes) && !side.NoSide?
    ensures var a := QuoteAll(s, quotes);
            AskedOnce(s.On(side), a.sim.On(side), Of(a.requests, side), side)
            && a.sim.Held(side) == s.Held(side) && a.sim.touch == s.touch
    decreases |quotes|
  {
    if quotes != [] {
      QuoteAllAsks(s, quotes[..|quotes| - 1], side);
      QuoteOnceAsks(s, QuoteAll(s, quotes[..|quotes| - 1]), quotes[|quotes| - 1], side);
    }
  }

  // ---------------------------------------------------------------------- one side of an event

  function TakeSide(o: AlgoOrder, touch: Touch, rs: seq<AlgoRequest>): Result {
    if rs == [] then Result(o, [])
    else
      var r := TakeSide(o, touch, rs[..|rs| - 1]);
      var t := Taken(r.order, touch, rs[|rs| - 1]);
      Result(t.order, r.replies + t.replies)
  }

  function ReactAll(slot: Slot, rs: seq<Response>): Slot {
    if rs == [] then slot else React(ReactAll(slot, rs[..|rs| - 1]), rs[|rs| - 1])
  }

  ghost predicate AllFor(rs: seq<Response>, side: Side) {
    forall i :: 0 <= i < |rs| ==> rs[i].side == side
  }

  lemma {:induction false} DueConcat(rs: seq<Response>, ts: seq<Response>, side: Side)
    ensures Due(rs + ts, side) == Due(rs, side) + Due(ts, side)
    decreases |rs|
  {
    if rs == [] {
      assert rs + ts == ts;
    } else {
      assert (rs + ts)[1..] == rs[1..] + ts;
      DueConcat(rs[1..], ts, side);
    }
  }

  lemma {:induction false} DueAllFor(rs: seq<Response>, own: Side, side: Side)
    requires AllFor(rs, own)
    ensures Due(rs, side) == if own == side then rs else []
    decreases |rs|
  {
    if rs != [] {
      DueAllFor(rs[1..], own, side);
    }
  }

  /** What a request does to one side of what has been told so far. */
  lemma TakeOnceSide(t: Told, r: AlgoRequest, side: Side)
    requires !side.NoSide? && !r.side.NoSide?
    ensures var done, res := TakeOnce(t, r), Taken(t.sim.Held(side), t.sim.touch, r);
            && done.sim.Held(side) == (if r.side == side then res.order else t.sim.Held(side))
            && Due(done.replies, side) == Due(t.replies, side) + (if r.side == side then res.replies else [])
            && done.sim.On(side) == t.sim.On(side) && done.sim.touch == t.sim.touch
  {
    var res := Taken(t.sim.Held(r.side), t.sim.touch, r);
    DueConcat(t.replies, res.replies, side);
    DueAllFor(res.replies, r.side, side);
  }

  lemma TakeSideSnoc(o: AlgoOrder, touch: Touch, rs: seq<AlgoRequest>, r: AlgoRequest)
    ensures var res := Taken(TakeSide(o, touch, rs).order, touch, r);
            TakeSide(o, touch, rs + [r]) == Result(res.order, TakeSide(o, touch, rs).replies + res.replies)
  {
    assert (rs + [r])[..|rs|] == rs;
  }

  lemma {:induction false} TakeAllSide(t: Told, rs: seq<AlgoRequest>, side: Side)
    requires !side.NoSide? && Sided(rs)
    ensures var done, r := TakeAll(t, rs), TakeSide(t.sim.Held(side), t.sim.touch, Of(rs, side));
            && done.sim.Held(side) == r.order && Due(done.replies, side) == Due(t.replies, side) + r.replies
            && done.sim.On(side) == t.sim.On(side) && done.sim.touch == t.sim.touch
    decreases |rs|
  {
    if rs != [] {
      var front, last := rs[..|rs| - 1], rs[|rs| - 1];
      TakeAllSide(t, front, side);
      TakeOnceSide(TakeAll(t, front), last, side);
      if last.side == side {
        TakeSideSnoc(t.sim.Held(side), t.sim.touch, Of(front, side), last);
      }
    }
  }

  lemma {:induction false} HearAllSide(s: Sim, rs: seq<Response>, side: Side)
    requires !side.NoSide?
    ensures HearAll(s, rs).On(side) == ReactAll(s.On(side), Due(rs, side)) && HearAll(s, rs).Held(side) == s.Held(side)
    decreases |rs|
  {
    if rs != [] {
      var front, last := rs[..|rs| - 1], rs[|rs| - 1];
      HearAllSide(s, front, side);
      assert rs == front + [last];
      DueSnoc(front, last, side);
      if last.side == side {
        assert (Due(front, side) + [last])[..|Due(front, side)|] == Due(front, side);
      }
    }
  }

  /** What matching can do to an order: leave it, fill some of it, or end it. */
  ghost predicate Matched(o: AlgoOrder, r: Result, side: Side) {
    || (r.replies == [] && r.order == o.(ahead := r.order.ahead) && (o.leaves == 0 ==> r.order == o))
    || (|r.replies| == 1 && o.leaves > 0 && r.replies[0].side == side &&
        ((r.replies[0].kind.Filled? && r.replies[0].leavesQty == r.order.leaves > 0 &&
          r.order == o.(ahead := r.order.ahead, leaves := r.order.leaves))
         || (r.order == NOTHING && (r.replies[0].kind.Canceled? || (r.replies[0].kind.Filled? && r.replies[0].leavesQty == 0)))))
  }

  lemma MatchIsMatched(o: AlgoOrder, side: Side, touch: Touch, e: Event)
    ensures Matched(o, MatchOf(o, side, touch, e), side) && AllFor(MatchOf(o, side, touch, e).replies, side)
  {
  }

  lemma MatchOnly(o: AlgoOrder, r: Result, side: Side, slot: Slot)
    requires InStep(slot, o) && Matched(o, r, side)
    ensures InStep(ReactAll(slot, r.replies), r.order)
  {
    if r.replies != [] {
      assert r.replies == [r.replies[0]];
      ReactOne(slot, r.replies[0]);
    }
  }

  lemma ReactOne(slot: Slot, r: Response)
    ensures ReactAll(slot, [r]) == React(slot, r)
  {
    assert [r][..0] == [];
  }

  lemma MatchThenCancel(o: AlgoOrder, r: Result, side: Side, slot: Slot, touch: Touch)
    requires InStep(slot, o) && slot.state.Live? && Matched(o, r, side)
    ensures var t := Taken(r.order, touch, AlgoRequest(false, slot.orderId, side, slot.price, slot.qty));
            InStep(ReactAll(slot.(state := PendingCancel), r.replies + t.replies), t.order)
  {
    var t := Taken(r.order, touch, AlgoRequest(false, slot.orderId, side, slot.price, slot.qty));
    assert (r.replies + t.replies)[..|r.replies|] == r.replies;
    assert ReactAll(slot.(state := PendingCancel), r.replies + t.replies).state.Dead?;
  }

  lemma MatchThenNew(o: AlgoOrder, r: Result, side: Side, slot: Slot, after: Slot, touch: Touch)
    requires InStep(slot, o) && !slot.state.Live? && Matched(o, r, side) && after.state.PendingNew?
    ensures var t := Taken(r.order, touch, AlgoRequest(true, after.orderId, side, after.price, after.qty));
            InStep(ReactAll(after, r.replies + t.replies), t.order) <==> after.qty > 0
  {
    var t := Taken(r.order, touch, AlgoRequest(true, after.orderId, side, after.price, after.qty));
    assert r.replies + t.replies == [t.replies[0]];
    ReactOne(after, t.replies[0]);
  }

  lemma TakeNone(o: AlgoOrder, touch: Touch)
    ensures TakeSide(o, touch, []) == Result(o, [])
  {
  }

  lemma TakeOne(o: AlgoOrder, touch: Touch, r: AlgoRequest)
    ensures TakeSide(o, touch, [r]) == Taken(o, touch, r)
  {
    assert [r][..0] == [];
    assert [] + Taken(o, touch, r).replies == Taken(o, touch, r).replies;
  }

  /** A new order for nothing. */
  predicate AsksForNothing(rs: seq<AlgoRequest>) {
    rs != [] && rs[0].isNew && rs[0].qty == 0
  }

  /** Match, then at most one request, then the responses: still in step unless the request was a new
      order for nothing. */
  lemma SideKeepsStep(slot: Slot, o: AlgoOrder, after: Slot, rs: seq<AlgoRequest>, side: Side, r: Result, touch: Touch)
    requires InStep(slot, o) && AskedOnce(slot, after, rs, side) && Matched(o, r, side)
    ensures var t := TakeSide(r.order, touch, rs);
            InStep(ReactAll(after, r.replies + t.replies), t.order) <==> !AsksForNothing(rs)
  {
    if rs == [] {
      TakeNone(r.order, touch);
      assert r.replies + [] == r.replies;
      MatchOnly(o, r, side, slot);
    } else {
      TakeOne(r.order, touch, rs[0]);
      assert rs == [rs[0]];
      if slot.state.Live? {
        MatchThenCancel(o, r, side, slot, touch);
      } else {
        MatchThenNew(o, r, side, slot, after, touch);
      }
    }
  }

  // ---------------------------------------------------------------------- every event

  /** The touch that an event is matched against. */
  function TouchAt(s: Sim, e: Event): Touch {
    match e case BookEvent(t, _) => t case TradeEvent(_, _, _, _) => s.touch
  }

  /** The slots and queues of one side as the phases of an event see them. */
  lemma EventSide(s: Sim, e: Event, side: Side)
    requires SidedQuotes(e.quotes) && !side.NoSide?
    ensures var a := QuoteAll(s, e.quotes);
            var touch := TouchAt(s, e);
            var r := MatchOf(s.Held(side), side, touch, e);
            var t := TakeSide(r.order, touch, Of(a.requests, side));
            && After(s, e).Held(side) == t.order && After(s, e).On(side) == ReactAll(a.sim.On(side), r.replies + t.replies)
            && Due(Done(s, e).replies, side) == r.replies + t.replies
  {
    var a := QuoteAll(s, e.quotes);
    QuoteAllAsks(s, e.quotes, side);
    QuotesSided(s, e.quotes);
    var sim := match e case BookEvent(touch, _) => a.sim.(touch := touch) case TradeEvent(_, _, _, _) => a.sim;
    var matched := MatchSide(MatchSide(Told(sim, []), Buy, e), Sell, e);
    MatchBoth(sim, e, side);
    TakeAllSide(matched, a.requests, side);
    var done := TakeAll(matched, a.requests);
    HearAllSide(done.sim, done.replies, side);
  }

  ghost predicate Sided(rs: seq<AlgoRequest>) {
    forall i :: 0 <= i < |rs| ==> !rs[i].side.NoSide?
  }

  lemma {:induction false} QuotesSided(s: Sim, quotes: seq<Quoting>)
    requires SidedQuotes(quotes)
    ensures Sided(QuoteAll(s, quotes).requests)
    decreases |quotes|
  {
    if quotes != [] {
      QuotesSided(s, quotes[..|quotes| - 1]);
      var a, q := QuoteAll(s, quotes[..|quotes| - 1]), quotes[|quotes| - 1];
      assert QuoteAll(s, quotes).requests == a.requests + QuoteSlot(a.sim.On(q.side), a.sim.nextId, q).requests;
    }
  }

  lemma DuePair(b: seq<Response>, k: seq<Response>, side: Side)
    requires AllFor(b, Buy) && AllFor(k, Sell) && !side.NoSide?
    ensures Due(b + k, side) == if side.Buy? then b else k
  {
    DueConcat(b, k, side);
    DueAllFor(b, Buy, side);
    DueAllFor(k, Sell, side);
    assert b + [] == b && [] + k == k;
  }

  /** Both sides are matched independently. */
  lemma MatchBoth(sim: Sim, e: Event, side: Side)
    requires !side.NoSide?
    ensures var m, r := MatchSide(MatchSide(Told(sim, []), Buy, e), Sell, e), MatchOf(sim.Held(side), side, sim.touch, e);
            && m.sim.Held(side) == r.order && Due(m.replies, side) == r.replies
            && m.sim.On(side) == sim.On(side) && m.sim.touch == sim.touch
  {
    var b, k := MatchOf(sim.bid, Buy, sim.touch, e), MatchOf(sim.ask, Sell, sim.touch, e);
    var m := MatchSide(Told(sim, []), Buy, e);
    assert [] + b.replies == b.replies;
    assert m == Told(sim.Holding(Buy, b.order), b.replies);
    assert MatchSide(m, Sell, e) == Told(sim.(bid := b.order, ask := k.order), b.replies + k.replies);
    MatchIsMatched(sim.bid, Buy, sim.touch, e);
    MatchIsMatched(sim.ask, Sell, sim.touch, e);
    DuePair(b.replies, k.replies, side);
  }

  /** One event, one side: in step afterwards exactly when the side did not place an order for nothing. */
  lemma EventStepIff(s: Sim, e: Event, side: Side)
    requires InStep(s.On(side), s.Held(side)) && SidedQuotes(e.quotes) && !side.NoSide?
    ensures InStep(After(s, e).On(side), After(s, e).Held(side)) <==> !AsksForNothing(Of(QuoteAll(s, e.quotes).requests, side))
  {
    var a := QuoteAll(s, e.quotes);
    var touch := TouchAt(s, e);
    QuoteAllAsks(s, e.quotes, side);
    MatchIsMatched(s.Held(side), side, touch, e);
    EventSide(s, e, side);
    SideKeepsStep(s.On(side), s.Held(side), a.sim.On(side), Of(a.requests, side), side, MatchOf(s.Held(side), side, touch, e), touch);
  }

  /** Neither side places an order for nothing during the event. */
  ghost predicate Substantial(s: Sim, e: Event) {
    var rs := QuoteAll(s, e.quotes).requests;
    !AsksForNothing(Of(rs, Buy)) && !AsksForNothing(Of(rs, Sell))
  }

  ghost predicate SubstantialAll(s: Sim, es: seq<Event>)
    decreases |es|
  {
    es == [] || (Substantial(s, es[0]) && SubstantialAll(After(s, es[0]), es[1..]))
  }

  ghost predicate SidedEvents(es: seq<Event>) {
    forall i :: 0 <= i < |es| ==> SidedQuotes(es[i].quotes)
  }

  ghost predicate LockstepThroughout(s: Sim, es: seq<Event>) {
    forall n :: 0 <= n <= |es| ==> Lockstep(AfterAll(s, es[..n]))
  }

  lemma AfterPrefix(s: Sim, es: seq<Event>, n: nat)
    requires 0 < n <= |es|
    ensures AfterAll(s, es[..n]) == AfterAll(After(s, es[0]), es[1..][..n - 1])
  {
    assert es[..n][1..] == es[1..][..n - 1];
  }

  /** Over every run: the order manager and the simulator agree on both sides at every event boundary
      exactly when no order for nothing is placed. */
  lemma {:induction false} LockstepAlways(s: Sim, es: seq<Event>)
    requires Lockstep(s) && SidedEvents(es)
    ensures LockstepThroughout(s, es) <==> SubstantialAll(s, es)
    decreases |es|
  {
    if es == [] {
      assert es[..0] == [];
    } else {
      var t, rest := After(s, es[0]), es[1..];
      EventStepIff(s, es[0], Buy);
      EventStepIff(s, es[0], Sell);
      forall n | 0 < n <= |es|
        ensures AfterAll(s, es[..n]) == AfterAll(t, rest[..n - 1])
      {
        AfterPrefix(s, es, n);
      }
      assert es[..0] == [] && rest[..0] == [];
      assert AfterAll(s, es[..1]) == t;
      if Lockstep(t) {
        LockstepAlways(t, rest);
        ShiftThroughout(s, es);
      }
    }
  }

  lemma ShiftThroughout(s: Sim, es: seq<Event>)
    requires es != [] && Lockstep(s)
    ensures LockstepThroughout(s, es) <==> LockstepThroughout(After(s, es[0]), es[1..])
  {
    var t, rest := After(s, es[0]), es[1..];
    assert es[..0] == [];
    if LockstepThroughout(s, es) {
      forall n | 0 <= n <= |rest|
        ensures Lockstep(AfterAll(t, rest[..n]))
      {
        AfterPrefix(s, es, n + 1);
        assert Lockstep(AfterAll(s, es[..n + 1]));
      }
    } else {
      var n :| 0 <= n <= |es| && !Lockstep(AfterAll(s, es[..n]));
      AfterPrefix(s, es, n);
      assert !Lockstep(AfterAll(t, rest[..n - 1]));
    }
  }

  /** A clip is positive in every quote. */
  ghost predicate PositiveClips(quotes: seq<Quoting>) {
    forall i :: 0 <= i < |quotes| ==> quotes[i].qty > 0
  }

  lemma {:induction false} PositiveRequests(s: Sim, quotes: seq<Quoting>, side: Side)
    requires PositiveClips(quotes)
    ensures forall r :: r in Of(QuoteAll(s, quotes).requests, side) && r.isNew ==> r.qty > 0
    decreases |quotes|
  {
    if quotes != [] {
      var front, q := quotes[..|quotes| - 1], quotes[|quotes| - 1];
      PositiveRequests(s, front, side);
      var a := QuoteAll(s, front);
      var more := QuoteSlot(a.sim.On(q.side), a.sim.nextId, q).requests;
      assert QuoteAll(s, quotes).requests == a.requests + more;
      OfAppend(a.requests, more, q.side, side);
    }
  }

  /** With positive clips the two stay in step for ever. */
  lemma {:induction false} PositiveClipsStayInStep(s: Sim, es: seq<Event>)
    requires Lockstep(s) && SidedEvents(es) && forall i :: 0 <= i < |es| ==> PositiveClips(es[i].quotes)
    ensures Lockstep(AfterAll(s, es))
    decreases |es|
  {
    if es != [] {
      PositiveRequests(s, es[0].quotes, Buy);
      PositiveRequests(s, es[0].quotes, Sell);
      EventStepIff(s, es[0], Buy);
      EventStepIff(s, es[0], Sell);
      PositiveClipsStayInStep(After(s, es[0]), es[1..]);
    }
  }

  lemma OpeningInStep()
    ensures Lockstep(OPENING)
  {
  }

  lemma QuoteAllOne(s: Sim, q: Quoting)
    ensures QuoteAll(s, [q]) == QuoteOnce(Asked(s, []), q)
  {
    assert [q][..0] == [];
  }

  /** The first event of a run whose clip is zero. */
  lemma ZeroClipBreaksStep(price: int, touch: Touch)
    requires price != PRICE_INVALID
    ensures !Lockstep(After(OPENING, BookEvent(touch, [Quoting(Buy, price, 0, 0, Allowed)])))
  {
    var q := Quoting(Buy, price, 0, 0, Allowed);
    var r := AlgoRequest(true, 1, Buy, price, 0);
    QuoteAllOne(OPENING, q);
    OfAppend([], [r], Buy, Buy);
    assert [] + [r] == [r];
    OpeningInStep();
    EventStepIff(OPENING, BookEvent(touch, [q]), Buy);
  }

  // ---------------------------------------------------------------------- the queue law over runs

  /** The other side's best price has come to an order's own or gone through it. */
  predicate Through(o: AlgoOrder, side: Side, touch: Touch) {
    && o.leaves > 0
    && (if side.Buy? then touch.askPrice != PRICE_INVALID && touch.askPrice <= o.price
        else touch.bidPrice != PRICE_INVALID && touch.bidPrice >= o.price)
  }

  /** No request for this side, and the touch stays on its own side of it. */
  ghost predicate Undisturbed(s: Sim, e: Event, side: Side) {
    && Of(QuoteAll(s, e.quotes).requests, side) == []
    && (e.BookEvent? ==> !Through(s.Held(side), side, e.touch))
  }

  ghost predicate UndisturbedAll(s: Sim, es: seq<Event>, side: Side)
    decreases |es|
  {
    es == [] || (Undisturbed(s, es[0], side) && UndisturbedAll(After(s, es[0]), es[1..], side))
  }

  /** The trade prints of a run, in order. */
  function PrintsOf(es: seq<Event>): seq<Print> {
    if es == [] then []
    else
      match es[0]
      case BookEvent(_, _) => PrintsOf(es[1..])
      case TradeEvent(side, price, qty, _) => [Print(side, price, qty)] + PrintsOf(es[1..])
  }

  lemma UndisturbedEvent(s: Sim, e: Event, side: Side)
    requires Undisturbed(s, e, side) && SidedQuotes(e.quotes) && !side.NoSide?
    ensures e.BookEvent? ==> After(s, e).Held(side) == s.Held(side)
    ensures e.TradeEvent? ==> After(s, e).Held(side) == Printed(s.Held(side), side, e.side, e.price, e.qty).order
  {
    EventSide(s, e, side);
    TakeNone(MatchOf(s.Held(side), side, TouchAt(s, e), e).order, TouchAt(s, e));
  }

  /** One print and then the others take what all of them would. */
  lemma PrintThenRest(o: AlgoOrder, side: Side, p: Print, total: nat)
    requires !side.NoSide?
    ensures var t, volume := Printed(o, side, p.side, p.price, p.qty).order, if Reaches(p, side, o.price) then p.qty else 0;
            t.leaves - Min(t.leaves, Beyond(total, t.ahead)) == o.leaves - Min(o.leaves, Beyond(volume + total, o.ahead))
    ensures var t := Printed(o, side, p.side, p.price, p.qty).order; t.leaves > 0 ==> t.price == o.price
  {
    PrintFills(o, side, p);
  }

  /** In any run that does not sweep, cancel or replace it, an order for L behind a queue of A is left with
      L - min(L, max(0, T - A)), T being the volume of the run's prints that reach its price; book events
      and the other side may do anything in between. */
  lemma {:induction false} QueueLawOverRuns(s: Sim, es: seq<Event>, side: Side)
    requires UndisturbedAll(s, es, side) && SidedEvents(es) && !side.NoSide?
    ensures var o := s.Held(side);
            AfterAll(s, es).Held(side).leaves ==
            o.leaves - Min(o.leaves, Beyond(Reaching(PrintsOf(es), side, o.price), o.ahead))
    decreases |es|
  {
    if es != [] {
      var o, e := s.Held(side), es[0];
      UndisturbedEvent(s, e, side);
      QueueLawOverRuns(After(s, e), es[1..], side);
      if e.TradeEvent? {
        var p := Print(e.side, e.price, e.qty);
        PrintThenRest(o, side, p, Reaching(PrintsOf(es[1..]), side, o.price));
        assert PrintsOf(es)[0] == p && PrintsOf(es)[1..] == PrintsOf(es[1..]);
      }
    }
  }
}
