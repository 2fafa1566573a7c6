/** One client's two order slots for a ticker against an exchange it talks to asynchronously
    (trading/strategy/order_manager.h and .cpp; exchange/matcher/me_order_book.cpp). Requests in flight
    may be taken in any order; responses come back in the order they were sent. The responder never
    looks at order ids, and yet the client's position and what has really been executed both stay
    within the limit. */
module Exposure {
  import opened Types
  import opened OrderSlots

  datatype Client = Client(buy: Slot, sell: Slot, nextId: nat, position: int) {
    function On(side: Side): Slot {
      if side.Buy? then buy else sell
    }
    function With(side: Side, slot: Slot): Client {
      if side.Buy? then this.(buy := slot) else this.(sell := slot)
    }
  }

  /** An order of the client that rests at the exchange. */
  datatype Resting = Resting(side: Side, price: int, leaves: nat)

  datatype System = System(client: Client, requests: multiset<Request>, live: map<nat, Resting>,
                           responses: seq<Response>, executed: int)

  const IDLE: System := System(Client(NO_ORDER, NO_ORDER, 1, 0), multiset{}, map[], [], 0)

  datatype Event =
    /** moveOrder with any quote; cancelOrders is a quote at no price. */
    | Quote(side: Side, price: int, qty: nat, tolerance: int, lossTooLarge: bool)
    /** Order ids used up by other tickers. */
    | Elsewhere
    | TakeNew(id: nat, side: Side, price: int, qty: nat)
    | TakeCancel(id: nat)
    | Fill(id: nat, exec: nat)
    | Respond

  function NewRequest(id: nat, side: Side, price: int, qty: nat): Request {
    New(0, id, side, price, qty)
  }

  function CancelRequest(id: nat): Request {
    Cancel(0, id)
  }

  function Reply(kind: ResponseKind, id: nat, side: Side, exec: nat, leaves: nat): Response {
    Response(kind, 0, id, 0, side, 0, exec, leaves)
  }

  predicate Possible(s: System, e: Event) {
    match e
    case Quote(side, _, qty, _, _) => !side.NoSide? && qty < TWO_32
    case Elsewhere => true
    case TakeNew(id, side, price, qty) => NewRequest(id, side, price, qty) in s.requests
    case TakeCancel(id) => CancelRequest(id) in s.requests
    case Fill(id, exec) => id in s.live && 0 < exec <= s.live[id].leaves
    case Respond => s.responses != []
  }

  /** newOrder (order_manager.cpp:6-25). */
  function PlaceStep(s: System, side: Side, price: int, qty: nat): System {
    var c := s.client;
    s.(client := c.With(side, Slot(0, c.nextId, side, price, qty, PendingNew)).(nextId := c.nextId + 1),
       requests := s.requests + multiset{NewRequest(c.nextId, side, price, qty)})
  }

  /** cancelOrder (order_manager.cpp:27-44). */
  function WithdrawStep(s: System, side: Side): System {
    var c, slot := s.client, s.client.On(side);
    s.(client := c.With(side, slot.(state := PendingCancel)), requests := s.requests + multiset{CancelRequest(slot.orderId)})
  }

  function QuoteStep(s: System, lim: Limits, side: Side, price: int, qty: nat, tolerance: int, loss: bool): System {
    match MoveOf(s.client.On(side), price, tolerance, CheckPreTradeRisk(lim, s.client.position, side, qty, loss))
    case Stay => s
    case Withdraw => WithdrawStep(s, side)
    case Place => PlaceStep(s, side, price, qty)
  }

  /** The exchange accepts an order; one for nothing does not rest (me_order_book.cpp:110-126). */
  function AcceptStep(s: System, id: nat, side: Side, price: int, qty: nat): System {
    s.(requests := s.requests - multiset{NewRequest(id, side, price, qty)},
       live := if qty == 0 then s.live else s.live[id := Resting(side, price, qty)],
       responses := s.responses + [Reply(Accepted, id, side, 0, qty)])
  }

  /** The exchange cancels a live order, or rejects without naming a side
      (me_order_book.cpp:147-171). */
  function CancelStep(s: System, id: nat): System {
    var requests := s.requests - multiset{CancelRequest(id)};
    if id in s.live then
      s.(requests := requests, live := s.live - {id},
         responses := s.responses + [Reply(Canceled, id, s.live[id].side, QTY_INVALID, s.live[id].leaves)])
    else
      s.(requests := requests, responses := s.responses + [Reply(CancelRejected, id, NoSide, QTY_INVALID, QTY_INVALID)])
  }

  function FillStep(s: System, id: nat, exec: nat): System
    requires id in s.live && exec <= s.live[id].leaves
  {
    var side, leaves := s.live[id].side, s.live[id].leaves - exec;
    s.(live := if leaves == 0 then s.live - {id} else s.live[id := s.live[id].(leaves := leaves)],
       responses := s.responses + [Reply(Filled, id, side, exec, leaves)],
       executed := s.executed + SideValue(side) * exec)
  }

  /** A fill changes the position, then the response changes the slot of its side
      (trade_engine.cpp:204-215). */
  function RespondStep(s: System): System
    requires s.responses != []
  {
    var r, c := s.responses[0], s.client;
    var position := if r.kind.Filled? then Int32(c.position + Int32(r.execQty) * SideValue(r.side)) else c.position;
    var client := if r.side.NoSide? then c else c.With(r.side, React(c.On(r.side), r));
    s.(client := client.(position := position), responses := s.responses[1..])
  }

  function Step(s: System, lim: Limits, e: Event): System
    requires Possible(s, e)
  {
    match e
    case Quote(side, price, qty, tolerance, loss) => QuoteStep(s, lim, side, price, qty, tolerance, loss)
    case Elsewhere => s.(client := s.client.(nextId := s.client.nextId + 1))
    case TakeNew(id, side, price, qty) => AcceptStep(s, id, side, price, qty)
    case TakeCancel(id) => CancelStep(s, id)
    case Fill(id, exec) => FillStep(s, id, exec)
    case Respond => RespondStep(s)
  }

  ghost predicate PossibleAll(s: System, lim: Limits, es: seq<Event>)
    decreases |es|
  {
    es == [] || (Possible(s, es[0]) && PossibleAll(Step(s, lim, es[0]), lim, es[1..]))
  }

  ghost function StepAll(s: System, lim: Limits, es: seq<Event>): System
    requires PossibleAll(s, lim, es)
    decreases |es|
  {
    if es == [] then s else StepAll(Step(s, lim, es[0]), lim, es[1..])
  }

  // ---------------------------------------------------------------------- what is in flight

  /** The responses for one side, oldest first. */
  function Due(rs: seq<Response>, side: Side): seq<Response> {
    if rs == [] then []
    else if rs[0].side == side then [rs[0]] + Due(rs[1..], side)
    else Due(rs[1..], side)
  }

  /** Only fills, which take a quantity down from `known` to `rest`. */
  ghost predicate Fills(rs: seq<Response>, known: nat, rest: nat) {
    if rs == [] then known == rest
    else
      && rs[0].kind.Filled? && 0 < rs[0].execQty <= known && rs[0].leavesQty == known - rs[0].execQty
      && Fills(rs[1..], rs[0].leavesQty, rest)
  }

  function LeavesOf(s: System, id: nat): nat {
    if id in s.live then s.live[id].leaves else 0
  }

  ghost predicate NoNew(s: System, side: Side) {
    forall r :: r in s.requests && r.New? ==> r.side != side
  }

  /** Nothing of this side is anywhere. */
  ghost predicate Quiet(s: System, side: Side) {
    NoNew(s, side) && Due(s.responses, side) == [] && forall id :: id in s.live ==> s.live[id].side != side
  }

  /** Only the slot's own order is live on this side. */
  ghost predicate OwnOnly(s: System, side: Side) {
    forall id :: id in s.live && s.live[id].side == side ==> id == s.client.On(side).orderId
  }

  /** The request has not reached the exchange. */
  ghost predicate Asking(s: System, side: Side) {
    var slot := s.client.On(side);
    var r := NewRequest(slot.orderId, side, slot.price, slot.qty);
    && s.requests[r] == 1 && (forall q :: q in s.requests && q.New? && q.side == side ==> q == r)
    && Due(s.responses, side) == [] && forall id :: id in s.live ==> s.live[id].side != side
  }

  /** What the slot knows, less the fills still on their way, is what rests. */
  ghost predicate Working(s: System, side: Side, rs: seq<Response>) {
    var slot := s.client.On(side);
    NoNew(s, side) && OwnOnly(s, side) && Fills(rs, slot.qty, LeavesOf(s, slot.orderId))
  }

  /** The cancellation is on its way, after the last fills. */
  ghost predicate Ending(s: System, side: Side) {
    var slot, rs := s.client.On(side), Due(s.responses, side);
    && NoNew(s, side) && (forall id :: id in s.live ==> s.live[id].side != side)
    && rs != [] && rs[|rs| - 1].kind.Canceled? && rs[|rs| - 1].leavesQty > 0 && Fills(rs[..|rs| - 1], slot.qty, rs[|rs| - 1].leavesQty)
  }

  ghost predicate SideInv(s: System, side: Side) {
    var slot, rs := s.client.On(side), Due(s.responses, side);
    match slot.state
    case Unset => Quiet(s, side)
    case Dead => Quiet(s, side)
    case PendingNew => Asking(s, side) || (rs != [] && rs[0].kind.Accepted? && Working(s, side, rs[1..]))
    case Live => Working(s, side, rs)
    case PendingCancel => Working(s, side, rs) || Ending(s, side)
  }

  /** A cancel in flight for a slot's order means that the slot waits for it or is done with it. */
  ghost predicate IdsInv(s: System) {
    var c := s.client;
    && (!c.buy.state.Unset? ==> c.buy.orderId < c.nextId) && (!c.sell.state.Unset? ==> c.sell.orderId < c.nextId)
    && (!c.buy.state.Unset? && !c.sell.state.Unset? ==> c.buy.orderId != c.sell.orderId)
    && (forall id :: id in s.live ==> !s.live[id].side.NoSide? && s.live[id].leaves > 0)
    && (forall r :: r in s.requests && r.New? ==> !r.side.NoSide?)
    && (forall r :: r in s.requests && r.Cancel? ==> r.coid < c.nextId && NotWorking(c.buy, r.coid) && NotWorking(c.sell, r.coid))
  }

  predicate NotWorking(slot: Slot, id: nat) {
    slot.state.PendingNew? || slot.state.Live? ==> slot.orderId != id
  }

  predicate Busy(slot: Slot) {
    !slot.state.Unset? && !slot.state.Dead?
  }

  /** What a slot may still add to the position. */
  function Pot(slot: Slot): nat {
    if Busy(slot) then slot.qty else 0
  }

  function Executing(rs: seq<Response>): nat {
    if rs == [] then 0 else (if rs[0].kind.Filled? then rs[0].execQty else 0) + Executing(rs[1..])
  }

  /** The exact position as far as the client has heard. */
  function Heard(s: System): int {
    s.executed - Executing(Due(s.responses, Buy)) + Executing(Due(s.responses, Sell))
  }

  /** If everything that is out were filled, the position would still be within the bound; the client
      holds its low 32 bits. */
  ghost predicate Bounded(s: System, lim: Limits) {
    && s.client.position == Int32(Heard(s))
    && Heard(s) + Pot(s.client.buy) <= Bound(lim) && -Bound(lim) <= Heard(s) - Pot(s.client.sell)
  }

  /** Every response on its way to a slot answers the order that is in the slot now. */
  ghost predicate Current(s: System) {
    forall i :: 0 <= i < |s.responses| ==> Answers(s.client, s.responses[i])
  }

  predicate Answers(c: Client, r: Response) {
    if r.side.NoSide? then r.kind.CancelRejected? else r.coid == c.On(r.side).orderId
  }

  /** What holds of slots, requests, live orders and responses whatever the limits are. */
  ghost predicate Flow(s: System) {
    SideInv(s, Buy) && SideInv(s, Sell) && IdsInv(s)
  }

  ghost predicate Inv(s: System, lim: Limits) {
    Flow(s) && Bounded(s, lim)
  }

  // ---------------------------------------------------------------------- responses in flight

  lemma {:induction false} DueSnoc(rs: seq<Response>, r: Response, side: Side)
    ensures Due(rs + [r], side) == if r.side == side then Due(rs, side) + [r] else Due(rs, side)
    decreases |rs|
  {
    if rs == [] {
      assert rs + [r] == [r] && [r][1..] == [];
    } else {
      assert (rs + [r])[1..] == rs[1..] + [r];
      DueSnoc(rs[1..], r, side);
    }
  }

  lemma {:induction false} ExecutingSnoc(rs: seq<Response>, r: Response)
    ensures Executing(rs + [r]) == Executing(rs) + if r.kind.Filled? then r.execQty else 0
    decreases |rs|
  {
    if rs == [] {
      assert rs + [r] == [r] && [r][1..] == [];
    } else {
      assert (rs + [r])[1..] == rs[1..] + [r];
      ExecutingSnoc(rs[1..], r);
    }
  }

  lemma {:induction false} FillsSnoc(rs: seq<Response>, known: nat, rest: nat, r: Response)
    requires Fills(rs, known, rest) && r.kind.Filled? && 0 < r.execQty <= rest && r.leavesQty == rest - r.execQty
    ensures Fills(rs + [r], known, r.leavesQty)
    decreases |rs|
  {
    if rs == [] {
      assert rs + [r] == [r] && [r][1..] == [];
    } else {
      assert (rs + [r])[1..] == rs[1..] + [r];
      FillsSnoc(rs[1..], rs[0].leavesQty, rest, r);
    }
  }

  /** Fills on their way add up to what the slot knows less what rests. */
  lemma {:induction false} FillsExecute(rs: seq<Response>, known: nat, rest: nat)
    requires Fills(rs, known, rest)
    ensures rest <= known && Executing(rs) == known - rest
    decreases |rs|
  {
    if rs != [] {
      FillsExecute(rs[1..], rs[0].leavesQty, rest);
    }
  }

  /** Nothing on its way for a side can take its slot beyond what it knows. */
  lemma ExecutingWithinPot(s: System, side: Side)
    requires SideInv(s, side) && !side.NoSide?
    ensures Executing(Due(s.responses, side)) <= Pot(s.client.On(side))
  {
    var slot, rs := s.client.On(side), Due(s.responses, side);
    match slot.state
    case Unset =>
    case Dead =>
    case PendingNew =>
      if rs != [] {
        FillsExecute(rs[1..], slot.qty, LeavesOf(s, slot.orderId));
      }
    case Live => FillsExecute(rs, slot.qty, LeavesOf(s, slot.orderId));
    case PendingCancel =>
      if Working(s, side, rs) {
        FillsExecute(rs, slot.qty, LeavesOf(s, slot.orderId));
      } else {
        var n := |rs| - 1;
        FillsExecute(rs[..n], slot.qty, rs[n].leavesQty);
        ExecutingSnoc(rs[..n], rs[n]);
        assert rs == rs[..n] + [rs[n]];
      }
  }

  // ---------------------------------------------------------------------- a side that a step leaves alone

  ghost predicate SameSide(s: System, t: System, side: Side) {
    && t.client.On(side) == s.client.On(side)
    && Due(t.responses, side) == Due(s.responses, side)
    && (forall r: Request :: r.New? && r.side == side ==> t.requests[r] == s.requests[r])
    && (forall id :: id in t.live && t.live[id].side == side ==> id in s.live && s.live[id] == t.live[id])
    && (forall id :: id in s.live && s.live[id].side == side ==> id in t.live && s.live[id] == t.live[id])
    && (Busy(s.client.On(side)) ==>
          LeavesOf(t, s.client.On(side).orderId) == LeavesOf(s, s.client.On(side).orderId))
  }

  lemma SameSideKeeps(s: System, t: System, side: Side)
    requires SideInv(s, side) && SameSide(s, t, side)
    ensures SideInv(t, side)
  {
    assert forall r :: r in t.requests && r.New? && r.side == side ==> r in s.requests;
    assert NoNew(s, side) ==> NoNew(t, side);
  }

  /** A live order is its side's slot's, and not the other slot's. */
  lemma LiveIsOwn(s: System, id: nat)
    requires SideInv(s, Buy) && SideInv(s, Sell) && IdsInv(s) && id in s.live
    ensures var side := s.live[id].side;
            && s.client.On(side).orderId == id && !s.client.On(side).state.Unset? && !s.client.On(side).state.Dead?
            && (!s.client.On(Opposite(side)).state.Unset? ==> s.client.On(Opposite(side)).orderId != id)
  {
    assert SideInv(s, s.live[id].side);
  }

  // ---------------------------------------------------------------------- quoting

  lemma PlaceSide(s: System, t: System, side: Side, price: int, qty: nat)
    requires SideInv(s, side) && !Busy(s.client.On(side)) && !side.NoSide? && t == PlaceStep(s, side, price, qty)
    ensures SideInv(t, side)
  {
    var r := NewRequest(s.client.nextId, side, price, qty);
    assert Quiet(s, side) && r !in s.requests;
    assert t.client.On(side) == Slot(0, s.client.nextId, side, price, qty, PendingNew);
    assert Asking(t, side);
  }

  lemma PlaceIds(s: System, t: System, side: Side, price: int, qty: nat)
    requires IdsInv(s) && !side.NoSide? && t == PlaceStep(s, side, price, qty)
    ensures IdsInv(t)
  {
  }

  lemma PlaceBounded(s: System, t: System, lim: Limits, side: Side, price: int, qty: nat)
    requires Bounded(s, lim) && !Busy(s.client.On(side)) && !side.NoSide? && t == PlaceStep(s, side, price, qty)
    requires WithinBound(lim, Heard(s) + SideValue(side) * qty)
    ensures Bounded(t, lim)
  {
  }

  lemma PlaceKeeps(s: System, t: System, lim: Limits, side: Side, price: int, qty: nat)
    requires Flow(s) && !side.NoSide? && !Busy(s.client.On(side)) && t == PlaceStep(s, side, price, qty)
    ensures Flow(t)
    ensures Bounded(s, lim) && WithinBound(lim, Heard(s) + SideValue(side) * qty) ==> Bounded(t, lim)
  {
    PlaceSide(s, t, side, price, qty);
    SameSideKeeps(s, t, Opposite(side));
    PlaceIds(s, t, side, price, qty);
    if Bounded(s, lim) && WithinBound(lim, Heard(s) + SideValue(side) * qty) {
      PlaceBounded(s, t, lim, side, price, qty);
    }
  }

  lemma WithdrawSide(s: System, t: System, side: Side)
    requires SideInv(s, side) && !side.NoSide? && s.client.On(side).state.Live? && t == WithdrawStep(s, side)
    ensures SideInv(t, side)
  {
    assert Working(s, side, Due(s.responses, side));
    assert NoNew(t, side);
    assert Working(t, side, Due(t.responses, side));
  }

  lemma WithdrawIds(s: System, t: System, side: Side)
    requires IdsInv(s) && !side.NoSide? && s.client.On(side).state.Live? && t == WithdrawStep(s, side)
    ensures IdsInv(t)
  {
  }

  lemma WithdrawKeeps(s: System, t: System, lim: Limits, side: Side)
    requires Flow(s) && !side.NoSide? && s.client.On(side).state.Live? && t == WithdrawStep(s, side)
    ensures Flow(t) && (Bounded(s, lim) ==> Bounded(t, lim))
  {
    WithdrawSide(s, t, side);
    WithdrawIds(s, t, side);
    SameSideKeeps(s, t, Opposite(side));
  }

  lemma QuoteKeeps(s: System, t: System, lim: Limits, side: Side, price: int, qty: nat, tolerance: int, loss: bool)
    requires Flow(s) && !side.NoSide? && qty < TWO_32 && t == QuoteStep(s, lim, side, price, qty, tolerance, loss)
    ensures Flow(t) && (Bounded(s, lim) && LimitsHold(lim) ==> Bounded(t, lim))
  {
    var slot, risk := s.client.On(side), CheckPreTradeRisk(lim, s.client.position, side, qty, loss);
    match MoveOf(slot, price, tolerance, risk)
    case Stay =>
    case Withdraw => WithdrawKeeps(s, t, lim, side);
    case Place =>
      if Bounded(s, lim) && LimitsHold(lim) {
        HeardWithin(s, lim);
        AllowedWithinBound(lim, Heard(s), side, qty, loss);
      }
      PlaceKeeps(s, t, lim, side, price, qty);
  }

  lemma HeardWithin(s: System, lim: Limits)
    requires Bounded(s, lim)
    ensures WithinBound(lim, Heard(s))
  {
  }

  // ---------------------------------------------------------------------- the exchange

  lemma AcceptKeeps(s: System, t: System, lim: Limits, id: nat, side: Side, price: int, qty: nat)
    requires Flow(s) && NewRequest(id, side, price, qty) in s.requests && t == AcceptStep(s, id, side, price, qty)
    ensures Flow(t) && (Bounded(s, lim) ==> Bounded(t, lim))
  {
    var reply := Reply(Accepted, id, side, 0, qty);
    AskedFor(s, id, side, price, qty);
    DueSnoc(s.responses, reply, side);
    DueSnoc(s.responses, reply, Opposite(side));
    AcceptSide(s, t, side, price, qty);
    AcceptOther(s, t, side, price, qty);
    SameSideKeeps(s, t, Opposite(side));
    AcceptIds(s, t, id, side, price, qty);
    ExecutingSnoc(Due(s.responses, side), reply);
  }

  lemma AcceptIds(s: System, t: System, id: nat, side: Side, price: int, qty: nat)
    requires IdsInv(s) && !side.NoSide? && t == AcceptStep(s, id, side, price, qty)
    ensures IdsInv(t)
  {
  }

  /** A NEW in flight is the one its slot is waiting for, under an id that is not live. */
  lemma AskedFor(s: System, id: nat, side: Side, price: int, qty: nat)
    requires SideInv(s, Buy) && SideInv(s, Sell) && IdsInv(s) && NewRequest(id, side, price, qty) in s.requests
    ensures !side.NoSide? && Asking(s, side) && s.client.On(side).state.PendingNew? && id !in s.live
    ensures s.client.On(side).orderId == id && s.client.On(side).price == price && s.client.On(side).qty == qty
  {
    var r := NewRequest(id, side, price, qty);
    assert !r.side.NoSide?;
    assert SideInv(s, side);
    assert r == NewRequest(s.client.On(side).orderId, side, s.client.On(side).price, s.client.On(side).qty);
    if id in s.live {
      LiveIsOwn(s, id);
    }
  }

  lemma AcceptSide(s: System, t: System, side: Side, price: int, qty: nat)
    requires s.client.On(side).state.PendingNew? && s.client.On(side).qty == qty && s.client.On(side).price == price
    requires !side.NoSide? && Asking(s, side) && s.client.On(side).orderId !in s.live
    requires t == AcceptStep(s, s.client.On(side).orderId, side, price, qty)
    requires Due(t.responses, side) == Due(s.responses, side) + [Reply(Accepted, s.client.On(side).orderId, side, 0, qty)]
    ensures SideInv(t, side)
  {
    var rs := Due(t.responses, side);
    assert |rs| == 1 && rs[1..] == [];
    assert NoNew(t, side);
    assert Working(t, side, []);
  }

  lemma AcceptOther(s: System, t: System, side: Side, price: int, qty: nat)
    requires IdsInv(s) && SideInv(s, Opposite(side)) && !side.NoSide? && s.client.On(side).state.PendingNew?
    requires t == AcceptStep(s, s.client.On(side).orderId, side, price, qty) && s.client.On(side).orderId !in s.live
    requires Due(t.responses, Opposite(side)) == Due(s.responses, Opposite(side))
    ensures SameSide(s, t, Opposite(side))
  {
  }

  lemma RejectKeeps(s: System, t: System, lim: Limits, id: nat)
    requires Flow(s) && CancelRequest(id) in s.requests && id !in s.live && t == CancelStep(s, id)
    ensures Flow(t) && (Bounded(s, lim) ==> Bounded(t, lim))
  {
    var reply := Reply(CancelRejected, id, NoSide, QTY_INVALID, QTY_INVALID);
    DueSnoc(s.responses, reply, Buy);
    DueSnoc(s.responses, reply, Sell);
    RejectSide(s, t, id, Buy);
    RejectSide(s, t, id, Sell);
    FewerRequests(s, t);
  }

  lemma RejectSide(s: System, t: System, id: nat, side: Side)
    requires SideInv(s, side) && id !in s.live && t == CancelStep(s, id) && Due(t.responses, side) == Due(s.responses, side)
    ensures SideInv(t, side)
  {
    SameSideKeeps(s, t, side);
  }

  lemma FewerRequests(s: System, t: System)
    requires IdsInv(s) && t.client == s.client && t.live == s.live && t.requests <= s.requests
    ensures IdsInv(t)
  {
  }

  lemma CancelSide(s: System, t: System, id: nat, side: Side)
    requires CancelRequest(id) in s.requests && id in s.live && t == CancelStep(s, id) && side == s.live[id].side
    requires !side.NoSide? && s.client.On(side).orderId == id && s.client.On(side).state.PendingCancel?
    requires Working(s, side, Due(s.responses, side)) && s.live[id].leaves > 0
    ensures SideInv(t, side)
  {
    var reply, rs := Reply(Canceled, id, side, QTY_INVALID, s.live[id].leaves), Due(s.responses, side);
    DueSnoc(s.responses, reply, side);
    assert (rs + [reply])[..|rs|] == rs;
    assert NoNew(t, side);
    assert Ending(t, side);
  }

  lemma CancelOther(s: System, t: System, id: nat)
    requires IdsInv(s) && id in s.live && t == CancelStep(s, id)
    requires var other := Opposite(s.live[id].side); Busy(s.client.On(other)) ==> s.client.On(other).orderId != id
    ensures SameSide(s, t, Opposite(s.live[id].side))
  {
    DueSnoc(s.responses, Reply(Canceled, id, s.live[id].side, QTY_INVALID, s.live[id].leaves), Opposite(s.live[id].side));
  }

  lemma CancelBounded(s: System, t: System, lim: Limits, id: nat)
    requires Bounded(s, lim) && id in s.live && t == CancelStep(s, id)
    ensures Bounded(t, lim)
  {
    var reply := Reply(Canceled, id, s.live[id].side, QTY_INVALID, s.live[id].leaves);
    DueSnoc(s.responses, reply, Buy);
    DueSnoc(s.responses, reply, Sell);
    ExecutingSnoc(Due(s.responses, Buy), reply);
    ExecutingSnoc(Due(s.responses, Sell), reply);
  }

  lemma CancelKeeps(s: System, t: System, lim: Limits, id: nat)
    requires Flow(s) && CancelRequest(id) in s.requests && id in s.live && t == CancelStep(s, id)
    ensures Flow(t) && (Bounded(s, lim) ==> Bounded(t, lim))
  {
    var side := s.live[id].side;
    LiveIsOwn(s, id);
    assert CancelRequest(id) in s.requests && NotWorking(s.client.buy, id) && NotWorking(s.client.sell, id);
    assert SideInv(s, side);
    CancelSide(s, t, id, side);
    CancelOther(s, t, id);
    SameSideKeeps(s, t, Opposite(side));
    if Bounded(s, lim) {
      CancelBounded(s, t, lim, id);
    }
  }

  lemma FillSide(s: System, t: System, id: nat, exec: nat, side: Side)
    requires SideInv(s, side) && id in s.live && 0 < exec <= s.live[id].leaves && t == FillStep(s, id, exec)
    requires side == s.live[id].side && !side.NoSide? && s.client.On(side).orderId == id && Busy(s.client.On(side))
    ensures SideInv(t, side)
  {
    var leaves, slot, rs := s.live[id].leaves, s.client.On(side), Due(s.responses, side);
    var reply := Reply(Filled, id, side, exec, leaves - exec);
    DueSnoc(s.responses, reply, side);
    assert NoNew(s, side) && NoNew(t, side) && OwnOnly(t, side) && LeavesOf(t, id) == leaves - exec;
    if slot.state.PendingNew? {
      FillsSnoc(rs[1..], slot.qty, leaves, reply);
      assert (rs + [reply])[1..] == rs[1..] + [reply];
      assert Working(t, side, rs[1..] + [reply]);
    } else {
      FillsSnoc(rs, slot.qty, leaves, reply);
      assert Working(t, side, rs + [reply]);
    }
  }

  lemma FillOther(s: System, t: System, id: nat, exec: nat)
    requires IdsInv(s) && id in s.live && 0 < exec <= s.live[id].leaves && t == FillStep(s, id, exec)
    requires var other := Opposite(s.live[id].side); Busy(s.client.On(other)) ==> s.client.On(other).orderId != id
    ensures SameSide(s, t, Opposite(s.live[id].side))
  {
    DueSnoc(s.responses, Reply(Filled, id, s.live[id].side, exec, s.live[id].leaves - exec), Opposite(s.live[id].side));
  }

  lemma FillBounded(s: System, t: System, lim: Limits, id: nat, exec: nat)
    requires Bounded(s, lim) && id in s.live && 0 < exec <= s.live[id].leaves && t == FillStep(s, id, exec)
    requires !s.live[id].side.NoSide?
    ensures Bounded(t, lim)
  {
    var reply := Reply(Filled, id, s.live[id].side, exec, s.live[id].leaves - exec);
    DueSnoc(s.responses, reply, Buy);
    DueSnoc(s.responses, reply, Sell);
    ExecutingSnoc(Due(s.responses, Buy), reply);
    ExecutingSnoc(Due(s.responses, Sell), reply);
  }

  lemma FillKeeps(s: System, t: System, lim: Limits, id: nat, exec: nat)
    requires Flow(s) && id in s.live && 0 < exec <= s.live[id].leaves && t == FillStep(s, id, exec)
    ensures Flow(t) && (Bounded(s, lim) ==> Bounded(t, lim))
  {
    var side := s.live[id].side;
    LiveIsOwn(s, id);
    FillSide(s, t, id, exec, side);
    FillOther(s, t, id, exec);
    SameSideKeeps(s, t, Opposite(side));
    if Bounded(s, lim) {
      FillBounded(s, t, lim, id, exec);
    }
  }

  // ---------------------------------------------------------------------- responses

  lemma DueHead(rs: seq<Response>, side: Side)
    requires rs != []
    ensures Due(rs, side) == if rs[0].side == side then [rs[0]] + Due(rs[1..], side) else Due(rs[1..], side)
  {
  }

  /** The slot after the oldest response of its side, with the rest of that side's responses. */
  ghost predicate HeardOf(s: System, t: System, side: Side) {
    && !side.NoSide? && s.responses != [] && s.responses[0].side == side && t == RespondStep(s)
    && Due(s.responses, side) == [s.responses[0]] + Due(t.responses, side)
    && t.client.On(side) == React(s.client.On(side), s.responses[0])
  }

  /** What the oldest response may do to its slot. */
  ghost predicate Shrinks(slot: Slot, after: Slot, r: Response) {
    && Busy(slot) && !r.kind.CancelRejected?
    && (r.kind.Filled? ==> r.execQty <= slot.qty && Pot(after) == slot.qty - r.execQty)
    && (!r.kind.Filled? ==> Pot(after) <= slot.qty)
    && (after.state != slot.state ==> after.state.Dead? || (slot.state.PendingNew? && after.state.Live?))
  }

  lemma HearAccepted(s: System, t: System, side: Side)
    requires HeardOf(s, t, side) && SideInv(s, side) && s.client.On(side).state.PendingNew?
    ensures SideInv(t, side) && Shrinks(s.client.On(side), t.client.On(side), s.responses[0])
  {
    var rs := Due(s.responses, side);
    assert rs[1..] == Due(t.responses, side);
    assert Working(s, side, rs[1..]);
    assert NoNew(t, side) && Working(t, side, rs[1..]);
  }

  lemma FillsFromNothing(rs: seq<Response>, rest: nat)
    requires Fills(rs, 0, rest)
    ensures rs == [] && rest == 0
  {
  }

  lemma HearFill(s: System, t: System, side: Side)
    requires HeardOf(s, t, side) && IdsInv(s) && Working(s, side, Due(s.responses, side))
    requires s.client.On(side).state.Live? || s.client.On(side).state.PendingCancel?
    ensures SideInv(t, side) && Shrinks(s.client.On(side), t.client.On(side), s.responses[0])
  {
    var rs, r, slot := Due(s.responses, side), s.responses[0], s.client.On(side);
    assert rs[0] == r && rs[1..] == Due(t.responses, side);
    assert Fills(rs[1..], r.leavesQty, LeavesOf(s, slot.orderId));
    assert NoNew(t, side);
    if r.leavesQty == 0 {
      FillsFromNothing(rs[1..], LeavesOf(s, slot.orderId));
      assert Quiet(t, side);
    } else {
      assert Working(t, side, rs[1..]);
    }
  }

  lemma HearEnding(s: System, t: System, side: Side)
    requires HeardOf(s, t, side) && Ending(s, side) && s.client.On(side).state.PendingCancel?
    ensures SideInv(t, side) && Shrinks(s.client.On(side), t.client.On(side), s.responses[0])
  {
    var rs, r, slot := Due(s.responses, side), s.responses[0], s.client.On(side);
    var n := |rs| - 1;
    assert rs[0] == r && rs[1..] == Due(t.responses, side);
    assert NoNew(t, side);
    if n == 0 {
      assert Quiet(t, side);
    } else {
      assert rs[..n][0] == r && rs[..n][1..] == rs[1..][..n - 1];
      assert Fills(rs[1..][..n - 1], r.leavesQty, rs[n].leavesQty);
      if r.leavesQty == 0 {
        FillsFromNothing(rs[1..][..n - 1], rs[n].leavesQty);
      }
      assert Ending(t, side);
    }
  }

  lemma RespondSide(s: System, t: System, side: Side)
    requires SideInv(s, side) && IdsInv(s) && !side.NoSide? && s.responses != [] && s.responses[0].side == side
    requires t == RespondStep(s)
    ensures SideInv(t, side) && Shrinks(s.client.On(side), t.client.On(side), s.responses[0])
  {
    DueHead(s.responses, side);
    assert HeardOf(s, t, side);
    var slot := s.client.On(side);
    if slot.state.PendingNew? {
      HearAccepted(s, t, side);
    } else if Working(s, side, Due(s.responses, side)) {
      assert slot.state.Live? || slot.state.PendingCancel?;
      HearFill(s, t, side);
    } else {
      HearEnding(s, t, side);
    }
  }

  lemma RespondOther(s: System, t: System, side: Side)
    requires s.responses != [] && s.responses[0].side != side && t == RespondStep(s) && !side.NoSide?
    ensures SameSide(s, t, side)
  {
    DueHead(s.responses, side);
  }

  lemma ExecutingHead(r: Response, rs: seq<Response>)
    ensures Executing([r] + rs) == Executing(rs) + if r.kind.Filled? then r.execQty else 0
  {
    assert ([r] + rs)[1..] == rs;
  }

  /** What the client hears of a fill is what leaves the flight. */
  lemma HeardStep(s: System, t: System, side: Side)
    requires !side.NoSide? && s.responses != [] && s.responses[0].side == side && t == RespondStep(s)
    ensures Heard(t) == Heard(s) + if s.responses[0].kind.Filled? then s.responses[0].execQty * SideValue(side) else 0
  {
    DueHead(s.responses, Buy);
    DueHead(s.responses, Sell);
    ExecutingHead(s.responses[0], Due(t.responses, side));
  }

  /** The client's position follows modulo 2^32. */
  lemma RespondBounded(s: System, t: System, lim: Limits, side: Side)
    requires Bounded(s, lim) && !side.NoSide? && s.responses != [] && s.responses[0].side == side
    requires t == RespondStep(s) && Shrinks(s.client.On(side), t.client.On(side), s.responses[0])
    ensures Bounded(t, lim)
  {
    HeardStep(s, t, side);
    Int32Adds(Heard(s), s.responses[0].execQty, SideValue(side));
    assert t.client.On(Opposite(side)) == s.client.On(Opposite(side));
  }

  lemma RespondIds(s: System, t: System, side: Side)
    requires IdsInv(s) && !side.NoSide? && s.responses != [] && s.responses[0].side == side
    requires t == RespondStep(s) && Shrinks(s.client.On(side), t.client.On(side), s.responses[0])
    ensures IdsInv(t)
  {
    assert t.client.On(side).orderId == s.client.On(side).orderId;
  }

  lemma RespondKeeps(s: System, t: System, lim: Limits)
    requires Flow(s) && s.responses != [] && t == RespondStep(s)
    requires Answers(s.client, s.responses[0])
    ensures Flow(t) && (Bounded(s, lim) ==> Bounded(t, lim))
  {
    var side := s.responses[0].side;
    if side.NoSide? {
      RespondOther(s, t, Buy);
      RespondOther(s, t, Sell);
      SameSideKeeps(s, t, Buy);
      SameSideKeeps(s, t, Sell);
    } else {
      assert SideInv(s, side);
      RespondSide(s, t, side);
      RespondOther(s, t, Opposite(side));
      SameSideKeeps(s, t, Opposite(side));
      RespondIds(s, t, side);
      if Bounded(s, lim) {
        RespondBounded(s, t, lim, side);
      }
    }
  }

  // ---------------------------------------------------------------------- no stale responses

  lemma {:induction false} NoneDue(rs: seq<Response>, side: Side)
    requires Due(rs, side) == []
    ensures forall i :: 0 <= i < |rs| ==> rs[i].side != side
    decreases |rs|
  {
    if rs != [] {
      NoneDue(rs[1..], side);
    }
  }

  lemma CurrentSnoc(s: System, t: System, r: Response)
    requires Current(s) && t.client == s.client && t.responses == s.responses + [r] && Answers(s.client, r)
    ensures Current(t)
  {
  }

  lemma QuoteCurrent(s: System, t: System, lim: Limits, side: Side, price: int, qty: nat, tolerance: int, loss: bool)
    requires Current(s) && SideInv(s, side) && !side.NoSide? && t == QuoteStep(s, lim, side, price, qty, tolerance, loss)
    ensures Current(t)
  {
    if !Busy(s.client.On(side)) {
      NoneDue(s.responses, side);
    }
  }

  lemma RespondCurrent(s: System, t: System)
    requires Current(s) && s.responses != [] && t == RespondStep(s)
    ensures Current(t)
  {
    forall i | 0 <= i < |t.responses|
      ensures Answers(t.client, t.responses[i])
    {
      assert Answers(s.client, s.responses[i + 1]);
    }
  }

  lemma StepCurrent(s: System, t: System, lim: Limits, e: Event)
    requires Flow(s) && Current(s) && Possible(s, e) && t == Step(s, lim, e)
    ensures Current(t)
  {
    match e
    case Quote(side, price, qty, tolerance, loss) => QuoteCurrent(s, t, lim, side, price, qty, tolerance, loss);
    case Elsewhere =>
    case TakeNew(id, side, price, qty) =>
      AskedFor(s, id, side, price, qty);
      CurrentSnoc(s, t, Reply(Accepted, id, side, 0, qty));
    case TakeCancel(id) =>
      if id in s.live {
        LiveIsOwn(s, id);
      }
      CurrentSnoc(s, t, t.responses[|s.responses|]);
    case Fill(id, exec) =>
      LiveIsOwn(s, id);
      CurrentSnoc(s, t, t.responses[|s.responses|]);
    case Respond => RespondCurrent(s, t);
  }

  // ---------------------------------------------------------------------- every run

  lemma ElsewhereKeeps(s: System, t: System, lim: Limits)
    requires Flow(s) && t == s.(client := s.client.(nextId := s.client.nextId + 1))
    ensures Flow(t) && (Bounded(s, lim) ==> Bounded(t, lim))
  {
    SameSideKeeps(s, t, Buy);
    SameSideKeeps(s, t, Sell);
  }

  lemma StepKeeps(s: System, t: System, lim: Limits, e: Event)
    requires Flow(s) && Current(s) && Possible(s, e) && t == Step(s, lim, e)
    ensures Flow(t) && (Bounded(s, lim) && LimitsHold(lim) ==> Bounded(t, lim))
  {
    match e
    case Quote(side, price, qty, tolerance, loss) => QuoteKeeps(s, t, lim, side, price, qty, tolerance, loss);
    case Elsewhere => ElsewhereKeeps(s, t, lim);
    case TakeNew(id, side, price, qty) => AcceptKeeps(s, t, lim, id, side, price, qty);
    case TakeCancel(id) =>
      if id in s.live {
        CancelKeeps(s, t, lim, id);
      } else {
        RejectKeeps(s, t, lim, id);
      }
    case Fill(id, exec) => FillKeeps(s, t, lim, id, exec);
    case Respond => RespondKeeps(s, t, lim);
  }

  lemma {:induction false} RunKeeps(s: System, lim: Limits, es: seq<Event>)
    requires Inv(s, lim) && Current(s) && LimitsHold(lim) && PossibleAll(s, lim, es)
    ensures Inv(StepAll(s, lim, es), lim) && Current(StepAll(s, lim, es))
    decreases |es|
  {
    if es != [] {
      StepKeeps(s, Step(s, lim, es[0]), lim, es[0]);
      StepCurrent(s, Step(s, lim, es[0]), lim, es[0]);
      RunKeeps(Step(s, lim, es[0]), lim, es[1..]);
    }
  }

  /** Whatever the limits. */
  lemma {:induction false} RunFlows(s: System, lim: Limits, es: seq<Event>)
    requires Flow(s) && Current(s) && PossibleAll(s, lim, es)
    ensures Flow(StepAll(s, lim, es)) && Current(StepAll(s, lim, es))
    decreases |es|
  {
    if es != [] {
      StepKeeps(s, Step(s, lim, es[0]), lim, es[0]);
      StepCurrent(s, Step(s, lim, es[0]), lim, es[0]);
      RunFlows(Step(s, lim, es[0]), lim, es[1..]);
    }
  }

  lemma WithinLimits(s: System, lim: Limits)
    requires Inv(s, lim) && LimitsHold(lim)
    ensures WithinPosition(lim, s.client.position) && WithinPosition(lim, s.executed)
  {
    ExecutingWithinPot(s, Buy);
    ExecutingWithinPot(s, Sell);
  }

  /** Over every interleaving of quotes, requests, fills, cancels and responses: the client's position
      and the executed position are within the limit, a side never has two live orders, and no response
      reaches a slot on behalf of an order that the slot no longer holds. */
  lemma ExposureBounded(lim: Limits, es: seq<Event>)
    requires LimitsHold(lim) && PossibleAll(IDLE, lim, es)
    ensures var s := StepAll(IDLE, lim, es);
            && WithinPosition(lim, s.client.position) && WithinPosition(lim, s.executed)
            && (forall i, j :: i in s.live && j in s.live && s.live[i].side == s.live[j].side ==> i == j)
            && Current(s)
  {
    assert Inv(IDLE, lim);
    RunKeeps(IDLE, lim, es);
    var s := StepAll(IDLE, lim, es);
    WithinLimits(s, lim);
    forall i, j | i in s.live && j in s.live && s.live[i].side == s.live[j].side
      ensures i == j
    {
      LiveIsOwn(s, i);
      LiveIsOwn(s, j);
    }
  }

  // ---------------------------------------------------------------------- when the limits do not fit

  /** Nothing out, nothing in flight, and the client knows what has been executed. */
  ghost predicate AtRest(s: System, position: int) {
    && s.requests == multiset{} && s.live == map[] && s.responses == []
    && s.client.position == s.executed == position && !Busy(s.client.buy)
  }

  lemma {:induction false} RunThenStep(s: System, lim: Limits, es: seq<Event>, e: Event)
    requires PossibleAll(s, lim, es) && Possible(StepAll(s, lim, es), e)
    ensures PossibleAll(s, lim, es + [e]) && StepAll(s, lim, es + [e]) == Step(StepAll(s, lim, es), lim, e)
    decreases |es|
  {
    if es == [] {
      assert es + [e] == [e] && [e][1..] == [];
    } else {
      RunThenStep(Step(s, lim, es[0]), lim, es[1..], e);
      assert (es + [e])[1..] == es[1..] + [e];
    }
  }

  /** A client at rest buys; the order reaches the exchange and is accepted. */
  lemma Bought(lim: Limits, es: seq<Event>, qty: nat) returns (es': seq<Event>)
    requires PossibleAll(IDLE, lim, es) && 0 < qty < TWO_32
    requires var s := StepAll(IDLE, lim, es); AtRest(s, s.executed) && CheckPreTradeRisk(lim, s.executed, Buy, qty, false).Allowed?
    ensures PossibleAll(IDLE, lim, es')
    ensures var s, t := StepAll(IDLE, lim, es), StepAll(IDLE, lim, es');
            var id := s.client.nextId;
            && t.client == s.client.(buy := Slot(0, id, Buy, 0, qty, PendingNew), nextId := id + 1)
            && t.requests == multiset{} && t.live == map[id := Resting(Buy, 0, qty)]
            && t.responses == [Reply(Accepted, id, Buy, 0, qty)] && t.executed == s.executed
  {
    var s := StepAll(IDLE, lim, es);
    var id, quote := s.client.nextId, Quote(Buy, 0, qty, 0, false);
    RunThenStep(IDLE, lim, es, quote);
    var t := PlaceStep(s, Buy, 0, qty);
    assert t.requests == multiset{NewRequest(id, Buy, 0, qty)};
    RunThenStep(IDLE, lim, es + [quote], TakeNew(id, Buy, 0, qty));
    es' := es + [quote] + [TakeNew(id, Buy, 0, qty)];
  }

  /** ... and is filled, and the client hears of both. */
  lemma BoughtAndFilled(lim: Limits, es: seq<Event>, qty: nat) returns (es': seq<Event>)
    requires PossibleAll(IDLE, lim, es) && 0 < qty < TWO_31
    requires var s := StepAll(IDLE, lim, es); AtRest(s, s.executed) && -TWO_31 <= s.executed + qty < TWO_31
    requires CheckPreTradeRisk(lim, StepAll(IDLE, lim, es).executed, Buy, qty, false).Allowed?
    ensures PossibleAll(IDLE, lim, es') && AtRest(StepAll(IDLE, lim, es'), StepAll(IDLE, lim, es).executed + qty)
    ensures StepAll(IDLE, lim, es').client.nextId == StepAll(IDLE, lim, es).client.nextId + 1
  {
    var id := StepAll(IDLE, lim, es).client.nextId;
    var e1 := Bought(lim, es, qty);
    RunThenStep(IDLE, lim, e1, Respond);
    RunThenStep(IDLE, lim, e1 + [Respond], Fill(id, qty));
    RunThenStep(IDLE, lim, e1 + [Respond] + [Fill(id, qty)], Respond);
    es' := e1 + [Respond] + [Fill(id, qty)] + [Respond];
  }

  /** The client has used so few ids that their orders, full size but for one, do not add up to more. */
  predicate FewOrders(nextId: nat, size: nat, position: nat) {
    nextId >= 1 && Quantity(nextId - 1, size) < position + size
  }

  function Quantity(orders: nat, size: nat): nat {
    orders * size
  }

  lemma OneOrderMore(n: nat, size: nat, position: nat, step: nat)
    requires step == Min(size, position) && 0 < step && FewOrders(n, size, position - step)
    requires position - step == 0 ==> n == 1
    ensures FewOrders(n + 1, size, position)
  {
    assert n * size == (n - 1) * size + size;
  }

  /** Buying as much as one order may be for, the client can reach any position up to its limit. */
  lemma {:induction false} Reachable(lim: Limits, position: nat) returns (es: seq<Event>)
    requires lim.maxOrderSize >= 1 && position <= lim.maxPosition < TWO_31
    ensures PossibleAll(IDLE, lim, es) && AtRest(StepAll(IDLE, lim, es), position)
    ensures FewOrders(StepAll(IDLE, lim, es).client.nextId, lim.maxOrderSize, position)
    ensures position == 0 ==> StepAll(IDLE, lim, es).client.nextId == 1
    decreases position
  {
    if position == 0 {
      es := [];
    } else {
      var step := Min(lim.maxOrderSize, position);
      var before := Reachable(lim, position - step);
      es := BoughtAndFilled(lim, before, step);
      OneOrderMore(StepAll(IDLE, lim, before).client.nextId, lim.maxOrderSize, position, step);
    }
  }

  ghost predicate AlwaysWithin(lim: Limits) {
    forall es: seq<Event> :: PossibleAll(IDLE, lim, es) ==> WithinPosition(lim, StepAll(IDLE, lim, es).executed)
  }

  lemma FillExecutes(s: System, id: nat, qty: nat)
    requires id in s.live && s.live[id] == Resting(Buy, 0, qty)
    ensures FillStep(s, id, qty).executed == s.executed + qty
  {
  }

  /** From the top of the limit, one order for the room up to 2^31. */
  lemma OneTooMany(lim: Limits, top: seq<Event>) returns (es: seq<Event>)
    requires lim.maxPosition < TWO_31 && !LimitsFit(lim)
    requires PossibleAll(IDLE, lim, top) && AtRest(StepAll(IDLE, lim, top), lim.maxPosition)
    ensures PossibleAll(IDLE, lim, es) && StepAll(IDLE, lim, es).executed == TWO_31
    ensures StepAll(IDLE, lim, es).client.nextId == StepAll(IDLE, lim, top).client.nextId + 1
  {
    var qty := TWO_31 - lim.maxPosition;
    assert CheckPreTradeRisk(lim, lim.maxPosition, Buy, qty, false).Allowed? by {
      OverflowSlipsThrough(lim);
    }
    var bought := Bought(lim, top, qty);
    var id, t := StepAll(IDLE, lim, top).client.nextId, StepAll(IDLE, lim, bought);
    FillExecutes(t, id, qty);
    RunThenStep(IDLE, lim, bought, Fill(id, qty));
    es := bought + [Fill(id, qty)];
  }

  lemma FewFitTable(nextId: nat, size: nat, position: nat)
    requires 4096 <= size && position < TWO_31 && FewOrders(nextId, size, position)
    ensures nextId + 1 < ME_MAX_ORDER_IDS
  {
    var n := nextId - 2;
    assert (nextId - 1) * size == n * size + size;
    assert n >= 0 ==> n * size >= n * 4096;
  }

  /** With limits that do not hold in 32 bits, a run takes the executed position beyond the limit, with as few
      orders as their size allows: where orders of 4096 are allowed, within the order ids of the exchange's
      table. */
  lemma ExposureEscapes(lim: Limits) returns (es: seq<Event>)
    requires lim.maxPosition < TWO_31 && !LimitsFit(lim)
    ensures PossibleAll(IDLE, lim, es) && StepAll(IDLE, lim, es).executed == TWO_31 > lim.maxPosition
    ensures StepAll(IDLE, lim, es).client.nextId >= 2
    ensures FewOrders(StepAll(IDLE, lim, es).client.nextId - 1, lim.maxOrderSize, lim.maxPosition)
    ensures lim.maxOrderSize >= 4096 ==> StepAll(IDLE, lim, es).client.nextId < ME_MAX_ORDER_IDS
  {
    var top := Reachable(lim, lim.maxPosition);
    es := OneTooMany(lim, top);
    if lim.maxOrderSize >= 4096 {
      FewFitTable(StepAll(IDLE, lim, top).client.nextId, lim.maxOrderSize, lim.maxPosition);
    }
  }

  /** The executed position is bounded in every run exactly when the limits fit, or the position limit is
      so large that it reads as negative. */
  lemma ExposureBoundedIff(lim: Limits)
    requires lim.maxPosition < TWO_32
    ensures AlwaysWithin(lim) <==> LimitsFit(lim) || lim.maxPosition >= TWO_31
  {
    if LimitsHold(lim) {
      forall es: seq<Event> | PossibleAll(IDLE, lim, es)
        ensures WithinPosition(lim, StepAll(IDLE, lim, es).executed)
      {
        ExposureBounded(lim, es);
      }
    } else {
      var es := ExposureEscapes(lim);
    }
  }
}
