/** The client's order slots and its pre-trade check as functions: what one response does to a slot and
    what one quote does with it (trading/strategy/order_manager.h, risk_manager.h). */
module OrderSlots {
  import opened Types

  const TWO_31: int := 0x8000_0000
  const TWO_32: int := 0x1_0000_0000

  /** A number stored in 32 bits, read as signed. */
  function Int32(x: int): (r: int)
    ensures -TWO_31 <= r < TWO_31
    ensures -TWO_31 <= x < TWO_31 ==> r == x
  {
    (x + TWO_31) % TWO_32 - TWO_31
  }

  /** std::abs on 32 bits; the most negative number has no positive counterpart and stays itself. */
  function Abs32(x: int): int {
    if x < 0 then Int32(-x) else x
  }

  function SideValue(side: Side): int {
    match side
    case Buy => 1
    case Sell => -1
    case NoSide => 0
  }

  // ---------------------------------------------------------------------- the pre-trade check

  datatype Limits = Limits(maxOrderSize: nat, maxPosition: nat)

  datatype RiskCheckResult = OrderTooLarge | PositionTooLarge | LossTooLarge | Allowed

  /** checkPreTradeRisk (risk_manager.h:43-56); `lossTooLarge` is its comparison of the total PnL. */
  function CheckPreTradeRisk(lim: Limits, position: int, side: Side, qty: nat, lossTooLarge: bool): RiskCheckResult {
    if qty > lim.maxOrderSize then OrderTooLarge
    else if Abs32(Int32(position + SideValue(side) * Int32(qty))) > Int32(lim.maxPosition) then PositionTooLarge
    else if lossTooLarge then LossTooLarge
    else Allowed
  }

  predicate WithinPosition(lim: Limits, position: int) {
    -(lim.maxPosition as int) <= position <= lim.maxPosition
  }

  /** Whatever the position within the limit, an order that is allowed cannot take it beyond. */
  ghost predicate CheckIsSound(lim: Limits) {
    forall position: int, side: Side, qty: nat, loss: bool ::
      WithinPosition(lim, position) && -TWO_31 <= position < TWO_31 && qty < TWO_32 &&
      CheckPreTradeRisk(lim, position, side, qty, loss).Allowed? ==>
        WithinPosition(lim, position + SideValue(side) * qty)
  }

  /** The limits leave room in 32 bits. */
  predicate LimitsFit(lim: Limits) {
    lim.maxPosition + lim.maxOrderSize < TWO_31
  }

  /** Positions, orders and sums stay in 32 bits, so the check is the comparison it looks like. */
  lemma AllowedWithinLimits(lim: Limits, position: int, side: Side, qty: nat, loss: bool)
    requires LimitsFit(lim) && WithinPosition(lim, position)
    requires CheckPreTradeRisk(lim, position, side, qty, loss).Allowed?
    ensures qty <= lim.maxOrderSize && WithinPosition(lim, position + SideValue(side) * qty)
  {
    var sum := position + SideValue(side) * qty;
    assert -TWO_31 < sum < TWO_31;
    assert Int32(lim.maxPosition) == lim.maxPosition && Int32(qty) == qty;
  }

  /** Which answer the check gives when the limits fit: the size first, then the position that would result,
      then the loss; an order is allowed exactly if none of the three objects. */
  lemma CheckIs(lim: Limits, position: int, side: Side, qty: nat, loss: bool)
    requires LimitsFit(lim) && WithinPosition(lim, position)
    ensures var r, after := CheckPreTradeRisk(lim, position, side, qty, loss), position + SideValue(side) * qty;
            && (r.OrderTooLarge? <==> qty > lim.maxOrderSize)
            && (r.PositionTooLarge? <==> qty <= lim.maxOrderSize && !WithinPosition(lim, after))
            && (r.LossTooLarge? <==> qty <= lim.maxOrderSize && WithinPosition(lim, after) && loss)
            && (r.Allowed? <==> qty <= lim.maxOrderSize && WithinPosition(lim, after) && !loss)
  {
    if qty <= lim.maxOrderSize {
      assert -TWO_31 < position + SideValue(side) * qty < TWO_31;
      assert Int32(lim.maxPosition) == lim.maxPosition && Int32(qty) == qty;
    }
  }

  /** Whatever the limits and the position, a loss beyond the limit allows nothing. */
  lemma LossStops(lim: Limits, position: int, side: Side, qty: nat)
    ensures !CheckPreTradeRisk(lim, position, side, qty, true).Allowed?
  {
  }

  /** An order for exactly the room up to 2^31 from the top of the limit. */
  lemma OverflowSlipsThrough(lim: Limits)
    requires lim.maxPosition < TWO_31 <= lim.maxPosition + lim.maxOrderSize
    ensures CheckPreTradeRisk(lim, lim.maxPosition, Buy, TWO_31 - lim.maxPosition, false).Allowed?
    ensures !WithinPosition(lim, lim.maxPosition + SideValue(Buy) * (TWO_31 - lim.maxPosition))
  {
    assert Int32(TWO_31) == -TWO_31;
  }

  /** A limit that reads as negative lets nothing through but sums that read as -2^31. */
  lemma HugeLimitIsSound(lim: Limits, position: int, side: Side, qty: nat, loss: bool)
    requires TWO_31 <= lim.maxPosition < TWO_32 && -TWO_31 <= position < TWO_31 && qty < TWO_32
    requires CheckPreTradeRisk(lim, position, side, qty, loss).Allowed?
    ensures WithinPosition(lim, position + SideValue(side) * qty)
  {
    var sum := position + SideValue(side) * Int32(qty);
    assert Int32(lim.maxPosition) == lim.maxPosition - TWO_32;
    assert Abs32(Int32(sum)) < 0;
    assert Int32(sum) == -TWO_31;
  }

  /** How far the check lets a position go: the limit, or 2^31 when the limit reads as negative. */
  function Bound(lim: Limits): int {
    if LimitsFit(lim) then lim.maxPosition else TWO_31
  }

  /** The limits fit, or the position limit is so large that it reads as negative. */
  predicate LimitsHold(lim: Limits) {
    LimitsFit(lim) || TWO_31 <= lim.maxPosition < TWO_32
  }

  predicate WithinBound(lim: Limits, position: int) {
    -Bound(lim) <= position <= Bound(lim)
  }

  lemma Int32Off(x: int) returns (n: int)
    ensures Int32(x) == x + n * TWO_32
  {
    n := -((x + TWO_31) / TWO_32);
  }

  lemma Int32Shift(x: int, n: int)
    ensures Int32(x + n * TWO_32) == Int32(x)
  {
    assert (x + n * TWO_32 + TWO_31) % TWO_32 == (x + TWO_31) % TWO_32;
  }

  /** 32-bit arithmetic agrees with exact arithmetic modulo 2^32. */
  lemma Int32Adds(a: int, b: int, sign: int)
    requires sign == 1 || sign == -1
    ensures Int32(Int32(a) + sign * Int32(b)) == Int32(a + sign * b)
    ensures Int32(Int32(a) + Int32(b) * sign) == Int32(a + b * sign)
  {
    var n := Int32Off(a);
    var m := Int32Off(b);
    if sign == 1 {
      Int32Shift(a + b, n + m);
    } else {
      Int32Shift(a - b, n - m);
    }
  }

  /** The check sees only the low 32 bits of the exact position, and still lets it go no further than the
      bound. */
  lemma AllowedWithinBound(lim: Limits, exact: int, side: Side, qty: nat, loss: bool)
    requires LimitsHold(lim) && WithinBound(lim, exact) && qty < TWO_32 && !side.NoSide?
    requires CheckPreTradeRisk(lim, Int32(exact), side, qty, loss).Allowed?
    ensures WithinBound(lim, exact + SideValue(side) * qty)
  {
    if LimitsFit(lim) {
      AllowedWithinLimits(lim, exact, side, qty, loss);
    } else {
      Int32Adds(exact, qty, SideValue(side));
      assert Int32(lim.maxPosition) == lim.maxPosition - TWO_32;
      assert Int32(exact + SideValue(side) * qty) == -TWO_31;
    }
  }

  /** The check does what it is for exactly when the limits fit, or the position limit is so large that
      it reads as negative. */
  lemma CheckSoundIff(lim: Limits)
    requires lim.maxPosition < TWO_32 && lim.maxOrderSize < TWO_32
    ensures CheckIsSound(lim) <==> LimitsFit(lim) || lim.maxPosition >= TWO_31
  {
    if LimitsFit(lim) {
      forall position: int, side: Side, qty: nat, loss: bool |
        WithinPosition(lim, position) && CheckPreTradeRisk(lim, position, side, qty, loss).Allowed?
        ensures WithinPosition(lim, position + SideValue(side) * qty)
      {
        AllowedWithinLimits(lim, position, side, qty, loss);
      }
    } else if lim.maxPosition >= TWO_31 {
      forall position: int, side: Side, qty: nat, loss: bool |
        -TWO_31 <= position < TWO_31 && qty < TWO_32 && CheckPreTradeRisk(lim, position, side, qty, loss).Allowed?
        ensures WithinPosition(lim, position + SideValue(side) * qty)
      {
        HugeLimitIsSound(lim, position, side, qty, loss);
      }
    } else {
      OverflowSlipsThrough(lim);
    }
  }

  // ---------------------------------------------------------------------- one order slot

  datatype SlotState = Unset | PendingNew | Live | PendingCancel | Dead

  datatype Slot = Slot(ticker: nat, orderId: nat, side: Side, price: int, qty: nat, state: SlotState)

  const NO_ORDER: Slot := Slot(TICKER_ID_INVALID, ORDER_ID_INVALID, NoSide, PRICE_INVALID, QTY_INVALID, Unset)

  /** onOrderUpdate on the slot of the response's side (order_manager.h:40-58). */
  function React(slot: Slot, r: Response): Slot {
    match r.kind
    case Accepted => slot.(state := Live)
    case Canceled => slot.(state := Dead)
    case Filled => slot.(qty := r.leavesQty, state := if r.leavesQty == 0 then Dead else slot.state)
    case CancelRejected => slot
  }

  /** How far a quote is from the order that is out (order_manager.h:75-77). */
  function Distance(slot: Slot, price: int): int {
    if price == PRICE_INVALID then PRICE_INVALID
    else if slot.price < price then price - slot.price else slot.price - price
  }

  datatype Move = Stay | Withdraw | Place

  /** What moveOrder does with a quote (order_manager.h:70-114). */
  function MoveOf(slot: Slot, price: int, tolerance: int, risk: RiskCheckResult): Move {
    match slot.state
    case Live => if Distance(slot, price) > tolerance then Withdraw else Stay
    case Unset => if price != PRICE_INVALID && risk.Allowed? then Place else Stay
    case Dead => if price != PRICE_INVALID && risk.Allowed? then Place else Stay
    case PendingNew => Stay
    case PendingCancel => Stay
  }
}
