/** A ticker's position record as it is updated in place (trading/strategy/position_keeper.h). Its basis
    array has no initialiser in the source and is taken to start at zero. */
module PositionKeeper {
  import opened Types
  import opened OrderSlots
  import opened PnL

  class PositionInfo {
    var position: int
    var realPnl: real
    var unrealPnl: real
    var totalPnl: real
    var openBuy: real
    var openSell: real
    var volume: nat

    constructor ()
      ensures State() == FLAT
    {
      position, realPnl, unrealPnl, totalPnl, openBuy, openSell, volume := 0, 0.0, 0.0, 0.0, 0.0, 0.0, 0;
    }

    function State(): Position
      reads this
    {
      Position(position, realPnl, unrealPnl, totalPnl, openBuy, openSell, volume)
    }

    method SetOpen(side: Side, x: real)
      modifies `openBuy, `openSell
      ensures State() == old(State()).WithBasis(side, x)
    {
      if side.Buy? {
        openBuy := x;
      } else {
        openSell := x;
      }
    }

    method AddToOpen(side: Side, cost: real)
      modifies `openBuy, `openSell
      ensures State() == old(State()).WithBasis(side, old(State()).Basis(side) + cost)
    {
      SetOpen(side, (if side.Buy? then openBuy else openSell) + cost);
    }

    method Shift(side: Side, after: int, qty: nat, kept: real, gain: real, flipped: bool, basis: real)
      modifies this
      ensures State() == Shifted(old(State()), side, after, qty, kept, gain, flipped, basis)
    {
      position := after;
      volume := (volume + qty) % QTY_RANGE;
      SetOpen(Opposite(side), kept);
      realPnl := realPnl + gain;
      if flipped {
        SetOpen(side, basis);
        SetOpen(Opposite(side), 0.0);
      }
    }

    /** addFill, the position and its bases (lines 45-69). */
    method Book(side: Side, price: int, qty: nat)
      requires !side.NoSide?
      modifies this
      ensures State() == Booked(old(State()), side, price, qty)
    {
      var after := Int32(position + Int32(qty) * SideValue(side));
      if position * SideValue(side) >= 0 {
        Open(side, after, qty, Cost(price, qty));
      } else {
        Close(side, price, qty, after);
      }
    }

    method Open(side: Side, after: int, qty: nat, cost: real)
      modifies this
      ensures State() == old(State()).(position := after, volume := (old(volume) + qty) % QTY_RANGE)
                                     .WithBasis(side, old(State()).Basis(side) + cost)
    {
      position := after;
      volume := (volume + qty) % QTY_RANGE;
      AddToOpen(side, cost);
    }

    method Close(side: Side, price: int, qty: nat, after: int)
      requires !side.NoSide? && position != 0
      modifies this
      ensures State() == Closed(old(State()), side, price, qty, after, Opposed(after, old(position)))
    {
      var oppSideVwap := Average(State(), side);
      Shift(side, after, qty, Value(oppSideVwap, after), Gain(position, side, price, qty, oppSideVwap),
            Opposed(after, position), Value(price as real, after));
    }

    /** addFill (lines 43-98). */
    method AddFill(side: Side, price: int, qty: nat, rebateBps: real)
      requires !side.NoSide?
      modifies this
      ensures State() == WithFill(old(State()), side, price, qty, rebateBps)
    {
      Book(side, price, qty);
      if position == 0 {
        openBuy, openSell, unrealPnl := 0.0, 0.0, 0.0;
      } else {
        unrealPnl := OpenAt(State(), price as real);
      }
      totalPnl := unrealPnl + realPnl;
      if rebateBps != 0.0 {
        var rebate := Rebate(price, qty, rebateBps);
        realPnl := realPnl + rebate;
        totalPnl := totalPnl + rebate;
      }
    }

    /** updateBBO (lines 106-123). */
    method UpdateBBO(bid: int, ask: int)
      modifies `unrealPnl, `totalPnl
      ensures State() == Marked(old(State()), bid, ask)
    {
      if position != 0 && bid != PRICE_INVALID && ask != PRICE_INVALID {
        unrealPnl := OpenAt(State(), Mid(bid, ask));
        totalPnl := unrealPnl + realPnl;
      }
    }
  }
}
