/** Position and profit of one ticker as functions of its fills and marks, and the accounting identity
    they obey (trading/strategy/position_keeper.h:43-123). Doubles are modelled as reals, so rounding is
    not; positions are 32-bit integers. */
module PnL {
  import opened Types
  import opened OrderSlots

  /** `long` and `short` are open_vwap_ for BUY and SELL: cost of what is held, proceeds of what is owed. */
  datatype Position = Position(position: int, realised: real, unrealised: real, total: real,
                               long: real, short: real, volume: nat)
  {
    function Basis(side: Side): real {
      if side.Buy? then long else short
    }
    function WithBasis(side: Side, x: real): Position {
      if side.Buy? then this.(long := x) else this.(short := x)
    }
  }

  const FLAT: Position := Position(0, 0.0, 0.0, 0.0, 0.0, 0.0, 0)

  function AbsInt(x: int): (r: nat)
    ensures r == x || r == -x
  {
    if x < 0 then -x else x
  }

  function Lesser(a: int, b: int): int {
    if a <= b then a else b
  }

  function Sign(side: Side): real {
    SideValue(side) as real
  }

  // ---------------------------------------------------------------------- a fill

  predicate Adds(p: Position, side: Side) {
    p.position * SideValue(side) >= 0
  }

  /** The average price of what a fill on `side` closes. */
  function Average(p: Position, side: Side): real
    requires p.position != 0
  {
    p.Basis(Opposite(side)) / AbsInt(p.position) as real
  }

  /** Lines 51-69; the product of the two positions is a 32-bit one. */
  function Booked(p: Position, side: Side, price: int, qty: nat): Position {
    var after := Int32(p.position + Int32(qty) * SideValue(side));
    if Adds(p, side) then
      p.(position := after, volume := (p.volume + qty) % QTY_RANGE).WithBasis(side, p.Basis(side) + Cost(price, qty))
    else
      Closed(p, side, price, qty, after, Opposed(after, p.position))
  }

  /** A fill that closes some of the position and leaves it at `after`; `flipped` says on which side. */
  function Closed(p: Position, side: Side, price: int, qty: nat, after: int, flipped: bool): Position
    requires p.position != 0
  {
    var average := Average(p, side);
    Shifted(p, side, after, qty, Value(average, after), Gain(p.position, side, price, qty, average), flipped, Value(price as real, after))
  }

  function Value(price: real, position: int): real {
    price * AbsInt(position) as real
  }

  /** What closing by this fill earns (lines 60-63). */
  function Gain(position: int, side: Side, price: int, qty: nat, average: real): real {
    Lesser(Int32(qty), AbsInt(position)) as real * (average - price as real) * Sign(side)
  }

  /** The comparison of line 65, on a 32-bit product. */
  predicate Opposed(after: int, before: int) {
    Int32(after * before) < 0
  }

  function Cost(price: int, qty: nat): real {
    (price * qty) as real
  }

  /** What is left of the old side is kept, the gain is realised, and the new side opens if the position
      went through zero. */
  function Shifted(p: Position, side: Side, after: int, qty: nat, kept: real, gain: real, flipped: bool, basis: real): Position {
    var reduced := p.(position := after, volume := (p.volume + qty) % QTY_RANGE)
                    .WithBasis(Opposite(side), kept).(realised := p.realised + gain);
    if flipped then reduced.WithBasis(side, basis).WithBasis(Opposite(side), 0.0) else reduced
  }

  /** What the open position would make at a price (lines 76-84, 113-120). */
  function OpenAt(p: Position, price: real): real {
    if p.position == 0 then 0.0
    else if p.position > 0 then (price - p.long / AbsInt(p.position) as real) * AbsInt(p.position) as real
    else (p.short / AbsInt(p.position) as real - price) * AbsInt(p.position) as real
  }

  function Rebate(price: int, qty: nat, bps: real): real {
    price as real * qty as real * bps * 0.0001
  }

  /** Lines 71-98: what is open at the price of the fill, and the rebate. */
  function Finished(b: Position, price: int, qty: nat, bps: real): Position {
    var f := if b.position == 0 then b.(long := 0.0, short := 0.0) else b;
    var unrealised := OpenAt(f, price as real);
    var rebate := if bps != 0.0 then Rebate(price, qty, bps) else 0.0;
    f.(unrealised := unrealised, realised := f.realised + rebate, total := unrealised + f.realised + rebate)
  }

  /** addFill. */
  function WithFill(p: Position, side: Side, price: int, qty: nat, bps: real): Position {
    Finished(Booked(p, side, price, qty), price, qty, bps)
  }

  /** updateBBO. */
  function Marked(p: Position, bid: int, ask: int): Position {
    if p.position == 0 || bid == PRICE_INVALID || ask == PRICE_INVALID then p
    else
      var unrealised := OpenAt(p, Mid(bid, ask));
      p.(unrealised := unrealised, total := unrealised + p.realised)
  }

  function Mid(bid: int, ask: int): real {
    (bid + ask) as real * 0.5
  }

  // ---------------------------------------------------------------------- the identity

  /** Only the side that is open has a basis. */
  ghost predicate OneSided(p: Position) {
    && -TWO_31 < p.position < TWO_31
    && (p.position <= 0 ==> p.long == 0.0) && (p.position >= 0 ==> p.short == 0.0)
  }

  /** Realised profit is net cash plus the cost of what is held, less the proceeds of what is owed, plus
      rebates. */
  ghost predicate Balanced(p: Position, cash: real, rebates: real) {
    p.realised == cash + p.long - p.short + rebates
  }

  /** Total profit is net cash plus the position at the last mark plus rebates. */
  ghost predicate MarkedTo(p: Position, cash: real, rebates: real, mark: real) {
    p.total == cash + p.position as real * mark + rebates
  }

  /** The fill and the position after it fit in 32 bits. */
  predicate Fits(p: Position, side: Side, qty: nat) {
    qty < TWO_31 && -TWO_31 < p.position + qty * SideValue(side) < TWO_31
  }

  /** The 32-bit product of the positions before and after has the sign of the true one. */
  predicate SignKept(p: Position, side: Side, qty: nat) {
    var after := p.position + qty * SideValue(side);
    Int32(after * p.position) < 0 <==> after * p.position < 0
  }

  function CashOf(side: Side, price: int, qty: nat): real {
    -Sign(side) * (price * qty) as real
  }

  // ---------------------------------------------------------------------- arithmetic

  lemma ProductReal(a: int, b: int)
    ensures (a * b) as real == a as real * b as real
  {
  }

  /** Closing q of n held at v: the profit on q is the cash moved plus the basis released. */
  lemma ReduceReal(n: real, q: real, v: real, price: real)
    ensures q * (v - price) == v * n - v * (n - q) - price * q
  {
  }

  /** Closing all n and opening q - n at the new price. */
  lemma FlipReal(n: real, q: real, v: real, price: real)
    ensures n * (v - price) == v * n - price * q + price * (q - n)
  {
  }

  lemma AverageTimes(p: Position, side: Side)
    requires p.position != 0
    ensures Average(p, side) * AbsInt(p.position) as real == p.Basis(Opposite(side))
  {
  }

  // ---------------------------------------------------------------------- booking a fill

  lemma AddBalanced(p: Position, side: Side, price: int, qty: nat, cash: real, rebates: real)
    requires OneSided(p) && Balanced(p, cash, rebates) && Fits(p, side, qty) && Adds(p, side) && !side.NoSide?
    ensures var b := Booked(p, side, price, qty);
            OneSided(b) && Balanced(b, cash + CashOf(side, price, qty), rebates)
  {
    assert qty == 0 ==> price * qty == 0;
  }

  lemma ProductSign(a: int, b: int)
    ensures a * b < 0 <==> (a < 0 && b > 0) || (a > 0 && b < 0)
  {
  }

  /** A closing fill moves the position towards zero, and beyond if it is larger. */
  lemma ClosingPosition(p: Position, side: Side, qty: nat, after: int)
    requires OneSided(p) && Fits(p, side, qty) && !Adds(p, side) && !side.NoSide? && after == p.position + qty * SideValue(side)
    ensures Int32(p.position + Int32(qty) * SideValue(side)) == after
    ensures var n := AbsInt(p.position);
            && n > 0 && AbsInt(after) == (if qty <= n then n - qty else qty - n)
            && (after * p.position < 0 <==> qty > n) && p.Basis(side) == 0.0
            && (qty < n ==> (after < 0 <==> p.position < 0) && after != 0) && (qty == n ==> after == 0)
            && (qty > n ==> (after < 0 <==> p.position > 0) && after != 0)
  {
    ProductSign(after, p.position);
    if side.Buy? {
      assert after == p.position + qty && p.position < 0;
    } else {
      assert after == p.position - qty && p.position > 0;
    }
  }

  lemma ReduceBalanced(p: Position, side: Side, price: int, qty: nat, after: int, cash: real, rebates: real)
    requires Balanced(p, cash, rebates) && !side.NoSide? && p.position != 0 && p.Basis(side) == 0.0
    requires qty < TWO_31 && qty <= AbsInt(p.position) && AbsInt(after) == AbsInt(p.position) - qty
    ensures Balanced(Closed(p, side, price, qty, after, false), cash + CashOf(side, price, qty), rebates)
  {
    var n, v := AbsInt(p.position), Average(p, side);
    AverageTimes(p, side);
    ReduceReal(n as real, qty as real, v, price as real);
    ProductReal(price, qty);
  }

  lemma FlipBalanced(p: Position, side: Side, price: int, qty: nat, after: int, cash: real, rebates: real)
    requires Balanced(p, cash, rebates) && !side.NoSide? && p.position != 0 && p.Basis(side) == 0.0
    requires qty < TWO_31 && qty > AbsInt(p.position) && AbsInt(after) == qty - AbsInt(p.position)
    ensures Balanced(Closed(p, side, price, qty, after, true), cash + CashOf(side, price, qty), rebates)
  {
    var n, v := AbsInt(p.position), Average(p, side);
    AverageTimes(p, side);
    FlipReal(n as real, qty as real, v, price as real);
    ProductReal(price, qty);
    ProductReal(price, qty - n);
  }

  lemma SumTimes(x: real, y: real, z: real)
    ensures (x + y) * z == x * z + y * z
    ensures z != 0.0 ==> ((x + y) * z == 0.0 <==> x + y == 0.0)
  {
  }

  /** Taking a flip for a reduction, or the reverse, misstates the bases by the price plus the average
      on everything left open. */
  lemma WrongBranch(p: Position, side: Side, price: int, qty: nat, after: int)
    requires !side.NoSide? && p.position != 0 && p.Basis(side) == 0.0
    ensures var gap := (price as real + Average(p, side)) * AbsInt(after) as real;
            var f, r := Closed(p, side, price, qty, after, true), Closed(p, side, price, qty, after, false);
            && f.realised == r.realised
            && f.long - f.short == r.long - r.short + (if side.Buy? then gap else -gap)
  {
    ProductReal(price, AbsInt(after));
    SumTimes(price as real, Average(p, side), AbsInt(after) as real);
  }

  lemma ClosedBalancedIff(p: Position, side: Side, price: int, qty: nat, after: int, right: bool, taken: bool, cash: real, rebates: real)
    requires !side.NoSide? && p.position != 0 && p.Basis(side) == 0.0 && (right != taken ==> after != 0)
    requires Balanced(Closed(p, side, price, qty, after, right), cash, rebates)
    ensures Balanced(Closed(p, side, price, qty, after, taken), cash, rebates) <==>
            right == taken || price as real + Average(p, side) == 0.0
  {
    WrongBranch(p, side, price, qty, after);
    SumTimes(price as real, Average(p, side), AbsInt(after) as real);
  }

  /** A fill keeps the accounts balanced exactly when the 32-bit product of the two positions keeps its
      sign, or the fill does not close anything, or the price is the negative of the average closed. */
  lemma BookedBalancedIff(p: Position, side: Side, price: int, qty: nat, cash: real, rebates: real)
    requires OneSided(p) && Balanced(p, cash, rebates) && Fits(p, side, qty) && !side.NoSide?
    ensures Adds(p, side) || p.position != 0
    ensures Balanced(Booked(p, side, price, qty), cash + CashOf(side, price, qty), rebates) <==>
            Adds(p, side) || SignKept(p, side, qty) || price as real + Average(p, side) == 0.0
  {
    if Adds(p, side) {
      AddBalanced(p, side, price, qty, cash, rebates);
    } else {
      var after := p.position + qty * SideValue(side);
      var right, taken := after * p.position < 0, Int32(after * p.position) < 0;
      ClosingPosition(p, side, qty, after);
      if qty <= AbsInt(p.position) {
        ReduceBalanced(p, side, price, qty, after, cash, rebates);
      } else {
        FlipBalanced(p, side, price, qty, after, cash, rebates);
      }
      ClosedBalancedIff(p, side, price, qty, after, right, taken, cash + CashOf(side, price, qty), rebates);
    }
  }

  lemma BookedOneSided(p: Position, side: Side, price: int, qty: nat)
    requires OneSided(p) && Fits(p, side, qty) && !side.NoSide? && (Adds(p, side) || SignKept(p, side, qty))
    ensures OneSided(Booked(p, side, price, qty))
    ensures Booked(p, side, price, qty).position == p.position + qty * SideValue(side)
  {
    if Adds(p, side) {
      assert qty == 0 ==> price * qty == 0;
    } else {
      ClosingPosition(p, side, qty, p.position + qty * SideValue(side));
    }
  }

  lemma OpenAtIs(p: Position, mark: real)
    requires OneSided(p)
    ensures OpenAt(p, mark) == p.position as real * mark - p.long + p.short
  {
    if p.position > 0 {
      var n := p.position as real;
      assert (mark - p.long / n) * n == mark * n - p.long / n * n;
    } else if p.position < 0 {
      var n := (-p.position) as real;
      assert (p.short / n - mark) * n == p.short / n * n - mark * n;
      assert p.position as real == -n;
    }
  }

  /** So many ten-thousandths of what a fill is worth. */
  function Credit(price: int, qty: nat, bps: real): real {
    (price * qty) as real * bps / 10000.0
  }

  function Halfway(bid: int, ask: int): real {
    (bid + ask) as real / 2.0
  }

  lemma RebateIs(price: int, qty: nat, bps: real)
    ensures (if bps != 0.0 then Rebate(price, qty, bps) else 0.0) == Credit(price, qty, bps)
  {
    ProductReal(price, qty);
  }

  lemma MidIs(bid: int, ask: int)
    ensures Mid(bid, ask) == Halfway(bid, ask)
  {
  }

  /** The accounts after a fill or a mark. */
  ghost predicate Sound(p: Position, cash: real, rebates: real, mark: real) {
    OneSided(p) && Balanced(p, cash, rebates) && MarkedTo(p, cash, rebates, mark) && p.total == p.realised + p.unrealised
  }

  lemma FinishedSound(b: Position, price: int, qty: nat, bps: real, cash: real, rebates: real)
    requires OneSided(b) && Balanced(b, cash, rebates)
    ensures Sound(Finished(b, price, qty, bps), cash, rebates + Credit(price, qty, bps), price as real)
    ensures Finished(b, price, qty, bps).position == b.position
  {
    RebateIs(price, qty, bps);
    assert b.position == 0 ==> b.(long := 0.0, short := 0.0) == b;
    OpenAtIs(b, price as real);
  }

  lemma FilledSound(p: Position, side: Side, price: int, qty: nat, bps: real, cash: real, rebates: real)
    requires OneSided(p) && Balanced(p, cash, rebates) && Fits(p, side, qty) && !side.NoSide?
    requires Adds(p, side) || SignKept(p, side, qty)
    ensures Sound(WithFill(p, side, price, qty, bps), cash + CashOf(side, price, qty), rebates + Credit(price, qty, bps), price as real)
    ensures WithFill(p, side, price, qty, bps).position == p.position + qty * SideValue(side)
  {
    BookedBalancedIff(p, side, price, qty, cash, rebates);
    BookedOneSided(p, side, price, qty);
    FinishedSound(Booked(p, side, price, qty), price, qty, bps, cash + CashOf(side, price, qty), rebates);
  }

  lemma MarkedSound(p: Position, bid: int, ask: int, cash: real, rebates: real, mark: real)
    requires Sound(p, cash, rebates, mark)
    ensures Sound(Marked(p, bid, ask), cash, rebates, if bid == PRICE_INVALID || ask == PRICE_INVALID then mark else Halfway(bid, ask))
    ensures Marked(p, bid, ask).position == p.position
  {
    MidIs(bid, ask);
    OpenAtIs(p, Halfway(bid, ask));
  }

  // ---------------------------------------------------------------------- every path

  datatype Event = Fill(side: Side, price: int, qty: nat, bps: real) | Mark(bid: int, ask: int)

  function After(p: Position, e: Event): Position {
    match e
    case Fill(side, price, qty, bps) => WithFill(p, side, price, qty, bps)
    case Mark(bid, ask) => Marked(p, bid, ask)
  }

  function AfterAll(es: seq<Event>): Position {
    if es == [] then FLAT else After(AfterAll(es[..|es| - 1]), es[|es| - 1])
  }

  function NetCash(es: seq<Event>): real {
    if es == [] then 0.0
    else NetCash(es[..|es| - 1]) + match es[|es| - 1] case Fill(side, price, qty, _) => CashOf(side, price, qty) case Mark(_, _) => 0.0
  }

  function Rebates(es: seq<Event>): real {
    if es == [] then 0.0
    else Rebates(es[..|es| - 1]) + match es[|es| - 1] case Fill(_, price, qty, bps) => Credit(price, qty, bps) case Mark(_, _) => 0.0
  }

  /** The price of the last fill, or halfway between the last usable bid and ask. */
  function LastMark(es: seq<Event>): real {
    if es == [] then 0.0 else
    match es[|es| - 1]
    case Fill(_, price, _, _) => price as real
    case Mark(bid, ask) => if bid == PRICE_INVALID || ask == PRICE_INVALID then LastMark(es[..|es| - 1]) else Halfway(bid, ask)
  }

  function NetPosition(es: seq<Event>): int {
    if es == [] then 0
    else NetPosition(es[..|es| - 1]) + match es[|es| - 1] case Fill(side, _, qty, _) => qty * SideValue(side) case Mark(_, _) => 0
  }

  /** Every fill has a side, fits, and keeps the sign of the 32-bit product. */
  ghost predicate Accountable(es: seq<Event>) {
    es == [] ||
      (Accountable(es[..|es| - 1]) &&
       match es[|es| - 1]
       case Fill(side, _, qty, _) =>
         var p := AfterAll(es[..|es| - 1]);
         !side.NoSide? && Fits(p, side, qty) && (Adds(p, side) || SignKept(p, side, qty))
       case Mark(_, _) => true)
  }

  lemma FlatSound()
    ensures Sound(FLAT, 0.0, 0.0, 0.0)
  {
  }

  /** Whatever the path of fills and marks: the position is the net of the fills, realised profit is net
      cash plus long cost less short proceeds plus rebates, and total profit is net cash plus the position
      at the last mark plus rebates. */
  lemma {:induction false} ProfitIdentity(es: seq<Event>)
    requires Accountable(es)
    ensures Sound(AfterAll(es), NetCash(es), Rebates(es), LastMark(es)) && AfterAll(es).position == NetPosition(es)
    decreases |es|
  {
    if es == [] {
      FlatSound();
    } else {
      var before, e := es[..|es| - 1], es[|es| - 1];
      ProfitIdentity(before);
      match e
      case Fill(side, price, qty, bps) => FilledSound(AfterAll(before), side, price, qty, bps, NetCash(before), Rebates(before));
      case Mark(bid, ask) => MarkedSound(AfterAll(before), bid, ask, NetCash(before), Rebates(before), LastMark(before));
    }
  }

  function Traded(es: seq<Event>): nat {
    if es == [] then 0
    else Traded(es[..|es| - 1]) + match es[|es| - 1] case Fill(_, _, qty, _) => qty case Mark(_, _) => 0
  }

  lemma VolumeStep(p: Position, side: Side, price: int, qty: nat, bps: real)
    ensures WithFill(p, side, price, qty, bps).volume == (p.volume + qty) % QTY_RANGE
  {
  }

  lemma WrapAdds(a: nat, b: nat)
    ensures (a % QTY_RANGE + b) % QTY_RANGE == (a + b) % QTY_RANGE
  {
  }

  /** The volume is what the fills add up to, in 32 bits, whatever they do to the position. */
  lemma {:induction false} VolumeIsTraded(es: seq<Event>)
    ensures AfterAll(es).volume == Traded(es) % QTY_RANGE
    decreases |es|
  {
    if es != [] {
      var before, e := es[..|es| - 1], es[|es| - 1];
      VolumeIsTraded(before);
      if e.Fill? {
        VolumeStep(AfterAll(before), e.side, e.price, e.qty, e.bps);
        WrapAdds(Traded(before), e.qty);
      }
    }
  }

  // ---------------------------------------------------------------------- what a fill does to the open cost

  lemma Cross(b: real, m: real, n: real)
    requires n != 0.0
    ensures (b / n * m) * n == b * m
  {
    assert b / n * n == b;
  }

  lemma ReduceCost(p: Position, side: Side, price: int, qty: nat, after: int)
    requires !side.NoSide? && p.position != 0
    ensures var b := Closed(p, side, price, qty, after, false);
            b.Basis(Opposite(side)) * AbsInt(p.position) as real == p.Basis(Opposite(side)) * AbsInt(after) as real
  {
    Cross(p.Basis(Opposite(side)), AbsInt(after) as real, AbsInt(p.position) as real);
  }

  lemma FlipCost(p: Position, side: Side, price: int, qty: nat, after: int)
    requires !side.NoSide? && p.position != 0
    ensures var b := Closed(p, side, price, qty, after, true);
            b.Basis(side) == price as real * AbsInt(after) as real && b.Basis(Opposite(side)) == 0.0
  {
  }

  /** What a fill that adds nothing leaves open. */
  lemma BookedCloses(p: Position, side: Side, price: int, qty: nat)
    requires OneSided(p) && Fits(p, side, qty) && !side.NoSide? && !Adds(p, side) && SignKept(p, side, qty)
    ensures p.position != 0
    ensures Booked(p, side, price, qty) == Closed(p, side, price, qty, p.position + qty * SideValue(side), qty > AbsInt(p.position))
  {
    ClosingPosition(p, side, qty, p.position + qty * SideValue(side));
  }

  /** A fill that adds is carried at its price, one that reduces leaves the average of what stays open as it
      was, and one that goes through zero opens the rest at its own price. */
  lemma OpenCost(p: Position, side: Side, price: int, qty: nat, b: Position)
    requires OneSided(p) && Fits(p, side, qty) && !side.NoSide? && (Adds(p, side) || SignKept(p, side, qty))
    requires b == Booked(p, side, price, qty)
    ensures var opp, after := Opposite(side), p.position + qty * SideValue(side);
            if Adds(p, side) then b.Basis(side) == p.Basis(side) + (price * qty) as real
            else if qty <= AbsInt(p.position) then b.Basis(opp) * AbsInt(p.position) as real == p.Basis(opp) * AbsInt(after) as real
            else b.Basis(side) == price as real * AbsInt(after) as real && b.Basis(opp) == 0.0
  {
    if !Adds(p, side) {
      var after := p.position + qty * SideValue(side);
      BookedCloses(p, side, price, qty);
      if qty <= AbsInt(p.position) {
        ReduceCost(p, side, price, qty, after);
      } else {
        FlipCost(p, side, price, qty, after);
      }
    }
  }

  // ---------------------------------------------------------------------- what a quote does to the total

  /** A usable two-sided quote. */
  predicate TwoSided(bid: int, ask: int) {
    bid != PRICE_INVALID && ask != PRICE_INVALID
  }

  lemma Doubled(n: real, bid: int, ask: int)
    ensures 2.0 * (n * Halfway(bid, ask)) == n * (bid + ask) as real
  {
    var x := (bid + ask) as real;
    HalfTwice(n, x);
  }

  lemma HalfTwice(n: real, x: real)
    ensures 2.0 * (n * (x / 2.0)) == n * x
  {
  }

  lemma MarkedTotal(p: Position, bid: int, ask: int, cash: real, rebates: real, mark: real)
    requires Sound(p, cash, rebates, mark) && TwoSided(bid, ask)
    ensures Marked(p, bid, ask).total == cash + p.position as real * Halfway(bid, ask) + rebates
  {
    MarkedSound(p, bid, ask, cash, rebates, mark);
  }

  lemma TwiceHalfway(total: real, cash: real, rebates: real, n: real, bid: int, ask: int)
    requires total == cash + n * Halfway(bid, ask) + rebates
    ensures 2.0 * total == 2.0 * (cash + rebates) + n * (bid + ask) as real
  {
    Doubled(n, bid, ask);
  }

  /** Sound accounts, as every accountable path leaves them, are marked halfway by a two-sided quote: twice the
      total is twice the cash and rebates plus the position at the bid plus the position at the ask. */
  lemma MarkIsHalfway(p: Position, bid: int, ask: int, cash: real, rebates: real, mark: real)
    requires Sound(p, cash, rebates, mark) && TwoSided(bid, ask)
    ensures 2.0 * Marked(p, bid, ask).total == 2.0 * (cash + rebates) + p.position as real * (bid + ask) as real
  {
    MarkedTotal(p, bid, ask, cash, rebates, mark);
    TwiceHalfway(Marked(p, bid, ask).total, cash, rebates, p.position as real, bid, ask);
  }

  lemma Spread(n: real, bid: int, ask: int)
    requires bid <= ask
    ensures n >= 0.0 ==> n * bid as real + n * bid as real <= n * (bid + ask) as real <= n * ask as real + n * ask as real
    ensures n <= 0.0 ==> n * ask as real + n * ask as real <= n * (bid + ask) as real <= n * bid as real + n * bid as real
  {
    Split(n, bid, ask);
    assert n >= 0.0 ==> n * bid as real <= n * ask as real;
    assert n <= 0.0 ==> n * ask as real <= n * bid as real;
  }

  lemma Split(n: real, a: int, b: int)
    ensures n * (a + b) as real == n * a as real + n * b as real
  {
    assert (a + b) as real == a as real + b as real;
  }

  lemma Between(total: real, base: real, n: real, bid: int, ask: int)
    requires 2.0 * total == 2.0 * base + n * (bid + ask) as real && bid <= ask
    ensures n >= 0.0 ==> base + n * bid as real <= total <= base + n * ask as real
    ensures n <= 0.0 ==> base + n * ask as real <= total <= base + n * bid as real
  {
    Spread(n, bid, ask);
  }

  /** The total is between what closing at the bid and what closing at the ask would give, the worse of which
      is the bid for a long position and the ask for a short one. */
  lemma MarkIsBetween(p: Position, bid: int, ask: int, cash: real, rebates: real, mark: real)
    requires Sound(p, cash, rebates, mark) && TwoSided(bid, ask) && bid <= ask
    ensures var n, total, base := p.position as real, Marked(p, bid, ask).total, cash + rebates;
            && (n >= 0.0 ==> base + n * bid as real <= total <= base + n * ask as real)
            && (n <= 0.0 ==> base + n * ask as real <= total <= base + n * bid as real)
  {
    MarkIsHalfway(p, bid, ask, cash, rebates, mark);
    Between(Marked(p, bid, ask).total, cash + rebates, p.position as real, bid, ask);
  }

  lemma Moved(n: real, bid: int, ask: int, d: int)
    ensures n * (bid + d + (ask + d)) as real == n * (bid + ask) as real + 2.0 * (n * d as real)
  {
    Split(n, bid + ask, d + d);
    Split(n, d, d);
    assert bid + d + (ask + d) == (bid + ask) + (d + d);
  }

  lemma MovedTotal(before: real, after: real, base: real, n: real, bid: int, ask: int, d: int)
    requires 2.0 * before == 2.0 * base + n * (bid + ask) as real
    requires 2.0 * after == 2.0 * base + n * (bid + d + (ask + d)) as real
    ensures after == before + n * d as real
  {
    Moved(n, bid, ask, d);
  }

  /** When bid and ask both move by d the total moves by the position times d, and it does not matter which
      of the two is called the bid. */
  lemma MarkMoves(p: Position, bid: int, ask: int, d: int, cash: real, rebates: real, mark: real)
    requires Sound(p, cash, rebates, mark) && TwoSided(bid, ask) && TwoSided(bid + d, ask + d)
    ensures Marked(p, bid + d, ask + d).total == Marked(p, bid, ask).total + p.position as real * d as real
    ensures Marked(p, ask, bid) == Marked(p, bid, ask)
  {
    MarkIsHalfway(p, bid, ask, cash, rebates, mark);
    MarkIsHalfway(p, bid + d, ask + d, cash, rebates, mark);
    MovedTotal(Marked(p, bid, ask).total, Marked(p, bid + d, ask + d).total, cash + rebates, p.position as real, bid, ask, d);
    MarkSymmetric(p, bid, ask);
  }

  lemma MarkSymmetric(p: Position, bid: int, ask: int)
    ensures Marked(p, ask, bid) == Marked(p, bid, ask)
  {
    MidIs(bid, ask);
    MidIs(ask, bid);
    assert bid + ask == ask + bid;
  }

  // ---------------------------------------------------------------------- the product in 32 bits

  const SAFE_POSITION: int := 46340

  /** Positions up to 46340 have products that fit. */
  lemma SmallPositionsKeepSign(p: Position, side: Side, qty: nat)
    requires -SAFE_POSITION <= p.position <= SAFE_POSITION
    requires -SAFE_POSITION <= p.position + qty * SideValue(side) <= SAFE_POSITION
    ensures SignKept(p, side, qty)
  {
    ProductWithin(p.position + qty * SideValue(side), p.position);
  }

  lemma ProductWithin(a: int, b: int)
    requires -SAFE_POSITION <= a <= SAFE_POSITION && -SAFE_POSITION <= b <= SAFE_POSITION
    ensures -TWO_31 < a * b < TWO_31
  {
    NatProduct(AbsInt(a), AbsInt(b));
    assert a * b == AbsInt(a) * AbsInt(b) || a * b == -(AbsInt(a) * AbsInt(b));
  }

  lemma NatProduct(a: nat, b: nat)
    requires a <= SAFE_POSITION && b <= SAFE_POSITION
    ensures a * b <= SAFE_POSITION * SAFE_POSITION
  {
    assert a * b <= SAFE_POSITION * b;
    assert SAFE_POSITION * b <= SAFE_POSITION * SAFE_POSITION;
  }

  lemma AfterTwo(e: Event, f: Event)
    ensures AfterAll([e, f]) == After(After(FLAT, e), f)
    ensures NetCash([e, f]) == NetCash([e]) + NetCash([f]) && Rebates([e, f]) == Rebates([e]) + Rebates([f])
  {
    assert [e, f][..1] == [e] && [e][..0] == [] && [f][..0] == [];
    assert AfterAll([e]) == After(FLAT, e);
  }

  lemma NetOne(side: Side, price: int, qty: nat)
    ensures NetCash([Fill(side, price, qty, 0.0)]) == CashOf(side, price, qty) && Rebates([Fill(side, price, qty, 0.0)]) == 0.0
  {
    assert [Fill(side, price, qty, 0.0)][..0] == [];
  }

  /** The first fill of the run below: short 65536 at 1. */
  lemma ShortFirst()
    ensures After(FLAT, Fill(Sell, 1, 65536, 0.0)) == Position(-65536, 0.0, 0.0, 0.0, 0.0, 65536.0, 65536)
  {
    var b := Booked(FLAT, Sell, 1, 65536);
    assert Cost(1, 65536) == 65536.0;
    assert b == Position(-65536, 0.0, 0.0, 0.0, 0.0, 65536.0, 65536);
    assert OneSided(b);
    OpenAtIs(b, 1.0);
  }

  lemma FinishedKeeps(b: Position, price: int, qty: nat)
    requires b.position != 0
    ensures var f := Finished(b, price, qty, 0.0); f.realised == b.realised && f.long == b.long && f.short == b.short
  {
  }

  lemma FlipUnbalances(p: Position)
    requires p == Position(-65536, 0.0, 0.0, 0.0, 0.0, 65536.0, 65536)
    ensures var f := After(p, Fill(Buy, 1, 131072, 0.0)); !Balanced(f, 65536.0 + CashOf(Buy, 1, 131072), 0.0)
  {
    assert Average(p, Buy) == 1.0;
    assert OneSided(p) && Balanced(p, 65536.0, 0.0) && Fits(p, Buy, 131072);
    BookedBalancedIff(p, Buy, 1, 131072, 65536.0, 0.0);
    ClosingPosition(p, Buy, 131072, 65536);
    FinishedKeeps(Booked(p, Buy, 1, 131072), 1, 131072);
  }

  /** Sell 65536 at 1, then buy 131072 at 1: the product of the positions is -2^32, which reads as 0, and
      the realised profit no longer agrees with the cash. */
  lemma LargeFlipUnbalances()
    ensures var es := [Fill(Sell, 1, 65536, 0.0), Fill(Buy, 1, 131072, 0.0)];
            !Balanced(AfterAll(es), NetCash(es), Rebates(es))
  {
    var e, f := Fill(Sell, 1, 65536, 0.0), Fill(Buy, 1, 131072, 0.0);
    AfterTwo(e, f);
    NetOne(Sell, 1, 65536);
    NetOne(Buy, 1, 131072);
    assert CashOf(Sell, 1, 65536) == 65536.0;
    ShortFirst();
    FlipUnbalances(After(FLAT, e));
  }
}
