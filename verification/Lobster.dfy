/** The LOBSTER replay: consecutive depth snapshots turned into ADD, MODIFY and CANCEL of one aggregate
    order per occupied price level (backtest/lobster_tape_reader.cpp:22-24, 94-152). Rows arrive parsed. */
module Lobster {
  import opened Types

  const ASK_OID_OFFSET: nat := 600_000

  /** A price is a 64-bit integer. */
  type Price = p: int | -0x8000_0000_0000_0000 <= p < 0x8000_0000_0000_0000

  /** Occupied levels of one side: price in cents to aggregate quantity. */
  type Depth = map<Price, nat>

  datatype Row = Row(bid: Depth, ask: Depth) {
    function On(side: Side): Depth {
      if side.Buy? then bid else ask
    }
    function With(side: Side, d: Depth): Row {
      if side.Buy? then this.(bid := d) else this.(ask := d)
    }
  }

  const NO_ROW: Row := Row(map[], map[])

  const OID_RANGE: nat := 0x1_0000_0000_0000_0000

  /** The order id of a level, in 64 unsigned bits. */
  function Oid(side: Side, price: int): nat {
    ((if side.Buy? then 0 else ASK_OID_OFFSET) + price) % OID_RANGE
  }

  /** Whatever the prices, two levels of one side have different ids. */
  lemma OwnOids(side: Side, p: Price, q: Price)
    ensures Oid(side, p) == Oid(side, q) <==> p == q
  {
  }

  /** No level of the other side has the id. */
  ghost predicate IdFree(side: Side, p: Price, other: Depth) {
    forall q :: q in other ==> Oid(side, p) != Oid(Opposite(side), q)
  }

  /** Prices for which ids name one level of one side. */
  predicate PriceFits(side: Side, price: int) {
    0 <= price && (side.Buy? ==> price < ASK_OID_OFFSET)
  }

  ghost predicate DepthFits(side: Side, d: Depth) {
    forall p :: p in d ==> PriceFits(side, p)
  }

  ghost predicate Fits(row: Row) {
    DepthFits(Buy, row.bid) && DepthFits(Sell, row.ask)
  }

  /** Ids are injective across sides for prices that fit; a bid at the offset shares the id of an ask
      at zero. */
  lemma OidInjective(s: Side, p: Price, t: Side, q: Price)
    requires !s.NoSide? && !t.NoSide? && PriceFits(s, p) && PriceFits(t, q)
    ensures Oid(s, p) == Oid(t, q) <==> s == t && p == q
    ensures Oid(Buy, ASK_OID_OFFSET) == Oid(Sell, 0)
  {
  }

  // ---------------------------------------------------------------------- what a reader of the tape holds

  datatype Level = Level(side: Side, price: int, qty: nat)

  type Table = map<nat, Level>

  function Play(t: Table, u: Update): Table {
    match u.kind
    case Add => t[u.orderId := Level(u.side, u.price, u.qty)]
    case Modify => if u.orderId in t then t[u.orderId := t[u.orderId].(qty := u.qty)] else t
    case CancelOrder => t - {u.orderId}
    case _ => t
  }

  /** An ADD names no live order, a MODIFY or CANCEL names one of its side and price. */
  predicate Ok(t: Table, u: Update) {
    match u.kind
    case Add => u.orderId !in t
    case Modify => u.orderId in t && t[u.orderId].side == u.side && t[u.orderId].price == u.price
    case CancelOrder => u.orderId in t && t[u.orderId].side == u.side && t[u.orderId].price == u.price
    case _ => u.kind.Trade?
  }

  function PlayAll(us: seq<Update>): Table {
    if us == [] then map[] else Play(PlayAll(us[..|us| - 1]), us[|us| - 1])
  }

  predicate OkAll(us: seq<Update>) {
    us == [] || (OkAll(us[..|us| - 1]) && Ok(PlayAll(us[..|us| - 1]), us[|us| - 1]))
  }

  lemma PlaySnoc(us: seq<Update>, u: Update)
    ensures PlayAll(us + [u]) == Play(PlayAll(us), u)
    ensures OkAll(us + [u]) <==> OkAll(us) && Ok(PlayAll(us), u)
  {
    assert (us + [u])[..|us|] == us;
  }

  /** The table holds exactly the levels of a row, under their ids. */
  ghost predicate Shows(t: Table, row: Row) {
    && (forall p :: p in row.bid ==> Oid(Buy, p) in t && t[Oid(Buy, p)] == Level(Buy, p, row.bid[p]))
    && (forall p :: p in row.ask ==> Oid(Sell, p) in t && t[Oid(Sell, p)] == Level(Sell, p, row.ask[p]))
    && (forall id :: id in t ==> !t[id].side.NoSide? && t[id].price in row.On(t[id].side) && id == Oid(t[id].side, t[id].price))
  }

  function Told(kind: UpdateKind, side: Side, price: int, qty: nat, priority: nat): Update {
    Update(kind, Oid(side, price), 0, side, price, qty, priority)
  }

  /** A table that shows a row holds different levels under different ids. */
  lemma ShownIds(t: Table, row: Row, side: Side, p: Price)
    requires Shows(t, row) && !side.NoSide? && p in row.On(side)
    ensures t[Oid(side, p)] == Level(side, p, row.On(side)[p])
    ensures IdFree(side, p, row.On(Opposite(side)))
    ensures forall q :: q in row.On(side) && q != p ==> Oid(side, p) != Oid(side, q)
  {
    forall q | q in row.On(side) && q != p
      ensures Oid(side, p) != Oid(side, q)
    {
      OwnOids(side, p, q);
    }
  }

  lemma CancelShows(t: Table, row: Row, side: Side, price: Price)
    requires Shows(t, row) && !side.NoSide? && price in row.On(side)
    ensures var u := Told(CancelOrder, side, price, 0, PRIORITY_INVALID);
            Ok(t, u) && Shows(Play(t, u), row.With(side, row.On(side) - {price}))
  {
    ShownIds(t, row, side, price);
  }

  lemma ModifyShows(t: Table, row: Row, side: Side, price: Price, qty: nat)
    requires Shows(t, row) && !side.NoSide? && price in row.On(side)
    ensures var u := Told(Modify, side, price, qty, PRIORITY_INVALID);
            Ok(t, u) && Shows(Play(t, u), row.With(side, row.On(side)[price := qty]))
  {
    ShownIds(t, row, side, price);
  }

  lemma AddOkIff(t: Table, row: Row, side: Side, p: Price)
    requires Shows(t, row) && !side.NoSide? && p !in row.On(side)
    ensures Oid(side, p) !in t <==> IdFree(side, p, row.On(Opposite(side)))
  {
    if Oid(side, p) in t {
      var l := t[Oid(side, p)];
      if l.side == side {
        OwnOids(side, p, l.price);
      }
    }
  }

  lemma AddShows(t: Table, row: Row, side: Side, price: Price, qty: nat, priority: nat)
    requires Shows(t, row) && !side.NoSide? && price !in row.On(side)
    ensures var u := Told(Add, side, price, qty, priority);
            && (Ok(t, u) <==> IdFree(side, price, row.On(Opposite(side))))
            && (Ok(t, u) ==> Shows(Play(t, u), row.With(side, row.On(side)[price := qty])))
  {
    AddOkIff(t, row, side, price);
  }

  // ---------------------------------------------------------------------- the differences of two rows

  /** An order in which a hash map may yield its entries. */
  ghost predicate Lists(order: seq<Price>, d: Depth) {
    Distinct(order) && forall p :: p in order <==> p in d
  }

  function CancelOf(side: Side, cur: Depth, p: Price): seq<Update> {
    if p in cur then [] else [Told(CancelOrder, side, p, 0, PRIORITY_INVALID)]
  }

  /** The cancels of diffSide (lines 130-135) for the levels of the previous row in this order. */
  function CancelsOf(side: Side, cur: Depth, order: seq<Price>): seq<Update> {
    if order == [] then [] else
    CancelsOf(side, cur, order[..|order| - 1]) + CancelOf(side, cur, order[|order| - 1])
  }

  /** How many of these levels are new. */
  function NewIn(before: Depth, order: seq<Price>): nat {
    if order == [] then 0 else
    NewIn(before, order[..|order| - 1]) + if order[|order| - 1] in before then 0 else 1
  }

  /** What is said of one level of the new row (lines 137-143). */
  function RaiseOf(side: Side, before: Depth, p: Price, qty: nat, priority: nat): seq<Update> {
    if p !in before then [Told(Add, side, p, qty, priority)]
    else if before[p] != qty then [Told(Modify, side, p, qty, PRIORITY_INVALID)]
    else []
  }

  /** The adds and modifies of diffSide (lines 136-144) for the levels of the new row in this order. */
  function RaisesOf(side: Side, before: Depth, cur: Depth, order: seq<Price>, priority: nat): seq<Update>
    requires forall p :: p in order ==> p in cur
  {
    if order == [] then [] else
    var front, p := order[..|order| - 1], order[|order| - 1];
    RaisesOf(side, before, cur, front, priority) + RaiseOf(side, before, p, cur[p], priority + NewIn(before, front))
  }

  lemma CancelsSnoc(side: Side, cur: Depth, front: seq<Price>, p: Price)
    ensures CancelsOf(side, cur, front + [p]) == CancelsOf(side, cur, front) + CancelOf(side, cur, p)
  {
    assert (front + [p])[..|front|] == front;
  }

  lemma RaisesSnoc(side: Side, before: Depth, cur: Depth, front: seq<Price>, p: Price, priority: nat)
    requires p in cur
    requires (forall q :: q in front + [p] ==> q in cur) && (forall q :: q in front ==> q in cur)
    ensures RaisesOf(side, before, cur, front + [p], priority) ==
            RaisesOf(side, before, cur, front, priority) + RaiseOf(side, before, p, cur[p], priority + NewIn(before, front))
    ensures NewIn(before, front + [p]) == NewIn(before, front) + if p in before then 0 else 1
  {
    assert (front + [p])[..|front|] == front;
  }

  /** diffSide, its maps yielding their entries in these orders. */
  function SideDiff(side: Side, before: Depth, cur: Depth, gone: seq<Price>, come: seq<Price>, priority: nat): seq<Update>
    requires forall p :: p in come ==> p in cur
  {
    CancelsOf(side, cur, gone) + RaisesOf(side, before, cur, come, priority)
  }

  /** The orders in which the four loops of one row ran, and the next priority before them. */
  datatype Steps = Steps(bidsGone: seq<Price>, bidsCome: seq<Price>, asksGone: seq<Price>, asksCome: seq<Price>, priority: nat)

  ghost predicate Chosen(steps: Steps, prev: Row, cur: Row) {
    && Lists(steps.bidsGone, prev.bid) && Lists(steps.bidsCome, cur.bid)
    && Lists(steps.asksGone, prev.ask) && Lists(steps.asksCome, cur.ask)
  }

  ghost function BidDiff(prev: Row, cur: Row, steps: Steps): seq<Update>
    requires Chosen(steps, prev, cur)
  {
    SideDiff(Buy, prev.bid, cur.bid, steps.bidsGone, steps.bidsCome, steps.priority)
  }

  ghost function AskDiff(prev: Row, cur: Row, steps: Steps): seq<Update>
    requires Chosen(steps, prev, cur)
  {
    SideDiff(Sell, prev.ask, cur.ask, steps.asksGone, steps.asksCome, steps.priority + NewIn(prev.bid, steps.bidsCome))
  }

  /** The differences of two rows, bids first (lines 147-148). */
  ghost function RowDiff(prev: Row, cur: Row, steps: Steps): seq<Update>
    requires Chosen(steps, prev, cur)
  {
    BidDiff(prev, cur, steps) + AskDiff(prev, cur, steps)
  }

  lemma {:induction false} NothingGone(side: Side, d: Depth, order: seq<Price>)
    requires forall p :: p in order ==> p in d
    ensures CancelsOf(side, d, order) == []
    decreases |order|
  {
    if order != [] {
      NothingGone(side, d, order[..|order| - 1]);
    }
  }

  lemma {:induction false} NothingNew(side: Side, d: Depth, order: seq<Price>, priority: nat)
    requires forall p :: p in order ==> p in d
    ensures RaisesOf(side, d, d, order, priority) == []
    decreases |order|
  {
    if order != [] {
      NothingNew(side, d, order[..|order| - 1], priority);
      assert order[|order| - 1] in order;
    }
  }

  lemma SameSideIsSilent(side: Side, d: Depth, gone: seq<Price>, come: seq<Price>, priority: nat)
    requires (forall p :: p in gone ==> p in d) && forall p :: p in come ==> p in d
    ensures SideDiff(side, d, d, gone, come, priority) == []
  {
    NothingGone(side, d, gone);
    NothingNew(side, d, come, priority);
  }

  /** A row that repeats the one before says nothing. */
  lemma SameRowIsSilent(row: Row, steps: Steps)
    requires Chosen(steps, row, row)
    ensures RowDiff(row, row, steps) == []
  {
    SameSideIsSilent(Buy, row.bid, steps.bidsGone, steps.bidsCome, steps.priority);
    SameSideIsSilent(Sell, row.ask, steps.asksGone, steps.asksCome, steps.priority + NewIn(row.bid, steps.bidsCome));
  }

  /** The print of an execution (lines 102-106): the aggressor is on the other side of the order hit. */
  function PrintOf(execution: bool, direction: int, price: int, qty: nat): seq<Update> {
    if !execution then []
    else [Update(Trade, ORDER_ID_INVALID, 0, if direction == 1 then Sell else Buy, price, qty, PRIORITY_INVALID)]
  }

  // ---------------------------------------------------------------------- what the differences fold to

  lemma SameDepth(a: Depth, b: Depth)
    requires forall p :: p in a <==> p in b
    requires forall p :: p in a ==> a[p] == b[p]
    ensures a == b
  {
  }

  /** What is left of a side once these of its levels have been looked at. */
  function Remaining(before: Depth, cur: Depth, order: seq<Price>): Depth {
    map p | p in before && (p in cur || p !in order) :: before[p]
  }

  /** A side once these levels of the new row have been looked at. */
  function Raised(before: Depth, cur: Depth, order: seq<Price>): Depth {
    map p | p in cur && (p in before || p in order) :: if p in order then cur[p] else before[p]
  }

  lemma RemainingNext(before: Depth, cur: Depth, front: seq<Price>, p: Price)
    requires p in before
    ensures var d := Remaining(before, cur, front);
            && (p in cur ==> Remaining(before, cur, front + [p]) == d)
            && (p !in cur ==> Remaining(before, cur, front + [p]) == d - {p})
            && (p !in front ==> p in d)
  {
    var d, e := Remaining(before, cur, front), Remaining(before, cur, front + [p]);
    if p in cur {
      SameDepth(e, d);
    } else {
      SameDepth(e, d - {p});
    }
  }

  lemma RemainingEnds(before: Depth, cur: Depth, order: seq<Price>)
    ensures Remaining(before, cur, []) == before
    ensures Lists(order, before) ==> Remaining(before, cur, order) == Raised(before, cur, [])
  {
    SameDepth(Remaining(before, cur, []), before);
    if Lists(order, before) {
      SameDepth(Remaining(before, cur, order), Raised(before, cur, []));
    }
  }

  lemma RaisedNext(before: Depth, cur: Depth, front: seq<Price>, p: Price)
    requires p in cur && p !in front
    ensures var d := Raised(before, cur, front);
            && Raised(before, cur, front + [p]) == d[p := cur[p]]
            && (p in before ==> p in d && d[p] == before[p]) && (p !in before ==> p !in d)
  {
    SameDepth(Raised(before, cur, front + [p]), Raised(before, cur, front)[p := cur[p]]);
  }

  lemma RaisedEnds(before: Depth, cur: Depth, order: seq<Price>)
    requires Lists(order, cur)
    ensures Raised(before, cur, order) == cur
  {
    SameDepth(Raised(before, cur, order), cur);
  }

  lemma DistinctFront(order: seq<Price>)
    requires Distinct(order) && order != []
    ensures Distinct(order[..|order| - 1]) && order[|order| - 1] !in order[..|order| - 1]
    ensures order == order[..|order| - 1] + [order[|order| - 1]]
  {
  }

  /** Told after us, these updates are legal in turn and leave a reader with this row. */
  ghost predicate Leads(us: seq<Update>, row: Row) {
    OkAll(us) && Shows(PlayAll(us), row)
  }

  lemma LeadsCancel(us: seq<Update>, row: Row, side: Side, cur: Depth, p: Price, d: Depth)
    requires Leads(us, row) && !side.NoSide? && p in row.On(side)
    requires d == if p in cur then row.On(side) else row.On(side) - {p}
    ensures Leads(us + CancelOf(side, cur, p), row.With(side, d))
  {
    if p in cur {
      assert us + [] == us;
    } else {
      CancelShows(PlayAll(us), row, side, p);
      PlaySnoc(us, Told(CancelOrder, side, p, 0, PRIORITY_INVALID));
    }
  }

  lemma LeadsRaise(us: seq<Update>, row: Row, side: Side, before: Depth, p: Price, qty: nat, priority: nat, d: Depth)
    requires Leads(us, row) && !side.NoSide? && d == row.On(side)[p := qty]
    requires p in before <==> p in row.On(side)
    requires p in before ==> row.On(side)[p] == before[p]
    ensures var vs := us + RaiseOf(side, before, p, qty, priority);
            && (OkAll(vs) <==> (p !in before ==> IdFree(side, p, row.On(Opposite(side)))))
            && (OkAll(vs) ==> Leads(vs, row.With(side, d)))
  {
    if p !in before {
      AddShows(PlayAll(us), row, side, p, qty, priority);
      PlaySnoc(us, Told(Add, side, p, qty, priority));
    } else if before[p] != qty {
      ModifyShows(PlayAll(us), row, side, p, qty);
      PlaySnoc(us, Told(Modify, side, p, qty, PRIORITY_INVALID));
    } else {
      assert us + [] == us;
      SameDepth(d, row.On(side));
    }
  }

  lemma Associates(us: seq<Update>, vs: seq<Update>, ws: seq<Update>)
    ensures us + (vs + ws) == us + vs + ws
  {
  }

  lemma {:induction false} LeadsCancels(us: seq<Update>, row: Row, side: Side, cur: Depth, order: seq<Price>)
    requires Leads(us, row) && !side.NoSide? && Distinct(order)
    requires forall p :: p in order ==> p in row.On(side)
    ensures Leads(us + CancelsOf(side, cur, order), row.With(side, Remaining(row.On(side), cur, order)))
    decreases |order|
  {
    var before := row.On(side);
    if order == [] {
      RemainingEnds(before, cur, []);
      assert us + [] == us;
    } else {
      var front, p := order[..|order| - 1], order[|order| - 1];
      DistinctFront(order);
      LeadsCancels(us, row, side, cur, front);
      RemainingNext(before, cur, front, p);
      LeadsCancel(us + CancelsOf(side, cur, front), row.With(side, Remaining(before, cur, front)), side, cur, p,
                  Remaining(before, cur, order));
      CancelsSnoc(side, cur, front, p);
      Associates(us, CancelsOf(side, cur, front), CancelOf(side, cur, p));
    }
  }

  lemma {:induction false} StaysIllegal(us: seq<Update>, vs: seq<Update>)
    requires !OkAll(us)
    ensures !OkAll(us + vs)
    decreases |vs|
  {
    if vs == [] {
      assert us + vs == us;
    } else {
      var front, v := vs[..|vs| - 1], vs[|vs| - 1];
      StaysIllegal(us, front);
      PlaySnoc(us + front, v);
      assert us + vs == us + front + [v];
    }
  }

  /** The new ones of these levels have ids that no level of the other side has. */
  ghost predicate IdsFree(side: Side, before: Depth, order: seq<Price>, other: Depth) {
    forall p :: p in order && p !in before ==> IdFree(side, p, other)
  }

  /** These levels are told legally exactly if their ids are free, and then lead to them. */
  ghost predicate LegalIff(row: Row, side: Side, before: Depth, cur: Depth, order: seq<Price>, vs: seq<Update>) {
    && (OkAll(vs) <==> IdsFree(side, before, order, row.On(Opposite(side))))
    && (OkAll(vs) ==> Leads(vs, row.With(side, Raised(before, cur, order))))
  }

  lemma LegalNext(us: seq<Update>, row: Row, side: Side, before: Depth, cur: Depth,
                  front: seq<Price>, p: Price, priority: nat, order: seq<Price>, vs: seq<Update>)
    requires !side.NoSide? && p in cur && p !in front && order == front + [p]
    requires LegalIff(row, side, before, cur, front, us) && vs == us + RaiseOf(side, before, p, cur[p], priority)
    ensures LegalIff(row, side, before, cur, order, vs)
  {
    assert forall q :: q in order <==> q in front || q == p;
    if OkAll(us) {
      RaisedNext(before, cur, front, p);
      LeadsRaise(us, row.With(side, Raised(before, cur, front)), side, before, p, cur[p], priority, Raised(before, cur, order));
    } else {
      StaysIllegal(us, RaiseOf(side, before, p, cur[p], priority));
    }
  }

  lemma {:induction false} LegalRaises(us: seq<Update>, row: Row, side: Side, before: Depth, cur: Depth, order: seq<Price>, priority: nat)
    requires Leads(us, row) && !side.NoSide? && Distinct(order)
    requires row.On(side) == Raised(before, cur, []) && forall p :: p in order ==> p in cur
    ensures LegalIff(row, side, before, cur, order, us + RaisesOf(side, before, cur, order, priority))
    decreases |order|
  {
    if order == [] {
      assert us + [] == us;
    } else {
      var front, p := order[..|order| - 1], order[|order| - 1];
      DistinctFront(order);
      LegalRaises(us, row, side, before, cur, front, priority);
      var said, next := RaisesOf(side, before, cur, front, priority), priority + NewIn(before, front);
      RaisesSnoc(side, before, cur, front, p, priority);
      Associates(us, said, RaiseOf(side, before, p, cur[p], next));
      LegalNext(us + said, row, side, before, cur, front, p, next, order, us + RaisesOf(side, before, cur, order, priority));
    }
  }

  /** The levels new to a side have ids that no level of the other side has. */
  ghost predicate NewIdsFree(side: Side, before: Depth, cur: Depth, other: Depth) {
    forall p :: p in cur && p !in before ==> IdFree(side, p, other)
  }

  lemma LegalSide(us: seq<Update>, row: Row, side: Side, cur: Depth, gone: seq<Price>, come: seq<Price>, priority: nat,
                  vs: seq<Update>, next: Row)
    requires Leads(us, row) && !side.NoSide? && Lists(gone, row.On(side)) && Lists(come, cur)
    requires vs == us + SideDiff(side, row.On(side), cur, gone, come, priority) && next == row.With(side, cur)
    ensures OkAll(vs) <==> NewIdsFree(side, row.On(side), cur, row.On(Opposite(side)))
    ensures OkAll(vs) ==> Leads(vs, next)
  {
    var before, said := row.On(side), CancelsOf(side, cur, gone);
    LeadsCancels(us, row, side, cur, gone);
    RemainingEnds(before, cur, gone);
    LegalRaises(us + said, row.With(side, Raised(before, cur, [])), side, before, cur, come, priority);
    RaisedEnds(before, cur, come);
    Associates(us, said, RaisesOf(side, before, cur, come, priority));
  }

  lemma LegalBids(us: seq<Update>, prev: Row, cur: Row, steps: Steps)
    requires Leads(us, prev) && Chosen(steps, prev, cur)
    ensures var vs := us + BidDiff(prev, cur, steps);
            && (OkAll(vs) <==> NewIdsFree(Buy, prev.bid, cur.bid, prev.ask))
            && (OkAll(vs) ==> Leads(vs, Row(cur.bid, prev.ask)))
  {
    LegalSide(us, prev, Buy, cur.bid, steps.bidsGone, steps.bidsCome, steps.priority,
              us + BidDiff(prev, cur, steps), Row(cur.bid, prev.ask));
  }

  lemma LegalAsks(us: seq<Update>, prev: Row, cur: Row, steps: Steps)
    requires Leads(us, Row(cur.bid, prev.ask)) && Chosen(steps, prev, cur)
    ensures var vs := us + AskDiff(prev, cur, steps);
            && (OkAll(vs) <==> NewIdsFree(Sell, prev.ask, cur.ask, cur.bid))
            && (OkAll(vs) ==> Leads(vs, cur))
  {
    LegalSide(us, Row(cur.bid, prev.ask), Sell, cur.ask, steps.asksGone, steps.asksCome,
              steps.priority + NewIn(prev.bid, steps.bidsCome), us + AskDiff(prev, cur, steps), cur);
  }

  /** No bid is new under the id of an ask of the previous row, and no ask under the id of a bid. */
  ghost predicate IdsApart(prev: Row, cur: Row) {
    NewIdsFree(Buy, prev.bid, cur.bid, prev.ask) && NewIdsFree(Sell, prev.ask, cur.ask, cur.bid)
  }

  /** Whatever the orders in which the maps yield their entries: judged by ids, the differences of two rows
      are legal in turn exactly if the ids are apart, and then take a reader from the one row to the other. */
  lemma DiffFolds(us: seq<Update>, prev: Row, cur: Row, steps: Steps)
    requires Leads(us, prev) && Chosen(steps, prev, cur)
    ensures var vs := us + RowDiff(prev, cur, steps);
            && (OkAll(vs) <==> IdsApart(prev, cur))
            && (OkAll(vs) ==> Leads(vs, cur))
  {
    var bids, asks := BidDiff(prev, cur, steps), AskDiff(prev, cur, steps);
    LegalBids(us, prev, cur, steps);
    Associates(us, bids, asks);
    if NewIdsFree(Buy, prev.bid, cur.bid, prev.ask) {
      LegalAsks(us + bids, prev, cur, steps);
    } else {
      StaysIllegal(us + bids, asks);
    }
  }

  /** Prices in the range the offset is meant for keep ids apart. */
  lemma FitsApart(prev: Row, cur: Row)
    requires Fits(prev) && Fits(cur)
    ensures IdsApart(prev, cur)
  {
    forall p, q | p in cur.bid && (q in prev.ask || q in cur.ask)
      ensures Oid(Buy, p) != Oid(Sell, q)
    {
      OidInjective(Buy, p, Sell, q);
    }
  }

  lemma LeadsPrint(us: seq<Update>, row: Row, execution: bool, direction: int, price: int, qty: nat)
    requires Leads(us, row)
    ensures Leads(us + PrintOf(execution, direction, price, qty), row)
  {
    if execution {
      PlaySnoc(us, PrintOf(true, direction, price, qty)[0]);
    } else {
      assert us + [] == us;
    }
  }

  // ---------------------------------------------------------------------- the reader

  /** Some element of a set: the order in which a hash map yields its entries is not fixed. */
  method AnyOf(s: set<Price>) returns (x: Price)
    requires s != {}
    ensures x in s
  {
    x :| x in s;
  }

  /** The keys not yet taken and the ones yielded make up the map. */
  ghost predicate Yielded(order: seq<Price>, d: Depth, keys: set<Price>) {
    Distinct(order) && forall p :: p in order <==> p in d && p !in keys
  }

  lemma YieldsNext(order: seq<Price>, d: Depth, keys: set<Price>, p: Price)
    requires Yielded(order, d, keys) && p in keys && p in d
    ensures Yielded(order + [p], d, keys - {p}) && (order + [p])[..|order|] == order
  {
  }

  lemma Joined(start: seq<Update>, middle: seq<Update>, end: seq<Update>, bids: seq<Update>, asks: seq<Update>, both: seq<Update>)
    requires middle == start + bids && end == middle + asks && both == bids + asks
    ensures end == start + both
  {
  }

  lemma DiffJoins(start: seq<Update>, middle: seq<Update>, end: seq<Update>, prev: Row, cur: Row, steps: Steps, next: nat)
    requires Chosen(steps, prev, cur) && next == steps.priority + NewIn(prev.bid, steps.bidsCome)
    requires middle == start + SideDiff(Buy, prev.bid, cur.bid, steps.bidsGone, steps.bidsCome, steps.priority)
    requires end == middle + SideDiff(Sell, prev.ask, cur.ask, steps.asksGone, steps.asksCome, next)
    ensures end == start + RowDiff(prev, cur, steps)
  {
    Joined(start, middle, end, BidDiff(prev, cur, steps), AskDiff(prev, cur, steps), RowDiff(prev, cur, steps));
  }

  /** After the print and the differences a faithful tape is still faithful exactly if the ids are apart. */
  lemma StillFaithful(us: seq<Update>, prev: Row, cur: Row, execution: bool, direction: int, price: int, qty: nat, steps: Steps)
    requires Leads(us, prev) && Chosen(steps, prev, cur)
    ensures Leads(us + PrintOf(execution, direction, price, qty) + RowDiff(prev, cur, steps), cur) <==> IdsApart(prev, cur)
  {
    LeadsPrint(us, prev, execution, direction, price, qty);
    DiffFolds(us + PrintOf(execution, direction, price, qty), prev, cur, steps);
  }

  lemma Regroup(us: seq<Update>, vs: seq<Update>, ws: seq<Update>, xs: seq<Update>)
    ensures us + (vs + ws + xs) == us + vs + ws + xs
  {
  }

  class LobsterReader {
    var prev: Row
    var nextPriority: nat
    var pending: seq<Update>
    ghost var delivered: seq<Update>

    /** Everything emitted so far is legal in turn, judged by ids, and folds to the last row. */
    ghost predicate Faithful()
      reads this
    {
      Leads(delivered + pending, prev)
    }

    constructor ()
      ensures Faithful() && prev == NO_ROW && pending == [] && delivered == []
    {
      prev, nextPriority, pending, delivered := NO_ROW, 1, [], [];
    }

    method CancelOne(side: Side, px: Price, cur: Depth)
      modifies `pending
      ensures pending == old(pending) + CancelOf(side, cur, px)
    {
      if px !in cur {
        pending := pending + [Told(CancelOrder, side, px, 0, PRIORITY_INVALID)];
      }
    }

    /** The cancels of diffSide, in whatever order the map yields its levels (lines 130-135). */
    method CancelGone(side: Side, before: Depth, cur: Depth) returns (ghost order: seq<Price>)
      modifies `pending
      ensures Lists(order, before) && pending == old(pending) + CancelsOf(side, cur, order)
    {
      order := [];
      var keys: set<Price> := before.Keys;
      while keys != {}
        invariant keys <= before.Keys && Yielded(order, before, keys)
        invariant pending == old(pending) + CancelsOf(side, cur, order)
        decreases keys
      {
        var px := AnyOf(keys);
        YieldsNext(order, before, keys, px);
        Associates(old(pending), CancelsOf(side, cur, order), CancelOf(side, cur, px));
        CancelsSnoc(side, cur, order, px);
        CancelOne(side, px, cur);
        order, keys := order + [px], keys - {px};
      }
    }

    /** One level of the new row: added, changed or as it was (lines 137-143). */
    method BringOne(side: Side, px: Price, before: Depth, q: nat)
      modifies `pending, `nextPriority
      ensures pending == old(pending) + RaiseOf(side, before, px, q, old(nextPriority))
      ensures nextPriority == old(nextPriority) + if px in before then 0 else 1
    {
      if px !in before {
        pending, nextPriority := pending + [Told(Add, side, px, q, nextPriority)], nextPriority + 1;
      } else if before[px] != q {
        pending := pending + [Told(Modify, side, px, q, PRIORITY_INVALID)];
      }
    }

    /** The adds and modifies of diffSide, in any order (lines 136-144). */
    method BringUp(side: Side, before: Depth, cur: Depth) returns (ghost order: seq<Price>)
      modifies `pending, `nextPriority
      ensures Lists(order, cur)
      ensures pending == old(pending) + RaisesOf(side, before, cur, order, old(nextPriority))
      ensures nextPriority == old(nextPriority) + NewIn(before, order)
    {
      order := [];
      var keys: set<Price> := cur.Keys;
      while keys != {}
        invariant keys <= cur.Keys && Yielded(order, cur, keys)
        invariant pending == old(pending) + RaisesOf(side, before, cur, order, old(nextPriority))
        invariant nextPriority == old(nextPriority) + NewIn(before, order)
        decreases keys
      {
        var px := AnyOf(keys);
        YieldsNext(order, cur, keys, px);
        RaisesSnoc(side, before, cur, order, px, old(nextPriority));
        Associates(old(pending), RaisesOf(side, before, cur, order, old(nextPriority)), RaiseOf(side, before, px, cur[px], nextPriority));
        BringOne(side, px, before, cur[px]);
        order, keys := order + [px], keys - {px};
      }
    }

    /** diffSide (lines 127-145): exactly the differences, in the orders its two loops happened to take. */
    method DiffSide(side: Side, before: Depth, cur: Depth) returns (ghost gone: seq<Price>, ghost come: seq<Price>)
      modifies `pending, `nextPriority
      ensures Lists(gone, before) && Lists(come, cur)
      ensures pending == old(pending) + SideDiff(side, before, cur, gone, come, old(nextPriority))
      ensures nextPriority == old(nextPriority) + NewIn(before, come)
    {
      gone := CancelGone(side, before, cur);
      come := BringUp(side, before, cur);
      Associates(old(pending), CancelsOf(side, cur, gone), RaisesOf(side, before, cur, come, old(nextPriority)));
    }

    /** Both sides of a row (lines 147-148). */
    method DiffRow(cur: Row) returns (ghost steps: Steps)
      modifies `pending, `nextPriority
      ensures Chosen(steps, prev, cur) && steps.priority == old(nextPriority)
      ensures pending == old(pending) + RowDiff(prev, cur, steps)
    {
      ghost var start, priority := pending, nextPriority;
      ghost var bidsGone, bidsCome := DiffSide(Buy, prev.bid, cur.bid);
      ghost var middle, next := pending, nextPriority;
      ghost var asksGone, asksCome := DiffSide(Sell, prev.ask, cur.ask);
      steps := Steps(bidsGone, bidsCome, asksGone, asksCome, priority);
      DiffJoins(start, middle, pending, prev, cur, steps, next);
    }

    /** The print of an execution (lines 102-106). */
    method Announce(execution: bool, direction: int, price: int, qty: nat)
      modifies `pending
      ensures pending == old(pending) + PrintOf(execution, direction, price, qty)
    {
      if execution {
        pending := pending + [Update(Trade, ORDER_ID_INVALID, 0, if direction == 1 then Sell else Buy, price, qty, PRIORITY_INVALID)];
      }
    }

    /** fillStep for a parsed row (lines 94-151): the trade print if the row is an execution, then the
        differences, bids first. */
    method FillStep(execution: bool, direction: int, price: int, qty: nat, cur: Row) returns (ghost steps: Steps)
      modifies this
      ensures prev == cur && delivered == old(delivered)
      ensures Chosen(steps, old(prev), cur) && steps.priority == old(nextPriority)
      ensures pending == old(pending) + PrintOf(execution, direction, price, qty) + RowDiff(old(prev), cur, steps)
      ensures old(Faithful()) ==> (Faithful() <==> IdsApart(old(prev), cur))
    {
      ghost var us, said := delivered + pending, PrintOf(execution, direction, price, qty);
      Announce(execution, direction, price, qty);
      steps := DiffRow(cur);
      Regroup(delivered, old(pending), said, RowDiff(prev, cur, steps));
      if Leads(us, prev) {
        StillFaithful(us, prev, cur, execution, direction, price, qty, steps);
      }
      prev := cur;
    }

    /** next (lines 48-56), when an update is pending. */
    method Next() returns (u: Update)
      requires pending != []
      modifies `pending, `delivered
      ensures u == old(pending)[0] && pending == old(pending)[1..] && delivered == old(delivered) + [u]
      ensures Faithful() == old(Faithful())
    {
      u := pending[0];
      assert (delivered + [u]) + pending[1..] == delivered + pending;
      delivered := delivered + [u];
      pending := pending[1..];
    }
  }
}
