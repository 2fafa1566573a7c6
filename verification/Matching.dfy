/** What the matching engine does with one request (exchange/matcher/me_order_book.cpp), as a
    function of the two sides of its book, and the price-time law that its greedy loop obeys. */
module Matching {
  import opened Types
  import opened PriceTime

  datatype Book = Book(bids: seq<Order>, asks: seq<Order>) {
    function On(side: Side): seq<Order> {
      if side.Buy? then bids else asks
    }
    function With(side: Side, s: seq<Order>): Book {
      if side.Buy? then this.(bids := s) else this.(asks := s)
    }
  }

  const EMPTY: Book := Book([], [])

  datatype Exchange = Exchange(book: Book, nextId: nat)

  const INITIAL: Exchange := Exchange(EMPTY, 1)

  datatype Outcome = Outcome(after: Exchange, responses: seq<Response>, updates: seq<Update>)

  // ---------------------------------------------------------------------- one fill

  datatype Aggressor = Aggressor(client: nat, coid: nat, moid: nat, side: Side, price: int)

  predicate Crosses(side: Side, limit: int, resting: int) {
    !Better(Opposite(side), limit, resting)
  }

  /** checkForMatch takes the new market order id as a Qty, so the aggressor's fills carry it
      reduced to 32 bits. */
  function FillResponses(agg: Aggressor, o: Order, fill: nat, leaves: nat): seq<Response>
    requires fill <= o.qty
  {
    [ Response(Filled, agg.client, agg.coid, agg.moid % QTY_RANGE, agg.side, o.price, fill, leaves),
      Response(Filled, o.client, o.coid, o.moid, o.side, o.price, fill, o.qty - fill) ]
  }

  function FillUpdates(ticker: nat, agg: Aggressor, o: Order, fill: nat): seq<Update>
    requires fill <= o.qty
  {
    [ Update(Trade, ORDER_ID_INVALID, ticker, agg.side, o.price, fill, PRIORITY_INVALID),
      if fill == o.qty
      then Update(CancelOrder, o.moid, ticker, o.side, o.price, o.qty, PRIORITY_INVALID)
      else Update(Modify, o.moid, ticker, o.side, o.price, o.qty - fill, o.priority) ]
  }

  // ---------------------------------------------------------------------- the greedy loop

  datatype SweepResult = SweepResult(rest: seq<Order>, leaves: nat, responses: seq<Response>, updates: seq<Update>)

  function Sweep(ticker: nat, agg: Aggressor, opp: seq<Order>, leaves: nat): SweepResult
    decreases |opp|
  {
    if leaves == 0 || opp == [] || !Crosses(agg.side, agg.price, opp[0].price) then
      SweepResult(opp, leaves, [], [])
    else
      var o := opp[0];
      var fill := Min(leaves, o.qty);
      var responses, updates := FillResponses(agg, o, fill, leaves - fill), FillUpdates(ticker, agg, o, fill);
      if fill == o.qty then
        var next := Sweep(ticker, agg, opp[1..], leaves - fill);
        SweepResult(next.rest, next.leaves, responses + next.responses, updates + next.updates)
      else
        SweepResult([o.(qty := o.qty - fill)] + opp[1..], 0, responses, updates)
  }

  /** The opposite side after its front order gives `fill`. */
  function AfterFill(s: seq<Order>, fill: nat): seq<Order>
    requires s != [] && fill <= s[0].qty
  {
    if fill == s[0].qty then s[1..] else s[0 := s[0].(qty := s[0].qty - fill)]
  }

  lemma SweepGoesOn(ticker: nat, agg: Aggressor, opp: seq<Order>, qty: nat)
    requires opp != [] && Crosses(agg.side, agg.price, opp[0].price) && 0 < qty && opp[0].qty <= qty
    ensures var next := Sweep(ticker, agg, opp[1..], qty - opp[0].qty);
            Sweep(ticker, agg, opp, qty) ==
            SweepResult(next.rest, next.leaves,
                        FillResponses(agg, opp[0], opp[0].qty, qty - opp[0].qty) + next.responses,
                        FillUpdates(ticker, agg, opp[0], opp[0].qty) + next.updates)
  {
  }

  /** One turn of the loop: a fill against the front order, then the rest of the sweep. */
  lemma SweepTurn(ticker: nat, agg: Aggressor, opp: seq<Order>, qty: nat)
    requires opp != [] && Crosses(agg.side, agg.price, opp[0].price) && 0 < qty
    ensures var fill := Min(qty, opp[0].qty);
            var next := Sweep(ticker, agg, AfterFill(opp, fill), qty - fill);
            Sweep(ticker, agg, opp, qty) ==
            SweepResult(next.rest, next.leaves, FillResponses(agg, opp[0], fill, qty - fill) + next.responses,
                        FillUpdates(ticker, agg, opp[0], fill) + next.updates)
  {
    if opp[0].qty <= qty {
      SweepGoesOn(ticker, agg, opp, qty);
    } else {
      assert AfterFill(opp, qty) == [opp[0].(qty := opp[0].qty - qty)] + opp[1..];
    }
  }

  /** Sweeping `s` for `leaves` completes the sweep r, whose first messages are out already. */
  ghost predicate Completes(ticker: nat, agg: Aggressor, s: seq<Order>, leaves: nat, r: SweepResult,
                            sent: seq<Response>, responses: seq<Response>, told: seq<Update>, updates: seq<Update>) {
    var next := Sweep(ticker, agg, s, leaves);
    && next.rest == r.rest && next.leaves == r.leaves
    && responses + next.responses == sent + r.responses && updates + next.updates == told + r.updates
  }

  lemma CompletesAfterFill(ticker: nat, agg: Aggressor, s: seq<Order>, leaves: nat, r: SweepResult,
                           sent: seq<Response>, responses: seq<Response>, told: seq<Update>, updates: seq<Update>)
    requires Completes(ticker, agg, s, leaves, r, sent, responses, told, updates)
    requires s != [] && leaves > 0 && Crosses(agg.side, agg.price, s[0].price)
    ensures var fill := Min(leaves, s[0].qty);
            Completes(ticker, agg, AfterFill(s, fill), leaves - fill, r,
                      sent, responses + FillResponses(agg, s[0], fill, leaves - fill),
                      told, updates + FillUpdates(ticker, agg, s[0], fill))
  {
    SweepTurn(ticker, agg, s, leaves);
    var fill := Min(leaves, s[0].qty);
    var next := Sweep(ticker, agg, AfterFill(s, fill), leaves - fill);
    Regroup(responses, FillResponses(agg, s[0], fill, leaves - fill), next.responses);
    Regroup(updates, FillUpdates(ticker, agg, s[0], fill), next.updates);
  }

  lemma Regroup<T>(a: seq<T>, b: seq<T>, c: seq<T>)
    ensures (a + b) + c == a + (b + c)
  {
  }

  // ---------------------------------------------------------------------- one request

  function AddOutcome(x: Exchange, ticker: nat, req: Request): Outcome
    requires req.New?
  {
    var agg := Aggressor(req.client, req.coid, x.nextId, req.side, req.price);
    var accepted := Response(Accepted, req.client, req.coid, x.nextId, req.side, req.price, 0, req.qty);
    var sweep := Sweep(ticker, agg, x.book.On(Opposite(req.side)), req.qty);
    var book := x.book.With(Opposite(req.side), sweep.rest);
    if sweep.leaves == 0 then
      Outcome(Exchange(book, x.nextId + 1), [accepted] + sweep.responses, sweep.updates)
    else
      var priority := NextPriority(req.side, book.On(req.side), req.price);
      var o := Order(req.client, req.coid, x.nextId, req.side, req.price, sweep.leaves, priority);
      Outcome(Exchange(book.With(req.side, Insert(req.side, book.On(req.side), o)), x.nextId + 1),
              [accepted] + sweep.responses,
              sweep.updates + [Update(Add, x.nextId, ticker, req.side, req.price, sweep.leaves, priority)])
  }

  function Find(book: Book, client: nat, coid: nat): (r: (Side, int))
    ensures r.0.NoSide? || 0 <= r.1 < |book.On(r.0)|
    ensures !r.0.NoSide? ==> book.On(r.0)[r.1].client == client && book.On(r.0)[r.1].coid == coid
    ensures r.0.NoSide? ==> IndexOfKey(book.bids, client, coid) < 0 && IndexOfKey(book.asks, client, coid) < 0
  {
    var b := IndexOfKey(book.bids, client, coid);
    if b >= 0 then (Buy, b) else
    var a := IndexOfKey(book.asks, client, coid);
    if a >= 0 then (Sell, a) else (NoSide, -1)
  }

  function CancelOutcome(x: Exchange, ticker: nat, req: Request): Outcome
    requires req.Cancel?
  {
    var (side, k) := Find(x.book, req.client, req.coid);
    if req.client >= ME_MAX_NUM_CLIENTS || side.NoSide? then
      Outcome(x, [Response(CancelRejected, req.client, req.coid, ORDER_ID_INVALID, NoSide, PRICE_INVALID,
                           QTY_INVALID, QTY_INVALID)], [])
    else
      var o := x.book.On(side)[k];
      Outcome(Exchange(x.book.With(side, RemoveAt(x.book.On(side), k)), x.nextId),
              [Response(Canceled, req.client, req.coid, o.moid, o.side, o.price, QTY_INVALID, o.qty)],
              [Update(CancelOrder, o.moid, ticker, o.side, o.price, 0, o.priority)])
  }

  function Process(x: Exchange, ticker: nat, req: Request): Outcome {
    match req
    case New(_, _, _, _, _) => AddOutcome(x, ticker, req)
    case Cancel(_, _) => CancelOutcome(x, ticker, req)
  }

  // ---------------------------------------------------------------------- price-time priority

  function SumQty(s: seq<Order>): nat {
    if s == [] then 0 else s[0].qty + SumQty(s[1..])
  }

  /** What the i-th resting order gives to an aggressor for `qty`, said without running the loop. */
  function FillOf(opp: seq<Order>, qty: nat, i: nat): nat
    requires i < |opp|
  {
    var ahead := SumQty(opp[..i]);
    if ahead >= qty then 0 else Min(opp[i].qty, qty - ahead)
  }

  lemma SumQtyShift(s: seq<Order>, i: nat)
    requires 0 < i <= |s|
    ensures SumQty(s[..i]) == s[0].qty + SumQty(s[1..][..i - 1])
  {
    assert s[..i][1..] == s[1..][..i - 1];
  }

  lemma {:induction false} SumQtySnoc(s: seq<Order>, i: nat)
    requires i < |s|
    ensures SumQty(s[..i + 1]) == SumQty(s[..i]) + s[i].qty
  {
    SumQtyShift(s, i + 1);
    if i == 0 {
      assert s[..0] == [] && s[1..][..0] == [];
    } else {
      SumQtyShift(s, i);
      SumQtySnoc(s[1..], i - 1);
    }
  }

  /** Exactly the first n orders trade: n stops at the first price beyond the limit, or as soon as
      the quantity is exhausted. */
  ghost predicate Reaches(agg: Aggressor, opp: seq<Order>, qty: nat, n: nat) {
    var limit := InsertPos(Opposite(agg.side), opp, agg.price);
    && n <= limit
    && (forall i :: 0 <= i < n ==> SumQty(opp[..i]) < qty)
    && (n < limit ==> SumQty(opp[..n]) >= qty)
  }

  /** What is left of the opposite side after its first n orders trade: only the last of them can
      survive, with what the aggressor did not take. */
  ghost function RestOf(opp: seq<Order>, qty: nat, n: nat): seq<Order>
    requires n <= |opp|
  {
    if n > 0 && SumQty(opp[..n]) > qty
    then [opp[n - 1].(qty := SumQty(opp[..n]) - qty)] + opp[n..]
    else opp[n..]
  }

  ghost function LeavesOf(opp: seq<Order>, qty: nat, n: nat): nat
    requires n <= |opp|
  {
    if SumQty(opp[..n]) >= qty then 0 else qty - SumQty(opp[..n])
  }

  /** The messages of the i-th fill, at the price of the i-th resting order: to the aggressor, to the resting
      order's owner, the print, and what becomes of the resting order. */
  ghost predicate FillIs(ticker: nat, agg: Aggressor, opp: seq<Order>, qty: nat, i: nat, r: SweepResult)
    requires i < |opp| && SumQty(opp[..i]) <= qty
  {
    var o, fill, ahead := opp[i], FillOf(opp, qty, i), SumQty(opp[..i]);
    && 2 * i + 2 <= |r.responses| && 2 * i + 2 <= |r.updates|
    && r.responses[2 * i] ==
       Response(Filled, agg.client, agg.coid, agg.moid % QTY_RANGE, agg.side, o.price, fill, qty - ahead - fill)
    && r.responses[2 * i + 1] == Response(Filled, o.client, o.coid, o.moid, o.side, o.price, fill, o.qty - fill)
    && r.updates[2 * i] == Update(Trade, ORDER_ID_INVALID, ticker, agg.side, o.price, fill, PRIORITY_INVALID)
    && r.updates[2 * i + 1] ==
       if fill == o.qty then Update(CancelOrder, o.moid, ticker, o.side, o.price, o.qty, PRIORITY_INVALID)
       else Update(Modify, o.moid, ticker, o.side, o.price, o.qty - fill, o.priority)
  }

  /** The loop's whole effect in closed form: which orders trade, how much each gives, what remains,
      and every message that is sent. */
  ghost predicate IsPriceTimeSweep(ticker: nat, agg: Aggressor, opp: seq<Order>, qty: nat, n: nat, r: SweepResult) {
    && Reaches(agg, opp, qty, n)
    && r.rest == RestOf(opp, qty, n)
    && r.leaves == LeavesOf(opp, qty, n)
    && |r.responses| == 2 * n && |r.updates| == 2 * n
    && (forall i :: 0 <= i < n ==> FillIs(ticker, agg, opp, qty, i, r))
  }

  lemma {:induction false} SweepIsPriceTime(ticker: nat, agg: Aggressor, opp: seq<Order>, qty: nat) returns (n: nat)
    requires SideOK(Opposite(agg.side), opp)
    ensures IsPriceTimeSweep(ticker, agg, opp, qty, n, Sweep(ticker, agg, opp, qty))
    decreases |opp|
  {
    if qty == 0 || opp == [] || !Crosses(agg.side, agg.price, opp[0].price) {
      n := 0;
      SweepStops(ticker, agg, opp, qty);
    } else if opp[0].qty <= qty {
      TailOK(Opposite(agg.side), opp);
      var m := SweepIsPriceTime(ticker, agg, opp[1..], qty - opp[0].qty);
      n := m + 1;
      SweepContinues(ticker, agg, opp, qty, m);
    } else {
      n := 1;
      SweepEnds(ticker, agg, opp, qty);
    }
  }

  lemma SweepStops(ticker: nat, agg: Aggressor, opp: seq<Order>, qty: nat)
    requires qty == 0 || opp == [] || !Crosses(agg.side, agg.price, opp[0].price)
    ensures IsPriceTimeSweep(ticker, agg, opp, qty, 0, Sweep(ticker, agg, opp, qty))
  {
    assert opp[..0] == [];
  }

  lemma SweepEnds(ticker: nat, agg: Aggressor, opp: seq<Order>, qty: nat)
    requires 0 < qty && opp != [] && Crosses(agg.side, agg.price, opp[0].price) && qty < opp[0].qty
    ensures IsPriceTimeSweep(ticker, agg, opp, qty, 1, Sweep(ticker, agg, opp, qty))
  {
    SumQtyShift(opp, 1);
    assert opp[..0] == [] && opp[1..][..0] == [];
    var r := Sweep(ticker, agg, opp, qty);
    assert r == SweepResult([opp[0].(qty := opp[0].qty - qty)] + opp[1..], 0,
                            FillResponses(agg, opp[0], qty, 0), FillUpdates(ticker, agg, opp[0], qty));
    assert FillIs(ticker, agg, opp, qty, 0, r);
  }

  lemma SweepContinues(ticker: nat, agg: Aggressor, opp: seq<Order>, qty: nat, m: nat)
    requires opp != [] && Crosses(agg.side, agg.price, opp[0].price) && 0 < opp[0].qty <= qty
    requires IsPriceTimeSweep(ticker, agg, opp[1..], qty - opp[0].qty, m, Sweep(ticker, agg, opp[1..], qty - opp[0].qty))
    ensures IsPriceTimeSweep(ticker, agg, opp, qty, m + 1, Sweep(ticker, agg, opp, qty))
  {
    SweepGoesOn(ticker, agg, opp, qty);
    ExtentStep(agg, opp, qty, m);
    forall i | 0 <= i < m + 1
      ensures FillIs(ticker, agg, opp, qty, i, Sweep(ticker, agg, opp, qty))
    {
      MessagesStep(ticker, agg, opp, qty, i);
    }
  }

  lemma ExtentStep(agg: Aggressor, opp: seq<Order>, qty: nat, m: nat)
    requires opp != [] && Crosses(agg.side, agg.price, opp[0].price) && 0 < opp[0].qty <= qty
    requires Reaches(agg, opp[1..], qty - opp[0].qty, m)
    ensures Reaches(agg, opp, qty, m + 1)
    ensures RestOf(opp, qty, m + 1) == RestOf(opp[1..], qty - opp[0].qty, m)
    ensures LeavesOf(opp, qty, m + 1) == LeavesOf(opp[1..], qty - opp[0].qty, m)
  {
    var tail := opp[1..];
    SumQtyShift(opp, m + 1);
    forall i | 0 <= i < m + 1
      ensures SumQty(opp[..i]) < qty
    {
      if i > 0 {
        SumQtyShift(opp, i);
        assert SumQty(tail[..i - 1]) < qty - opp[0].qty;
      } else {
        assert opp[..0] == [];
      }
    }
    assert tail[..0] == [];
  }

  lemma MessagesStep(ticker: nat, agg: Aggressor, opp: seq<Order>, qty: nat, i: nat)
    requires opp != [] && Crosses(agg.side, agg.price, opp[0].price) && 0 < opp[0].qty <= qty && i < |opp|
    requires i > 0 ==> SumQty(opp[1..][..i - 1]) <= qty - opp[0].qty
    requires i > 0 ==> FillIs(ticker, agg, opp[1..], qty - opp[0].qty, i - 1,
                              Sweep(ticker, agg, opp[1..], qty - opp[0].qty))
    ensures SumQty(opp[..i]) <= qty
    ensures FillIs(ticker, agg, opp, qty, i, Sweep(ticker, agg, opp, qty))
  {
    if i > 0 {
      SumQtyShift(opp, i);
      assert FillOf(opp, qty, i) == FillOf(opp[1..], qty - opp[0].qty, i - 1);
      SweepMessagesShift(ticker, agg, opp, qty, i);
    } else {
      assert opp[..0] == [];
    }
  }

  lemma TailOK(side: Side, s: seq<Order>)
    requires SideOK(side, s) && s != []
    ensures SideOK(side, s[1..])
  {
    assert s[1..] == RemoveAt(s, 0);
    RemoveKeepsSide(side, s, 0);
  }

  lemma SweepMessagesShift(ticker: nat, agg: Aggressor, opp: seq<Order>, qty: nat, i: nat)
    requires opp != [] && Crosses(agg.side, agg.price, opp[0].price) && 0 < opp[0].qty <= qty && i > 0
    requires 2 * i <= |Sweep(ticker, agg, opp[1..], qty - opp[0].qty).responses|
    requires 2 * i <= |Sweep(ticker, agg, opp[1..], qty - opp[0].qty).updates|
    ensures var r, next := Sweep(ticker, agg, opp, qty), Sweep(ticker, agg, opp[1..], qty - opp[0].qty);
            && 2 * i + 2 <= |r.responses| && 2 * i + 2 <= |r.updates|
            && r.responses[2 * i] == next.responses[2 * (i - 1)] && r.responses[2 * i + 1] == next.responses[2 * (i - 1) + 1]
            && r.updates[2 * i] == next.updates[2 * (i - 1)] && r.updates[2 * i + 1] == next.updates[2 * (i - 1) + 1]
  {
  }
}
