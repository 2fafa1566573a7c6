/** The matching engine's book for one ticker (exchange/matcher/me_order_book.cpp), working in place
    on the linked structure and appending to its two outgoing queues. Each method is proved to do
    what Matching says. */
module MEOrderBook {
  import opened Types
  import opened PriceTime
  import opened Matching
  import opened Feed
  import opened Runs
  import opened Rings
  import opened Flatten
  import opened PriceLevels
  import opened BookIndex
  import opened LinkedBook

  /** What a sweep leaves of the opposite side, when the aggressor is not exhausted, does not use the
      aggressor's price slot: a shared slot would mean an equal price, which crosses. */
  lemma SlotFree(opp: Side, rest: seq<Order>, before: seq<Order>, side: Side, price: int)
    requires Remnant(rest, before) && SideNoCollision(before, price) && Sorted(opp, rest) && opp == Opposite(side)
    requires rest != [] ==> !Crosses(side, price, rest[0].price)
    ensures SlotFits(rest, side, price)
  {
    forall i | 0 <= i < |rest|
      ensures PriceToIndex(rest[i].price) != PriceToIndex(price)
    {
      assert rest[i] == before[i + |before| - |rest|].(qty := rest[i].qty);
      assert i == 0 || Before(opp, rest[0], rest[i]);
    }
  }

  /** Once the sweep is over, an order that must rest is new to the index by order, and finds its price
      slot free or held by its own level. */
  lemma ResidualReady(ticker: nat, x: Exchange, req: Request)
    requires ExchangeOK(x) && Admissible(x, req) && req.New? && NoCollision(x.book, req.price)
    ensures SweepOf(x, ticker, req).leaves > 0 ==>
              && Find(SweptBook(x, ticker, req), req.client, req.coid).0.NoSide?
              && Fits(SweptBook(x, ticker, req), req.side, req.price)
  {
    var opp := Opposite(req.side);
    var rest := SweepOf(x, ticker, req).rest;
    if SweepOf(x, ticker, req).leaves > 0 {
      assert Find(SweptBook(x, ticker, req), req.client, req.coid).0.NoSide? by {
        SweptBookOK(x, ticker, req);
      }
      assert SlotFits(rest, req.side, req.price) by {
        SweepRemnant(ticker, AggressorOf(x, req), x.book.On(opp), req.qty);
        RestUncrossed(ticker, x, req);
        SlotFree(opp, rest, x.book.On(opp), req.side, req.price);
      }
      OwnSlot(x.book.On(req.side), req.side, req.price);
    }
  }

  lemma RestUncrossed(ticker: nat, x: Exchange, req: Request)
    requires ExchangeOK(x) && Admissible(x, req) && req.New? && SweepOf(x, ticker, req).leaves > 0
    ensures var rest := SweepOf(x, ticker, req).rest;
            Sorted(Opposite(req.side), rest) && (rest != [] ==> !Crosses(req.side, req.price, rest[0].price))
  {
    SweepPublished(x.book, ticker, AggressorOf(x, req), req.qty);
  }

  lemma InitialOK()
    ensures ExchangeOK(INITIAL)
  {
    EmptyOK();
  }

  lemma PartIsAmend(b: Book, opp: Side, fill: nat)
    requires b.On(opp) != [] && fill < b.On(opp)[0].qty
    ensures b.With(opp, AfterFill(b.On(opp), fill)) == b.With(opp, Amend(b.On(opp), 0, b.On(opp)[0].qty - fill))
  {
  }

  lemma WholeIsRemove(b: Book, opp: Side)
    requires b.On(opp) != [] && !opp.NoSide?
    ensures var c := b.With(opp, Amend(b.On(opp), 0, 0));
            c.On(opp) != [] && c.With(opp, RemoveAt(c.On(opp), 0)) == b.With(opp, AfterFill(b.On(opp), b.On(opp)[0].qty))
  {
    assert RemoveAt(Amend(b.On(opp), 0, 0), 0) == b.On(opp)[1..];
  }

  /** The order a client names has left b, which leaves c, if the client may name it and it is live. */
  ghost predicate Taken(b: Book, client: nat, coid: nat, found: bool, o: Order, c: Book) {
    var (side, k) := Find(b, client, coid);
    && found == (client < ME_MAX_NUM_CLIENTS && !side.NoSide?)
    && (!found ==> c == b)
    && (found ==> o == b.On(side)[k] && c == b.With(side, RemoveAt(b.On(side), k)))
  }

  lemma TakenOutcome(x: Exchange, ticker: nat, client: nat, coid: nat, found: bool, o: Order, c: Book)
    requires Taken(x.book, client, coid, found, o, c)
    ensures CancelOutcome(x, ticker, Request.Cancel(client, coid)) ==
            Outcome(Exchange(c, x.nextId),
                    [if found then Response(Canceled, client, coid, o.moid, o.side, o.price, QTY_INVALID, o.qty)
                     else Response(CancelRejected, client, coid, ORDER_ID_INVALID, NoSide, PRICE_INVALID, QTY_INVALID, QTY_INVALID)],
                    if found then [Update(CancelOrder, o.moid, ticker, o.side, o.price, 0, o.priority)] else [])
  {
  }

  class MEOrderBook {
    const ticker: nat
    const book: LinkedBook
    var nextMarketOrderId: nat
    var responses: seq<Response>
    var updates: seq<Update>

    constructor (ticker: nat)
      ensures Valid() && State() == INITIAL && this.ticker == ticker && responses == [] && updates == []
      ensures fresh(book) && fresh(book.bids) && fresh(book.asks)
      ensures book.bids.levelSet == {} && book.bids.orderSet == {} && book.asks.levelSet == {} && book.asks.orderSet == {}
    {
      var b := new LinkedBook();
      this.ticker, book := ticker, b;
      nextMarketOrderId, responses, updates := 1, [], [];
      new;
      InitialOK();
    }

    ghost function State(): Exchange
      reads `nextMarketOrderId, book.bids, book.asks
    {
      Exchange(book.Abs(), nextMarketOrderId)
    }

    ghost predicate Valid()
      reads `nextMarketOrderId, book, book.bids, book.asks
      reads book.bids.levelSet, book.asks.levelSet, book.bids.orderSet, book.asks.orderSet
    {
      book.Valid() && ExchangeOK(State())
    }

    /** The first order of the best level of a side, if any (me_order_book.cpp:83-84, 94-95). */
    method Front(side: Side) returns (n: OrderNode?)
      requires book.Valid() && !side.NoSide?
      ensures n == null <==> book.Abs().On(side) == []
      ensures n != null ==>
                && book.At(book.OnSide(side), n, 0, 0) && book.Position(book.OnSide(side), 0, 0) == 0
                && n.data == book.Abs().On(side)[0]
    {
      var s := book.OnSide(side);
      if s.head == null {
        n := null;
      } else {
        n := s.head.first;
        assert LevelOK(s.levels[0], s.side, s.nodes[0], s.vals[0]);
        assert UniformLevel(s.vals[0]);
        FlatAt(s.vals, 0, 0);
        assert s.vals[..0] == [];
      }
    }

    /** match (me_order_book.cpp:29-72). */
    method Match(agg: Aggressor, passive: OrderNode, leaves: nat) returns (left: nat)
      requires book.Valid() && !agg.side.NoSide?
      requires book.At(book.OnSide(Opposite(agg.side)), passive, 0, 0) && book.Abs().On(Opposite(agg.side)) != []
      requires book.Position(book.OnSide(Opposite(agg.side)), 0, 0) == 0
      requires passive.data == book.Abs().On(Opposite(agg.side))[0]
      modifies `responses, `updates, book, book.bids, book.asks
      modifies book.bids.levelSet, book.asks.levelSet, book.bids.orderSet, book.asks.orderSet
      ensures Traded(old(book.Abs()), Opposite(agg.side), Min(leaves, old(passive.data.qty)))
      ensures left == leaves - Min(leaves, old(passive.data.qty))
      ensures responses == old(responses) + FillResponses(agg, old(passive.data), Min(leaves, old(passive.data.qty)), left)
      ensures updates == old(updates) + FillUpdates(ticker, agg, old(passive.data), Min(leaves, old(passive.data.qty)))
      ensures book.SameNodes() && KeysShrink(old(book.orderAt))
    {
      var data := passive.data;
      var fillQty := Min(leaves, data.qty);
      left := leaves - fillQty;
      FillFront(passive, data.qty, fillQty, Opposite(agg.side));
      SendFill(agg, data, fillQty, left);
    }

    /** The book's part of a match: the front order shrinks, and goes when nothing is left of it
        (me_order_book.cpp:36, 57, 64). */
    method FillFront(passive: OrderNode, orderQty: nat, fillQty: nat, ghost opp: Side)
      requires book.Valid() && !opp.NoSide? && book.Abs().On(opp) != []
      requires book.At(book.OnSide(opp), passive, 0, 0) && book.Position(book.OnSide(opp), 0, 0) == 0
      requires book.Abs().On(opp)[0].qty == orderQty && fillQty <= orderQty
      modifies book, book.bids, book.asks
      modifies book.bids.levelSet, book.asks.levelSet, book.bids.orderSet, book.asks.orderSet
      ensures Traded(old(book.Abs()), opp, fillQty)
      ensures book.SameNodes() && KeysShrink(old(book.orderAt))
    {
      if fillQty == orderQty {
        FillWhole(passive, opp);
      } else {
        FillPart(passive, orderQty, fillQty, opp);
      }
    }

    /** The front order keeps its place with less left (me_order_book.cpp:36, 64). */
    method FillPart(passive: OrderNode, orderQty: nat, fillQty: nat, ghost opp: Side)
      requires book.Valid() && !opp.NoSide? && book.Abs().On(opp) != []
      requires book.At(book.OnSide(opp), passive, 0, 0) && book.Position(book.OnSide(opp), 0, 0) == 0
      requires book.Abs().On(opp)[0].qty == orderQty && fillQty < orderQty
      modifies book.bids, book.asks, passive`data
      ensures Traded(old(book.Abs()), opp, fillQty)
      ensures book.SameNodes() && KeysShrink(old(book.orderAt))
    {
      PartIsAmend(book.Abs(), opp, fillQty);
      book.SetOrderQty(passive, orderQty - fillQty, opp, 0, 0, 0);
    }

    method FillWhole(passive: OrderNode, ghost opp: Side)
      requires book.Valid() && !opp.NoSide? && book.Abs().On(opp) != []
      requires book.At(book.OnSide(opp), passive, 0, 0) && book.Position(book.OnSide(opp), 0, 0) == 0
      modifies book, book.bids, book.asks
      modifies book.bids.levelSet, book.asks.levelSet, book.bids.orderSet, book.asks.orderSet
      ensures Traded(old(book.Abs()), opp, old(book.Abs()).On(opp)[0].qty)
      ensures book.SameNodes() && KeysShrink(old(book.orderAt))
    {
      ghost var b, oa := book.Abs(), book.orderAt;
      book.SetOrderQty(passive, 0, opp, 0, 0, 0);
      ghost var c := book.Abs();
      book.RemoveOrder(passive, opp, 0, 0, 0);
      RemovedIsTraded(b, c, oa, opp);
    }

    lemma RemovedIsTraded(b: Book, c: Book, oa: map<(nat, nat), OrderNode>, opp: Side)
      requires b.On(opp) != [] && !opp.NoSide? && c == b.With(opp, Amend(b.On(opp), 0, 0)) && book.Lost(c, oa, opp, 0)
      ensures Traded(b, opp, b.On(opp)[0].qty) && KeysShrink(oa)
    {
      WholeIsRemove(b, opp);
    }

    /** The messages of a match (me_order_book.cpp:39-70). */
    method SendFill(agg: Aggressor, data: Order, fillQty: nat, left: nat)
      requires fillQty <= data.qty
      modifies `responses, `updates
      ensures responses == old(responses) + FillResponses(agg, data, fillQty, left)
      ensures updates == old(updates) + FillUpdates(ticker, agg, data, fillQty)
    {
      var remaining := data.qty - fillQty;
      responses := responses + [Response(Filled, agg.client, agg.coid, agg.moid % QTY_RANGE, agg.side, data.price, fillQty, left)];
      responses := responses + [Response(Filled, data.client, data.coid, data.moid, data.side, data.price, fillQty, remaining)];
      updates := updates + [Update(Trade, ORDER_ID_INVALID, ticker, agg.side, data.price, fillQty, PRIORITY_INVALID)];
      if remaining == 0 {
        updates := updates + [Update(CancelOrder, data.moid, ticker, data.side, data.price, data.qty, PRIORITY_INVALID)];
      } else {
        updates := updates + [Update(Modify, data.moid, ticker, data.side, data.price, remaining, data.priority)];
      }
    }

    ghost predicate Traded(b: Book, opp: Side, fill: nat)
      requires b.On(opp) != [] && fill <= b.On(opp)[0].qty
      reads book, book.bids, book.asks, book.bids.levelSet, book.asks.levelSet, book.bids.orderSet, book.asks.orderSet
    {
      book.Shows(b.With(opp, AfterFill(b.On(opp), fill)))
    }

    ghost predicate KeysShrink(oa: map<(nat, nat), OrderNode>)
      reads book
    {
      book.orderAt.Keys <= oa.Keys
    }

    // -------------------------------------------------------------------- the loop

    /** What remains to be done from here is the rest of the sweep r that started on b. */
    ghost predicate Underway(agg: Aggressor, leaves: nat, b: Book, r: SweepResult, rs: seq<Response>, us: seq<Update>)
      reads `responses, `updates, book, book.bids, book.asks
      reads book.bids.levelSet, book.asks.levelSet, book.bids.orderSet, book.asks.orderSet
    {
      var opp := Opposite(agg.side);
      && book.Valid() && book.Abs() == b.With(opp, book.Abs().On(opp))
      && Completes(ticker, agg, book.Abs().On(opp), leaves, r, rs, responses, us, updates)
    }

    /** checkForMatch (me_order_book.cpp:77-105). */
    method CheckForMatch(agg: Aggressor, qty: nat) returns (leaves: nat)
      requires book.Valid() && !agg.side.NoSide?
      modifies `responses, `updates, book, book.bids, book.asks
      modifies book.bids.levelSet, book.asks.levelSet, book.bids.orderSet, book.asks.orderSet
      ensures book.Valid()
      ensures var r := Sweep(ticker, agg, old(book.Abs()).On(Opposite(agg.side)), qty);
              && leaves == r.leaves && book.Abs() == old(book.Abs()).With(Opposite(agg.side), r.rest)
              && responses == old(responses) + r.responses && updates == old(updates) + r.updates
      ensures book.SameNodes() && KeysShrink(old(book.orderAt))
    {
      ghost var b, r := book.Abs(), Sweep(ticker, agg, book.Abs().On(Opposite(agg.side)), qty);
      leaves := qty;
      var done := false;
      assert b == b.With(Opposite(agg.side), b.On(Opposite(agg.side)));
      while !done
        invariant Underway(agg, leaves, b, r, old(responses), old(updates))
        invariant book.SameNodes() && KeysShrink(old(book.orderAt))
        invariant done ==> Sweep(ticker, agg, book.Abs().On(Opposite(agg.side)), leaves) ==
                           SweepResult(book.Abs().On(Opposite(agg.side)), leaves, [], [])
        decreases |book.Abs().On(Opposite(agg.side))|, leaves, !done
      {
        done, leaves := Turn(agg, leaves, b, r, old(responses), old(updates));
      }
    }

    method MatchOn(agg: Aggressor, first: OrderNode, leaves: nat,
                   ghost b: Book, ghost r: SweepResult, ghost rs: seq<Response>, ghost us: seq<Update>) returns (left: nat)
      requires !agg.side.NoSide? && Underway(agg, leaves, b, r, rs, us) && leaves > 0
      requires book.Abs().On(Opposite(agg.side)) != [] && first.data == book.Abs().On(Opposite(agg.side))[0]
      requires book.At(book.OnSide(Opposite(agg.side)), first, 0, 0)
      requires book.Position(book.OnSide(Opposite(agg.side)), 0, 0) == 0
      requires Crosses(agg.side, agg.price, first.data.price)
      modifies `responses, `updates, book, book.bids, book.asks
      modifies book.bids.levelSet, book.asks.levelSet, book.bids.orderSet, book.asks.orderSet
      ensures Underway(agg, left, b, r, rs, us)
      ensures book.SameNodes() && KeysShrink(old(book.orderAt))
      ensures var old_opp, opp := old(book.Abs()).On(Opposite(agg.side)), book.Abs().On(Opposite(agg.side));
              |opp| < |old_opp| || (|opp| == |old_opp| && left < leaves)
    {
      ghost var s := book.Abs().On(Opposite(agg.side));
      CompletesAfterFill(ticker, agg, s, leaves, r, rs, responses, us, updates);
      left := Match(agg, first, leaves);
      assert book.Abs().On(Opposite(agg.side)) == AfterFill(s, Min(leaves, s[0].qty));
    }

    /** One turn of the loop: stop, or match against the front of the opposite side. */
    method Turn(agg: Aggressor, leaves: nat, ghost b: Book, ghost r: SweepResult, ghost rs: seq<Response>, ghost us: seq<Update>)
      returns (done: bool, left: nat)
      requires !agg.side.NoSide? && Underway(agg, leaves, b, r, rs, us)
      modifies `responses, `updates, book, book.bids, book.asks
      modifies book.bids.levelSet, book.asks.levelSet, book.bids.orderSet, book.asks.orderSet
      ensures Underway(agg, left, b, r, rs, us)
      ensures book.SameNodes() && KeysShrink(old(book.orderAt))
      ensures done ==> left == leaves && book.Abs() == old(book.Abs()) &&
                       Sweep(ticker, agg, book.Abs().On(Opposite(agg.side)), left) ==
                       SweepResult(book.Abs().On(Opposite(agg.side)), left, [], [])
      ensures !done ==> var old_opp, opp := old(book.Abs()).On(Opposite(agg.side)), book.Abs().On(Opposite(agg.side));
                        |opp| < |old_opp| || (|opp| == |old_opp| && left < leaves)
    {
      done, left := true, leaves;
      if leaves != 0 {
        var first := Front(Opposite(agg.side));
        if first != null && Crosses(agg.side, agg.price, first.data.price) {
          done := false;
          left := MatchOn(agg, first, leaves, b, r, rs, us);
        }
      }
    }

    // -------------------------------------------------------------------- requests

    /** add (me_order_book.cpp:110-139). */
    method Add(client: nat, coid: nat, side: Side, price: int, qty: nat)
      requires Valid() && !side.NoSide? && client < ME_MAX_NUM_CLIENTS && coid < ME_MAX_ORDER_IDS
      requires Find(book.Abs(), client, coid).0.NoSide? && NoCollision(book.Abs(), price)
      modifies this, book, book.bids, book.asks
      modifies book.bids.levelSet, book.asks.levelSet, book.bids.orderSet, book.asks.orderSet
      ensures Valid()
      ensures Done(AddOutcome(old(State()), ticker, New(client, coid, side, price, qty)), old(responses), old(updates))
      ensures book.OnlyNewNodes()
    {
      AddKeepsOK(State(), ticker, New(client, coid, side, price, qty));
      ResidualReady(ticker, State(), New(client, coid, side, price, qty));
      Execute(client, coid, side, price, qty);
    }

    method Execute(client: nat, coid: nat, side: Side, price: int, qty: nat)
      requires book.Valid() && !side.NoSide?
      requires var x, req := State(), New(client, coid, side, price, qty);
               SweepOf(x, ticker, req).leaves > 0 ==>
                 && Find(SweptBook(x, ticker, req), client, coid).0.NoSide?
                 && Fits(SweptBook(x, ticker, req), side, price)
      modifies this, book, book.bids, book.asks
      modifies book.bids.levelSet, book.asks.levelSet, book.bids.orderSet, book.asks.orderSet
      ensures book.Valid()
      ensures Done(AddOutcome(old(State()), ticker, New(client, coid, side, price, qty)), old(responses), old(updates))
      ensures book.OnlyNewNodes()
    {
      ghost var x, req := State(), New(client, coid, side, price, qty);
      AddOutcomeIs(x, ticker, req);
      var id, leaves := AcceptAndMatch(client, coid, side, price, qty);
      if leaves != 0 {
        Rest(client, coid, id, side, price, leaves);
        Regroup(old(updates), SweepOf(x, ticker, req).updates,
                [Update(UpdateKind.Add, id, ticker, side, price, leaves, Residual(x, ticker, req).priority)]);
      }
    }

    method AcceptAndMatch(client: nat, coid: nat, side: Side, price: int, qty: nat) returns (id: nat, leaves: nat)
      requires book.Valid() && !side.NoSide?
      modifies `nextMarketOrderId, `responses, `updates, book, book.bids, book.asks
      modifies book.bids.levelSet, book.asks.levelSet, book.bids.orderSet, book.asks.orderSet
      ensures book.Valid() && id == old(nextMarketOrderId) && nextMarketOrderId == id + 1
      ensures var x, req := old(State()), New(client, coid, side, price, qty);
              var r := SweepOf(x, ticker, req);
              && leaves == r.leaves && book.Abs() == SweptBook(x, ticker, req) && updates == old(updates) + r.updates
              && responses == old(responses) + ([Response(Accepted, client, coid, id, side, price, 0, qty)] + r.responses)
      ensures book.SameNodes()
    {
      id := Accept(client, coid, side, price, qty);
      leaves := CheckForMatch(Aggressor(client, coid, id, side, price), qty);
      Regroup(old(responses), [Response(Accepted, client, coid, id, side, price, 0, qty)],
              SweepOf(old(State()), ticker, New(client, coid, side, price, qty)).responses);
    }

    /** The request has had exactly this outcome. */
    ghost predicate Done(out: Outcome, rs: seq<Response>, us: seq<Update>)
      reads this, book.bids, book.asks
    {
      State() == out.after && responses == rs + out.responses && updates == us + out.updates
    }

    method Accept(client: nat, coid: nat, side: Side, price: int, qty: nat) returns (id: nat)
      modifies `nextMarketOrderId, `responses
      ensures id == old(nextMarketOrderId) && nextMarketOrderId == id + 1
      ensures responses == old(responses) + [Response(Accepted, client, coid, id, side, price, 0, qty)]
    {
      id := nextMarketOrderId;
      nextMarketOrderId := nextMarketOrderId + 1;
      responses := responses + [Response(Accepted, client, coid, id, side, price, 0, qty)];
    }

    /** getNextPriority (me_order_book.h:167-171). */
    method GetNextPriority(side: Side, price: int) returns (priority: nat)
      requires book.Valid() && !side.NoSide? && Fits(book.Abs(), side, price)
      ensures priority == NextPriority(side, book.Abs().On(side), price)
    {
      var k := PriceToIndex(price);
      if k !in book.levelAt {
        priority := 1;
        NoLevel(book.OnSide(side), price);
      } else {
        LastInLevel(book.OnSide(side), book.OnSide(Opposite(side)), price);
        priority := book.levelAt[k].first.prev.data.priority + 1;
      }
    }

    lemma NoLevel(s: SideLevels, price: int)
      requires s.Valid() && LevelsIndexed(book.levelAt, s.levels, s.vals) && PriceToIndex(price) !in book.levelAt
      ensures NextPriority(s.side, Flat(s.vals), price) == 1
    {
      var f := Flat(s.vals);
      forall k | 0 <= k < |f|
        ensures f[k].price != price
      {
        var i, j := FlatIndex(s.vals, k);
        assert UniformLevel(s.vals[i]) && Slot(s.vals[i]) in book.levelAt;
      }
    }

    lemma LastInLevel(s: SideLevels, t: SideLevels, price: int)
      requires Apart(s, t) && book.Priced(s, t) && s.side != t.side && PriceToIndex(price) in book.levelAt
      requires SlotFits(Flat(s.vals), s.side, price) && SlotFits(Flat(t.vals), s.side, price)
      ensures var l := book.levelAt[PriceToIndex(price)];
              l.first.prev != null && l.first.prev.data.priority + 1 == NextPriority(s.side, Flat(s.vals), price)
    {
      var i := book.FindLevel(s, t, price);
      assert LevelOK(s.levels[i], s.side, s.nodes[i], s.vals[i]);
      RingNeighbours(s.nodes[i], 0);
      LastPriority(s.side, s.vals, i);
    }

    lemma LastPriority(side: Side, vs: seq<seq<Order>>, i: nat)
      requires Layered(side, vs) && i < |vs|
      ensures vs[i] != [] && NextPriority(side, Flat(vs), vs[i][0].price) == vs[i][|vs[i]| - 1].priority + 1
    {
      var p := vs[i][0].price;
      forall a | 0 <= a < i + 1
        ensures !Better(side, p, vs[a][0].price)
      {
        assert a == i || Better(side, vs[a][0].price, vs[i][0].price);
      }
      JoinPosition(side, vs, p, i + 1);
      FlatSnoc(vs, i);
      FlatAt(vs, i, |vs[i]| - 1);
      assert UniformLevel(vs[i]);
    }

    /** The residual rests and is announced (me_order_book.cpp:124-138). */
    method Rest(client: nat, coid: nat, id: nat, side: Side, price: int, leaves: nat)
      requires book.Valid() && !side.NoSide?
      requires Find(book.Abs(), client, coid).0.NoSide? && Fits(book.Abs(), side, price)
      modifies `updates, book, book.bids, book.asks
      modifies book.bids.levelSet, book.asks.levelSet, book.bids.orderSet, book.asks.orderSet
      ensures book.Valid()
      ensures var priority := NextPriority(side, old(book.Abs()).On(side), price);
              var o := Order(client, coid, id, side, price, leaves, priority);
              && book.Abs() == old(book.Abs()).With(side, Insert(side, old(book.Abs()).On(side), o))
              && updates == old(updates) + [Update(UpdateKind.Add, id, ticker, side, price, leaves, priority)]
      ensures book.OnlyNewNodes()
    {
      var priority := GetNextPriority(side, price);
      book.AddNew(Order(client, coid, id, side, price, leaves, priority));
      Announce(Update(UpdateKind.Add, id, ticker, side, price, leaves, priority));
    }

    method Announce(u: Update)
      modifies `updates
      ensures updates == old(updates) + [u]
    {
      updates := updates + [u];
    }

    /** cancel (me_order_book.cpp:144-172). */
    method Cancel(client: nat, coid: nat)
      requires Valid() && coid < ME_MAX_ORDER_IDS
      modifies this, book, book.bids, book.asks
      modifies book.bids.levelSet, book.asks.levelSet, book.bids.orderSet, book.asks.orderSet
      ensures Valid()
      ensures Done(CancelOutcome(old(State()), ticker, Request.Cancel(client, coid)), old(responses), old(updates))
      ensures book.OnlyNewNodes()
    {
      CancelKeepsOK(State(), ticker, Request.Cancel(client, coid));
      Withdraw(client, coid);
    }

    method Withdraw(client: nat, coid: nat)
      requires book.Valid()
      modifies this, book, book.bids, book.asks
      modifies book.bids.levelSet, book.asks.levelSet, book.bids.orderSet, book.asks.orderSet
      ensures book.Valid()
      ensures Done(CancelOutcome(old(State()), ticker, Request.Cancel(client, coid)), old(responses), old(updates))
      ensures book.OnlyNewNodes()
    {
      ghost var x := State();
      var found, o := TakeIfKnown(client, coid);
      Reply(found, client, coid, o);
      TakenOutcome(x, ticker, client, coid, found, o, book.Abs());
    }

    method TakeIfKnown(client: nat, coid: nat) returns (found: bool, o: Order)
      requires book.Valid()
      modifies book, book.bids, book.asks
      modifies book.bids.levelSet, book.asks.levelSet, book.bids.orderSet, book.asks.orderSet
      ensures book.Valid() && Taken(old(book.Abs()), client, coid, found, o, book.Abs())
      ensures book.OnlyNewNodes()
    {
      if client < ME_MAX_NUM_CLIENTS {
        found, o := Take(client, coid);
      } else {
        found, o := false, Order(0, 0, 0, NoSide, 0, 0, 0);
      }
    }

    /** Remove the order a client names, if it is live (me_order_book.cpp:149-151, 167). */
    method Take(client: nat, coid: nat) returns (found: bool, o: Order)
      requires book.Valid()
      modifies book, book.bids, book.asks
      modifies book.bids.levelSet, book.asks.levelSet, book.bids.orderSet, book.asks.orderSet
      ensures book.Valid()
      ensures var (side, k) := Find(old(book.Abs()), client, coid);
              && found == !side.NoSide?
              && (!found ==> book.Abs() == old(book.Abs()))
              && (found ==> o == old(book.Abs()).On(side)[k] &&
                            book.Abs() == old(book.Abs()).With(side, RemoveAt(old(book.Abs()).On(side), k)))
      ensures book.OnlyNewNodes()
    {
      var n: OrderNode?;
      ghost var side, i, j;
      n, side, i, j := book.Lookup(client, coid);
      if n == null {
        found, o := false, Order(0, 0, 0, NoSide, 0, 0, 0);
      } else {
        found, o := true, n.data;
        book.RemoveOrder(n, side, i, j, book.Position(book.OnSide(side), i, j));
      }
    }

    method Reply(found: bool, client: nat, coid: nat, o: Order)
      modifies `responses, `updates
      ensures responses == old(responses) +
                [if found then Response(Canceled, client, coid, o.moid, o.side, o.price, QTY_INVALID, o.qty)
                 else Response(CancelRejected, client, coid, ORDER_ID_INVALID, NoSide, PRICE_INVALID, QTY_INVALID, QTY_INVALID)]
      ensures updates == old(updates) +
                if found then [Update(CancelOrder, o.moid, ticker, o.side, o.price, 0, o.priority)] else []
    {
      if !found {
        responses := responses + [Response(CancelRejected, client, coid, ORDER_ID_INVALID, NoSide, PRICE_INVALID,
                                           QTY_INVALID, QTY_INVALID)];
      } else {
        updates := updates + [Update(CancelOrder, o.moid, ticker, o.side, o.price, 0, o.priority)];
        responses := responses + [Response(Canceled, client, coid, o.moid, o.side, o.price, QTY_INVALID, o.qty)];
      }
    }

    /** processClientRequest (matching_engine.h:33-52), for a request of this ticker. */
    method ProcessClientRequest(req: Request)
      requires Valid() && Admissible(State(), req) && InRange(State(), req)
      modifies this, book, book.bids, book.asks
      modifies book.bids.levelSet, book.asks.levelSet, book.bids.orderSet, book.asks.orderSet
      ensures Valid()
      ensures Done(Process(old(State()), ticker, req), old(responses), old(updates))
      ensures book.OnlyNewNodes()
    {
      match req {
        case New(client, coid, side, price, qty) => Add(client, coid, side, price, qty);
        case Cancel(client, coid) => Cancel(client, coid);
      }
    }

    method ProcessNext(ghost done: seq<Request>, req: Request, ghost next: seq<Request>)
      requires Valid() && At(done) && next == done + [req]
      requires Admissible(Run(ticker, done).after, req) && InRange(Run(ticker, done).after, req)
      modifies this, book, book.bids, book.asks
      modifies book.bids.levelSet, book.asks.levelSet, book.bids.orderSet, book.asks.orderSet
      ensures Valid() && At(next) && book.OnlyNewNodes()
    {
      RunSnoc(ticker, done, req);
      ProcessClientRequest(req);
    }

    method ProcessTurn(ghost done: seq<Request>, reqs: seq<Request>, i: nat, ghost sofar: seq<Request>)
      returns (ghost next: seq<Request>)
      requires Valid() && At(sofar) && i < |reqs| && sofar == done + reqs[..i]
      requires Serviceable(ticker, done + reqs)
      modifies this, book, book.bids, book.asks
      modifies book.bids.levelSet, book.asks.levelSet, book.bids.orderSet, book.asks.orderSet
      ensures Valid() && At(next) && book.OnlyNewNodes() && next == done + reqs[..i + 1]
    {
      NextInRun(ticker, done, reqs, i, sofar);
      next := sofar + [reqs[i]];
      ProcessNext(sofar, reqs[i], next);
    }

    /** Request after request: on the linked structure the exchange reaches the states, and sends the
        messages, of the run. */
    method ProcessAll(ghost done: seq<Request>, reqs: seq<Request>)
      requires Valid() && At(done) && Serviceable(ticker, done + reqs)
      modifies this, book, book.bids, book.asks
      modifies book.bids.levelSet, book.asks.levelSet, book.bids.orderSet, book.asks.orderSet
      ensures Valid() && At(done + reqs) && book.OnlyNewNodes()
    {
      AllDone(done, reqs);
      ghost var sofar, all := done, done + reqs;
      var i := 0;
      while i < |reqs|
        invariant i <= |reqs| && sofar == done + reqs[..i] && (i == |reqs| ==> sofar == all)
        invariant Valid() && At(sofar) && book.OnlyNewNodes()
      {
        sofar := ProcessTurn(done, reqs, i, sofar);
        i := i + 1;
      }
    }

    /** The book and what it has sent are those of a run of these requests from the beginning. */
    ghost predicate At(reqs: seq<Request>)
      reads this, book.bids, book.asks
    {
      var run := Run(ticker, reqs);
      State() == run.after && responses == run.responses && updates == run.updates
    }
  }

  /** The fixed-size arrays have room for the request: its ids are in range and its price collides
      with no live one. */
  ghost predicate InRange(x: Exchange, req: Request) {
    && req.coid < ME_MAX_ORDER_IDS
    && (req.New? ==> req.client < ME_MAX_NUM_CLIENTS && NoCollision(x.book, req.price))
  }

  /** The n-th request can be served when its turn comes. */
  ghost predicate ServiceableAt(ticker: nat, reqs: seq<Request>, n: nat)
    requires n < |reqs|
  {
    var x := Run(ticker, reqs[..n]).after;
    Admissible(x, reqs[n]) && InRange(x, reqs[n])
  }

  ghost predicate Serviceable(ticker: nat, reqs: seq<Request>) {
    forall n :: 0 <= n < |reqs| ==> ServiceableAt(ticker, reqs, n)
  }

  /** Such a run is admissible. */
  lemma {:induction false} ServiceableRun(ticker: nat, reqs: seq<Request>)
    requires Serviceable(ticker, reqs)
    ensures AdmissibleRun(ticker, reqs)
    decreases |reqs|
  {
    if reqs != [] {
      var front := reqs[..|reqs| - 1];
      forall n | 0 <= n < |front|
        ensures ServiceableAt(ticker, front, n)
      {
        assert front[..n] == reqs[..n];
        assert ServiceableAt(ticker, reqs, n);
      }
      ServiceableRun(ticker, front);
      assert ServiceableAt(ticker, reqs, |reqs| - 1);
    }
  }

  lemma RunSnoc(ticker: nat, done: seq<Request>, req: Request)
    ensures var x := Run(ticker, done);
            var out := Process(x.after, ticker, req);
            Run(ticker, done + [req]) == Outcome(out.after, x.responses + out.responses, x.updates + out.updates)
  {
    assert (done + [req])[..|done|] == done;
  }

  lemma AllDone(done: seq<Request>, reqs: seq<Request>)
    ensures done + reqs[..|reqs|] == done + reqs && done + reqs[..0] == done
  {
    assert reqs[..|reqs|] == reqs;
  }

  /** The i-th of the requests to come, at its turn. */
  lemma NextInRun(ticker: nat, done: seq<Request>, reqs: seq<Request>, i: nat, before: seq<Request>)
    requires Serviceable(ticker, done + reqs) && i < |reqs| && before == done + reqs[..i]
    ensures Admissible(Run(ticker, before).after, reqs[i]) && InRange(Run(ticker, before).after, reqs[i])
    ensures done + reqs[..i + 1] == before + [reqs[i]]
  {
    var all, n := done + reqs, |done| + i;
    assert all[..n] == before && all[n] == reqs[i];
    assert ServiceableAt(ticker, all, n);
  }
}
