/** Theorems over whole runs of requests through one book: the feed rebuilds the book, the book is
    never crossed, and quantity is conserved. */
module Runs {
  import opened Types
  import opened PriceTime
  import opened Matching
  import opened Feed

  // ---------------------------------------------------------------------- one sweep

  lemma FillPublished(b: Book, ticker: nat, agg: Aggressor, fill: nat)
    requires BookOK(b) && !agg.side.NoSide?
    requires b.On(Opposite(agg.side)) != [] && fill <= b.On(Opposite(agg.side))[0].qty
    ensures var s := b.On(Opposite(agg.side));
            var us, b' := FillUpdates(ticker, agg, s[0], fill), b.With(Opposite(agg.side), AfterFill(s, fill));
            BookOK(b') && LegalAll(PublicBook(b), us) && ApplyAll(PublicBook(b), us) == PublicBook(b')
  {
    var opp := Opposite(agg.side);
    var s := b.On(opp);
    var us := FillUpdates(ticker, agg, s[0], fill);
    assert us == [us[0]] + [us[1]];
    ApplyOne(PublicBook(b), us[0]);
    ApplyOne(PublicBook(b), us[1]);
    ApplyAllConcat(PublicBook(b), [us[0]], [us[1]]);
    if fill == s[0].qty {
      assert RemoveAt(s, 0) == s[1..];
      CancelPublished(b, opp, 0, us[1]);
      RemoveKeepsBook(b, opp, 0);
    } else {
      ModifyPublished(b, opp, 0, s[0].qty - fill, us[1]);
      SetQtyKeepsSide(opp, s, 0, s[0].qty - fill);
      SetQtyKeepsBook(b, opp, s[0].qty - fill);
    }
    LegalAllConcat(PublicBook(b), [us[0]], [us[1]]);
  }

  lemma SetQtyKeepsBook(b: Book, side: Side, qty: nat)
    requires BookOK(b) && !side.NoSide? && b.On(side) != [] && qty > 0
    ensures BookOK(b.With(side, b.On(side)[0 := b.On(side)[0].(qty := qty)]))
  {
    var s := b.On(side);
    var s' := s[0 := s[0].(qty := qty)];
    SetQtyKeepsSide(side, s, 0, qty);
    var b' := b.With(side, s');
    forall i, j | 0 <= i < |b'.bids| && 0 <= j < |b'.asks|
      ensures !Clash(b'.bids[i], b'.asks[j])
    {
      assert !Clash(b.bids[i], b.asks[j]);
    }
  }

  /** The sweep's updates, folded one by one, do to the mirror what the sweep does to the book, and
      what remains on the opposite side no longer crosses unless the aggressor is exhausted. */
  ghost predicate Swept(b: Book, agg: Aggressor, r: SweepResult) {
    var b' := b.With(Opposite(agg.side), r.rest);
    && BookOK(b')
    && LegalAll(PublicBook(b), r.updates)
    && ApplyAll(PublicBook(b), r.updates) == PublicBook(b')
    && (r.leaves > 0 && r.rest != [] ==> !Crosses(agg.side, agg.price, r.rest[0].price))
  }

  lemma {:induction false} SweepPublished(b: Book, ticker: nat, agg: Aggressor, qty: nat)
    requires BookOK(b) && !agg.side.NoSide?
    ensures Swept(b, agg, Sweep(ticker, agg, b.On(Opposite(agg.side)), qty))
    decreases |b.On(Opposite(agg.side))|
  {
    var opp := Opposite(agg.side);
    var s := b.On(opp);
    if qty == 0 || s == [] || !Crosses(agg.side, agg.price, s[0].price) {
      SweptNothing(b, ticker, agg, qty);
    } else {
      var fill := Min(qty, s[0].qty);
      var b' := b.With(opp, AfterFill(s, fill));
      assert BookOK(b') by {
        FillPublished(b, ticker, agg, fill);
      }
      if fill == s[0].qty {
        SweepPublished(b', ticker, agg, qty - fill);
      } else {
        SweptNothing(b', ticker, agg, 0);
      }
      SweptOnwards(b, b', ticker, agg, qty, fill);
    }
  }

  lemma SweptNothing(b: Book, ticker: nat, agg: Aggressor, leaves: nat)
    requires BookOK(b)
    requires var s := b.On(Opposite(agg.side)); leaves == 0 || s == [] || !Crosses(agg.side, agg.price, s[0].price)
    ensures Swept(b, agg, Sweep(ticker, agg, b.On(Opposite(agg.side)), leaves))
  {
    assert b.With(Opposite(agg.side), b.On(Opposite(agg.side))) == b;
  }

  /** One fill, then the sweep of what is left. */
  lemma SweptOnwards(b: Book, b': Book, ticker: nat, agg: Aggressor, qty: nat, fill: nat)
    requires BookOK(b) && !agg.side.NoSide?
    requires var s := b.On(Opposite(agg.side)); s != [] && qty > 0 && Crosses(agg.side, agg.price, s[0].price)
    requires var s := b.On(Opposite(agg.side));
             fill == Min(qty, s[0].qty) && b' == b.With(Opposite(agg.side), AfterFill(s, fill))
    requires Swept(b', agg, Sweep(ticker, agg, b'.On(Opposite(agg.side)), qty - fill))
    ensures Swept(b, agg, Sweep(ticker, agg, b.On(Opposite(agg.side)), qty))
  {
    FillPublished(b, ticker, agg, fill);
    SweptTurn(b, b', ticker, agg, qty);
  }

  lemma SweptTurn(b: Book, b': Book, ticker: nat, agg: Aggressor, qty: nat)
    requires var s := b.On(Opposite(agg.side)); s != [] && qty > 0 && Crosses(agg.side, agg.price, s[0].price)
    requires var s := b.On(Opposite(agg.side));
             var fill := Min(qty, s[0].qty);
             && b' == b.With(Opposite(agg.side), AfterFill(s, fill))
             && LegalAll(PublicBook(b), FillUpdates(ticker, agg, s[0], fill))
             && ApplyAll(PublicBook(b), FillUpdates(ticker, agg, s[0], fill)) == PublicBook(b')
             && Swept(b', agg, Sweep(ticker, agg, AfterFill(s, fill), qty - fill))
    ensures Swept(b, agg, Sweep(ticker, agg, b.On(Opposite(agg.side)), qty))
  {
    var s := b.On(Opposite(agg.side));
    var fill := Min(qty, s[0].qty);
    SweepTurn(ticker, agg, s, qty);
    SweptStep(b, AfterFill(s, fill), agg, FillUpdates(ticker, agg, s[0], fill),
              Sweep(ticker, agg, AfterFill(s, fill), qty - fill), Sweep(ticker, agg, s, qty));
  }

  lemma SweptStep(b: Book, s: seq<Order>, agg: Aggressor, us: seq<Update>, next: SweepResult, r: SweepResult)
    requires var b' := b.With(Opposite(agg.side), s);
             Swept(b', agg, next) && LegalAll(PublicBook(b), us) && ApplyAll(PublicBook(b), us) == PublicBook(b')
    requires r.updates == us + next.updates && r.rest == next.rest && r.leaves == next.leaves
    ensures Swept(b, agg, r)
  {
    ApplyAllConcat(PublicBook(b), us, next.updates);
    LegalAllConcat(PublicBook(b), us, next.updates);
  }

  /** The orders a sweep leaves are the last ones it started with; only a quantity can differ. */
  ghost predicate Remnant(rest: seq<Order>, opp: seq<Order>) {
    && |rest| <= |opp|
    && forall i :: 0 <= i < |rest| ==> rest[i] == opp[i + |opp| - |rest|].(qty := rest[i].qty)
  }

  lemma {:induction false} SweepRemnant(ticker: nat, agg: Aggressor, opp: seq<Order>, qty: nat)
    ensures Remnant(Sweep(ticker, agg, opp, qty).rest, opp)
    decreases |opp|
  {
    if qty == 0 || opp == [] || !Crosses(agg.side, agg.price, opp[0].price) {
    } else if opp[0].qty <= qty {
      SweepGoesOn(ticker, agg, opp, qty);
      SweepRemnant(ticker, agg, opp[1..], qty - opp[0].qty);
      var rest := Sweep(ticker, agg, opp[1..], qty - opp[0].qty).rest;
      forall i | 0 <= i < |rest|
        ensures rest[i] == opp[i + |opp| - |rest|].(qty := rest[i].qty)
      {
        assert opp[1..][i + |opp[1..]| - |rest|] == opp[i + |opp| - |rest|];
      }
    } else {
      assert Sweep(ticker, agg, opp, qty).rest == [opp[0].(qty := opp[0].qty - qty)] + opp[1..];
    }
  }

  // ---------------------------------------------------------------------- one request

  function AggressorOf(x: Exchange, req: Request): Aggressor
    requires req.New?
  {
    Aggressor(req.client, req.coid, x.nextId, req.side, req.price)
  }

  function SweepOf(x: Exchange, ticker: nat, req: Request): SweepResult
    requires req.New?
  {
    Sweep(ticker, AggressorOf(x, req), x.book.On(Opposite(req.side)), req.qty)
  }

  /** The book once the request has swept the opposite side, before its residual rests. */
  function SweptBook(x: Exchange, ticker: nat, req: Request): Book
    requires req.New?
  {
    x.book.With(Opposite(req.side), SweepOf(x, ticker, req).rest)
  }

  function Residual(x: Exchange, ticker: nat, req: Request): Order
    requires req.New?
  {
    var b := SweptBook(x, ticker, req);
    Order(req.client, req.coid, x.nextId, req.side, req.price, SweepOf(x, ticker, req).leaves,
          NextPriority(req.side, b.On(req.side), req.price))
  }

  lemma RemnantFacts(rest: seq<Order>, opp: seq<Order>, id: nat, client: nat, coid: nat)
    requires Remnant(rest, opp) && IdAbove(opp, id) && NoKey(opp, client, coid)
    ensures IdAbove(rest, id) && NoKey(rest, client, coid)
  {
    forall i | 0 <= i < |rest|
      ensures rest[i].moid < id && !(rest[i].client == client && rest[i].coid == coid)
    {
      assert rest[i] == opp[i + |opp| - |rest|].(qty := rest[i].qty);
    }
  }

  lemma SweptBookOK(x: Exchange, ticker: nat, req: Request)
    requires ExchangeOK(x) && Admissible(x, req) && req.New?
    ensures var b := SweptBook(x, ticker, req);
            && BookOK(b) && IdAbove(b.bids, x.nextId) && IdAbove(b.asks, x.nextId)
            && NoKey(b.bids, req.client, req.coid) && NoKey(b.asks, req.client, req.coid)
  {
    var opp := x.book.On(Opposite(req.side));
    SweepRemnant(ticker, AggressorOf(x, req), opp, req.qty);
    RemnantFacts(SweepOf(x, ticker, req).rest, opp, x.nextId, req.client, req.coid);
    SweepPublished(x.book, ticker, AggressorOf(x, req), req.qty);
  }

  /** What a request leaves to rest may join the book its sweep leaves behind. */
  lemma ResidualMayJoin(x: Exchange, ticker: nat, req: Request)
    requires ExchangeOK(x) && Admissible(x, req) && req.New? && SweepOf(x, ticker, req).leaves > 0
    ensures BookOK(SweptBook(x, ticker, req)) && MayJoin(SweptBook(x, ticker, req), Residual(x, ticker, req))
  {
    SweptBookOK(x, ticker, req);
    SweepPublished(x.book, ticker, AggressorOf(x, req), req.qty);
    NextPriorityIsLargest(req.side, SweptBook(x, ticker, req).On(req.side), req.price);
  }

  lemma JoinPublished(b: Book, o: Order, u: Update)
    requires BookOK(b) && MayJoin(b, o) && u.kind.Add? && OrderOf(u) == Public(o)
    ensures var b' := b.With(o.side, Insert(o.side, b.On(o.side), o));
            && BookOK(b') && IdAbove(b'.bids, o.moid + 1) && IdAbove(b'.asks, o.moid + 1)
            && LegalAll(PublicBook(b), [u]) && ApplyAll(PublicBook(b), [u]) == PublicBook(b')
  {
    ApplyOne(PublicBook(b), u);
    AddPublished(b, o, u);
    InsertKeepsBook(b, o);
    InsertMembers(o.side, b.On(o.side), o);
  }

  lemma AddPublishes(x: Exchange, ticker: nat, req: Request)
    requires ExchangeOK(x) && Admissible(x, req) && req.New?
    ensures Publishes(x, AddOutcome(x, ticker, req))
  {
    SweptBookOK(x, ticker, req);
    SweepPublished(x.book, ticker, AggressorOf(x, req), req.qty);
    var r, b := SweepOf(x, ticker, req), SweptBook(x, ticker, req);
    if r.leaves > 0 {
      ResidualMayJoin(x, ticker, req);
      var o := Residual(x, ticker, req);
      var u := Update(Add, x.nextId, ticker, req.side, req.price, r.leaves, o.priority);
      JoinPublished(b, o, u);
      ApplyAllConcat(PublicBook(x.book), r.updates, [u]);
      LegalAllConcat(PublicBook(x.book), r.updates, [u]);
    }
  }

  lemma CancelPublishes(x: Exchange, ticker: nat, req: Request)
    requires ExchangeOK(x) && req.Cancel?
    ensures Publishes(x, CancelOutcome(x, ticker, req))
  {
    var (side, k) := Find(x.book, req.client, req.coid);
    if req.client < ME_MAX_NUM_CLIENTS && !side.NoSide? {
      var o := x.book.On(side)[k];
      var u := Update(CancelOrder, o.moid, ticker, o.side, o.price, 0, o.priority);
      CancelPublished(x.book, side, k, u);
      RemoveKeepsBook(x.book, side, k);
      ApplyOne(PublicBook(x.book), u);
    }
  }

  /** The outcome's updates are legal one after the other, and folding them turns the public view of
      the old book into that of the new one. */
  ghost predicate Publishes(x: Exchange, out: Outcome) {
    && ExchangeOK(out.after)
    && LegalAll(PublicBook(x.book), out.updates)
    && ApplyAll(PublicBook(x.book), out.updates) == PublicBook(out.after.book)
  }

  lemma ProcessPublishes(x: Exchange, ticker: nat, req: Request)
    requires ExchangeOK(x) && Admissible(x, req)
    ensures Publishes(x, Process(x, ticker, req))
  {
    if req.New? {
      AddPublishes(x, ticker, req);
    } else {
      CancelPublishes(x, ticker, req);
    }
  }

  lemma AddKeepsOK(x: Exchange, ticker: nat, req: Request)
    requires ExchangeOK(x) && Admissible(x, req) && req.New?
    ensures ExchangeOK(AddOutcome(x, ticker, req).after)
  {
    AddPublishes(x, ticker, req);
  }

  lemma CancelKeepsOK(x: Exchange, ticker: nat, req: Request)
    requires ExchangeOK(x) && req.Cancel?
    ensures ExchangeOK(CancelOutcome(x, ticker, req).after)
  {
    CancelPublishes(x, ticker, req);
  }

  /** The outcome of a NEW request in terms of its sweep and its residual. */
  lemma AddOutcomeIs(x: Exchange, ticker: nat, req: Request)
    requires req.New?
    ensures var r, b, o := SweepOf(x, ticker, req), SweptBook(x, ticker, req), Residual(x, ticker, req);
            var accepted := Response(Accepted, req.client, req.coid, x.nextId, req.side, req.price, 0, req.qty);
            AddOutcome(x, ticker, req) ==
            Outcome(Exchange(if r.leaves == 0 then b else b.With(req.side, Insert(req.side, b.On(req.side), o)), x.nextId + 1),
                    [accepted] + r.responses,
                    if r.leaves == 0 then r.updates
                    else r.updates + [Update(Add, x.nextId, ticker, req.side, req.price, r.leaves, o.priority)])
  {
  }

  // ---------------------------------------------------------------------- whole runs

  function Run(ticker: nat, reqs: seq<Request>): Outcome {
    if reqs == [] then Outcome(INITIAL, [], [])
    else
      var before := Run(ticker, reqs[..|reqs| - 1]);
      var out := Process(before.after, ticker, reqs[|reqs| - 1]);
      Outcome(out.after, before.responses + out.responses, before.updates + out.updates)
  }

  ghost predicate AdmissibleRun(ticker: nat, reqs: seq<Request>) {
    reqs != [] ==>
      && AdmissibleRun(ticker, reqs[..|reqs| - 1])
      && Admissible(Run(ticker, reqs[..|reqs| - 1]).after, reqs[|reqs| - 1])
  }

  /** For every run: the feed, folded from nothing, is the exchange's book, order for order. */
  lemma {:induction false} FeedRebuildsBook(ticker: nat, reqs: seq<Request>)
    requires AdmissibleRun(ticker, reqs)
    ensures var run := Run(ticker, reqs);
            && ExchangeOK(run.after)
            && LegalAll(EMPTY, run.updates)
            && ApplyAll(EMPTY, run.updates) == PublicBook(run.after.book)
    decreases |reqs|
  {
    assert PublicBook(EMPTY) == EMPTY;
    if reqs != [] {
      RunStep(ticker, reqs);
      var before := Run(ticker, reqs[..|reqs| - 1]);
      FeedRebuildsBook(ticker, reqs[..|reqs| - 1]);
      ProcessPublishes(before.after, ticker, reqs[|reqs| - 1]);
      var out := Process(before.after, ticker, reqs[|reqs| - 1]);
      ApplyAllConcat(EMPTY, before.updates, out.updates);
      LegalAllConcat(EMPTY, before.updates, out.updates);
    }
  }

  /** The mirror is sorted and uncrossed after every single message of a legal feed, not only
      between requests. */
  lemma {:induction false} MirrorAlwaysOK(b: Book, us: seq<Update>, n: nat)
    requires BookOK(b) && Mirrored(b) && LegalAll(b, us) && n <= |us|
    ensures BookOK(ApplyAll(b, us[..n])) && Mirrored(ApplyAll(b, us[..n]))
    ensures n < |us| ==> Legal(ApplyAll(b, us[..n]), us[n])
    decreases n
  {
    if n > 0 {
      LegalKeepsBook(b, us[0]);
      MirrorAlwaysOK(Apply(b, us[0]), us[1..], n - 1);
      assert us[..n][1..] == us[1..][..n - 1];
    }
  }

  lemma NeverCrossed(ticker: nat, reqs: seq<Request>, n: nat)
    requires AdmissibleRun(ticker, reqs) && n <= |Run(ticker, reqs).updates|
    ensures Uncrossed(ApplyAll(EMPTY, Run(ticker, reqs).updates[..n]))
    ensures Uncrossed(Run(ticker, reqs).after.book)
  {
    var us := Run(ticker, reqs).updates;
    assert LegalAll(EMPTY, us) && Uncrossed(Run(ticker, reqs).after.book) by {
      FeedRebuildsBook(ticker, reqs);
    }
    assert BookOK(ApplyAll(EMPTY, us[..n])) by {
      EmptyOK();
      MirrorAlwaysOK(EMPTY, us, n);
    }
  }

  lemma EmptyOK()
    ensures BookOK(EMPTY) && Mirrored(EMPTY)
  {
  }

  // ---------------------------------------------------------------------- conservation

  function Sum(rs: seq<Response>, kind: ResponseKind, id: nat): nat {
    if rs == [] then 0
    else (if rs[0].kind != kind || rs[0].moid != id then 0
          else if kind.Filled? then rs[0].execQty else rs[0].leavesQty) + Sum(rs[1..], kind, id)
  }

  lemma {:induction false} SumConcat(rs: seq<Response>, ts: seq<Response>, kind: ResponseKind, id: nat)
    ensures Sum(rs + ts, kind, id) == Sum(rs, kind, id) + Sum(ts, kind, id)
    decreases |rs|
  {
    if rs == [] {
      assert rs + ts == ts;
    } else {
      assert (rs + ts)[1..] == rs[1..] + ts;
      SumConcat(rs[1..], ts, kind, id);
    }
  }

  lemma SumOne(r: Response, kind: ResponseKind, id: nat)
    ensures Sum([r], kind, id) == if r.kind != kind || r.moid != id then 0
                                  else if kind.Filled? then r.execQty else r.leavesQty
  {
    assert [r][1..] == [];
  }

  function RestingOn(s: seq<Order>, id: nat): nat {
    var k := IndexOfId(s, id);
    if k < 0 then 0 else s[k].qty
  }

  function Resting(b: Book, id: nat): nat {
    RestingOn(b.bids, id) + RestingOn(b.asks, id)
  }

  /** In a sweep, what leaves the aggressor and the resting orders is what is reported as filled,
      order by order. */
  lemma {:induction false} SweepConserves(ticker: nat, agg: Aggressor, opp: seq<Order>, qty: nat, id: nat)
    requires NoClash(opp) && agg.moid < QTY_RANGE && IdAbove(opp, agg.moid)
    ensures var r := Sweep(ticker, agg, opp, qty);
            RestingOn(opp, id) + (if id == agg.moid then qty else 0)
            == Sum(r.responses, Filled, id) + RestingOn(r.rest, id) + (if id == agg.moid then r.leaves else 0)
    ensures var r := Sweep(ticker, agg, opp, qty);
            Sum(r.responses, Canceled, id) == 0 && Sum(r.responses, Accepted, id) == 0
    decreases |opp|
  {
    if qty == 0 || opp == [] || !Crosses(agg.side, agg.price, opp[0].price) {
    } else {
      var o := opp[0];
      var fill := Min(qty, o.qty);
      FillSum(agg, o, fill, qty - fill, id);
      HeadResting(opp, id);
      if fill == o.qty {
        SweepGoesOn(ticker, agg, opp, qty);
        TailNoClash(opp);
        SweepConserves(ticker, agg, opp[1..], qty - fill, id);
        var rs, next := FillResponses(agg, o, fill, qty - fill), Sweep(ticker, agg, opp[1..], qty - fill);
        SumConcat(rs, next.responses, Filled, id);
        SumConcat(rs, next.responses, Canceled, id);
        SumConcat(rs, next.responses, Accepted, id);
      } else {
        var rest := [o.(qty := o.qty - fill)] + opp[1..];
        assert rest[1..] == opp[1..];
      }
    }
  }

  lemma TailNoClash(s: seq<Order>)
    requires NoClash(s) && s != []
    ensures NoClash(s[1..])
  {
    forall i, j | 0 <= i < j < |s[1..]|
      ensures !Clash(s[1..][i], s[1..][j])
    {
      assert !Clash(s[i + 1], s[j + 1]);
    }
  }

  lemma HeadResting(s: seq<Order>, id: nat)
    requires NoClash(s) && s != []
    ensures RestingOn(s, id) == if s[0].moid == id then s[0].qty else RestingOn(s[1..], id)
    ensures s[0].moid == id ==> RestingOn(s[1..], id) == 0
  {
    forall i | 0 <= i < |s[1..]|
      ensures s[1..][i].moid != s[0].moid
    {
      assert !Clash(s[0], s[i + 1]);
    }
  }

  lemma SumPair(r: Response, t: Response, kind: ResponseKind, id: nat)
    ensures Sum([r, t], kind, id) == Sum([r], kind, id) + Sum([t], kind, id)
  {
    assert [r, t] == [r] + [t];
    SumConcat([r], [t], kind, id);
  }

  lemma FillSum(agg: Aggressor, o: Order, fill: nat, leaves: nat, id: nat)
    requires fill <= o.qty && agg.moid < QTY_RANGE && o.moid != agg.moid
    ensures var rs := FillResponses(agg, o, fill, leaves);
            && Sum(rs, Filled, id) == (if id == agg.moid || id == o.moid then fill else 0)
            && Sum(rs, Canceled, id) == 0 && Sum(rs, Accepted, id) == 0
  {
    var rs := FillResponses(agg, o, fill, leaves);
    forall kind: ResponseKind
      ensures Sum(rs, kind, id) == if !kind.Filled? then 0 else if id == agg.moid || id == o.moid then fill else 0
    {
      SumPair(rs[0], rs[1], kind, id);
      SumOne(rs[0], kind, id);
      SumOne(rs[1], kind, id);
    }
  }

  /** What a message stream says has happened to an order since its acceptance. */
  function Accounted(rs: seq<Response>, b: Book, id: nat): nat {
    Sum(rs, Filled, id) + Sum(rs, Canceled, id) + Resting(b, id)
  }

  lemma AddConserves(x: Exchange, ticker: nat, req: Request, id: nat)
    requires ExchangeOK(x) && Admissible(x, req) && req.New? && x.nextId < QTY_RANGE
    ensures var out := AddOutcome(x, ticker, req);
            Resting(x.book, id) + Sum(out.responses, Accepted, id) == Accounted(out.responses, out.after.book, id)
  {
    var accepted := Response(Accepted, req.client, req.coid, x.nextId, req.side, req.price, 0, req.qty);
    var r, b := SweepOf(x, ticker, req), SweptBook(x, ticker, req);
    SweepConserves(ticker, AggressorOf(x, req), x.book.On(Opposite(req.side)), req.qty, id);
    forall kind: ResponseKind
      ensures Sum([accepted] + r.responses, kind, id) ==
              Sum(r.responses, kind, id) + if kind.Accepted? && id == x.nextId then req.qty else 0
    {
      SumConcat([accepted], r.responses, kind, id);
      SumOne(accepted, kind, id);
    }
    SweptBookOK(x, ticker, req);
    if r.leaves > 0 {
      InsertResting(req.side, b.On(req.side), Residual(x, ticker, req), id);
    }
  }

  lemma InsertResting(side: Side, s: seq<Order>, o: Order, id: nat)
    requires IdAbove(s, o.moid) && NoClash(s)
    ensures RestingOn(Insert(side, s, o), id) == RestingOn(s, id) + (if id == o.moid then o.qty else 0)
  {
    IdsDistinct(s);
    var r, p, m := Insert(side, s, o), InsertPos(side, s, o.price), IndexOfId(s, id);
    assert forall i :: 0 <= i < |r| ==> r[i] == if i < p then s[i] else if i == p then o else s[i - 1];
    assert r[p] == o;
    assert m >= 0 ==> r[if m < p then m else m + 1] == s[m];
  }

  lemma RemoveResting(s: seq<Order>, k: nat, id: nat)
    requires NoClash(s) && k < |s|
    ensures RestingOn(s, id) == RestingOn(RemoveAt(s, k), id) + if s[k].moid == id then s[k].qty else 0
  {
    IdsDistinct(s);
    var t := RemoveAt(s, k);
    var m, n := IndexOfId(s, id), IndexOfId(t, id);
    assert n >= 0 ==> t[n] == s[if n < k then n else n + 1];
    assert m >= 0 && m != k ==> t[if m < k then m else m - 1] == s[m];
  }

  lemma CancelConserves(x: Exchange, ticker: nat, req: Request, id: nat)
    requires ExchangeOK(x) && req.Cancel?
    requires id != ORDER_ID_INVALID
    ensures var out := CancelOutcome(x, ticker, req);
            Resting(x.book, id) + Sum(out.responses, Accepted, id) == Accounted(out.responses, out.after.book, id)
  {
    var out := CancelOutcome(x, ticker, req);
    forall kind: ResponseKind
      ensures Sum(out.responses, kind, id) == if out.responses[0].kind != kind || out.responses[0].moid != id then 0
                                              else if kind.Filled? then out.responses[0].execQty else out.responses[0].leavesQty
    {
      assert out.responses == [out.responses[0]];
      SumOne(out.responses[0], kind, id);
    }
    var (side, k) := Find(x.book, req.client, req.coid);
    if req.client < ME_MAX_NUM_CLIENTS && !side.NoSide? {
      RemoveResting(x.book.On(side), k, id);
    }
  }

  lemma ProcessConserves(x: Exchange, ticker: nat, req: Request, id: nat)
    requires ExchangeOK(x) && Admissible(x, req) && id < QTY_RANGE
    requires req.New? ==> x.nextId < QTY_RANGE
    ensures var out := Process(x, ticker, req);
            Resting(x.book, id) + Sum(out.responses, Accepted, id) == Accounted(out.responses, out.after.book, id)
  {
    if req.New? {
      AddConserves(x, ticker, req, id);
    } else {
      CancelConserves(x, ticker, req, id);
    }
  }

  lemma ConservedStep(rs: seq<Response>, ts: seq<Response>, b: Book, b': Book, id: nat)
    requires Sum(rs, Accepted, id) == Accounted(rs, b, id)
    requires Resting(b, id) + Sum(ts, Accepted, id) == Accounted(ts, b', id)
    ensures Sum(rs + ts, Accepted, id) == Accounted(rs + ts, b', id)
  {
    SumConcat(rs, ts, Accepted, id);
    SumConcat(rs, ts, Filled, id);
    SumConcat(rs, ts, Canceled, id);
  }

  lemma RunStep(ticker: nat, reqs: seq<Request>)
    requires reqs != []
    ensures var before := Run(ticker, reqs[..|reqs| - 1]);
            var out := Process(before.after, ticker, reqs[|reqs| - 1]);
            Run(ticker, reqs) == Outcome(out.after, before.responses + out.responses, before.updates + out.updates)
  {
  }

  lemma IdsGrow(x: Exchange, ticker: nat, req: Request)
    ensures var after := Process(x, ticker, req).after;
            x.nextId <= after.nextId && (req.New? ==> after.nextId == x.nextId + 1)
  {
  }

  /** For every run that issues fewer than 2^32 ids and every order accepted in it: accepted quantity
      is executed plus cancelled plus resting. */
  lemma {:induction false} QuantityConserved(ticker: nat, reqs: seq<Request>, id: nat)
    requires AdmissibleRun(ticker, reqs) && Run(ticker, reqs).after.nextId <= QTY_RANGE
    requires id < QTY_RANGE
    ensures var run := Run(ticker, reqs);
            Sum(run.responses, Accepted, id) == Accounted(run.responses, run.after.book, id)
    decreases |reqs|
  {
    if reqs != [] {
      var before := Run(ticker, reqs[..|reqs| - 1]);
      var req := reqs[|reqs| - 1];
      var out := Process(before.after, ticker, req);
      RunStep(ticker, reqs);
      IdsGrow(before.after, ticker, req);
      FeedRebuildsBook(ticker, reqs[..|reqs| - 1]);
      QuantityConserved(ticker, reqs[..|reqs| - 1], id);
      ProcessConserves(before.after, ticker, req, id);
      ConservedStep(before.responses, out.responses, before.after.book, out.after.book, id);
    }
  }

  // ---------------------------------------------------------------------- both sides of every trade

  function ExecutedOn(rs: seq<Response>, side: Side): nat {
    if rs == [] then 0
    else (if rs[0].kind.Filled? && rs[0].side == side then rs[0].execQty else 0) + ExecutedOn(rs[1..], side)
  }

  function Printed(us: seq<Update>): nat {
    if us == [] then 0 else (if us[0].kind.Trade? then us[0].qty else 0) + Printed(us[1..])
  }

  lemma {:induction false} ExecutedConcat(rs: seq<Response>, ts: seq<Response>, side: Side)
    ensures ExecutedOn(rs + ts, side) == ExecutedOn(rs, side) + ExecutedOn(ts, side)
    decreases |rs|
  {
    if rs == [] {
      assert rs + ts == ts;
    } else {
      assert (rs + ts)[1..] == rs[1..] + ts;
      ExecutedConcat(rs[1..], ts, side);
    }
  }

  lemma {:induction false} PrintedConcat(us: seq<Update>, vs: seq<Update>)
    ensures Printed(us + vs) == Printed(us) + Printed(vs)
    decreases |us|
  {
    if us == [] {
      assert us + vs == vs;
    } else {
      assert (us + vs)[1..] == us[1..] + vs;
      PrintedConcat(us[1..], vs);
    }
  }

  /** Everything bought was sold, and printed. */
  ghost predicate TwoSided(rs: seq<Response>, us: seq<Update>) {
    ExecutedOn(rs, Buy) == ExecutedOn(rs, Sell) == Printed(us)
  }

  lemma TwoSidedConcat(rs: seq<Response>, ts: seq<Response>, us: seq<Update>, vs: seq<Update>)
    requires TwoSided(rs, us) && TwoSided(ts, vs)
    ensures TwoSided(rs + ts, us + vs)
  {
    ExecutedConcat(rs, ts, Buy);
    ExecutedConcat(rs, ts, Sell);
    PrintedConcat(us, vs);
  }

  lemma QuietResponse(r: Response)
    requires !r.kind.Filled?
    ensures TwoSided([r], [])
  {
    assert [r][1..] == [];
  }

  lemma QuietUpdate(u: Update)
    requires !u.kind.Trade?
    ensures TwoSided([], [u])
  {
    assert [u][1..] == [];
  }

  lemma FillTwoSided(ticker: nat, agg: Aggressor, o: Order, fill: nat, leaves: nat)
    requires !agg.side.NoSide? && o.side == Opposite(agg.side) && fill <= o.qty
    ensures TwoSided(FillResponses(agg, o, fill, leaves), FillUpdates(ticker, agg, o, fill))
  {
    var rs, us := FillResponses(agg, o, fill, leaves), FillUpdates(ticker, agg, o, fill);
    assert rs == [rs[0]] + [rs[1]] && us == [us[0]] + [us[1]];
    ExecutedConcat([rs[0]], [rs[1]], Buy);
    ExecutedConcat([rs[0]], [rs[1]], Sell);
    PrintedConcat([us[0]], [us[1]]);
    assert [rs[0]][1..] == [] && [rs[1]][1..] == [] && [us[0]][1..] == [] && [us[1]][1..] == [];
  }

  lemma {:induction false} SweepTwoSided(ticker: nat, agg: Aggressor, opp: seq<Order>, qty: nat)
    requires !agg.side.NoSide? && AllOn(Opposite(agg.side), opp)
    ensures TwoSided(Sweep(ticker, agg, opp, qty).responses, Sweep(ticker, agg, opp, qty).updates)
    decreases |opp|
  {
    if qty == 0 || opp == [] || !Crosses(agg.side, agg.price, opp[0].price) {
    } else {
      var fill := Min(qty, opp[0].qty);
      var next := Sweep(ticker, agg, AfterFill(opp, fill), qty - fill);
      SweepTurn(ticker, agg, opp, qty);
      FillTwoSided(ticker, agg, opp[0], fill, qty - fill);
      if fill == opp[0].qty {
        SweepTwoSided(ticker, agg, opp[1..], qty - fill);
      } else {
        assert next == SweepResult(AfterFill(opp, fill), 0, [], []);
      }
      TwoSidedConcat(FillResponses(agg, opp[0], fill, qty - fill), next.responses,
                     FillUpdates(ticker, agg, opp[0], fill), next.updates);
    }
  }

  lemma AddTwoSided(x: Exchange, ticker: nat, req: Request)
    requires ExchangeOK(x) && Admissible(x, req) && req.New?
    ensures TwoSided(AddOutcome(x, ticker, req).responses, AddOutcome(x, ticker, req).updates)
  {
    var r := SweepOf(x, ticker, req);
    var accepted := Response(Accepted, req.client, req.coid, x.nextId, req.side, req.price, 0, req.qty);
    SweepTwoSided(ticker, AggressorOf(x, req), x.book.On(Opposite(req.side)), req.qty);
    QuietResponse(accepted);
    TwoSidedConcat([accepted], r.responses, [], r.updates);
    assert [] + r.updates == r.updates;
    if r.leaves > 0 {
      var u := Update(Add, x.nextId, ticker, req.side, req.price, r.leaves, Residual(x, ticker, req).priority);
      QuietUpdate(u);
      TwoSidedConcat([accepted] + r.responses, [], r.updates, [u]);
      assert ([accepted] + r.responses) + [] == [accepted] + r.responses;
    }
  }

  lemma CancelTwoSided(x: Exchange, ticker: nat, req: Request)
    requires req.Cancel?
    ensures TwoSided(CancelOutcome(x, ticker, req).responses, CancelOutcome(x, ticker, req).updates)
  {
    var out := CancelOutcome(x, ticker, req);
    QuietResponse(out.responses[0]);
    assert out.responses == [out.responses[0]];
    if out.updates != [] {
      QuietUpdate(out.updates[0]);
      TwoSidedConcat(out.responses, [], [], out.updates);
      assert out.responses + [] == out.responses && [] + out.updates == out.updates;
      assert out.updates == [out.updates[0]];
    }
  }

  /** Over every run: bought equals sold equals the volume of the trade prints. */
  lemma {:induction false} BoughtIsSold(ticker: nat, reqs: seq<Request>)
    requires AdmissibleRun(ticker, reqs)
    ensures var run := Run(ticker, reqs);
            ExecutedOn(run.responses, Buy) == ExecutedOn(run.responses, Sell) == Printed(run.updates)
    decreases |reqs|
  {
    if reqs != [] {
      RunStep(ticker, reqs);
      var before := Run(ticker, reqs[..|reqs| - 1]);
      var out := Process(before.after, ticker, reqs[|reqs| - 1]);
      FeedRebuildsBook(ticker, reqs[..|reqs| - 1]);
      BoughtIsSold(ticker, reqs[..|reqs| - 1]);
      if reqs[|reqs| - 1].New? {
        AddTwoSided(before.after, ticker, reqs[|reqs| - 1]);
      } else {
        CancelTwoSided(before.after, ticker, reqs[|reqs| - 1]);
      }
      TwoSidedConcat(before.responses, out.responses, before.updates, out.updates);
    }
  }
}
