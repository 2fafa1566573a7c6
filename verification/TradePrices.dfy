/** At what price a trade happens, whom it names and what it moves (exchange/matcher/me_order_book.cpp:29-72):
    every fill is at the price of the order first in line on the other side, which the public feed shows just
    before, both parties and the print agree on it, and what buyers pay is what sellers receive. */
module TradePrices {
  import opened Types
  import opened PriceTime
  import opened Matching
  import opened Feed
  import opened Runs

  // ---------------------------------------------------------------------- the fills of one request

  /** The i-th fill of a new order trades with the i-th order that rested on the other side: the taker, the
      maker and the print agree on one price, the maker's, and one quantity; the price is no worse than the
      taker's limit; and the maker is the first in line on the book that the feed shows at that moment. */
  ghost predicate TradesWith(x: Exchange, ticker: nat, req: Request, out: Outcome, i: nat)
    requires req.New?
  {
    var s := x.book.On(Opposite(req.side));
    && i < |s| && 2 * i + 2 < |out.responses| && 2 * i + 1 < |out.updates|
    && var o, taker, maker, trade := s[i], out.responses[2 * i + 1], out.responses[2 * i + 2], out.updates[2 * i];
    && taker.kind.Filled? && maker.kind.Filled? && trade.kind.Trade? && trade.ticker == ticker
    && taker.price == maker.price == trade.price == o.price
    && 0 < trade.qty <= o.qty && taker.execQty == maker.execQty == trade.qty
    && (if req.side.Buy? then o.price <= req.price else o.price >= req.price)
    && taker.client == req.client && taker.coid == req.coid && taker.side == trade.side == req.side
    && maker.client == o.client && maker.coid == o.coid && maker.moid == o.moid && maker.side == Opposite(req.side)
    && maker.leavesQty == o.qty - trade.qty && taker.leavesQty == req.qty - SumQty(s[..i]) - trade.qty
    && FirstInLine(x, Opposite(req.side), out.updates[..2 * i], i)
  }

  /** Once these updates are out, the feed shows the i-th order and those behind it, and none before. */
  ghost predicate FirstInLine(x: Exchange, side: Side, us: seq<Update>, i: nat)
    requires i <= |x.book.On(side)|
  {
    Shown(x, us).On(side) == PublicSide(x.book.On(side)[i..])
  }

  /** What the feed shows once some updates of a request are out. */
  function Shown(x: Exchange, us: seq<Update>): Book {
    ApplyAll(PublicBook(x.book), us)
  }

  lemma FirstFill(b: Book, ticker: nat, agg: Aggressor, first: seq<Update>, b': Book)
    requires BookOK(b) && !agg.side.NoSide? && b.On(Opposite(agg.side)) != []
    requires var s := b.On(Opposite(agg.side));
             first == FillUpdates(ticker, agg, s[0], s[0].qty) && b' == b.With(Opposite(agg.side), s[1..])
    ensures BookOK(b') && ApplyAll(PublicBook(b), first) == PublicBook(b')
  {
    FillPublished(b, ticker, agg, b.On(Opposite(agg.side))[0].qty);
  }

  lemma ShownNext(b: Book, b': Book, first: seq<Update>, next: seq<Update>, us: seq<Update>, i: nat)
    requires ApplyAll(PublicBook(b), first) == PublicBook(b') && us == first + next && |first| == 2 && 1 <= i && 2 * i <= |us|
    ensures ApplyAll(PublicBook(b), us[..2 * i]) == ApplyAll(PublicBook(b'), next[..2 * (i - 1)])
  {
    assert us[..2 * i] == first + next[..2 * (i - 1)];
    ApplyAllConcat(PublicBook(b), first, next[..2 * (i - 1)]);
  }

  /** A sweep with more than one fill takes all of its first order. */
  lemma TakesFirst(ticker: nat, agg: Aggressor, s: seq<Order>, qty: nat, us: seq<Update>)
    requires us == Sweep(ticker, agg, s, qty).updates && |us| > 2
    ensures s != [] && s[0].qty <= qty
    ensures us == FillUpdates(ticker, agg, s[0], s[0].qty) + Sweep(ticker, agg, s[1..], qty - s[0].qty).updates
  {
    SweepGoesOn(ticker, agg, s, qty);
  }

  /** When the i-th fill comes, the orders before the i-th have left the book. */
  lemma {:induction false} ShownBeforeFill(b: Book, ticker: nat, agg: Aggressor, s: seq<Order>, qty: nat, us: seq<Update>, i: nat)
    requires BookOK(b) && !agg.side.NoSide? && s == b.On(Opposite(agg.side))
    requires us == Sweep(ticker, agg, s, qty).updates && i < |s| && 2 * i < |us|
    ensures ApplyAll(PublicBook(b), us[..2 * i]).On(Opposite(agg.side)) == PublicSide(s[i..])
    decreases i
  {
    if i == 0 {
      assert us[..0] == [] && s[0..] == s;
    } else {
      TakesFirst(ticker, agg, s, qty, us);
      var b' := b.With(Opposite(agg.side), s[1..]);
      var first, next := FillUpdates(ticker, agg, s[0], s[0].qty), Sweep(ticker, agg, s[1..], qty - s[0].qty).updates;
      FirstFill(b, ticker, agg, first, b');
      ShownBeforeFill(b', ticker, agg, s[1..], qty - s[0].qty, next, i - 1);
      ShownNext(b, b', first, next, us, i);
      assert s[1..][i - 1..] == s[i..];
    }
  }

  /** Where the messages of the i-th fill are among those of the request. */
  lemma MessagesOf(x: Exchange, ticker: nat, req: Request, out: Outcome, r: SweepResult, i: nat)
    requires req.New? && out == AddOutcome(x, ticker, req) && r == SweepOf(x, ticker, req)
    requires 2 * i + 2 <= |r.responses| && 2 * i + 2 <= |r.updates|
    ensures 2 * i + 2 < |out.responses| && 2 * i + 1 < |out.updates| && out.updates[..2 * i] == r.updates[..2 * i]
    ensures out.responses[2 * i + 1] == r.responses[2 * i] && out.responses[2 * i + 2] == r.responses[2 * i + 1]
    ensures out.updates[2 * i] == r.updates[2 * i] && out.updates[2 * i + 1] == r.updates[2 * i + 1]
  {
    AddOutcomeIs(x, ticker, req);
  }

  lemma SweepTrades(x: Exchange, ticker: nat, req: Request, out: Outcome, n: nat, i: nat)
    requires ExchangeOK(x) && Admissible(x, req) && req.New? && out == AddOutcome(x, ticker, req)
    requires IsPriceTimeSweep(ticker, AggressorOf(x, req), x.book.On(Opposite(req.side)), req.qty, n, SweepOf(x, ticker, req))
    requires i < n
    ensures TradesWith(x, ticker, req, out, i)
  {
    var agg, s, r := AggressorOf(x, req), x.book.On(Opposite(req.side)), SweepOf(x, ticker, req);
    assert FillIs(ticker, agg, s, req.qty, i, r);
    assert SumQty(s[..i]) < req.qty && s[i].side == Opposite(req.side) && s[i].qty > 0;
    MessagesOf(x, ticker, req, out, r, i);
    assert FirstInLine(x, Opposite(req.side), out.updates[..2 * i], i) by {
      ShownBeforeFill(x.book, ticker, agg, s, req.qty, r.updates, i);
    }
  }

  /** A new order is accepted, then trades n times, and then may rest; nothing else is said. */
  ghost predicate TradesAll(x: Exchange, ticker: nat, req: Request, out: Outcome, n: nat)
    requires req.New?
  {
    && |out.responses| == 2 * n + 1 && 2 * n <= |out.updates| <= 2 * n + 1 && out.after.nextId == x.nextId + 1
    && out.responses[0] == Response(Accepted, req.client, req.coid, x.nextId, req.side, req.price, 0, req.qty)
    && (|out.updates| > 2 * n ==> out.updates[2 * n].kind.Add?)
    && forall i :: 0 <= i < n ==> TradesWith(x, ticker, req, out, i) && !out.updates[2 * i + 1].kind.Trade?
  }

  lemma RequestTrades(x: Exchange, ticker: nat, req: Request) returns (n: nat)
    requires ExchangeOK(x) && Admissible(x, req) && req.New?
    ensures TradesAll(x, ticker, req, Process(x, ticker, req), n)
  {
    var agg, s, r := AggressorOf(x, req), x.book.On(Opposite(req.side)), SweepOf(x, ticker, req);
    n := SweepIsPriceTime(ticker, agg, s, req.qty);
    var out := AddOutcome(x, ticker, req);
    AddOutcomeIs(x, ticker, req);
    forall i | 0 <= i < n
      ensures TradesWith(x, ticker, req, out, i) && !out.updates[2 * i + 1].kind.Trade?
    {
      SweepTrades(x, ticker, req, out, n, i);
      assert FillIs(ticker, agg, s, req.qty, i, r);
    }
  }

  lemma {:induction false} PrefixAdmissible(ticker: nat, reqs: seq<Request>, k: nat)
    requires AdmissibleRun(ticker, reqs) && k < |reqs|
    ensures AdmissibleRun(ticker, reqs[..k]) && Admissible(Run(ticker, reqs[..k]).after, reqs[k])
    decreases |reqs|
  {
    if k < |reqs| - 1 {
      PrefixAdmissible(ticker, reqs[..|reqs| - 1], k);
      assert reqs[..|reqs| - 1][..k] == reqs[..k];
    }
  }

  /** Over every run: every new order trades at the prices of the orders in line before it, in their order,
      with every message of every fill in agreement. */
  lemma RunTrades(ticker: nat, reqs: seq<Request>, k: nat) returns (n: nat)
    requires AdmissibleRun(ticker, reqs) && k < |reqs| && reqs[k].New?
    ensures var x := Run(ticker, reqs[..k]).after; TradesAll(x, ticker, reqs[k], Process(x, ticker, reqs[k]), n)
  {
    PrefixAdmissible(ticker, reqs, k);
    FeedRebuildsBook(ticker, reqs[..k]);
    n := RequestTrades(Run(ticker, reqs[..k]).after, ticker, reqs[k]);
  }

  // ---------------------------------------------------------------------- cancels

  /** The order is the client's own under that id, on either side. */
  predicate IsOwn(b: Book, o: Order, client: nat, coid: nat) {
    (o in b.bids || o in b.asks) && o.client == client && o.coid == coid
  }

  /** The book without one order, everything else in its place. */
  ghost predicate Without(b: Book, o: Order, after: Book) {
    if o.side.Buy? then after.asks == b.asks && exists k :: 0 <= k < |b.bids| && b.bids[k] == o && after.bids == RemoveAt(b.bids, k)
    else after.bids == b.bids && exists k :: 0 <= k < |b.asks| && b.asks[k] == o && after.asks == RemoveAt(b.asks, k)
  }

  lemma OwnIsFound(b: Book, o: Order, client: nat, coid: nat)
    requires BookOK(b) && IsOwn(b, o, client, coid)
    ensures var (side, k) := Find(b, client, coid); !side.NoSide? && b.On(side)[k] == o && o.side == side
  {
    var (side, k) := Find(b, client, coid);
    var q := b.On(side)[k];
    assert q == o || !Clash(q, o) || !Clash(o, q);
  }

  /** A cancel of an order that rests removes just that one, and says which, at what price and how much of it was
      left; a cancel of anything else is rejected and changes nothing. */
  lemma CancelAnswers(x: Exchange, ticker: nat, req: Request, o: Order)
    requires ExchangeOK(x) && req.Cancel? && req.client < ME_MAX_NUM_CLIENTS && IsOwn(x.book, o, req.client, req.coid)
    ensures var out := Process(x, ticker, req);
            && out.responses == [Response(Canceled, o.client, o.coid, o.moid, o.side, o.price, QTY_INVALID, o.qty)]
            && out.updates == [Update(CancelOrder, o.moid, ticker, o.side, o.price, 0, o.priority)]
            && Without(x.book, o, out.after.book) && out.after.nextId == x.nextId
  {
    OwnIsFound(x.book, o, req.client, req.coid);
  }

  lemma CancelRejects(x: Exchange, ticker: nat, req: Request)
    requires req.Cancel?
    requires req.client >= ME_MAX_NUM_CLIENTS || forall o :: o in x.book.bids || o in x.book.asks ==> !(o.client == req.client && o.coid == req.coid)
    ensures Process(x, ticker, req) ==
            Outcome(x, [Response(CancelRejected, req.client, req.coid, ORDER_ID_INVALID, NoSide, PRICE_INVALID, QTY_INVALID, QTY_INVALID)], [])
  {
    var (side, k) := Find(x.book, req.client, req.coid);
    assert !side.NoSide? ==> x.book.On(side)[k] in x.book.On(side);
  }

  // ---------------------------------------------------------------------- what the tape says

  /** The print at n is at the best opposite price of the book the feed shows just before it, for no more than
      the order first in line there, and the next update takes exactly that much from that order. */
  ghost predicate AtTheTouch(b: Book, us: seq<Update>, n: nat)
    requires n < |us|
  {
    var u, s := us[n], b.On(Opposite(us[n].side));
    && !u.side.NoSide? && s != [] && u.price == s[0].price && 0 < u.qty <= s[0].qty
    && n + 1 < |us| && us[n + 1].orderId == s[0].moid
    && (if u.qty == s[0].qty then us[n + 1].kind.CancelOrder? else us[n + 1].kind.Modify? && us[n + 1].qty == s[0].qty - u.qty)
  }

  lemma RequestPrints(x: Exchange, ticker: nat, req: Request, us: seq<Update>, n: nat)
    requires ExchangeOK(x) && Admissible(x, req) && us == Process(x, ticker, req).updates && n < |us| && us[n].kind.Trade?
    ensures AtTheTouch(Shown(x, us[..n]), us, n)
  {
    var out := Process(x, ticker, req);
    assert req.New?;
    var m := RequestTrades(x, ticker, req);
    var i := n / 2;
    assert n == 2 * i || n == 2 * i + 1;
    assert i < m && TradesWith(x, ticker, req, out, i);
    assert n == 2 * i;
    var s := x.book.On(Opposite(req.side));
    assert PublicSide(s[i..])[0] == Public(s[i]);
    AfterPrint(x, ticker, req, out, i);
  }

  /** The update after the print. */
  lemma AfterPrint(x: Exchange, ticker: nat, req: Request, out: Outcome, i: nat)
    requires ExchangeOK(x) && Admissible(x, req) && req.New? && out == AddOutcome(x, ticker, req)
    requires TradesWith(x, ticker, req, out, i)
    ensures var o, u := x.book.On(Opposite(req.side))[i], out.updates[2 * i + 1];
            && u.orderId == o.moid
            && (if out.updates[2 * i].qty == o.qty then u.kind.CancelOrder?
                else u.kind.Modify? && u.qty == o.qty - out.updates[2 * i].qty)
  {
    var agg, s, r := AggressorOf(x, req), x.book.On(Opposite(req.side)), SweepOf(x, ticker, req);
    var n := SweepIsPriceTime(ticker, agg, s, req.qty);
    AddOutcomeIs(x, ticker, req);
    assert FillIs(ticker, agg, s, req.qty, i, r);
  }

  lemma {:induction false} LaterPrints(b: Book, before: seq<Update>, mid: Book, vs: seq<Update>, m: nat, us: seq<Update>, n: nat)
    requires mid == ApplyAll(b, before) && m < |vs| && AtTheTouch(ApplyAll(mid, vs[..m]), vs, m)
    requires us == before + vs && n == |before| + m
    ensures AtTheTouch(ApplyAll(b, us[..n]), us, n)
  {
    assert us[..n] == before + vs[..m];
    ApplyAllConcat(b, before, vs[..m]);
  }

  lemma {:induction false} EarlierPrints(b: Book, before: seq<Update>, vs: seq<Update>, us: seq<Update>, n: nat)
    requires n < |before| && AtTheTouch(ApplyAll(b, before[..n]), before, n) && us == before + vs
    ensures AtTheTouch(ApplyAll(b, us[..n]), us, n)
  {
    assert us[..n] == before[..n];
  }

  lemma {:induction false} NewPrints(b: Book, x: Exchange, before: seq<Update>, ticker: nat, req: Request, vs: seq<Update>, us: seq<Update>, n: nat)
    requires ExchangeOK(x) && Admissible(x, req) && vs == Process(x, ticker, req).updates && us == before + vs
    requires ApplyAll(b, before) == PublicBook(x.book) && |before| <= n < |us| && us[n].kind.Trade?
    ensures AtTheTouch(ApplyAll(b, us[..n]), us, n)
  {
    RequestPrints(x, ticker, req, vs, n - |before|);
    LaterPrints(b, before, PublicBook(x.book), vs, n - |before|, us, n);
  }

  /** Every print of every run is at the touch. */
  lemma {:induction false} PrintsAtTheTouch(ticker: nat, reqs: seq<Request>, us: seq<Update>, n: nat)
    requires AdmissibleRun(ticker, reqs) && us == Run(ticker, reqs).updates && n < |us| && us[n].kind.Trade?
    ensures AtTheTouch(ApplyAll(EMPTY, us[..n]), us, n)
    decreases |reqs|
  {
    var front, req := reqs[..|reqs| - 1], reqs[|reqs| - 1];
    var before := Run(ticker, front);
    var vs := Process(before.after, ticker, req).updates;
    assert us == before.updates + vs by {
      RunStep(ticker, reqs);
    }
    if n < |before.updates| {
      PrintsAtTheTouch(ticker, front, before.updates, n);
      EarlierPrints(EMPTY, before.updates, vs, us, n);
    } else {
      assert ExchangeOK(before.after) && ApplyAll(EMPTY, before.updates) == PublicBook(before.after.book) by {
        FeedRebuildsBook(ticker, front);
      }
      NewPrints(EMPTY, before.after, before.updates, ticker, req, vs, us, n);
    }
  }

  // ---------------------------------------------------------------------- cash

  /** What the fills told to one side add up to. */
  function CashOn(rs: seq<Response>, side: Side): int {
    if rs == [] then 0
    else (if rs[0].kind.Filled? && rs[0].side == side then rs[0].price * rs[0].execQty else 0) + CashOn(rs[1..], side)
  }

  function CashPrinted(us: seq<Update>): int {
    if us == [] then 0 else (if us[0].kind.Trade? then us[0].price * us[0].qty else 0) + CashPrinted(us[1..])
  }

  lemma {:induction false} CashConcat(rs: seq<Response>, ts: seq<Response>, side: Side)
    ensures CashOn(rs + ts, side) == CashOn(rs, side) + CashOn(ts, side)
    decreases |rs|
  {
    if rs == [] {
      assert rs + ts == ts;
    } else {
      assert (rs + ts)[1..] == rs[1..] + ts;
      CashConcat(rs[1..], ts, side);
    }
  }

  lemma {:induction false} CashPrintedConcat(us: seq<Update>, vs: seq<Update>)
    ensures CashPrinted(us + vs) == CashPrinted(us) + CashPrinted(vs)
    decreases |us|
  {
    if us == [] {
      assert us + vs == vs;
    } else {
      assert (us + vs)[1..] == us[1..] + vs;
      CashPrintedConcat(us[1..], vs);
    }
  }

  ghost predicate Settled(rs: seq<Response>, us: seq<Update>) {
    CashOn(rs, Buy) == CashOn(rs, Sell) == CashPrinted(us)
  }

  lemma SettledConcat(rs: seq<Response>, ts: seq<Response>, us: seq<Update>, vs: seq<Update>)
    requires Settled(rs, us) && Settled(ts, vs)
    ensures Settled(rs + ts, us + vs)
  {
    CashConcat(rs, ts, Buy);
    CashConcat(rs, ts, Sell);
    CashPrintedConcat(us, vs);
  }

  lemma OneCash(r: Response, side: Side)
    ensures CashOn([r], side) == if r.kind.Filled? && r.side == side then r.price * r.execQty else 0
  {
    assert [r][1..] == [];
  }

  lemma OnePrinted(u: Update)
    ensures CashPrinted([u]) == if u.kind.Trade? then u.price * u.qty else 0
  {
    assert [u][1..] == [];
  }

  /** One trade settles: two fills and a print that agree, and an update that is no print. */
  lemma TradeSettles(taker: Response, maker: Response, trade: Update, rest: Update)
    requires taker.kind.Filled? && maker.kind.Filled? && trade.kind.Trade? && !rest.kind.Trade?
    requires taker.price == maker.price == trade.price && taker.execQty == maker.execQty == trade.qty
    requires !taker.side.NoSide? && maker.side == Opposite(taker.side)
    ensures Settled([taker, maker], [trade, rest])
  {
    assert [taker, maker] == [taker] + [maker] && [trade, rest] == [trade] + [rest];
    CashConcat([taker], [maker], Buy);
    CashConcat([taker], [maker], Sell);
    CashPrintedConcat([trade], [rest]);
    OneCash(taker, Buy);
    OneCash(taker, Sell);
    OneCash(maker, Buy);
    OneCash(maker, Sell);
    OnePrinted(trade);
    OnePrinted(rest);
  }

  /** The i-th pair of fills and what is published with it. */
  ghost predicate PairSettled(rs: seq<Response>, us: seq<Update>, i: nat) {
    2 * i + 3 <= |rs| && 2 * i + 2 <= |us| && Settled(rs[2 * i + 1..2 * i + 3], us[2 * i..2 * i + 2])
  }

  lemma FillSettles(x: Exchange, ticker: nat, req: Request, out: Outcome, i: nat)
    requires req.New? && !req.side.NoSide? && TradesWith(x, ticker, req, out, i) && !out.updates[2 * i + 1].kind.Trade?
    ensures PairSettled(out.responses, out.updates, i)
  {
    var rs, us := out.responses, out.updates;
    TradeSettles(rs[2 * i + 1], rs[2 * i + 2], us[2 * i], us[2 * i + 1]);
    assert rs[2 * i + 1..2 * i + 3] == [rs[2 * i + 1], rs[2 * i + 2]] && us[2 * i..2 * i + 2] == [us[2 * i], us[2 * i + 1]];
  }

  lemma TwoMore(rs: seq<Response>, us: seq<Update>, i: nat)
    requires PairSettled(rs, us, i) && Settled(rs[..2 * i + 1], us[..2 * i])
    ensures Settled(rs[..2 * i + 3], us[..2 * i + 2])
  {
    SettledConcat(rs[..2 * i + 1], rs[2 * i + 1..2 * i + 3], us[..2 * i], us[2 * i..2 * i + 2]);
    assert rs[..2 * i + 3] == rs[..2 * i + 1] + rs[2 * i + 1..2 * i + 3] && us[..2 * i + 2] == us[..2 * i] + us[2 * i..2 * i + 2];
  }

  /** An acceptance and the trades after it settle. */
  lemma {:induction false} TradesSettle(rs: seq<Response>, us: seq<Update>, n: nat)
    requires 2 * n + 1 <= |rs| && 2 * n <= |us| && !rs[0].kind.Filled?
    requires forall i :: 0 <= i < n ==> PairSettled(rs, us, i)
    ensures Settled(rs[..2 * n + 1], us[..2 * n])
    decreases n
  {
    if n == 0 {
      assert rs[..1] == [rs[0]] && us[..0] == [];
      OneCash(rs[0], Buy);
      OneCash(rs[0], Sell);
    } else {
      TradesSettle(rs, us, n - 1);
      TwoMore(rs, us, n - 1);
    }
  }

  lemma NewSettles(x: Exchange, ticker: nat, req: Request)
    requires ExchangeOK(x) && Admissible(x, req) && req.New?
    ensures Settled(Process(x, ticker, req).responses, Process(x, ticker, req).updates)
  {
    var out := Process(x, ticker, req);
    var n := RequestTrades(x, ticker, req);
    forall i | 0 <= i < n
      ensures PairSettled(out.responses, out.updates, i)
    {
      FillSettles(x, ticker, req, out, i);
    }
    TradesSettle(out.responses, out.updates, n);
    assert out.responses[..2 * n + 1] == out.responses;
    if |out.updates| > 2 * n {
      OnePrinted(out.updates[2 * n]);
      CashPrintedConcat(out.updates[..2 * n], [out.updates[2 * n]]);
      assert out.updates == out.updates[..2 * n] + [out.updates[2 * n]];
    } else {
      assert out.updates[..2 * n] == out.updates;
    }
  }

  lemma CancelSettles(x: Exchange, ticker: nat, req: Request)
    requires req.Cancel?
    ensures Settled(Process(x, ticker, req).responses, Process(x, ticker, req).updates)
  {
    var out := Process(x, ticker, req);
    assert out.responses == [out.responses[0]];
    OneCash(out.responses[0], Buy);
    OneCash(out.responses[0], Sell);
    if out.updates != [] {
      assert out.updates == [out.updates[0]];
      OnePrinted(out.updates[0]);
    }
  }

  /** Over every run: what buyers are told they paid is what sellers are told they received, and both are what
      the tape prints. */
  lemma {:induction false} PaidIsReceived(ticker: nat, reqs: seq<Request>)
    requires AdmissibleRun(ticker, reqs)
    ensures var run := Run(ticker, reqs);
            CashOn(run.responses, Buy) == CashOn(run.responses, Sell) == CashPrinted(run.updates)
    decreases |reqs|
  {
    if reqs != [] {
      var front, req := reqs[..|reqs| - 1], reqs[|reqs| - 1];
      var before := Run(ticker, front);
      var out := Process(before.after, ticker, req);
      RunStep(ticker, reqs);
      FeedRebuildsBook(ticker, front);
      PaidIsReceived(ticker, front);
      if req.New? {
        NewSettles(before.after, ticker, req);
      } else {
        CancelSettles(before.after, ticker, req);
      }
      SettledConcat(before.responses, out.responses, before.updates, out.updates);
    }
  }
}
