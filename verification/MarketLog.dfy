/** The incremental stream of all tickers: one log of updates, numbered from 1 in the order the
    publisher sends them (exchange/market_data/market_data_publisher.cpp:31-57), and the books that a
    reader of the log holds. */
module MarketLog {
  import opened Types
  import opened PriceTime
  import opened Matching
  import opened Feed
  import opened Runs

  /** One book per ticker. */
  type Books = seq<Book>

  const NO_BOOKS: Books := [EMPTY, EMPTY, EMPTY, EMPTY, EMPTY, EMPTY, EMPTY, EMPTY]

  function ApplyTo(bs: Books, u: Update): (r: Books)
    ensures |r| == |bs|
  {
    if u.ticker < |bs| then bs[u.ticker := Apply(bs[u.ticker], u)] else bs
  }

  function Replay(bs: Books, us: seq<Update>): (r: Books)
    ensures |r| == |bs|
    decreases |us|
  {
    if us == [] then bs else Replay(ApplyTo(bs, us[0]), us[1..])
  }

  lemma {:induction false} ReplayConcat(bs: Books, us: seq<Update>, vs: seq<Update>)
    ensures Replay(bs, us + vs) == Replay(Replay(bs, us), vs)
    decreases |us|
  {
    if us == [] {
      assert us + vs == vs;
    } else {
      assert (us + vs)[1..] == us[1..] + vs;
      ReplayConcat(ApplyTo(bs, us[0]), us[1..], vs);
    }
  }

  lemma ReplaySnoc(bs: Books, us: seq<Update>, u: Update)
    ensures Replay(bs, us + [u]) == ApplyTo(Replay(bs, us), u)
  {
    ReplayConcat(bs, us, [u]);
    assert [u][1..] == [];
  }

  // ---------------------------------------------------------------------- legal logs

  /** An update the books can take; its order id fits the synthesizer's table. */
  ghost predicate LegalIn(bs: Books, u: Update) {
    && u.ticker < |bs| && Legal(bs[u.ticker], u)
    && (u.kind.Add? ==> u.orderId < ME_MAX_ORDER_IDS)
  }

  ghost predicate LegalLog(log: seq<Update>) {
    forall n :: 0 <= n < |log| ==> LegalIn(Replay(NO_BOOKS, log[..n]), log[n])
  }

  ghost predicate IdsFit(s: seq<Order>) {
    forall i :: 0 <= i < |s| ==> s[i].moid < ME_MAX_ORDER_IDS
  }

  /** A well-formed public book whose ids the synthesizer can hold. */
  ghost predicate PublicOK(b: Book) {
    BookOK(b) && Mirrored(b) && IdsFit(b.bids) && IdsFit(b.asks)
  }

  ghost predicate BooksOK(bs: Books) {
    forall t :: 0 <= t < |bs| ==> PublicOK(bs[t])
  }

  lemma SideIdsFit(s: seq<Order>, k: nat, qty: nat)
    requires IdsFit(s) && k < |s|
    ensures IdsFit(RemoveAt(s, k)) && IdsFit(s[k := s[k].(qty := qty)])
  {
  }

  lemma ApplyIdsFit(b: Book, u: Update)
    requires IdsFit(b.bids) && IdsFit(b.asks) && (u.kind.Add? ==> u.orderId < ME_MAX_ORDER_IDS)
    ensures IdsFit(Apply(b, u).bids) && IdsFit(Apply(b, u).asks)
  {
    if u.kind.Add? {
      InsertMembers(u.side, b.On(u.side), OrderOf(u));
    } else if u.kind.Modify? || u.kind.CancelOrder? {
      if IndexOfId(b.bids, u.orderId) >= 0 {
        SideIdsFit(b.bids, IndexOfId(b.bids, u.orderId), u.qty);
      }
      if IndexOfId(b.asks, u.orderId) >= 0 {
        SideIdsFit(b.asks, IndexOfId(b.asks, u.orderId), u.qty);
      }
    }
  }

  lemma LegalKeepsPublic(b: Book, u: Update)
    requires PublicOK(b) && Legal(b, u) && (u.kind.Add? ==> u.orderId < ME_MAX_ORDER_IDS)
    ensures PublicOK(Apply(b, u))
  {
    assert BookOK(Apply(b, u)) && Mirrored(Apply(b, u)) by {
      LegalKeepsBook(b, u);
    }
    ApplyIdsFit(b, u);
  }

  /** After every message of a legal log, all books are well formed. */
  lemma {:induction false} LogBooksOK(log: seq<Update>, n: nat)
    requires LegalLog(log) && n <= |log|
    ensures BooksOK(Replay(NO_BOOKS, log[..n]))
    decreases n
  {
    if n == 0 {
      EmptyOK();
    } else {
      LogBooksOK(log, n - 1);
      assert log[..n] == log[..n - 1] + [log[n - 1]];
      ReplaySnoc(NO_BOOKS, log[..n - 1], log[n - 1]);
      var bs := Replay(NO_BOOKS, log[..n - 1]);
      LegalKeepsPublic(bs[log[n - 1].ticker], log[n - 1]);
    }
  }

  // ---------------------------------------------------------------------- the exchange writes legal logs

  datatype Hub = Hub(exchanges: seq<Exchange>, log: seq<Update>)

  datatype Routed = Routed(ticker: nat, request: Request)

  const OPENING: Hub := Hub([INITIAL, INITIAL, INITIAL, INITIAL, INITIAL, INITIAL, INITIAL, INITIAL], [])

  /** The matching engine routes a request to the book of its ticker; what that publishes goes to the
      end of the log (exchange/matcher/matching_engine.h:33-52). */
  function Route(h: Hub, r: Routed): Hub
    requires r.ticker < |h.exchanges|
  {
    var out := Process(h.exchanges[r.ticker], r.ticker, r.request);
    Hub(h.exchanges[r.ticker := out.after], h.log + out.updates)
  }

  ghost predicate Routable(h: Hub, r: Routed) {
    && r.ticker < |h.exchanges| && Admissible(h.exchanges[r.ticker], r.request)
    && (r.request.New? ==> h.exchanges[r.ticker].nextId < ME_MAX_ORDER_IDS)
  }

  ghost predicate RoutableAll(h: Hub, rs: seq<Routed>)
    decreases |rs|
  {
    rs == [] || (Routable(h, rs[0]) && RoutableAll(Route(h, rs[0]), rs[1..]))
  }

  ghost function RouteAll(h: Hub, rs: seq<Routed>): Hub
    requires RoutableAll(h, rs)
    decreases |rs|
  {
    if rs == [] then h else RouteAll(Route(h, rs[0]), rs[1..])
  }

  /** The log is legal and, replayed, gives the public view of every book of the exchange. */
  ghost predicate Told(h: Hub) {
    && LegalLog(h.log) && |h.exchanges| == ME_MAX_TICKERS
    && (forall t :: 0 <= t < ME_MAX_TICKERS ==>
          ExchangeOK(h.exchanges[t]) && Replay(NO_BOOKS, h.log)[t] == PublicBook(h.exchanges[t].book))
  }

  lemma LegalAppend(log: seq<Update>, u: Update)
    requires LegalLog(log) && LegalIn(Replay(NO_BOOKS, log), u)
    ensures LegalLog(log + [u])
  {
    var l := log + [u];
    assert l[..|log|] == log && l[|log|] == u;
    forall n | 0 <= n < |l|
      ensures LegalIn(Replay(NO_BOOKS, l[..n]), l[n])
    {
      if n < |log| {
        assert l[..n] == log[..n] && l[n] == log[n];
      }
    }
  }

  /** Updates that are legal for one book, all naming its ticker, may follow a legal log. */
  lemma {:induction false} AppendTicker(log: seq<Update>, us: seq<Update>, t: nat)
    requires LegalLog(log) && t < ME_MAX_TICKERS
    requires LegalAll(Replay(NO_BOOKS, log)[t], us)
    requires forall i :: 0 <= i < |us| ==> us[i].ticker == t && (us[i].kind.Add? ==> us[i].orderId < ME_MAX_ORDER_IDS)
    ensures LegalLog(log + us)
    ensures Replay(NO_BOOKS, log + us) == Replay(NO_BOOKS, log)[t := ApplyAll(Replay(NO_BOOKS, log)[t], us)]
    decreases |us|
  {
    if us == [] {
      assert log + us == log;
    } else {
      LegalAppend(log, us[0]);
      assert log + us == (log + [us[0]]) + us[1..];
      ReplaySnoc(NO_BOOKS, log, us[0]);
      AppendTicker(log + [us[0]], us[1..], t);
    }
  }

  /** The updates name one ticker, and in an ADD no id but this one. */
  ghost predicate NamesOnly(us: seq<Update>, ticker: nat, id: nat) {
    forall i :: 0 <= i < |us| ==> us[i].ticker == ticker && (us[i].kind.Add? ==> us[i].orderId == id)
  }

  lemma NamesOnlyConcat(us: seq<Update>, vs: seq<Update>, ticker: nat, id: nat)
    requires NamesOnly(us, ticker, id) && NamesOnly(vs, ticker, id)
    ensures NamesOnly(us + vs, ticker, id)
  {
  }

  lemma {:induction false} SweepNames(ticker: nat, agg: Aggressor, opp: seq<Order>, qty: nat, id: nat)
    ensures NamesOnly(Sweep(ticker, agg, opp, qty).updates, ticker, id)
    decreases |opp|
  {
    if qty == 0 || opp == [] || !Crosses(agg.side, agg.price, opp[0].price) {
    } else if opp[0].qty <= qty {
      SweepGoesOn(ticker, agg, opp, qty);
      SweepNames(ticker, agg, opp[1..], qty - opp[0].qty, id);
      NamesOnlyConcat(FillUpdates(ticker, agg, opp[0], opp[0].qty), Sweep(ticker, agg, opp[1..], qty - opp[0].qty).updates, ticker, id);
    }
  }

  lemma ProcessNames(x: Exchange, ticker: nat, req: Request)
    ensures NamesOnly(Process(x, ticker, req).updates, ticker, x.nextId)
  {
    if req.New? {
      var r, o := SweepOf(x, ticker, req), Residual(x, ticker, req);
      SweepNames(ticker, AggressorOf(x, req), x.book.On(Opposite(req.side)), req.qty, x.nextId);
      AddOutcomeIs(x, ticker, req);
      NamesOnlyConcat(r.updates, [Update(Add, x.nextId, ticker, req.side, req.price, r.leaves, o.priority)], ticker, x.nextId);
    }
  }

  lemma CancelAddsNothing(x: Exchange, ticker: nat, req: Request)
    requires req.Cancel?
    ensures forall i :: 0 <= i < |Process(x, ticker, req).updates| ==> !Process(x, ticker, req).updates[i].kind.Add?
  {
  }

  lemma RouteTold(h: Hub, r: Routed)
    requires Told(h) && Routable(h, r)
    ensures Told(Route(h, r))
  {
    var x := h.exchanges[r.ticker];
    var us := Process(x, r.ticker, r.request).updates;
    ProcessPublishes(x, r.ticker, r.request);
    ProcessNames(x, r.ticker, r.request);
    if r.request.Cancel? {
      CancelAddsNothing(x, r.ticker, r.request);
    }
    AppendTicker(h.log, us, r.ticker);
  }

  /** Whatever requests are routed to the books of the exchange, in any interleaving, the log they
      write is legal and rebuilds every book. */
  lemma {:induction false} LogRebuildsBooks(h: Hub, rs: seq<Routed>)
    requires Told(h) && RoutableAll(h, rs)
    ensures Told(RouteAll(h, rs))
    decreases |rs|
  {
    if rs != [] {
      RouteTold(h, rs[0]);
      LogRebuildsBooks(Route(h, rs[0]), rs[1..]);
    }
  }

  lemma OpeningTold()
    ensures Told(OPENING)
  {
    assert PublicBook(EMPTY) == EMPTY;
    EmptyOK();
  }
}
