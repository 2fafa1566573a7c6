/** What a snapshot of the books says, and that replaying it restores them with every queue in its
    order (exchange/market_data/snapshot_synthesizer.cpp:83-134). */
module Snapshot {
  import opened Types
  import opened PriceTime
  import opened Matching
  import opened Feed
  import opened MarketLog

  // ---------------------------------------------------------------------- the orders of a book by id

  function Entry(s: seq<Order>, id: nat): Option<Order> {
    var k := IndexOfId(s, id);
    if k < 0 then None else Some(s[k])
  }

  /** The order a book holds under an id. */
  function Held(b: Book, id: nat): Option<Order> {
    var e := Entry(b.bids, id);
    if e.Some? then e else Entry(b.asks, id)
  }

  /** The ADD that announces an order. */
  function Record(ticker: nat, o: Order): Update {
    Update(Add, o.moid, ticker, o.side, o.price, o.qty, o.priority)
  }

  /** The orders with ids below n, announced in the order of their ids. */
  function Listing(ticker: nat, b: Book, n: nat): seq<Update> {
    if n == 0 then [] else
    Listing(ticker, b, n - 1) + match Held(b, n - 1) case None => [] case Some(o) => [Record(ticker, o)]
  }

  /** ADDs for one ticker with ascending ids below n. */
  ghost predicate Ascends(us: seq<Update>, ticker: nat, n: nat) {
    && (forall i :: 0 <= i < |us| ==> us[i].kind.Add? && us[i].ticker == ticker && us[i].orderId < n)
    && forall i, j :: 0 <= i < j < |us| ==> us[i].orderId < us[j].orderId
  }

  /** A listing goes by ids, whatever the prices. */
  lemma {:induction false} ListingAscends(ticker: nat, b: Book, n: nat)
    ensures Ascends(Listing(ticker, b, n), ticker, n)
    decreases n
  {
    if n > 0 {
      ListingAscends(ticker, b, n - 1);
      var before := Listing(ticker, b, n - 1);
      match Held(b, n - 1)
      case None => assert Listing(ticker, b, n) == before;
      case Some(o) => assert Listing(ticker, b, n) == before + [Record(ticker, o)];
    }
  }

  /** The orders of a side with ids below n, in their places. */
  function Until(s: seq<Order>, n: nat): seq<Order> {
    if s == [] then []
    else if s[0].moid < n then [s[0]] + Until(s[1..], n)
    else Until(s[1..], n)
  }

  // ---------------------------------------------------------------------- one more id

  /** Nothing is added by an id that no order has. */
  lemma {:induction false} UntilSkips(s: seq<Order>, n: nat)
    requires forall i :: 0 <= i < |s| ==> s[i].moid != n
    ensures Until(s, n + 1) == Until(s, n)
    decreases |s|
  {
    if s != [] {
      UntilSkips(s[1..], n);
    }
  }

  /** Until keeps only orders of s, with ids below n. */
  lemma {:induction false} UntilMembers(s: seq<Order>, n: nat, m: nat) returns (i: nat)
    requires m < |Until(s, n)|
    ensures i < |s| && s[i] == Until(s, n)[m] && s[i].moid < n
    decreases |s|
  {
    if s[0].moid < n && m == 0 {
      i := 0;
    } else {
      i := UntilMembers(s[1..], n, if s[0].moid < n then m - 1 else m);
      i := i + 1;
    }
  }

  lemma {:induction false} UntilAll(s: seq<Order>, n: nat)
    requires forall i :: 0 <= i < |s| ==> s[i].moid < n
    ensures Until(s, n) == s
    decreases |s|
  {
    if s != [] {
      UntilAll(s[1..], n);
    }
  }

  lemma {:induction false} UntilNone(s: seq<Order>)
    ensures Until(s, 0) == []
    decreases |s|
  {
    if s != [] {
      UntilNone(s[1..]);
    }
  }

  /** An order no worse placed than the newcomer stays in front of it. */
  lemma InsertBehindHead(side: Side, h: Order, t: seq<Order>, o: Order)
    requires !Better(side, o.price, h.price)
    ensures Insert(side, [h] + t, o) == [h] + Insert(side, t, o)
  {
    assert ([h] + t)[1..] == t;
  }

  lemma InsertInFront(side: Side, t: seq<Order>, o: Order)
    requires t != [] ==> Better(side, o.price, t[0].price)
    ensures Insert(side, t, o) == [o] + t
  {
  }

  /** The order with id n joins the older ones exactly where it stands in the full side: ids follow
      arrival within a price. */
  lemma {:induction false} NextJoins(side: Side, s: seq<Order>, k: nat)
    requires SideOK(side, s) && k < |s|
    ensures Until(s, s[k].moid + 1) == Insert(side, Until(s, s[k].moid), s[k])
    decreases |s|
  {
    var o := s[k];
    TailOK(side, s);
    if k == 0 {
      NoneBehind(side, s);
      InsertInFront(side, Until(s[1..], o.moid), o);
    } else {
      assert Before(side, s[0], o) && !Clash(s[0], o);
      NextJoins(side, s[1..], k - 1);
      if s[0].moid < o.moid {
        InsertBehindHead(side, s[0], Until(s[1..], o.moid), o);
      }
    }
  }

  /** Behind the first order, those with smaller ids have worse prices. */
  lemma NoneBehind(side: Side, s: seq<Order>)
    requires SideOK(side, s) && s != []
    ensures var t := Until(s[1..], s[0].moid);
            Until(s[1..], s[0].moid + 1) == t && (t != [] ==> Better(side, s[0].price, t[0].price))
  {
    forall i | 0 <= i < |s[1..]|
      ensures s[1..][i].moid != s[0].moid
    {
      assert !Clash(s[0], s[i + 1]);
    }
    UntilSkips(s[1..], s[0].moid);
    if Until(s[1..], s[0].moid) != [] {
      var i := UntilMembers(s[1..], s[0].moid, 0);
      assert Before(side, s[0], s[i + 1]);
    }
  }

  // ---------------------------------------------------------------------- a whole book

  function UntilBook(b: Book, n: nat): Book {
    Book(Until(b.bids, n), Until(b.asks, n))
  }

  lemma ListingStep(ticker: nat, b: Book, n: nat)
    requires BookOK(b) && Mirrored(b) && Held(b, n).Some?
    ensures Apply(UntilBook(b, n), Record(ticker, Held(b, n).value)) == UntilBook(b, n + 1)
  {
    var side := if IndexOfId(b.bids, n) >= 0 then Buy else Sell;
    var k := IndexOfId(b.On(side), n);
    OnlyOnItsSide(b, side, k);
    NextJoins(side, b.On(side), k);
    UntilSkips(b.On(Opposite(side)), n);
    assert b.On(side)[k] == Public(b.On(side)[k]);
    assert OrderOf(Record(ticker, b.On(side)[k])) == b.On(side)[k];
  }

  lemma ListingSkips(ticker: nat, b: Book, n: nat)
    requires Held(b, n) == None
    ensures UntilBook(b, n + 1) == UntilBook(b, n)
    ensures Listing(ticker, b, n + 1) == Listing(ticker, b, n)
  {
    UntilSkips(b.bids, n);
    UntilSkips(b.asks, n);
  }

  lemma ApplySnoc(b: Book, us: seq<Update>, u: Update)
    ensures ApplyAll(b, us + [u]) == Apply(ApplyAll(b, us), u)
  {
    ApplyAllConcat(b, us, [u]);
    ApplyOne(ApplyAll(b, us), u);
  }

  lemma ListingNext(ticker: nat, b: Book, n: nat)
    requires BookOK(b) && Mirrored(b) && ApplyAll(EMPTY, Listing(ticker, b, n)) == UntilBook(b, n)
    ensures ApplyAll(EMPTY, Listing(ticker, b, n + 1)) == UntilBook(b, n + 1)
  {
    if Held(b, n).Some? {
      ListingStep(ticker, b, n);
      ApplySnoc(EMPTY, Listing(ticker, b, n), Record(ticker, Held(b, n).value));
    } else {
      ListingSkips(ticker, b, n);
    }
  }

  /** Announcing orders in the order of their ids, from nothing, rebuilds each queue as it was: the
      snapshot preserves time priority. */
  lemma {:induction false} ListingRebuilds(ticker: nat, b: Book, n: nat)
    requires BookOK(b) && Mirrored(b)
    ensures ApplyAll(EMPTY, Listing(ticker, b, n)) == UntilBook(b, n)
    decreases n
  {
    if n == 0 {
      UntilNone(b.bids);
      UntilNone(b.asks);
    } else {
      ListingRebuilds(ticker, b, n - 1);
      ListingNext(ticker, b, n - 1);
    }
  }

  lemma FullListingRebuilds(ticker: nat, b: Book)
    requires PublicOK(b)
    ensures ApplyAll(EMPTY, Listing(ticker, b, ME_MAX_ORDER_IDS)) == b
  {
    ListingRebuilds(ticker, b, ME_MAX_ORDER_IDS);
    UntilAll(b.bids, ME_MAX_ORDER_IDS);
    UntilAll(b.asks, ME_MAX_ORDER_IDS);
  }

  // ---------------------------------------------------------------------- all tickers

  /** CLEAR of one ticker; every other field has its default value. */
  function ClearOf(ticker: nat): Update {
    Update(Clear, ORDER_ID_INVALID, ticker, NoSide, PRICE_INVALID, QTY_INVALID, PRIORITY_INVALID)
  }

  function Marker(kind: UpdateKind, last: nat): Update {
    Update(kind, last, TICKER_ID_INVALID, NoSide, PRICE_INVALID, QTY_INVALID, PRIORITY_INVALID)
  }

  /** What the snapshot says of one ticker. */
  function Restart(ticker: nat, b: Book): seq<Update> {
    [ClearOf(ticker)] + Listing(ticker, b, ME_MAX_ORDER_IDS)
  }

  /** What the snapshot says of the first n tickers. */
  function Body(bs: Books, n: nat): seq<Update>
    requires n <= |bs|
  {
    if n == 0 then [] else
    Body(bs, n - 1) + Restart(n - 1, bs[n - 1])
  }

  /** The frames of a cycle; a frame's number is its position. */
  function Frames(bs: Books, last: nat): seq<Update> {
    [Marker(SnapshotStart, last)] + Body(bs, |bs|) + [Marker(SnapshotEnd, last)]
  }

  /** Updates of one ticker touch one book. */
  lemma {:induction false} ReplayTicker(bs: Books, us: seq<Update>, t: nat)
    requires t < |bs| && forall i :: 0 <= i < |us| ==> us[i].ticker == t
    ensures Replay(bs, us) == bs[t := ApplyAll(bs[t], us)]
    decreases |us|
  {
    if us != [] {
      ReplayTicker(ApplyTo(bs, us[0]), us[1..], t);
    }
  }

  lemma {:induction false} ListingNames(ticker: nat, b: Book, n: nat)
    ensures forall i :: 0 <= i < |Listing(ticker, b, n)| ==>
              Listing(ticker, b, n)[i].ticker == ticker && Listing(ticker, b, n)[i].kind.Add?
    decreases n
  {
    if n > 0 {
      ListingNames(ticker, b, n - 1);
    }
  }

  lemma TickerRestores(start: Books, t: nat, b: Book)
    requires t < |start| && PublicOK(b)
    ensures Replay(start, Restart(t, b)) == start[t := b]
  {
    var listing := Listing(t, b, ME_MAX_ORDER_IDS);
    ListingNames(t, b, ME_MAX_ORDER_IDS);
    ReplayTicker(start, Restart(t, b), t);
    ApplyAllConcat(start[t], [ClearOf(t)], listing);
    ApplyOne(start[t], ClearOf(t));
    FullListingRebuilds(t, b);
  }

  lemma OneMore(start: Books, bs: Books, t: nat)
    requires t < |start| == |bs|
    ensures (bs[..t] + start[t..])[t := bs[t]] == bs[..t + 1] + start[t + 1..]
  {
  }

  /** Whatever a reader held before, after the snapshot of the first n tickers it holds their books. */
  lemma {:induction false} BodyRestores(start: Books, bs: Books, n: nat)
    requires |start| == |bs| && n <= |bs| && BooksOK(bs)
    ensures Replay(start, Body(bs, n)) == bs[..n] + start[n..]
    decreases n
  {
    if n > 0 {
      var t := n - 1;
      var mid: Books := bs[..t] + start[t..];
      BodyRestores(start, bs, t);
      ReplayConcat(start, Body(bs, t), Restart(t, bs[t]));
      TickerRestores(mid, t, bs[t]);
      OneMore(start, bs, t);
    }
  }

  lemma SnapshotRestores(start: Books, bs: Books)
    requires |start| == |bs| && BooksOK(bs)
    ensures Replay(start, Body(bs, |bs|)) == bs
  {
    BodyRestores(start, bs, |bs|);
  }
}
