/** The client's mirror of one ticker's book with its cached best bid and offer
    (trading/strategy/market_order_book.h and .cpp), on the same linked structure as the exchange. */
module MarketOrderBook {
  import opened Types
  import opened PriceTime
  import opened Matching
  import opened Feed
  import opened Rings
  import opened Flatten
  import opened PriceLevels
  import opened BookIndex
  import opened LinkedBook
  import opened BestPrice

  /** The update can be applied to the linked structure: an ADD brings a free id that the array of orders
      has room for (market_order_book.h:85, 220) and a price whose slot is free or its own level's, a MODIFY
      or CANCEL names an order by id, side and price. */
  ghost predicate Applicable(b: Book, u: Update) {
    match u.kind
    case Add =>
      && !u.side.NoSide? && Fits(b, u.side, u.price) && u.orderId < ME_MAX_ORDER_IDS
      && IndexOfId(b.bids, u.orderId) < 0 && IndexOfId(b.asks, u.orderId) < 0
    case Modify => Names(b, u)
    case CancelOrder => Names(b, u)
    case _ => true
  }

  /** Every order has its place in the array of orders. */
  ghost predicate InTable(s: seq<Order>) {
    forall i :: 0 <= i < |s| ==> s[i].moid < ME_MAX_ORDER_IDS
  }

  /** A mirror knows its orders by their ids alone. */
  ghost predicate MirrorOK(b: Book) {
    Mirrored(b) && Unambiguous(b) && InTable(b.bids) && InTable(b.asks)
  }

  lemma InsertUnambiguous(side: Side, s: seq<Order>, o: Order)
    requires NoClash(s) && forall i :: 0 <= i < |s| ==> !Clash(s[i], o)
    ensures NoClash(Insert(side, s, o))
  {
    var r, p := Insert(side, s, o), InsertPos(side, s, o.price);
    forall i, j | 0 <= i < j < |r|
      ensures !Clash(r[i], r[j])
    {
      assert r[i] == if i < p then s[i] else if i == p then o else s[i - 1];
      assert r[j] == if j < p then s[j] else if j == p then o else s[j - 1];
    }
  }

  lemma AddKeepsMirror(b: Book, u: Update)
    requires MirrorOK(b) && u.kind.Add? && Applicable(b, u)
    ensures MirrorOK(Apply(b, u))
  {
    var o, s, t := OrderOf(u), b.On(u.side), b.On(Opposite(u.side));
    assert forall i :: 0 <= i < |s| ==> !Clash(s[i], o) by {
      assert forall i :: 0 <= i < |s| ==> s[i] == Public(s[i]);
    }
    assert forall i :: 0 <= i < |t| ==> !Clash(t[i], o) by {
      assert forall i :: 0 <= i < |t| ==> t[i] == Public(t[i]);
    }
    InsertUnambiguous(u.side, s, o);
    InsertMembers(u.side, s, o);
    var r := Insert(u.side, s, o);
    forall i, j | 0 <= i < |r| && 0 <= j < |t|
      ensures !Clash(r[i], t[j]) && !Clash(t[j], r[i])
    {
      if r[i] != o {
        var m :| 0 <= m < |s| && s[m] == r[i];
        assert !Clash(b.bids[if u.side.Buy? then m else j], b.asks[if u.side.Buy? then j else m]);
      }
    }
  }

  lemma RemoveUnambiguous(s: seq<Order>, t: seq<Order>, k: nat)
    requires NoClash(s) && k < |s|
    ensures NoClash(RemoveAt(s, k))
    ensures NoClashBetween(s, t) ==> NoClashBetween(RemoveAt(s, k), t)
    ensures NoClashBetween(t, s) ==> NoClashBetween(t, RemoveAt(s, k))
  {
    var r := RemoveAt(s, k);
    forall i, j | 0 <= i < j < |r|
      ensures !Clash(r[i], r[j])
    {
      assert !Clash(s[if i < k then i else i + 1], s[if j < k then j else j + 1]);
    }
  }

  lemma AmendUnambiguous(s: seq<Order>, t: seq<Order>, k: nat, qty: nat)
    requires NoClash(s) && k < |s|
    ensures NoClash(Amend(s, k, qty))
    ensures NoClashBetween(s, t) ==> NoClashBetween(Amend(s, k, qty), t)
    ensures NoClashBetween(t, s) ==> NoClashBetween(t, Amend(s, k, qty))
  {
    var r := Amend(s, k, qty);
    forall i, j | 0 <= i < j < |r|
      ensures !Clash(r[i], r[j])
    {
      assert !Clash(s[i], s[j]);
    }
  }

  lemma AmendKeepsMirror(b: Book, side: Side, k: nat, qty: nat)
    requires MirrorOK(b) && !side.NoSide? && k < |b.On(side)|
    ensures MirrorOK(b.With(side, Amend(b.On(side), k, qty)))
  {
    AmendUnambiguous(b.On(side), b.On(Opposite(side)), k, qty);
  }

  lemma RemoveKeepsMirror(b: Book, side: Side, k: nat)
    requires MirrorOK(b) && !side.NoSide? && k < |b.On(side)|
    ensures MirrorOK(b.With(side, RemoveAt(b.On(side), k)))
  {
    RemoveUnambiguous(b.On(side), b.On(Opposite(side)), k);
  }

  /** A MODIFY or CANCEL that names an order concerns that order alone. */
  lemma NamedAlone(b: Book, u: Update, k: nat)
    requires Unambiguous(b) && Names(b, u) && k == IndexOfId(b.On(u.side), u.orderId)
    ensures u.kind.Modify? ==> Apply(b, u) == b.With(u.side, Amend(b.On(u.side), k, u.qty))
    ensures u.kind.CancelOrder? ==> Apply(b, u) == b.With(u.side, RemoveAt(b.On(u.side), k))
  {
    OnlyOnItsSide(b, u.side, k);
  }

  /** Applying an applicable update keeps the mirror unambiguous. */
  lemma ApplicableKeepsMirror(b: Book, u: Update)
    requires MirrorOK(b) && Applicable(b, u)
    ensures MirrorOK(Apply(b, u))
  {
    if u.kind.Add? {
      AddKeepsMirror(b, u);
    } else if u.kind.Modify? || u.kind.CancelOrder? {
      var k := IndexOfId(b.On(u.side), u.orderId);
      NamedAlone(b, u, k);
      AmendKeepsMirror(b, u.side, k, u.qty);
      RemoveKeepsMirror(b, u.side, k);
    }
  }

  // ---------------------------------------------------------------------- runs of updates

  /** Each update is applicable to what the ones before it leave. */
  ghost predicate ApplicableAll(b: Book, us: seq<Update>)
    decreases |us|
  {
    us == [] ||
    (ApplicableAll(b, us[..|us| - 1]) && Applicable(ApplyAll(b, us[..|us| - 1]), us[|us| - 1]))
  }

  lemma ApplicableSnoc(b: Book, us: seq<Update>, u: Update)
    ensures ApplicableAll(b, us + [u]) <==> ApplicableAll(b, us) && Applicable(ApplyAll(b, us), u)
    ensures ApplyAll(b, us + [u]) == Apply(ApplyAll(b, us), u)
  {
    assert (us + [u])[..|us|] == us;
    ApplyAllConcat(b, us, [u]);
    ApplyOne(ApplyAll(b, us), u);
  }

  lemma {:induction false} ApplicableConcat(b: Book, us: seq<Update>, vs: seq<Update>)
    ensures ApplicableAll(b, us + vs) <==> ApplicableAll(b, us) && ApplicableAll(ApplyAll(b, us), vs)
    decreases |vs|
  {
    if vs == [] {
      assert us + vs == us;
    } else {
      var front, v := vs[..|vs| - 1], vs[|vs| - 1];
      ApplicableConcat(b, us, front);
      assert us + vs == us + front + [v] && vs == front + [v];
      ApplicableSnoc(b, us + front, v);
      ApplicableSnoc(ApplyAll(b, us), front, v);
      ApplyAllConcat(b, us, front);
    }
  }

  /** Each update in a run is applicable at its turn. */
  lemma {:induction false} ApplicableAt(b: Book, us: seq<Update>, i: nat)
    requires ApplicableAll(b, us) && i < |us|
    ensures Applicable(ApplyAll(b, us[..i]), us[i]) && ApplyAll(b, us[..i + 1]) == Apply(ApplyAll(b, us[..i]), us[i])
    decreases |us|
  {
    var front := us[..|us| - 1];
    if i < |front| {
      ApplicableAt(b, front, i);
      assert front[..i] == us[..i] && front[..i + 1] == us[..i + 1];
    } else {
      assert us[..i + 1] == us[..i] + [us[i]];
      ApplicableSnoc(b, us[..i], us[i]);
    }
  }

  /** A CLEAR, if there is one, finds an empty book. */
  ghost predicate ClearsNothing(b: Book, us: seq<Update>) {
    forall i :: 0 <= i < |us| && us[i].kind.Clear? ==> ApplyAll(b, us[..i]) == EMPTY
  }

  lemma ApplicableFirst(b: Book, u: Update, us: seq<Update>)
    ensures ApplicableAll(b, [u] + us) <==> Applicable(b, u) && ApplicableAll(Apply(b, u), us)
    ensures ApplyAll(b, [u] + us) == ApplyAll(Apply(b, u), us)
  {
    ApplicableSnoc(b, [], u);
    ApplicableConcat(b, [u], us);
    ApplyAllConcat(b, [u], us);
    ApplyOne(b, u);
    assert [] + [u] == [u];
  }

  // ---------------------------------------------------------------------- the exchange's feed

  /** The price index ignores sides; on the exchange's feed that is sound because its book is never
      crossed, so an order of the other side cannot have the newcomer's price. */
  lemma NewcomerFits(b: Book, u: Update)
    requires BookOK(b) && Joins(b, u) && NoCollision(b, u.price)
    ensures Fits(b, u.side, u.price)
  {
    var opp := Opposite(u.side);
    forall i | 0 <= i < |b.On(opp)|
      ensures b.On(opp)[i].price != u.price
    {
      assert i == 0 || Before(opp, b.On(opp)[0], b.On(opp)[i]);
    }
  }

  /** What the mirror's two arrays can take of a newcomer: a price slot of its own and an id in range. */
  ghost predicate Storable(b: Book, u: Update) {
    u.kind.Add? ==> NoCollision(b, u.price) && u.orderId < ME_MAX_ORDER_IDS
  }

  /** An update of the exchange's feed is applicable exactly if the arrays can take it. */
  lemma LegalIsApplicable(b: Book, u: Update)
    requires BookOK(b) && Legal(b, u)
    ensures Applicable(b, u) <==> Storable(b, u)
  {
    if Storable(b, u) && u.kind.Add? {
      NewcomerFits(b, u);
    }
  }

  ghost predicate StorableAll(b: Book, us: seq<Update>)
    decreases |us|
  {
    us == [] || (Storable(b, us[0]) && StorableAll(Apply(b, us[0]), us[1..]))
  }

  /** A whole feed of the exchange is applicable update by update exactly if no newcomer shares its slot with
      another live price or has an id beyond the array. */
  lemma {:induction false} FeedApplicable(b: Book, us: seq<Update>)
    requires BookOK(b) && Mirrored(b) && LegalAll(b, us)
    ensures ApplicableAll(b, us) <==> StorableAll(b, us)
    decreases |us|
  {
    if us != [] {
      LegalIsApplicable(b, us[0]);
      LegalKeepsBook(b, us[0]);
      FeedApplicable(Apply(b, us[0]), us[1..]);
      ApplicableFirst(b, us[0], us[1..]);
      assert [us[0]] + us[1..] == us;
    }
  }

  // ---------------------------------------------------------------------- applying

  lemma ModifyIsAmend(b: Book, u: Update)
    requires MirrorOK(b) && u.kind.Modify? && Names(b, u)
    ensures var (side, k) := Find(b, 0, u.orderId);
            !side.NoSide? && Apply(b, u) == b.With(side, Amend(b.On(side), k, u.qty))
  {
    NamedIsFound(b, u);
    OnlyOnItsSide(b, u.side, IndexOfId(b.On(u.side), u.orderId));
  }

  lemma CancelIsRemove(b: Book, u: Update)
    requires MirrorOK(b) && u.kind.CancelOrder? && Names(b, u)
    ensures var (side, k) := Find(b, 0, u.orderId);
            !side.NoSide? && Apply(b, u) == b.With(side, RemoveAt(b.On(side), k))
  {
    NamedIsFound(b, u);
    OnlyOnItsSide(b, u.side, IndexOfId(b.On(u.side), u.orderId));
  }

  /** What follows from an update before it is applied. */
  lemma FollowFacts(b: Book, u: Update)
    requires MirrorOK(b) && Applicable(b, u) && !u.kind.Clear?
    ensures MirrorOK(Apply(b, u))
    ensures !Touches(b, u, Buy) ==> Best(Apply(b, u).bids) == Best(b.bids)
    ensures !Touches(b, u, Sell) ==> Best(Apply(b, u).asks) == Best(b.asks)
  {
    ApplicableKeepsMirror(b, u);
    if !Touches(b, u, Buy) {
      UntouchedBest(b, u, Buy);
    }
    if !Touches(b, u, Sell) {
      UntouchedBest(b, u, Sell);
    }
  }

  /** updateBBO for one side (market_order_book.h:41-52). */
  method QuoteOf(s: SideLevels) returns (q: Quote)
    requires s.Valid()
    ensures q == Best(Flat(s.vals))
  {
    if s.head == null {
      q := Quote(PRICE_INVALID, QTY_INVALID);
    } else {
      s.LevelsSorted();
      assert LevelOK(s.levels[0], s.side, s.nodes[0], s.vals[0]);
      BestLevel(s.side, s.vals);
      var qty := LevelTotal(s.head, s.vals[0]);
      q := Quote(s.head.price, qty);
    }
  }

  /** The walk round a level's ring, with the wrap-around of an unsigned 32-bit total. */
  method LevelTotal(level: LevelNode, ghost v: seq<Order>) returns (qty: nat)
    requires level.Valid() && |v| == |level.queue|
    requires forall j :: 0 <= j < |v| ==> level.queue[j].data == v[j]
    ensures qty == SumQty(v) % QTY_RANGE
  {
    ghost var q := level.queue;
    qty := level.first.data.qty % QTY_RANGE;
    RingNeighbours(q, 0);
    var order := level.first.next;
    ghost var j := 1;
    SumQtySnoc(v, 0);
    assert v[..0] == [];
    while order != level.first
      invariant 1 <= j <= |q| && order == q[if j == |q| then 0 else j]
      invariant qty == SumQty(v[..j]) % QTY_RANGE
      decreases |q| - j
    {
      SumQtySnoc(v, j);
      qty := (qty + order.data.qty) % QTY_RANGE;
      RingNeighbours(q, j);
      order := order.next;
      j := j + 1;
    }
    assert v[..j] == v;
  }

  class MarketOrderBook {
    const book: LinkedBook
    var bid: Quote
    var ask: Quote

    constructor ()
      ensures Valid() && book.Abs() == EMPTY
      ensures fresh(book) && fresh(book.bids) && fresh(book.asks)
      ensures book.bids.levelSet == {} && book.bids.orderSet == {} && book.asks.levelSet == {} && book.asks.orderSet == {}
    {
      book := new LinkedBook();
      bid, ask := Quote(PRICE_INVALID, QTY_INVALID), Quote(PRICE_INVALID, QTY_INVALID);
    }

    ghost predicate Cached(side: Side)
      reads `bid, `ask, book.bids, book.asks
    {
      (if side.Buy? then bid else ask) == Best(book.Abs().On(side))
    }

    /** A well-formed mirror whose cache says what its book says. */
    ghost predicate Valid()
      reads this, book, book.bids, book.asks
      reads book.bids.levelSet, book.asks.levelSet, book.bids.orderSet, book.asks.orderSet
    {
      book.Valid() && MirrorOK(book.Abs()) && Cached(Buy) && Cached(Sell)
    }

    /** The mirror holds this book, well formed and published; the cache is not looked at. */
    ghost predicate Mirrors(b: Book)
      reads book, book.bids, book.asks
      reads book.bids.levelSet, book.asks.levelSet, book.bids.orderSet, book.asks.orderSet
    {
      book.Shows(b)
    }

    /** onMarketUpdate, MODIFY (market_order_book.cpp:54-57). */
    method ModifyOne(id: nat, qty: nat)
      requires book.Valid() && !Find(book.Abs(), 0, id).0.NoSide?
      modifies book.bids, book.asks, book.bids.orderSet, book.asks.orderSet
      ensures var (side, k) := Find(old(book.Abs()), 0, id);
              Mirrors(old(book.Abs()).With(side, Amend(old(book.Abs()).On(side), k, qty)))
      ensures book.OnlyNewNodes()
    {
      var n: OrderNode?;
      ghost var side, i, j;
      n, side, i, j := book.Lookup(0, id);
      book.SetOrderQty(n, qty, side, i, j, book.Position(book.OnSide(side), i, j));
    }

    /** onMarketUpdate, CANCEL (market_order_book.cpp:59-62). */
    method CancelOne(id: nat)
      requires book.Valid() && !Find(book.Abs(), 0, id).0.NoSide?
      modifies book, book.bids, book.asks
      modifies book.bids.levelSet, book.asks.levelSet, book.bids.orderSet, book.asks.orderSet
      ensures var (side, k) := Find(old(book.Abs()), 0, id);
              Mirrors(old(book.Abs()).With(side, RemoveAt(old(book.Abs()).On(side), k)))
      ensures book.OnlyNewNodes()
    {
      var n: OrderNode?;
      ghost var side, i, j;
      n, side, i, j := book.Lookup(0, id);
      book.RemoveOrder(n, side, i, j, book.Position(book.OnSide(side), i, j));
    }

    /** onMarketUpdate, CLEAR (market_order_book.cpp:72-96): the orders go, the price index and the
        cached quotes stay. The structure survives exactly when there was nothing to clear. */
    method ClearAll()
      requires book.Valid()
      modifies book, book.bids, book.asks
      ensures book.Abs() == EMPTY && book.orderAt == map[] && book.levelAt == old(book.levelAt)
      ensures book.bids.Valid() && book.asks.Valid()
      ensures book.Valid() <==> old(book.Abs()) == EMPTY
      ensures book.OnlyNewNodes()
    {
      IndexEmpty();
      book.orderAt := map[];
      book.bids.Drop();
      book.asks.Drop();
      StaleIndex();
    }

    /** With no orders left, the price index must be empty. */
    lemma StaleIndex()
      requires book.bids.Valid() && book.asks.Valid() && book.Abs() == EMPTY && book.orderAt == map[]
      requires book.bids.vals == [] && book.asks.vals == [] && book.bids != book.asks
      requires book.bids.levelSet !! book.asks.levelSet && book.bids.orderSet !! book.asks.orderSet
      requires book.bids.side == Buy && book.asks.side == Sell
      ensures book.Valid() <==> NoLevels()
    {
      if book.Valid() {
        forall k
          ensures k !in book.levelAt
        {
          assert !HasSlot(book.bids.vals, k) && !HasSlot(book.asks.vals, k);
        }
      }
    }

    ghost predicate NoLevels()
      reads book
    {
      forall k :: k !in book.levelAt
    }

    lemma IndexEmpty()
      requires book.Valid()
      ensures book.Abs() == EMPTY <==> NoLevels()
    {
      assert book.bids.vals != [] ==> Slot(book.bids.vals[0]) in book.levelAt;
      assert book.asks.vals != [] ==> Slot(book.asks.vals[0]) in book.levelAt;
      if book.Abs() == EMPTY {
        FlatEmpty(book.bids.vals);
        FlatEmpty(book.asks.vals);
        forall k
          ensures k !in book.levelAt
        {
          assert !HasSlot(book.bids.vals, k) && !HasSlot(book.asks.vals, k);
        }
      }
    }

    /** The switch of onMarketUpdate for the kinds that change single orders. */
    method ApplyToBook(u: Update)
      requires book.Valid() && MirrorOK(book.Abs()) && Applicable(book.Abs(), u)
      requires u.kind.Add? || u.kind.Modify? || u.kind.CancelOrder?
      modifies book, book.bids, book.asks
      modifies book.bids.levelSet, book.asks.levelSet, book.bids.orderSet, book.asks.orderSet
      ensures Mirrors(Apply(old(book.Abs()), u))
      ensures book.OnlyNewNodes()
    {
      if u.kind.Add? {
        NewIdIsFree(book.Abs(), u);
        book.AddNew(OrderOf(u));
      } else if u.kind.Modify? {
        ModifyIsAmend(book.Abs(), u);
        ModifyOne(u.orderId, u.qty);
      } else {
        CancelIsRemove(book.Abs(), u);
        CancelOne(u.orderId);
      }
    }

    /** The head of a side's levels is worse than a price, or the price is on the other side
        (market_order_book.cpp:36-41). */
    method Touched(s: SideLevels, u: Update) returns (touched: bool)
      requires s.Valid()
      ensures touched <==> u.side == s.side && (Flat(s.vals) == [] || !Better(s.side, Flat(s.vals)[0].price, u.price))
    {
      touched := u.side == s.side && (s.head == null || !Better(s.side, s.head.price, u.price));
      if s.head != null {
        s.LevelsSorted();
        assert UniformLevel(s.vals[0]);
      }
    }

    method Decide(u: Update) returns (bidUpdated: bool, askUpdated: bool)
      requires book.Valid()
      ensures bidUpdated == Touches(book.Abs(), u, Buy) && askUpdated == Touches(book.Abs(), u, Sell)
    {
      bidUpdated := Touched(book.bids, u);
      askUpdated := Touched(book.asks, u);
    }

    /** updateBBO (market_order_book.h:39-69). */
    method UpdateBBO(updateBid: bool, updateAsk: bool)
      requires book.bids.Valid() && book.asks.Valid()
      modifies `bid, `ask
      ensures bid == if updateBid then Best(book.Abs().bids) else old(bid)
      ensures ask == if updateAsk then Best(book.Abs().asks) else old(ask)
    {
      if updateBid {
        bid := QuoteOf(book.bids);
      }
      if updateAsk {
        ask := QuoteOf(book.asks);
      }
    }

    method Refresh(updateBid: bool, updateAsk: bool, ghost b: Book)
      requires Mirrors(b) && MirrorOK(b)
      requires (!updateBid ==> bid == Best(b.bids)) && (!updateAsk ==> ask == Best(b.asks))
      modifies `bid, `ask
      ensures Valid() && book.Abs() == b
    {
      UpdateBBO(updateBid, updateAsk);
    }

    /** An update of single orders, and the refresh decided beforehand. */
    method Follow(u: Update, bidUpdated: bool, askUpdated: bool)
      requires Valid() && Applicable(book.Abs(), u) && (u.kind.Add? || u.kind.Modify? || u.kind.CancelOrder?)
      requires bidUpdated == Touches(book.Abs(), u, Buy) && askUpdated == Touches(book.Abs(), u, Sell)
      modifies this, book, book.bids, book.asks
      modifies book.bids.levelSet, book.asks.levelSet, book.bids.orderSet, book.asks.orderSet
      ensures Valid() && book.Abs() == Apply(old(book.Abs()), u)
      ensures book.OnlyNewNodes()
    {
      ghost var b := book.Abs();
      FollowFacts(b, u);
      ApplyToBook(u);
      Refresh(bidUpdated, askUpdated, Apply(b, u));
    }

    method Wipe(bidUpdated: bool, askUpdated: bool)
      requires Valid()
      modifies this, book, book.bids, book.asks
      ensures book.Abs() == EMPTY
      ensures Valid() <==> old(book.Abs()) == EMPTY
      ensures book.OnlyNewNodes()
    {
      ClearAll();
      UpdateBBO(bidUpdated, askUpdated);
    }

    /** onMarketUpdate (market_order_book.cpp:27-109): the mirror follows the fold of updates and its
        cache follows the mirror, unless a CLEAR arrives while orders are live. */
    method OnMarketUpdate(u: Update)
      requires Valid() && Applicable(book.Abs(), u)
      modifies this, book, book.bids, book.asks
      modifies book.bids.levelSet, book.asks.levelSet, book.bids.orderSet, book.asks.orderSet
      ensures book.Abs() == Apply(old(book.Abs()), u)
      ensures Valid() <==> (u.kind.Clear? ==> old(book.Abs()) == EMPTY)
      ensures book.OnlyNewNodes()
    {
      var bidUpdated, askUpdated := Decide(u);
      if u.kind.Trade? {
      } else if u.kind.Clear? {
        Wipe(bidUpdated, askUpdated);
      } else if u.kind.Add? || u.kind.Modify? || u.kind.CancelOrder? {
        Follow(u, bidUpdated, askUpdated);
      } else {
        Refresh(bidUpdated, askUpdated, book.Abs());
      }
    }

    /** A whole feed, update after update: the mirror folds it and its cache follows. */
    method FollowAll(us: seq<Update>)
      requires Valid() && ApplicableAll(book.Abs(), us) && ClearsNothing(book.Abs(), us)
      modifies this, book, book.bids, book.asks
      modifies book.bids.levelSet, book.asks.levelSet, book.bids.orderSet, book.asks.orderSet
      ensures Valid() && book.Abs() == ApplyAll(old(book.Abs()), us) && book.OnlyNewNodes()
    {
      ghost var b := book.Abs();
      var i := 0;
      while i < |us|
        invariant i <= |us| && Valid() && book.Abs() == ApplyAll(b, us[..i]) && book.OnlyNewNodes()
      {
        ApplicableAt(b, us, i);
        OnMarketUpdate(us[i]);
        i := i + 1;
      }
      assert us[..i] == us;
    }
  }
}
