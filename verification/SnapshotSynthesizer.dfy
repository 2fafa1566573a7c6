/** The synthesizer's table of live orders and the frames it publishes
    (exchange/market_data/snapshot_synthesizer.cpp). A null entry of the table is an absent key. */
module SnapshotSynthesizer {
  import opened Types
  import opened PriceTime
  import opened Matching
  import opened Feed
  import opened MarketLog
  import opened Snapshot

  type Table = map<nat, Update>

  ghost predicate EntryOK(ticker: nat, t: Table, b: Book, id: nat) {
    match Held(b, id)
    case None => id !in t
    case Some(o) => id in t && t[id] == Record(ticker, o)
  }

  /** The table holds the announcement of every live order, with its present quantity, and no more. */
  ghost predicate TableOf(ticker: nat, t: Table, b: Book) {
    forall id: nat :: EntryOK(ticker, t, b, id)
  }

  /** The conditions that addToSnapshot asserts of the table (snapshot_synthesizer.cpp:45, 52-54, 62). */
  predicate Asserted(t: Table, u: Update) {
    match u.kind
    case Add => u.orderId !in t
    case Modify => u.orderId in t && t[u.orderId].orderId == u.orderId
    case CancelOrder => u.orderId in t
    case _ => true
  }

  function TableAfter(t: Table, u: Update): Table
    requires Asserted(t, u)
  {
    match u.kind
    case Add => t[u.orderId := u]
    case Modify => t[u.orderId := t[u.orderId].(qty := u.qty, price := u.price)]
    case CancelOrder => t - {u.orderId}
    case _ => t
  }

  // ---------------------------------------------------------------------- the table follows the book

  lemma EntryOfInsert(side: Side, s: seq<Order>, o: Order, id: nat)
    requires NoClash(s) && IdAbove(s, o.moid)
    ensures Entry(Insert(side, s, o), id) == if id == o.moid then Some(o) else Entry(s, id)
  {
    IdsDistinct(s);
    var r, p := Insert(side, s, o), InsertPos(side, s, o.price);
    var m := IndexOfId(s, id);
    assert forall i :: 0 <= i < |r| ==> r[i] == if i < p then s[i] else if i == p then o else s[i - 1];
    assert r[p] == o;
    assert m >= 0 ==> r[if m < p then m else m + 1] == s[m];
  }

  lemma EntryOfRemove(s: seq<Order>, k: nat, id: nat)
    requires NoClash(s) && k < |s|
    ensures Entry(RemoveAt(s, k), id) == if id == s[k].moid then None else Entry(s, id)
  {
    IdsDistinct(s);
    var r := RemoveAt(s, k);
    var m, n := IndexOfId(s, id), IndexOfId(r, id);
    assert n >= 0 ==> r[n] == s[if n < k then n else n + 1];
    assert m >= 0 && m != k ==> r[if m < k then m else m - 1] == s[m];
  }

  lemma EntryOfAmend(s: seq<Order>, k: nat, qty: nat, id: nat)
    requires NoClash(s) && k < |s|
    ensures Entry(s[k := s[k].(qty := qty)], id) == if id == s[k].moid then Some(s[k].(qty := qty)) else Entry(s, id)
  {
    IdsDistinct(s);
    var r := s[k := s[k].(qty := qty)];
    var m, n := IndexOfId(s, id), IndexOfId(r, id);
    assert forall i :: 0 <= i < |s| ==> r[i].moid == s[i].moid;
    assert n >= 0 ==> s[n].moid == id;
    assert m >= 0 ==> r[m].moid == id;
  }

  lemma HeldAfterAdd(b: Book, u: Update, id: nat)
    requires BookOK(b) && u.kind.Add? && Joins(b, u)
    ensures Held(b, u.orderId) == None
    ensures Held(Apply(b, u), id) == if id == u.orderId then Some(OrderOf(u)) else Held(b, id)
  {
    EntryOfInsert(u.side, b.On(u.side), OrderOf(u), id);
  }

  /** A change on one side, to an order that the other does not hold. */
  lemma HeldOnSide(b: Book, side: Side, s: seq<Order>, id: nat, entry: Option<Order>)
    requires !side.NoSide? && Entry(s, id) == entry
    requires entry == Entry(b.On(side), id) || Entry(b.On(Opposite(side)), id) == None
    ensures Held(b.With(side, s), id) == if entry == Entry(b.On(side), id) then Held(b, id) else entry
  {
  }

  lemma HeldAfterModify(b: Book, u: Update, id: nat)
    requires BookOK(b) && u.kind.Modify? && Names(b, u)
    ensures Held(b, u.orderId).Some? && Held(b, u.orderId).value.price == u.price
    ensures Held(Apply(b, u), id) == if id == u.orderId then Some(Held(b, id).value.(qty := u.qty)) else Held(b, id)
  {
    var k := IndexOfId(b.On(u.side), u.orderId);
    OnlyOnItsSide(b, u.side, k);
    var s := b.On(u.side)[k := b.On(u.side)[k].(qty := u.qty)];
    EntryOfAmend(b.On(u.side), k, u.qty, id);
    HeldOnSide(b, u.side, s, id, Entry(s, id));
    assert Apply(b, u) == b.With(u.side, s);
  }

  lemma HeldAfterCancel(b: Book, u: Update, id: nat)
    requires BookOK(b) && u.kind.CancelOrder? && Names(b, u)
    ensures Held(b, u.orderId).Some?
    ensures Held(Apply(b, u), id) == if id == u.orderId then None else Held(b, id)
  {
    var k := IndexOfId(b.On(u.side), u.orderId);
    OnlyOnItsSide(b, u.side, k);
    var s := RemoveAt(b.On(u.side), k);
    EntryOfRemove(b.On(u.side), k, id);
    HeldOnSide(b, u.side, s, id, Entry(s, id));
    assert Apply(b, u) == b.With(u.side, s);
  }

  /** On a legal feed no condition on the table fails, and the table keeps up with the book. */
  lemma TableFollows(ticker: nat, t: Table, b: Book, u: Update)
    requires TableOf(ticker, t, b) && BookOK(b) && Legal(b, u) && u.ticker == ticker
    ensures Asserted(t, u) && TableOf(ticker, TableAfter(t, u), Apply(b, u))
  {
    assert EntryOK(ticker, t, b, u.orderId);
    forall id: nat
      ensures Asserted(t, u) && EntryOK(ticker, TableAfter(t, u), Apply(b, u), id)
    {
      assert EntryOK(ticker, t, b, id);
      match u.kind
      case Add => HeldAfterAdd(b, u, id);
      case Modify => HeldAfterModify(b, u, id);
      case CancelOrder => HeldAfterCancel(b, u, id);
      case Trade =>
    }
  }

  // ---------------------------------------------------------------------- the synthesizer

  datatype Frame = Frame(seqNum: nat, update: Update)

  /** Frames are numbered by their positions. */
  ghost predicate Numbered(frames: seq<Frame>, us: seq<Update>) {
    |frames| == |us| && forall i :: 0 <= i < |us| ==> frames[i] == Frame(i, us[i])
  }

  lemma NumberedSnoc(frames: seq<Frame>, us: seq<Update>, u: Update)
    requires Numbered(frames, us)
    ensures Numbered(frames + [Frame(|frames|, u)], us + [u])
  {
  }

  ghost predicate Tabulates(tables: seq<Table>, bs: Books) {
    |tables| == |bs| == ME_MAX_TICKERS && forall t :: 0 <= t < |bs| ==> TableOf(t, tables[t], bs[t])
  }

  class SnapshotSynthesizer {
    var tickerOrders: seq<Table>
    var lastIncSeqNum: nat

    constructor ()
      ensures Tabulates(tickerOrders, NO_BOOKS) && lastIncSeqNum == 0
    {
      tickerOrders := [map[], map[], map[], map[], map[], map[], map[], map[]];
      lastIncSeqNum := 0;
      new;
    }

    /** addToSnapshot (snapshot_synthesizer.cpp:38-81); `ok` is false where the source aborts. */
    method AddToSnapshot(seqNum: nat, u: Update) returns (ok: bool)
      requires u.ticker < |tickerOrders| == ME_MAX_TICKERS
      requires u.kind.Add? || u.kind.Modify? || u.kind.CancelOrder? ==> u.orderId < ME_MAX_ORDER_IDS
      modifies this
      ensures ok <==> old(Asserted(tickerOrders[u.ticker], u)) && seqNum == old(lastIncSeqNum) + 1
      ensures ok ==> lastIncSeqNum == seqNum && tickerOrders ==
                       old(tickerOrders)[u.ticker := TableAfter(old(tickerOrders)[u.ticker], u)]
    {
      var orders := tickerOrders[u.ticker];
      match u.kind {
        case Add =>
          if u.orderId in orders { return false; }
          orders := orders[u.orderId := u];
        case Modify =>
          if u.orderId !in orders || orders[u.orderId].orderId != u.orderId { return false; }
          orders := orders[u.orderId := orders[u.orderId].(qty := u.qty, price := u.price)];
        case CancelOrder =>
          if u.orderId !in orders { return false; }
          orders := orders - {u.orderId};
        case _ =>
      }
      tickerOrders := tickerOrders[u.ticker := orders];
      if seqNum != lastIncSeqNum + 1 { return false; }
      lastIncSeqNum := seqNum;
      ok := true;
    }

    /** On the publisher's log the synthesizer never aborts, and its tables are those of the books as
        of its last sequence number. */
    method Follow(ghost log: seq<Update>, u: Update) returns (ok: bool)
      requires LegalLog(log) && lastIncSeqNum < |log| && u == log[lastIncSeqNum]
      requires Tabulates(tickerOrders, Replay(NO_BOOKS, log[..lastIncSeqNum]))
      modifies this
      ensures ok && lastIncSeqNum == old(lastIncSeqNum) + 1
      ensures Tabulates(tickerOrders, Replay(NO_BOOKS, log[..lastIncSeqNum]))
    {
      ghost var n, bs := lastIncSeqNum, Replay(NO_BOOKS, log[..lastIncSeqNum]);
      FollowFacts(log, n, tickerOrders);
      ok := AddToSnapshot(lastIncSeqNum + 1, u);
    }

    /** publishSnapshot (snapshot_synthesizer.cpp:83-134). */
    method PublishSnapshot(ghost bs: Books) returns (frames: seq<Frame>)
      requires Tabulates(tickerOrders, bs)
      ensures Numbered(frames, Frames(bs, lastIncSeqNum))
    {
      frames := [Frame(0, Marker(SnapshotStart, lastIncSeqNum))];
      ghost var us := [Marker(SnapshotStart, lastIncSeqNum)];
      var ticker := 0;
      assert us == [Marker(SnapshotStart, lastIncSeqNum)] + Body(bs, 0);
      while ticker < |tickerOrders|
        invariant ticker <= |tickerOrders|
        invariant us == [Marker(SnapshotStart, lastIncSeqNum)] + Body(bs, ticker)
        invariant Numbered(frames, us)
      {
        frames := PublishTicker(ticker, bs[ticker], frames, us);
        us := us + Restart(ticker, bs[ticker]);
        ticker := ticker + 1;
      }
      NumberedSnoc(frames, us, Marker(SnapshotEnd, lastIncSeqNum));
      frames := frames + [Frame(|frames|, Marker(SnapshotEnd, lastIncSeqNum))];
    }

    method PublishTicker(ticker: nat, ghost b: Book, sent: seq<Frame>, ghost us: seq<Update>) returns (frames: seq<Frame>)
      requires ticker < |tickerOrders| && TableOf(ticker, tickerOrders[ticker], b) && Numbered(sent, us)
      ensures Numbered(frames, us + Restart(ticker, b))
    {
      var orders := tickerOrders[ticker];
      NumberedSnoc(sent, us, ClearOf(ticker));
      frames := sent + [Frame(|sent|, ClearOf(ticker))];
      ghost var vs := us + [ClearOf(ticker)];
      var id := 0;
      while id < ME_MAX_ORDER_IDS
        invariant id <= ME_MAX_ORDER_IDS
        invariant Numbered(frames, vs + Listing(ticker, b, id))
      {
        assert EntryOK(ticker, orders, b, id);
        if id in orders {
          NumberedSnoc(frames, vs + Listing(ticker, b, id), orders[id]);
          frames := frames + [Frame(|frames|, orders[id])];
        }
        id := id + 1;
      }
    }
  }

  lemma FollowFacts(log: seq<Update>, n: nat, tables: seq<Table>)
    requires LegalLog(log) && n < |log| && Tabulates(tables, Replay(NO_BOOKS, log[..n]))
    ensures var u := log[n];
            && u.ticker < ME_MAX_TICKERS && Asserted(tables[u.ticker], u)
            && Tabulates(tables[u.ticker := TableAfter(tables[u.ticker], u)], Replay(NO_BOOKS, log[..n + 1]))
            && (u.kind.Add? || u.kind.Modify? || u.kind.CancelOrder? ==> u.orderId < ME_MAX_ORDER_IDS)
  {
    var u, bs := log[n], Replay(NO_BOOKS, log[..n]);
    LogBooksOK(log, n);
    TableFollows(u.ticker, tables[u.ticker], bs[u.ticker], u);
    assert log[..n + 1] == log[..n] + [u];
    ReplaySnoc(NO_BOOKS, log[..n], u);
  }
}
