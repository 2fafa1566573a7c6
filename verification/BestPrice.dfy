/** The best price of a side and the quantity quoted there, defined from the orders alone, and why
    the client's mirror may decide before touching its book whether an update can change them
    (trading/strategy/market_order_book.cpp:28-41). */
module BestPrice {
  import opened Types
  import opened PriceTime
  import opened Matching
  import opened Feed
  import opened Flatten

  /** All the quantity of a side at one price. */
  function QtyAt(s: seq<Order>, price: int): nat {
    if s == [] then 0 else (if s[0].price == price then s[0].qty else 0) + QtyAt(s[1..], price)
  }

  datatype Quote = Quote(price: int, qty: nat)

  /** What the cache should say of a side; quantities are unsigned 32-bit numbers. */
  function Best(s: seq<Order>): Quote {
    if s == [] then Quote(PRICE_INVALID, QTY_INVALID) else Quote(s[0].price, QtyAt(s, s[0].price) % QTY_RANGE)
  }

  /** The refresh decision, taken on the book as it is before the update. */
  predicate Touches(b: Book, u: Update, side: Side) {
    u.side == side && (b.On(side) == [] || !Better(side, b.On(side)[0].price, u.price))
  }

  // ---------------------------------------------------------------------- quantities at a price

  lemma {:induction false} QtyAtConcat(s: seq<Order>, t: seq<Order>, price: int)
    ensures QtyAt(s + t, price) == QtyAt(s, price) + QtyAt(t, price)
    decreases |s|
  {
    if s == [] {
      assert s + t == t;
    } else {
      assert (s + t)[1..] == s[1..] + t;
      QtyAtConcat(s[1..], t, price);
    }
  }

  lemma QtyAtOne(o: Order, price: int)
    ensures QtyAt([o], price) == if o.price == price then o.qty else 0
  {
    assert [o][1..] == [];
  }

  lemma QtyAtSplit(s: seq<Order>, k: nat, price: int)
    requires k < |s|
    ensures QtyAt(s, price) ==
            QtyAt(s[..k], price) + (if s[k].price == price then s[k].qty else 0) + QtyAt(s[k + 1..], price)
  {
    assert s == s[..k] + [s[k]] + s[k + 1..];
    QtyAtConcat(s[..k] + [s[k]], s[k + 1..], price);
    QtyAtConcat(s[..k], [s[k]], price);
    QtyAtOne(s[k], price);
  }

  /** The quote of a sorted side is the best price any of its orders has, with all that is offered there. */
  lemma BestIs(side: Side, s: seq<Order>)
    requires Sorted(side, s)
    ensures s == [] ==> Best(s) == Quote(PRICE_INVALID, QTY_INVALID)
    ensures s != [] ==> (exists o :: o in s && o.price == Best(s).price) && Best(s).qty == QtyAt(s, Best(s).price) % QTY_RANGE
    ensures forall i :: 0 <= i < |s| ==> if side.Buy? then s[i].price <= Best(s).price else s[i].price >= Best(s).price
  {
    assert s != [] ==> s[0] in s;
    forall i | 0 <= i < |s|
      ensures if side.Buy? then s[i].price <= Best(s).price else s[i].price >= Best(s).price
    {
      assert i == 0 || Before(side, s[0], s[i]);
    }
  }

  // ---------------------------------------------------------------------- updates behind the best price

  lemma InsertBehind(side: Side, s: seq<Order>, o: Order)
    requires s != [] && Better(side, s[0].price, o.price)
    ensures Best(Insert(side, s, o)) == Best(s)
  {
    var k, p, r := InsertPos(side, s, o.price), s[0].price, Insert(side, s, o);
    assert r[0] == s[0];
    QtyAtSplit(r, k, p);
    assert r[..k] == s[..k] && r[k + 1..] == s[k..];
    QtyAtConcat(s[..k], s[k..], p);
    assert s == s[..k] + s[k..];
  }

  lemma RemoveBehind(side: Side, s: seq<Order>, k: nat)
    requires k < |s| && Better(side, s[0].price, s[k].price)
    ensures Best(RemoveAt(s, k)) == Best(s)
  {
    QtyAtSplit(s, k, s[0].price);
    QtyAtConcat(s[..k], s[k + 1..], s[0].price);
  }

  lemma AmendBehind(side: Side, s: seq<Order>, k: nat, qty: nat)
    requires k < |s| && Better(side, s[0].price, s[k].price)
    ensures Best(Amend(s, k, qty)) == Best(s)
  {
    var r := Amend(s, k, qty);
    QtyAtSplit(s, k, s[0].price);
    QtyAtSplit(r, k, s[0].price);
    assert r[..k] == s[..k] && r[k + 1..] == s[k + 1..];
  }

  /** An update that does not touch a side leaves its best price and the quantity there as they were,
      provided a MODIFY or CANCEL names an order of its own side and price. */
  lemma UntouchedBest(b: Book, u: Update, side: Side)
    requires Unambiguous(b) && !side.NoSide? && !Touches(b, u, side) && !u.kind.Clear?
    requires u.kind.Add? ==> !u.side.NoSide?
    requires u.kind.Modify? || u.kind.CancelOrder? ==> Names(b, u)
    ensures Best(Apply(b, u).On(side)) == Best(b.On(side))
  {
    if u.kind.Add? {
      if u.side == side {
        InsertBehind(side, b.On(side), OrderOf(u));
      }
    } else if u.kind.Modify? || u.kind.CancelOrder? {
      var k := IndexOfId(b.On(u.side), u.orderId);
      OnlyOnItsSide(b, u.side, k);
      if u.side == side && u.kind.Modify? {
        AmendBehind(side, b.On(side), k, u.qty);
      } else if u.side == side {
        RemoveBehind(side, b.On(side), k);
      }
    }
  }

  // ---------------------------------------------------------------------- the best level

  lemma {:induction false} LevelQty(v: seq<Order>, price: int)
    requires forall j :: 0 <= j < |v| ==> v[j].price == price
    ensures QtyAt(v, price) == SumQty(v)
    decreases |v|
  {
    if v != [] {
      LevelQty(v[1..], price);
    }
  }

  lemma {:induction false} NoQtyElsewhere(s: seq<Order>, price: int)
    requires forall j :: 0 <= j < |s| ==> s[j].price != price
    ensures QtyAt(s, price) == 0
    decreases |s|
  {
    if s != [] {
      NoQtyElsewhere(s[1..], price);
    }
  }

  /** The first level holds all the quantity at the best price. */
  lemma BestLevel(side: Side, vs: seq<seq<Order>>)
    requires Layered(side, vs) && vs != []
    ensures vs[0] != [] && Best(Flat(vs)) == Quote(vs[0][0].price, SumQty(vs[0]) % QTY_RANGE)
  {
    assert UniformLevel(vs[0]);
    var rest, p := Flat(vs[1..]), vs[0][0].price;
    QtyAtConcat(vs[0], rest, p);
    LevelQty(vs[0], p);
    forall m | 0 <= m < |rest|
      ensures rest[m].price != p
    {
      var i, j := FlatIndex(vs[1..], m);
      assert UniformLevel(vs[i + 1]) && Better(side, vs[0][0].price, vs[i + 1][0].price);
    }
    NoQtyElsewhere(rest, p);
  }

  // ---------------------------------------------------------------------- looking an order up in a mirror

  lemma {:induction false} KeyIsId(s: seq<Order>, id: nat)
    requires forall i :: 0 <= i < |s| ==> s[i] == Public(s[i])
    ensures IndexOfKey(s, 0, id) == IndexOfId(s, id)
    decreases |s|
  {
    if s != [] {
      assert s[0] == Public(s[0]);
      KeyIsId(s[1..], id);
    }
  }

  /** In a mirror, the index by order id finds the order that a legal update names. */
  lemma NamedIsFound(b: Book, u: Update)
    requires Unambiguous(b) && Mirrored(b) && Names(b, u)
    ensures Find(b, 0, u.orderId) == (u.side, IndexOfId(b.On(u.side), u.orderId))
  {
    KeyIsId(b.bids, u.orderId);
    KeyIsId(b.asks, u.orderId);
    OnlyOnItsSide(b, u.side, IndexOfId(b.On(u.side), u.orderId));
  }

  lemma NewIdIsFree(b: Book, u: Update)
    requires Mirrored(b) && IndexOfId(b.bids, u.orderId) < 0 && IndexOfId(b.asks, u.orderId) < 0
    ensures Find(b, 0, u.orderId).0.NoSide?
  {
    KeyIsId(b.bids, u.orderId);
    KeyIsId(b.asks, u.orderId);
  }
}
