/** Both sides of the pointer structure together with its two flat indices, and the operations that
    add, remove and change orders through them (exchange/matcher/me_order_book.h:181-223,
    trading/strategy/market_order_book.h:181-221). */
module LinkedBook {
  import opened Types
  import opened PriceTime
  import opened Matching
  import opened Rings
  import opened Flatten
  import opened PriceLevels
  import opened BookIndex

  ghost predicate SlotFits(s: seq<Order>, side: Side, price: int) {
    forall i :: 0 <= i < |s| && PriceToIndex(s[i].price) == PriceToIndex(price) ==>
      s[i].price == price && s[i].side == side
  }

  /** An order may join: no live order at another price, or on the other side, uses its price slot. */
  ghost predicate Fits(b: Book, side: Side, price: int) {
    SlotFits(b.bids, side, price) && SlotFits(b.asks, side, price)
  }

  ghost predicate SideNoCollision(s: seq<Order>, price: int) {
    forall i :: 0 <= i < |s| && PriceToIndex(s[i].price) == PriceToIndex(price) ==> s[i].price == price
  }

  /** A price shares its slot of the price index with no other live price. */
  ghost predicate NoCollision(b: Book, price: int) {
    SideNoCollision(b.bids, price) && SideNoCollision(b.asks, price)
  }

  lemma OwnSlot(s: seq<Order>, side: Side, price: int)
    requires AllOn(side, s) && SideNoCollision(s, price)
    ensures SlotFits(s, side, price)
  {
  }

  // ---------------------------------------------------------------------- one side beside the other

  /** Two well-formed sides that share no node. */
  ghost predicate Apart(s: SideLevels, t: SideLevels)
    reads s, t, s.levelSet, t.levelSet, s.orderSet, t.orderSet
  {
    s != t && s.levelSet !! t.levelSet && s.orderSet !! t.orderSet && s.Valid() && t.Valid()
  }

  /** A level just made for one new order. */
  ghost predicate Holds(level: LevelNode, order: OrderNode)
    reads level, order
  {
    && level.side == order.data.side && level.price == order.data.price
    && level.queue == [order] && level.Valid()
  }

  /** addOrder, no level yet (me_order_book.h:210-212). */
  method MakeLevel(order: OrderNode) returns (level: LevelNode)
    modifies order`prev, order`next
    ensures fresh(level) && Holds(level, order)
  {
    order.next, order.prev := order, order;
    level := new LevelNode(order.data.side, order.data.price, order);
  }

  method AddLevelBeside(s: SideLevels, ghost t: SideLevels, level: LevelNode, ghost order: OrderNode) returns (ghost k: nat)
    requires Apart(s, t) && level !in s.levelSet && level !in t.levelSet && Holds(level, order)
    requires order !in s.orderSet && order !in t.orderSet && order.data.side == s.side
    requires forall i :: 0 <= i < |s.vals| ==> s.vals[i] != [] && s.vals[i][0].price != order.data.price
    modifies s, s.levelSet`prev, s.levelSet`next, level`prev, level`next
    ensures Apart(s, t)
    ensures k <= |old(s.vals)| == |old(s.nodes)| == |old(s.levels)|
    ensures s.levels == old(s.levels)[..k] + [level] + old(s.levels)[k..]
    ensures s.nodes == old(s.nodes)[..k] + [[order]] + old(s.nodes)[k..]
    ensures s.vals == old(s.vals)[..k] + [[order.data]] + old(s.vals)[k..]
    ensures Flat(s.vals) == Insert(s.side, Flat(old(s.vals)), order.data)
    ensures s.levelSet == old(s.levelSet) + {level} && s.orderSet == old(s.orderSet) + {order}
  {
    k := s.AddOrdersAtPrice(level, order, order.data);
  }

  method AppendBeside(s: SideLevels, ghost t: SideLevels, level: LevelNode, order: OrderNode, ghost k: nat)
    requires Apart(s, t) && k < |s.levels| && s.levels[k] == level && order !in s.orderSet && order !in t.orderSet
    requires order.data.side == s.side && order.data.price == level.price
    modifies s, level`queue, s.orderSet`prev, s.orderSet`next, order`prev, order`next
    ensures Apart(s, t)
    ensures s.levels == old(s.levels) && s.nodes == old(s.nodes)[k := old(s.nodes)[k] + [order]]
    ensures s.vals == old(s.vals)[k := old(s.vals)[k] + [order.data]]
    ensures s.levelSet == old(s.levelSet) && s.orderSet == old(s.orderSet) + {order}
  {
    s.AppendOrder(level, order, k);
  }

  method RemoveLevelBeside(s: SideLevels, ghost t: SideLevels, level: LevelNode, ghost k: nat)
    requires Apart(s, t) && k < |s.levels| && s.levels[k] == level
    modifies s, s.levelSet`prev, s.levelSet`next
    ensures Apart(s, t) && s.levelSet == old(s.levelSet) && s.orderSet == old(s.orderSet)
    ensures s.levels == old(s.levels)[..k] + old(s.levels)[k + 1..]
    ensures s.nodes == old(s.nodes)[..k] + old(s.nodes)[k + 1..]
    ensures s.vals == old(s.vals)[..k] + old(s.vals)[k + 1..]
  {
    s.RemoveOrdersAtPrice(level, k);
  }

  method RemoveOrderBeside(s: SideLevels, ghost t: SideLevels, level: LevelNode, order: OrderNode, ghost k: nat, ghost j: nat)
    requires Apart(s, t) && k < |s.levels| && s.levels[k] == level && j < |s.nodes[k]| && s.nodes[k][j] == order
    requires |s.nodes[k]| > 1
    modifies s, level`first, level`queue, s.orderSet`prev, s.orderSet`next
    ensures Apart(s, t) && s.levelSet == old(s.levelSet) && s.orderSet == old(s.orderSet)
    ensures s.levels == old(s.levels)
    ensures s.nodes == NodesWithout(old(s.nodes), k, j)
    ensures |old(s.vals)[k]| > 1 && j < |old(s.vals)[k]| && s.vals == Without(old(s.vals), k, j)
  {
    s.RemoveFromLevel(level, order, k, j);
  }

  method ChangeQtyBeside(s: SideLevels, ghost t: SideLevels, order: OrderNode, qty: nat, ghost k: nat, ghost j: nat)
    requires Apart(s, t) && k < |s.levels| && j < |s.nodes[k]| && s.nodes[k][j] == order
    modifies s, order`data
    ensures Apart(s, t) && order.data == old(order.data).(qty := qty)
    ensures s.levels == old(s.levels) && s.nodes == old(s.nodes)
    ensures s.levelSet == old(s.levelSet) && s.orderSet == old(s.orderSet) && j < |old(s.vals)[k]|
    ensures s.vals == Requantify(old(s.vals), k, j, qty)
  {
    s.ChangeQty(order, qty, k, j);
  }

  // ---------------------------------------------------------------------- the book

  class LinkedBook {
    const bids: SideLevels
    const asks: SideLevels
    var levelAt: map<int, LevelNode>
    var orderAt: map<(nat, nat), OrderNode>

    constructor ()
      ensures Valid() && Abs() == EMPTY && orderAt == map[]
      ensures fresh(bids) && fresh(asks)
      ensures bids.levelSet == {} && bids.orderSet == {} && asks.levelSet == {} && asks.orderSet == {}
    {
      bids := new SideLevels(Buy);
      asks := new SideLevels(Sell);
      levelAt, orderAt := map[], map[];
    }

    function OnSide(side: Side): SideLevels {
      if side.Buy? then bids else asks
    }

    /** The book as two sequences in price-time priority. */
    ghost function Abs(): Book
      reads bids, asks
    {
      Book(Flat(bids.vals), Flat(asks.vals))
    }

    /** The index by price is exact for the two sides. */
    ghost predicate Priced(s: SideLevels, t: SideLevels)
      reads `levelAt, s, t
    {
      && LevelsIndexed(levelAt, s.levels, s.vals) && LevelsIndexed(levelAt, t.levels, t.vals)
      && LevelsOnly(levelAt, s.vals, t.vals)
    }

    /** Two well-formed sides, both indices finding everything on them, the index by price nothing
        more. */
    ghost predicate Whole(s: SideLevels, t: SideLevels)
      reads this, s, t, s.levelSet, t.levelSet, s.orderSet, t.orderSet
    {
      Apart(s, t) && AllIndexed(levelAt, orderAt, s.levels, s.nodes, s.vals, t.levels, t.nodes, t.vals)
    }

    lemma WholeSym(s: SideLevels, t: SideLevels)
      requires Whole(s, t)
      ensures Whole(t, s)
    {
    }

    ghost predicate Valid()
      reads this, bids, asks, bids.levelSet, asks.levelSet, bids.orderSet, asks.orderSet
    {
      && bids.side == Buy && asks.side == Sell
      && Whole(bids, asks) && OrdersOnly(orderAt, Abs())
    }

    // -------------------------------------------------------------------- finding an order

    /** Where an order node lives: level i, position j of its side. */
    ghost predicate At(s: SideLevels, n: OrderNode, i: nat, j: nat)
      reads s
    {
      && |s.levels| == |s.nodes| == |s.vals| && i < |s.vals| && |s.nodes[i]| == |s.vals[i]|
      && j < |s.vals[i]| && s.nodes[i][j] == n
    }

    ghost function Position(s: SideLevels, i: nat, j: nat): nat
      requires i < |s.vals|
      reads s
    {
      |Flat(s.vals[..i])| + j
    }

    /** The lookup by (client, order id) agrees with a search of the book. */
    method Lookup(client: nat, coid: nat) returns (n: OrderNode?, ghost side: Side, ghost i: nat, ghost j: nat)
      requires Valid()
      ensures n == null <==> Find(Abs(), client, coid).0.NoSide?
      ensures n != null ==>
                && side == Find(Abs(), client, coid).0 && !side.NoSide?
                && At(OnSide(side), n, i, j)
                && Position(OnSide(side), i, j) == Find(Abs(), client, coid).1
                && n.data == OnSide(side).vals[i][j] == Abs().On(side)[Position(OnSide(side), i, j)]
    {
      side, i, j := Find(Abs(), client, coid).0, 0, 0;
      if (client, coid) in orderAt {
        n := orderAt[(client, coid)];
        i, j := Locate(client, coid);
      } else {
        n := null;
        NotIndexed(client, coid);
      }
    }

    lemma Locate(client: nat, coid: nat) returns (i: nat, j: nat)
      requires Valid() && (client, coid) in orderAt
      ensures var (side, k) := Find(Abs(), client, coid);
              && !side.NoSide? && At(OnSide(side), orderAt[(client, coid)], i, j)
              && Position(OnSide(side), i, j) == k
              && orderAt[(client, coid)].data == OnSide(side).vals[i][j] == Abs().On(side)[k]
    {
      var key := (client, coid);
      FindIffKey(Abs(), key);
      var (side, k) := Find(Abs(), client, coid);
      var s := OnSide(side);
      i, j := FlatIndex(s.vals, k);
      assert KeyOf(s.vals[i][j]) == key;
      assert LevelOK(s.levels[i], s.side, s.nodes[i], s.vals[i]);
    }

    lemma NotIndexed(client: nat, coid: nat)
      requires Valid() && (client, coid) !in orderAt
      ensures Find(Abs(), client, coid).0.NoSide?
    {
      forall side: Side, k | !side.NoSide? && 0 <= k < |Abs().On(side)|
        ensures KeyOf(Abs().On(side)[k]) in orderAt
      {
        var i, j := FlatIndex(OnSide(side).vals, k);
        assert KeyOf(OnSide(side).vals[i][j]) in orderAt;
      }
    }

    // -------------------------------------------------------------------- adding

    method AddToNewLevel(s: SideLevels, ghost t: SideLevels, level: LevelNode, order: OrderNode) returns (ghost k: nat)
      requires Apart(s, t) && Priced(s, t) && order.data.side == s.side
      requires order !in s.orderSet && order !in t.orderSet
      requires level !in s.levelSet && level !in t.levelSet && Holds(level, order)
      requires PriceToIndex(order.data.price) !in levelAt
      modifies `levelAt, s, s.levelSet`prev, s.levelSet`next, level`prev, level`next
      ensures Apart(s, t) && Priced(s, t)
      ensures k <= |old(s.vals)| == |old(s.nodes)|
      ensures s.nodes == old(s.nodes)[..k] + [[order]] + old(s.nodes)[k..]
      ensures s.vals == old(s.vals)[..k] + [[order.data]] + old(s.vals)[k..]
      ensures Flat(s.vals) == Insert(s.side, Flat(old(s.vals)), order.data)
      ensures s.orderSet == old(s.orderSet) + {order} && s.levelSet == old(s.levelSet) + {level}
    {
      ghost var lv, v := s.levels, s.vals;
      k := AddLevelBeside(s, t, level, order);
      FileLevel(s, t, level, order.data.price, lv, v, k);
    }

    /** The index by price takes the new level (me_order_book.h:89-90). */
    method FileLevel(s: SideLevels, ghost t: SideLevels, level: LevelNode, price: int,
                     ghost lv: seq<LevelNode>, ghost v: seq<seq<Order>>, ghost k: nat)
      requires Apart(s, t) && k <= |v| == |lv| && |s.vals| == |v| + 1
      requires s.levels == lv[..k] + [level] + lv[k..] && s.vals == v[..k] + [s.vals[k]] + v[k..]
      requires |s.vals[k]| == 1 && s.vals[k][0].price == price
      requires LevelsIndexed(levelAt, lv, v) && LevelsIndexed(levelAt, t.levels, t.vals) && LevelsOnly(levelAt, v, t.vals)
      requires PriceToIndex(price) !in levelAt
      modifies `levelAt
      ensures Apart(s, t) && Priced(s, t)
    {
      assert s.vals[k] == [s.vals[k][0]];
      NewLevelIndexed(levelAt, lv, v, t.vals, t.levels, k, level, s.vals[k][0]);
      levelAt := levelAt[PriceToIndex(price) := level];
    }

    method AddToLevel(s: SideLevels, ghost t: SideLevels, order: OrderNode) returns (ghost k: nat)
      requires Apart(s, t) && Priced(s, t) && order.data.side == s.side
      requires order !in s.orderSet && order !in t.orderSet
      requires PriceToIndex(order.data.price) in levelAt
      requires SlotFits(Flat(s.vals), s.side, order.data.price) && SlotFits(Flat(t.vals), s.side, order.data.price)
      requires t.side != s.side
      modifies s, s.levelSet`queue, s.orderSet`prev, s.orderSet`next, order`prev, order`next
      ensures Apart(s, t) && Priced(s, t)
      ensures k < |old(s.vals)| == |old(s.nodes)|
      ensures s.nodes == old(s.nodes)[k := old(s.nodes)[k] + [order]]
      ensures s.vals == old(s.vals)[k := old(s.vals)[k] + [order.data]]
      ensures Flat(s.vals) == Insert(s.side, Flat(old(s.vals)), order.data)
      ensures s.orderSet == old(s.orderSet) + {order} && s.levelSet == old(s.levelSet)
    {
      ghost var v := s.vals;
      var level := levelAt[PriceToIndex(order.data.price)];
      k := FindLevel(s, t, order.data.price);
      AppendInserts(s.side, v, order.data, k);
      SameLevelsIndexed(levelAt, s.levels, v, t.vals, k, v[k] + [order.data]);
      AppendBeside(s, t, level, order, k);
    }

    method SetOrderAt(oa: map<(nat, nat), OrderNode>, ghost s: SideLevels, ghost t: SideLevels)
      requires Apart(s, t) && Priced(s, t)
      requires OrdersIndexed(oa, s.nodes, s.vals) && OrdersIndexed(oa, t.nodes, t.vals)
      modifies `orderAt
      ensures orderAt == oa && Whole(s, t)
    {
      orderAt := oa;
    }

    /** addOrder (me_order_book.h:206-223) when the price has no level yet. */
    method AddFirst(s: SideLevels, ghost t: SideLevels, level: LevelNode, order: OrderNode)
      requires Whole(s, t) && order.data.side == s.side
      requires order !in s.orderSet && order !in t.orderSet && KeyOf(order.data) !in orderAt
      requires level !in s.levelSet && level !in t.levelSet && Holds(level, order)
      requires PriceToIndex(order.data.price) !in levelAt
      modifies this, s, s.levelSet`prev, s.levelSet`next, level`prev, level`next
      ensures Whole(s, t) && orderAt == old(orderAt)[KeyOf(order.data) := order]
      ensures Flat(s.vals) == Insert(s.side, Flat(old(s.vals)), order.data)
      ensures s.orderSet == old(s.orderSet) + {order} && s.levelSet == old(s.levelSet) + {level}
    {
      ghost var q, v := s.nodes, s.vals;
      ghost var k := AddToNewLevel(s, t, level, order);
      NewLevelKeyed(orderAt, q, v, k, order, order.data);
      FreshKeyIndexed(orderAt, t.nodes, t.vals, KeyOf(order.data), order);
      SetOrderAt(orderAt[KeyOf(order.data) := order], s, t);
    }

    /** addOrder (me_order_book.h:206-223) when the price has a level. */
    method AddNext(s: SideLevels, ghost t: SideLevels, order: OrderNode)
      requires Whole(s, t) && order.data.side == s.side != t.side
      requires order !in s.orderSet && order !in t.orderSet && KeyOf(order.data) !in orderAt
      requires PriceToIndex(order.data.price) in levelAt
      requires SlotFits(Flat(s.vals), s.side, order.data.price) && SlotFits(Flat(t.vals), s.side, order.data.price)
      modifies this, s, s.levelSet`queue, s.orderSet`prev, s.orderSet`next, order`prev, order`next
      ensures Whole(s, t) && orderAt == old(orderAt)[KeyOf(order.data) := order]
      ensures Flat(s.vals) == Insert(s.side, Flat(old(s.vals)), order.data)
      ensures s.orderSet == old(s.orderSet) + {order} && s.levelSet == old(s.levelSet)
    {
      ghost var q, v := s.nodes, s.vals;
      ghost var k := AddToLevel(s, t, order);
      AppendKeyed(orderAt, q, v, k, order, order.data);
      FreshKeyIndexed(orderAt, t.nodes, t.vals, KeyOf(order.data), order);
      SetOrderAt(orderAt[KeyOf(order.data) := order], s, t);
    }

    method AddOn(s: SideLevels, ghost t: SideLevels, order: OrderNode)
      requires Whole(s, t) && order.data.side == s.side != t.side
      requires order !in s.orderSet && order !in t.orderSet && KeyOf(order.data) !in orderAt
      requires SlotFits(Flat(s.vals), s.side, order.data.price) && SlotFits(Flat(t.vals), s.side, order.data.price)
      modifies this, s, s.levelSet, s.orderSet`prev, s.orderSet`next, order`prev, order`next
      ensures Whole(s, t) && orderAt == old(orderAt)[KeyOf(order.data) := order]
      ensures Flat(s.vals) == Insert(s.side, Flat(old(s.vals)), order.data)
      ensures s.orderSet == old(s.orderSet) + {order} && fresh(s.levelSet - old(s.levelSet))
    {
      if PriceToIndex(order.data.price) !in levelAt {
        var level := MakeLevelBeside(order, s, t);
        AddFirst(s, t, level, order);
      } else {
        AddNext(s, t, order);
      }
    }

    method MakeLevelBeside(order: OrderNode, ghost s: SideLevels, ghost t: SideLevels) returns (level: LevelNode)
      requires Whole(s, t) && order !in s.orderSet && order !in t.orderSet
      modifies order`prev, order`next
      ensures Whole(s, t) && fresh(level) && Holds(level, order)
    {
      level := MakeLevel(order);
    }

    /** When an order fits, the level in its slot is the level of its side and price. */
    lemma FindLevel(s: SideLevels, t: SideLevels, price: int) returns (k: nat)
      requires Apart(s, t) && Priced(s, t) && t.side != s.side && PriceToIndex(price) in levelAt
      requires SlotFits(Flat(s.vals), s.side, price) && SlotFits(Flat(t.vals), s.side, price)
      ensures k < |s.levels| && s.levels[k] == levelAt[PriceToIndex(price)]
      ensures s.levels[k].price == price == s.vals[k][0].price
    {
      SlotIsFit(t, s.side, price);
      assert !HasSlot(t.vals, PriceToIndex(price));
      assert HasSlot(s.vals, PriceToIndex(price));
      k :| 0 <= k < |s.vals| && s.vals[k] != [] && Slot(s.vals[k]) == PriceToIndex(price);
      SlotIsFit(s, s.side, price);
      s.LevelsSorted();
    }

    lemma SlotIsFit(s: SideLevels, side: Side, price: int)
      requires s.Valid() && SlotFits(Flat(s.vals), side, price)
      ensures forall i :: 0 <= i < |s.vals| && s.vals[i] != [] && Slot(s.vals[i]) == PriceToIndex(price) ==>
                s.vals[i][0].price == price && s.side == side
    {
      forall i | 0 <= i < |s.vals| && s.vals[i] != [] && Slot(s.vals[i]) == PriceToIndex(price)
        ensures s.vals[i][0].price == price && s.side == side
      {
        FlatAt(s.vals, i, 0);
        assert LevelOK(s.levels[i], s.side, s.nodes[i], s.vals[i]);
      }
    }

    /** Well formed, and this book. */
    ghost predicate Shows(b: Book)
      reads this, bids, asks, bids.levelSet, asks.levelSet, bids.orderSet, asks.orderSet
    {
      Valid() && Abs() == b
    }

    /** The book is what it was with one more order in its price-time place. */
    ghost predicate Gained(b: Book, oa: map<(nat, nat), OrderNode>, o: Order, order: OrderNode)
      reads this, bids, asks, bids.levelSet, asks.levelSet, bids.orderSet, asks.orderSet
    {
      Shows(b.With(o.side, Insert(o.side, b.On(o.side), o))) && orderAt == oa[KeyOf(o) := order]
    }

    /** Whatever has joined the structure is newly allocated. */
    twostate predicate OnlyNewNodes()
      reads bids, asks
    {
      && (forall l :: l in bids.levelSet ==> l in old(bids.levelSet) || fresh(l))
      && (forall l :: l in asks.levelSet ==> l in old(asks.levelSet) || fresh(l))
      && (forall n :: n in bids.orderSet ==> n in old(bids.orderSet) || fresh(n))
      && (forall n :: n in asks.orderSet ==> n in old(asks.orderSet) || fresh(n))
    }

    /** Levels that have joined are newly allocated, and this is the only order that has. */
    twostate predicate OnlyJoined(order: OrderNode)
      reads bids, asks
    {
      && fresh(bids.levelSet - old(bids.levelSet)) && fresh(asks.levelSet - old(asks.levelSet))
      && bids.orderSet <= old(bids.orderSet) + {order} && asks.orderSet <= old(asks.orderSet) + {order}
    }

    /** addOrder (me_order_book.h:206-223). */
    method AddOrder(order: OrderNode)
      requires Valid() && !order.data.side.NoSide?
      requires order !in bids.orderSet && order !in asks.orderSet
      requires KeyOf(order.data) !in orderAt && Fits(Abs(), order.data.side, order.data.price)
      modifies this, bids, asks, bids.levelSet, asks.levelSet
      modifies bids.orderSet`prev, bids.orderSet`next, asks.orderSet`prev, asks.orderSet`next, order`prev, order`next
      ensures Gained(old(Abs()), old(orderAt), order.data, order) && OnlyJoined(order)
    {
      if order.data.side.Buy? {
        AddBid(order);
      } else {
        AddAsk(order);
      }
    }

    /** A node for the order is allocated and added. */
    method AddNew(o: Order)
      requires Valid() && !o.side.NoSide? && Find(Abs(), o.client, o.coid).0.NoSide? && Fits(Abs(), o.side, o.price)
      modifies this, bids, asks, bids.levelSet, asks.levelSet
      modifies bids.orderSet`prev, bids.orderSet`next, asks.orderSet`prev, asks.orderSet`next
      ensures Shows(old(Abs()).With(o.side, Insert(o.side, old(Abs()).On(o.side), o))) && OnlyNewNodes()
    {
      FindIffKey(Abs(), KeyOf(o));
      assert KeyOf(o) !in orderAt;
      var order := new OrderNode(o);
      AddOrder(order);
    }

    method AddBid(order: OrderNode)
      requires Valid() && order.data.side == Buy
      requires order !in bids.orderSet && order !in asks.orderSet && KeyOf(order.data) !in orderAt
      requires Fits(Abs(), Buy, order.data.price)
      modifies this, bids, bids.levelSet, bids.orderSet`prev, bids.orderSet`next, order`prev, order`next
      ensures Gained(old(Abs()), old(orderAt), order.data, order) && OnlyJoined(order)
    {
      ghost var after := Abs().With(Buy, Insert(Buy, Abs().bids, order.data));
      AddedOrderOnly(orderAt, Abs(), order.data, order);
      AddOn(bids, asks, order);
      assert Abs() == after;
    }

    method AddAsk(order: OrderNode)
      requires Valid() && order.data.side == Sell
      requires order !in bids.orderSet && order !in asks.orderSet && KeyOf(order.data) !in orderAt
      requires Fits(Abs(), Sell, order.data.price)
      modifies this, asks, asks.levelSet, asks.orderSet`prev, asks.orderSet`next, order`prev, order`next
      ensures Gained(old(Abs()), old(orderAt), order.data, order) && OnlyJoined(order)
    {
      ghost var after := Abs().With(Sell, Insert(Sell, Abs().asks, order.data));
      AddedOrderOnly(orderAt, Abs(), order.data, order);
      WholeSym(bids, asks);
      AddOn(asks, bids, order);
      WholeSym(asks, bids);
      assert Abs() == after;
    }

    // -------------------------------------------------------------------- removing

    /** An order node stands in one place only. */
    lemma OnePlace(s: SideLevels, t: SideLevels, i: nat, j: nat)
      requires Apart(s, t) && i < |s.nodes| && j < |s.nodes[i]|
      ensures OnlyAt(s.nodes, s.nodes[i][j], i, j) && Nowhere(t.nodes, s.nodes[i][j])
    {
      s.QueuesDisjoint(i);
      var n := s.nodes[i][j];
      assert LevelOK(s.levels[i], s.side, s.nodes[i], s.vals[i]);
      forall a, b | 0 <= a < |s.nodes| && 0 <= b < |s.nodes[a]| && s.nodes[a][b] == n
        ensures a == i && b == j
      {
        assert n in s.nodes[i];
      }
      assert n in s.orderSet;
    }

    /** The level of a live order is the one its price slot holds, and the order is alone in it exactly
        when it is its own predecessor. */
    lemma LevelOf(s: SideLevels, t: SideLevels, i: nat, j: nat)
      requires Apart(s, t) && Priced(s, t) && i < |s.nodes| && j < |s.nodes[i]|
      ensures |s.vals[i]| == |s.nodes[i]|
      ensures var n := s.nodes[i][j];
              && PriceToIndex(n.data.price) in levelAt && levelAt[PriceToIndex(n.data.price)] == s.levels[i]
              && PriceToIndex(n.data.price) == Slot(s.vals[i]) && n.data == s.vals[i][j]
              && (n.prev == n <==> |s.nodes[i]| == 1)
    {
      assert LevelOK(s.levels[i], s.side, s.nodes[i], s.vals[i]);
      RingNeighbours(s.nodes[i], j);
    }

    method SetIndices(la: map<int, LevelNode>, oa: map<(nat, nat), OrderNode>, ghost s: SideLevels, ghost t: SideLevels)
      requires Apart(s, t) && AllIndexed(la, oa, s.levels, s.nodes, s.vals, t.levels, t.nodes, t.vals)
      modifies `levelAt, `orderAt
      ensures levelAt == la && orderAt == oa && Whole(s, t)
    {
      levelAt, orderAt := la, oa;
    }

    lemma AloneReady(s: SideLevels, t: SideLevels, i: nat)
      requires Whole(s, t) && i < |s.nodes| && |s.nodes[i]| == |s.vals[i]| == 1
      ensures AllIndexed(levelAt - {Slot(s.vals[i])}, orderAt - {KeyOf(s.vals[i][0])},
                         s.levels[..i] + s.levels[i + 1..], s.nodes[..i] + s.nodes[i + 1..], s.vals[..i] + s.vals[i + 1..],
                         t.levels, t.nodes, t.vals)
    {
      OnePlace(s, t, i, 0);
      AloneGone(levelAt, orderAt, s.levels, s.nodes, s.vals, t.levels, t.nodes, t.vals, i);
    }

    lemma OneReady(s: SideLevels, t: SideLevels, i: nat, j: nat)
      requires Whole(s, t) && i < |s.nodes| && j < |s.nodes[i]| && |s.nodes[i]| == |s.vals[i]| > 1
      ensures AllIndexed(levelAt, orderAt - {KeyOf(s.vals[i][j])}, s.levels, NodesWithout(s.nodes, i, j),
                         Without(s.vals, i, j), t.levels, t.nodes, t.vals)
    {
      OnePlace(s, t, i, j);
      OneGone(levelAt, orderAt, s.levels, s.nodes, s.vals, t.levels, t.nodes, t.vals, i, j);
    }

    /** removeOrder, alone in its level: the level goes too (me_order_book.h:185-187). */
    method RemoveAlone(s: SideLevels, ghost t: SideLevels, level: LevelNode, order: OrderNode, ghost i: nat)
      requires Whole(s, t) && i < |s.nodes| && s.nodes[i] == [order] && s.levels[i] == level
      requires |s.vals[i]| == 1 && Slot(s.vals[i]) == PriceToIndex(order.data.price) && KeyOf(order.data) == KeyOf(s.vals[i][0])
      modifies this, s, s.levelSet`prev, s.levelSet`next
      ensures Whole(s, t) && orderAt == old(orderAt - {KeyOf(order.data)})
      ensures s.vals == Without(old(s.vals), i, 0)
      ensures s.orderSet == old(s.orderSet) && s.levelSet == old(s.levelSet)
    {
      AloneReady(s, t, i);
      var la, oa := levelAt - {PriceToIndex(order.data.price)}, orderAt - {KeyOf(order.data)};
      DetachLevel(s, t, level, i, la, oa);
      SetIndices(la, oa, s, t);
    }

    method DetachLevel(s: SideLevels, ghost t: SideLevels, level: LevelNode, ghost i: nat,
                       ghost la: map<int, LevelNode>, ghost oa: map<(nat, nat), OrderNode>)
      requires Apart(s, t) && i < |s.vals| == |s.nodes| == |s.levels| && s.levels[i] == level
      requires AllIndexed(la, oa, s.levels[..i] + s.levels[i + 1..], s.nodes[..i] + s.nodes[i + 1..],
                          s.vals[..i] + s.vals[i + 1..], t.levels, t.nodes, t.vals)
      modifies s, s.levelSet`prev, s.levelSet`next
      ensures Apart(s, t) && AllIndexed(la, oa, s.levels, s.nodes, s.vals, t.levels, t.nodes, t.vals)
      ensures s.vals == old(s.vals)[..i] + old(s.vals)[i + 1..]
      ensures s.orderSet == old(s.orderSet) && s.levelSet == old(s.levelSet)
    {
      RemoveLevelBeside(s, t, level, i);
    }

    /** removeOrder, others stay in its level (me_order_book.h:188-198). */
    method RemoveOneOf(s: SideLevels, ghost t: SideLevels, level: LevelNode, order: OrderNode, ghost i: nat, ghost j: nat)
      requires Whole(s, t) && i < |s.nodes| && j < |s.nodes[i]| && s.nodes[i][j] == order && s.levels[i] == level
      requires |s.nodes[i]| > 1 && |s.vals[i]| == |s.nodes[i]| && KeyOf(order.data) == KeyOf(s.vals[i][j])
      modifies this, s, level`first, level`queue, s.orderSet`prev, s.orderSet`next
      ensures Whole(s, t) && orderAt == old(orderAt - {KeyOf(order.data)})
      ensures |old(s.vals)[i]| > 1 && j < |old(s.vals)[i]| && s.vals == Without(old(s.vals), i, j)
      ensures s.orderSet == old(s.orderSet) && s.levelSet == old(s.levelSet)
    {
      OneReady(s, t, i, j);
      var la, oa := levelAt, orderAt - {KeyOf(order.data)};
      Detach(s, t, level, order, i, j, la, oa);
      SetIndices(la, oa, s, t);
    }

    method Detach(s: SideLevels, ghost t: SideLevels, level: LevelNode, order: OrderNode, ghost i: nat, ghost j: nat,
                  ghost la: map<int, LevelNode>, ghost oa: map<(nat, nat), OrderNode>)
      requires Apart(s, t) && i < |s.nodes| && j < |s.nodes[i]| && s.nodes[i][j] == order && s.levels[i] == level
      requires |s.vals[i]| == |s.nodes[i]| > 1
      requires AllIndexed(la, oa, s.levels, NodesWithout(s.nodes, i, j), Without(s.vals, i, j), t.levels, t.nodes, t.vals)
      modifies s, level`first, level`queue, s.orderSet`prev, s.orderSet`next
      ensures Apart(s, t) && AllIndexed(la, oa, s.levels, s.nodes, s.vals, t.levels, t.nodes, t.vals)
      ensures s.vals == Without(old(s.vals), i, j) && s.orderSet == old(s.orderSet) && s.levelSet == old(s.levelSet)
    {
      RemoveOrderBeside(s, t, level, order, i, j);
    }

    method RemoveOn(s: SideLevels, ghost t: SideLevels, order: OrderNode, ghost i: nat, ghost j: nat)
      requires Whole(s, t) && At(s, order, i, j)
      modifies this, s, s.levelSet, s.orderSet`prev, s.orderSet`next
      ensures Whole(s, t) && orderAt == old(orderAt - {KeyOf(order.data)})
      ensures i < |old(s.vals)| && j < |old(s.vals)[i]| && s.vals == Without(old(s.vals), i, j)
      ensures s.orderSet == old(s.orderSet) && s.levelSet == old(s.levelSet)
    {
      LevelOf(s, t, i, j);
      var level := levelAt[PriceToIndex(order.data.price)];
      if order.prev == order {
        RemoveAlone(s, t, level, order, i);
      } else {
        RemoveOneOf(s, t, level, order, i, j);
      }
    }

    /** The book is what it was without the k-th order of one side. */
    ghost predicate Lost(b: Book, oa: map<(nat, nat), OrderNode>, side: Side, k: nat)
      requires k < |b.On(side)|
      reads this, bids, asks, bids.levelSet, asks.levelSet, bids.orderSet, asks.orderSet
    {
      Shows(b.With(side, RemoveAt(b.On(side), k))) && orderAt == oa - {KeyOf(b.On(side)[k])}
    }

    twostate predicate SameNodes()
      reads bids, asks
    {
      && bids.orderSet == old(bids.orderSet) && asks.orderSet == old(asks.orderSet)
      && bids.levelSet == old(bids.levelSet) && asks.levelSet == old(asks.levelSet)
    }

    lemma Placed(side: Side, order: OrderNode, i: nat, j: nat)
      requires OnSide(side).Valid() && OnSide(side).side == side && !side.NoSide? && At(OnSide(side), order, i, j)
      ensures order.data.side == side && Position(OnSide(side), i, j) < |Abs().On(side)|
      ensures order.data == OnSide(side).vals[i][j] == Abs().On(side)[Position(OnSide(side), i, j)]
    {
      var s := OnSide(side);
      assert LevelOK(s.levels[i], side, s.nodes[i], s.vals[i]);
      FlatAt(s.vals, i, j);
    }

    lemma RemovalFacts(side: Side, order: OrderNode, i: nat, j: nat)
      requires OrdersOnly(orderAt, Abs()) && Layered(side, OnSide(side).vals)
      requires !side.NoSide? && At(OnSide(side), order, i, j) && order.data == OnSide(side).vals[i][j]
      ensures var b, k, vs := Abs(), Position(OnSide(side), i, j), OnSide(side).vals;
              && k < |b.On(side)| && b.On(side)[k] == order.data
              && Flat(Without(vs, i, j)) == RemoveAt(b.On(side), k)
              && OrdersOnly(orderAt - {KeyOf(order.data)}, b.With(side, RemoveAt(b.On(side), k)))
    {
      RemovalSeen(orderAt, Abs(), side, OnSide(side).vals, i, j);
    }

    lemma ChangeFacts(side: Side, qty: nat, i: nat, j: nat)
      requires OrdersOnly(orderAt, Abs()) && Layered(side, OnSide(side).vals)
      requires !side.NoSide? && i < |OnSide(side).vals| && j < |OnSide(side).vals[i]|
      ensures Position(OnSide(side), i, j) < |Abs().On(side)|
      ensures Flat(Requantify(OnSide(side).vals, i, j, qty)) == Amend(Abs().On(side), Position(OnSide(side), i, j), qty)
      ensures OrdersOnly(orderAt, Abs().With(side, Amend(Abs().On(side), Position(OnSide(side), i, j), qty)))
    {
      ChangeSeen(orderAt, Abs(), side, OnSide(side).vals, i, j, qty);
    }

    /** removeOrder (me_order_book.h:182-202): exactly this order leaves the book. */
    method RemoveOrder(order: OrderNode, ghost side: Side, ghost i: nat, ghost j: nat, ghost k: nat)
      requires Valid() && !side.NoSide? && At(OnSide(side), order, i, j) && k == Position(OnSide(side), i, j)
      modifies this, bids, asks, bids.levelSet, asks.levelSet
      modifies bids.orderSet`prev, bids.orderSet`next, asks.orderSet`prev, asks.orderSet`next
      ensures k < |old(Abs()).On(side)| && Lost(old(Abs()), old(orderAt), side, k) && SameNodes()
    {
      Placed(side, order, i, j);
      if order.data.side.Buy? {
        RemoveBid(order, i, j);
      } else {
        RemoveAsk(order, i, j);
      }
    }

    method RemoveBid(order: OrderNode, ghost i: nat, ghost j: nat)
      requires Valid() && At(bids, order, i, j)
      modifies this, bids, bids.levelSet, bids.orderSet`prev, bids.orderSet`next
      ensures old(Position(bids, i, j)) < |old(Abs()).bids|
      ensures Lost(old(Abs()), old(orderAt), Buy, old(Position(bids, i, j))) && SameNodes()
    {
      Placed(Buy, order, i, j);
      RemovalFacts(Buy, order, i, j);
      RemoveOn(bids, asks, order, i, j);
    }

    method RemoveAsk(order: OrderNode, ghost i: nat, ghost j: nat)
      requires Valid() && At(asks, order, i, j)
      modifies this, asks, asks.levelSet, asks.orderSet`prev, asks.orderSet`next
      ensures old(Position(asks, i, j)) < |old(Abs()).asks|
      ensures Lost(old(Abs()), old(orderAt), Sell, old(Position(asks, i, j))) && SameNodes()
    {
      Placed(Sell, order, i, j);
      RemovalFacts(Sell, order, i, j);
      WholeSym(bids, asks);
      RemoveOn(asks, bids, order, i, j);
      WholeSym(asks, bids);
    }

    // -------------------------------------------------------------------- changing a quantity

    method ChangeOn(s: SideLevels, ghost t: SideLevels, order: OrderNode, qty: nat, ghost i: nat, ghost j: nat)
      requires Whole(s, t) && At(s, order, i, j)
      modifies s, order`data
      ensures Whole(s, t) && order.data == old(order.data).(qty := qty)
      ensures s.orderSet == old(s.orderSet) && s.levelSet == old(s.levelSet) && s.nodes == old(s.nodes)
      ensures i < |old(s.vals)| && j < |old(s.vals)[i]|
      ensures s.vals == Requantify(old(s.vals), i, j, qty)
    {
      ghost var v: seq<seq<Order>> := s.vals;
      ChangeKeyed(orderAt, s.nodes, v, i, j, v[i][j].(qty := qty));
      SameLevelsIndexed(levelAt, s.levels, v, t.vals, i, v[i][j := v[i][j].(qty := qty)]);
      ChangeQtyBeside(s, t, order, qty, i, j);
    }

    /** The book is what it was with another quantity on the k-th order of one side. */
    ghost predicate Requantified(b: Book, oa: map<(nat, nat), OrderNode>, side: Side, k: nat, qty: nat)
      requires k < |b.On(side)|
      reads this, bids, asks, bids.levelSet, asks.levelSet, bids.orderSet, asks.orderSet
    {
      Shows(b.With(side, Amend(b.On(side), k, qty))) && orderAt == oa
    }

    lemma ChangedPosition(s: SideLevels, vs: seq<seq<Order>>, i: nat, j: nat, qty: nat)
      requires i < |vs| && j < |vs[i]| && s.vals == Requantify(vs, i, j, qty)
      ensures Position(s, i, j) == |Flat(vs[..i])| + j
    {
      assert s.vals[..i] == vs[..i];
    }

    /** A resting order's quantity changes and it keeps its place. */
    method SetOrderQty(order: OrderNode, qty: nat, ghost side: Side, ghost i: nat, ghost j: nat, ghost k: nat)
      requires Valid() && !side.NoSide? && At(OnSide(side), order, i, j) && k == Position(OnSide(side), i, j)
      modifies bids, asks, order`data
      ensures k < |old(Abs()).On(side)|
      ensures Requantified(old(Abs()), old(orderAt), side, k, qty)
      ensures At(OnSide(side), order, i, j) && Position(OnSide(side), i, j) == k
      ensures order.data == old(order.data).(qty := qty) && SameNodes()
    {
      Placed(side, order, i, j);
      if order.data.side.Buy? {
        SetBidQty(order, qty, i, j);
      } else {
        SetAskQty(order, qty, i, j);
      }
    }

    method SetBidQty(order: OrderNode, qty: nat, ghost i: nat, ghost j: nat)
      requires Valid() && At(bids, order, i, j)
      modifies bids, order`data
      ensures old(Position(bids, i, j)) < |old(Abs()).bids|
      ensures Requantified(old(Abs()), old(orderAt), Buy, old(Position(bids, i, j)), qty)
      ensures At(bids, order, i, j) && Position(bids, i, j) == old(Position(bids, i, j))
      ensures order.data == old(order.data).(qty := qty) && SameNodes()
    {
      ghost var vs: seq<seq<Order>> := bids.vals;
      ChangeFacts(Buy, qty, i, j);
      ChangeOn(bids, asks, order, qty, i, j);
      ChangedPosition(bids, vs, i, j, qty);
    }

    method SetAskQty(order: OrderNode, qty: nat, ghost i: nat, ghost j: nat)
      requires Valid() && At(asks, order, i, j)
      modifies asks, order`data
      ensures old(Position(asks, i, j)) < |old(Abs()).asks|
      ensures Requantified(old(Abs()), old(orderAt), Sell, old(Position(asks, i, j)), qty)
      ensures At(asks, order, i, j) && Position(asks, i, j) == old(Position(asks, i, j))
      ensures order.data == old(order.data).(qty := qty) && SameNodes()
    {
      ghost var vs: seq<seq<Order>> := asks.vals;
      ChangeFacts(Sell, qty, i, j);
      WholeSym(bids, asks);
      ChangeOn(asks, bids, order, qty, i, j);
      WholeSym(asks, bids);
      ChangedPosition(asks, vs, i, j, qty);
    }
  }
}
