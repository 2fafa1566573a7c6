/** One side of the pointer structure that MEOrderBook (exchange/matcher/me_order_book.h:85-223) and
    its client mirror MarketOrderBook (trading/strategy/market_order_book.h:98-221) share: a ring of
    price levels sorted best first, each holding a FIFO ring of orders. */
module PriceLevels {
  import opened Types
  import opened PriceTime
  import opened Rings
  import opened Flatten

  /** Level node `l` is a well-formed FIFO ring through the nodes `q`, holding the orders `v`, all on
      `side` at its price. */
  ghost predicate LevelOK(l: LevelNode, side: Side, q: seq<OrderNode>, v: seq<Order>)
    reads l`side, l`price, l`first, l`queue, l.queue
  {
    && l.Valid() && l.side == side && l.queue == q && |v| == |q|
    && forall j :: 0 <= j < |v| ==> q[j].data == v[j] && v[j].price == l.price && v[j].side == side
  }

  class SideLevels {
    const side: Side
    var head: LevelNode?
    ghost var levels: seq<LevelNode>
    ghost var nodes: seq<seq<OrderNode>>
    ghost var vals: seq<seq<Order>>
    ghost var levelSet: set<LevelNode>
    ghost var orderSet: set<OrderNode>

    constructor (side: Side)
      requires !side.NoSide?
      ensures Valid() && this.side == side && vals == [] && levelSet == {} && orderSet == {}
    {
      this.side, head := side, null;
      levels, nodes, vals, levelSet, orderSet := [], [], [], {}, {};
    }

    ghost predicate Owned()
      reads `levels, `nodes, `vals, `levelSet, `orderSet
    {
      && !side.NoSide? && |levels| == |nodes| == |vals|
      && (forall i :: 0 <= i < |levels| ==> levels[i] in levelSet)
      && (forall i, j :: 0 <= i < |nodes| && 0 <= j < |nodes[i]| ==> nodes[i][j] in orderSet)
    }

    ghost predicate Chained()
      reads `head, `levels, `levelSet, levelSet`prev, levelSet`next
    {
      && (forall i :: 0 <= i < |levels| ==> levels[i] in levelSet)
      && Distinct(levels)
      && (head == null <==> levels == [])
      && (levels != [] ==> head == levels[0] && LevelRing(levels))
    }

    ghost predicate Stocked()
      requires Owned()
      reads `levels, `nodes, `vals, `levelSet, `orderSet
      reads levelSet`side, levelSet`price, levelSet`first, levelSet`queue, orderSet
    {
      forall i :: 0 <= i < |levels| ==> levels[i].queue == nodes[i] && LevelOK(levels[i], side, nodes[i], vals[i])
    }

    ghost predicate Valid()
      reads this, levelSet, orderSet
    {
      Owned() && Chained() && Stocked() && Layered(side, vals)
    }

    /** Levels carry the prices of their orders, so they are strictly sorted too. */
    lemma LevelsSorted()
      requires Owned() && Stocked() && Layered(side, vals)
      ensures forall i :: 0 <= i < |levels| ==> levels[i].price == vals[i][0].price
      ensures forall i, j :: 0 <= i < j < |levels| ==> Better(side, levels[i].price, levels[j].price)
    {
      forall i | 0 <= i < |levels|
        ensures levels[i].price == vals[i][0].price
      {
        assert LevelOK(levels[i], side, nodes[i], vals[i]);
        assert UniformLevel(vals[i]);
      }
      forall i, j | 0 <= i < j < |levels|
        ensures Better(side, levels[i].price, levels[j].price)
      {
        assert Better(side, vals[i][0].price, vals[j][0].price);
      }
    }

    /** The side forgets its levels (trading/strategy/market_order_book.cpp:79-95). */
    method Drop()
      modifies `head, `levels, `nodes, `vals
      ensures levels == [] && nodes == [] && vals == [] && head == null
    {
      head := null;
      levels, nodes, vals := [], [], [];
    }

    // -------------------------------------------------------------------- a new level

    /** addOrdersAtPrice (me_order_book.h:92-140). */
    method AddOrdersAtPrice(level: LevelNode, ghost n: OrderNode, ghost o: Order) returns (ghost k: nat)
      requires Valid() && level !in levelSet && level.side == side && level.queue == [n] && n.data == o
      requires level.Valid() && n !in orderSet && o.side == side && o.price == level.price
      requires forall i :: 0 <= i < |vals| ==> vals[i][0].price != level.price
      modifies this, levelSet`prev, levelSet`next, level`prev, level`next
      ensures Valid()
      ensures k <= |old(vals)|
      ensures levels == old(levels)[..k] + [level] + old(levels)[k..]
      ensures nodes == old(nodes)[..k] + [[n]] + old(nodes)[k..]
      ensures vals == old(vals)[..k] + [[o]] + old(vals)[k..]
      ensures Flat(vals) == Insert(side, Flat(old(vals)), o)
      ensures levelSet == old(levelSet) + {level} && orderSet == old(orderSet) + {n}
    {
      k := Place(level, o);
      Enlist(level, n, o, k);
    }

    /** The side's levels with `level` linked in at k, before the bookkeeping follows. */
    ghost predicate LinkedAt(level: LevelNode, k: nat)
      requires k <= |levels|
      reads `head, `levels, levels`prev, levels`next, level`prev, level`next
    {
      var s := levels[..k] + [level] + levels[k..];
      Distinct(s) && LevelRing(s) && head == s[0]
    }

    method Place(level: LevelNode, ghost o: Order) returns (ghost k: nat)
      requires Valid() && level !in levelSet && level.side == side && o.price == level.price
      requires forall i :: 0 <= i < |vals| ==> vals[i][0].price != level.price
      modifies `head, levelSet`prev, levelSet`next, level`prev, level`next
      ensures k <= |levels| && Owned() && Stocked() && LinkedAt(level, k)
      ensures var v := vals[..k] + [[o]] + vals[k..];
              Layered(side, v) && Flat(v) == Insert(side, Flat(vals), o)
    {
      k := LinkInOrder(level);
      PlacedWell(level, o, k);
    }

    method LinkInOrder(level: LevelNode) returns (ghost k: nat)
      requires Valid() && level !in levelSet && level.side == side
      requires forall i :: 0 <= i < |vals| ==> vals[i][0].price != level.price
      modifies `head, levelSet`prev, levelSet`next, level`prev, level`next
      ensures k <= |levels| && Owned() && Stocked() && LinkedAt(level, k)
      ensures forall i :: 0 <= i < k ==> Better(side, levels[i].price, level.price)
      ensures k < |levels| ==> Better(side, level.price, levels[k].price)
    {
      LevelsSorted();
      k := LinkLevel(level);
    }

    lemma PlacedWell(level: LevelNode, o: Order, k: nat)
      requires Owned() && Stocked() && Layered(side, vals) && k <= |levels| && o.price == level.price
      requires forall i :: 0 <= i < k ==> Better(side, levels[i].price, level.price)
      requires k < |levels| ==> Better(side, level.price, levels[k].price)
      ensures var v := vals[..k] + [[o]] + vals[k..];
              Layered(side, v) && Flat(v) == Insert(side, Flat(vals), o)
    {
      LevelsSorted();
      NewLevelInserts(side, vals, o, k);
    }

    /** Ghost bookkeeping for a level that has been linked in. */
    ghost method Enlist(level: LevelNode, n: OrderNode, o: Order, k: nat)
      requires Owned() && Stocked() && k <= |levels| && level !in levelSet && level.side == side
      requires level.Valid() && level.queue == [n] && n.data == o && n !in orderSet && o.side == side && o.price == level.price
      modifies `levels, `nodes, `vals, `levelSet, `orderSet
      ensures levels == old(levels)[..k] + [level] + old(levels)[k..]
      ensures nodes == old(nodes)[..k] + [[n]] + old(nodes)[k..]
      ensures vals == old(vals)[..k] + [[o]] + old(vals)[k..]
      ensures levelSet == old(levelSet) + {level} && orderSet == old(orderSet) + {n}
      ensures Owned() && Stocked()
    {
      var lv, q, v := levels, nodes, vals;
      levels, nodes, vals, levelSet, orderSet :=
        lv[..k] + [level] + lv[k..], q[..k] + [[n]] + q[k..], v[..k] + [[o]] + v[k..],
        levelSet + {level}, orderSet + {n};
      forall i | 0 <= i < |levels|
        ensures levels[i] in levelSet && levels[i].queue == nodes[i] && LevelOK(levels[i], side, nodes[i], vals[i])
        ensures forall j :: 0 <= j < |nodes[i]| ==> nodes[i][j] in orderSet
      {
        if i != k {
          var i' := if i < k then i else i - 1;
          assert levels[i] == lv[i'] && nodes[i] == q[i'] && vals[i] == v[i'];
          assert LevelOK(lv[i'], side, q[i'], v[i']);
        }
      }
    }

    /** The relinking: the new level takes its sorted place in the ring. */
    method LinkLevel(level: LevelNode) returns (ghost k: nat)
      requires Owned() && Chained() && level !in levels && level.side == side
      requires forall i, j :: 0 <= i < j < |levels| ==> Better(side, levels[i].price, levels[j].price)
      requires forall i :: 0 <= i < |levels| ==> levels[i].price != level.price
      modifies `head, levels`prev, levels`next, level`prev, level`next
      ensures k <= |levels|
      ensures forall i :: 0 <= i < k ==> Better(side, levels[i].price, level.price)
      ensures k < |levels| ==> Better(side, level.price, levels[k].price)
      ensures LinkedAt(level, k)
    {
      var best := head;
      if best == null {
        head := level;
        level.prev, level.next := level, level;
        k := 0;
        assert levels[..0] + [level] + levels[0..] == [level];
      } else {
        var target, after;
        target, after, k := FindTarget(level, best, levels);
        if after {
          LinkLast(level, target, best);
        } else {
          assert Better(side, level.price, best.price) <==> k == 0;
          LinkBefore(level, target, best, k);
        }
      }
    }

    method LinkLast(level: LevelNode, found: LevelNode, best: LevelNode)
      requires Owned() && Chained() && level !in levels && levels != [] && found == best == levels[0]
      modifies levels`prev, levels`next, level`prev, level`next
      ensures LinkedAt(level, |levels|)
    {
      var target := found;
      if target == best {
        target := best.prev;
      }
      InsertLevelAfter(level, target, levels);
      assert levels[..|levels|] + [level] + levels[|levels|..] == levels + [level];
    }

    method LinkBefore(level: LevelNode, target: LevelNode, best: LevelNode, ghost k: nat)
      requires Owned() && Chained() && level !in levels && k < |levels| && target == levels[k] && best == levels[0]
      requires Better(side, level.price, best.price) <==> k == 0
      modifies `head, levels`prev, levels`next, level`prev, level`next
      ensures LinkedAt(level, k)
    {
      InsertLevelBefore(level, target, levels, k);
      if Better(side, level.price, best.price) {
        assert levels[..k] + [level] + levels[k..] == [level] + levels;
        Promote(level, target, best);
      }
    }

    /** me_order_book.h:136-138: the new best level becomes the head; its successor's link is right
        already. */
    method Promote(level: LevelNode, target: LevelNode, best: LevelNode)
      requires levels != [] && Distinct([level] + levels) && LevelRing([level] + levels) && target == best == levels[0]
      modifies `head, target`next
      ensures head == level && LevelRing([level] + levels)
    {
      ghost var s := [level] + levels;
      assert s[1] == target && s[0] == level;
      assert target.next == (if |s| == 2 then s[0] else s[2]);
      target.next := if target.next == best then level else target.next;
      head := level;
    }

    /** The walk of addOrdersAtPrice (me_order_book.h:105-117). */
    method FindTarget(level: LevelNode, best: LevelNode, ghost s: seq<LevelNode>)
      returns (target: LevelNode, after: bool, ghost k: nat)
      requires s != [] && best == s[0] && Distinct(s) && LevelRing(s)
      requires forall i, j :: 0 <= i < j < |s| ==> Better(side, s[i].price, s[j].price)
      requires forall i :: 0 <= i < |s| ==> s[i].price != level.price
      ensures k <= |s|
      ensures forall i :: 0 <= i < k ==> Better(side, s[i].price, level.price)
      ensures k < |s| ==> Better(side, level.price, s[k].price)
      ensures after <==> k == |s|
      ensures target == if after then best else s[k]
    {
      target, k := best, 0;
      after := Better(side, target.price, level.price);
      if after {
        LevelNeighbours(s, 0);
        target, k := target.next, 1;
        after := Better(side, target.price, level.price);
      }
      while after && target != best
        invariant 0 <= k <= |s|
        invariant target == if k == |s| then best else s[k]
        invariant forall i :: 0 <= i < k ==> Better(side, s[i].price, level.price)
        invariant k > 0 || !after
        invariant !after ==> k < |s| && Better(side, level.price, s[k].price)
        decreases |s| - k, after
      {
        after := Better(side, target.price, level.price);
        if after {
          LevelNeighbours(s, k);
          target, k := target.next, k + 1;
        }
      }
    }

    // -------------------------------------------------------------------- an order in a level

    /** Different levels share no order node, because their prices differ. */
    lemma QueuesDisjoint(k: nat)
      requires Owned() && Stocked() && Layered(side, vals) && k < |levels|
      ensures forall i, j :: 0 <= i < |nodes| && i != k && 0 <= j < |nodes[i]| ==> nodes[i][j] !in nodes[k]
    {
      LevelsSorted();
      forall i, j | 0 <= i < |nodes| && i != k && 0 <= j < |nodes[i]|
        ensures nodes[i][j] !in nodes[k]
      {
        assert LevelOK(levels[i], side, nodes[i], vals[i]) && LevelOK(levels[k], side, nodes[k], vals[k]);
        assert nodes[i][j].data.price == levels[i].price;
        assert Better(side, levels[i].price, levels[k].price) || Better(side, levels[k].price, levels[i].price);
        assert forall m :: 0 <= m < |nodes[k]| ==> nodes[k][m].data.price == levels[k].price;
      }
    }

    /** Every level but the k-th still holds what the bookkeeping says. */
    ghost predicate StockedExcept(k: nat)
      requires Owned()
      reads `levels, `nodes, `vals, `levelSet, `orderSet
      reads levelSet`side, levelSet`price, levelSet`first, levelSet`queue, orderSet
    {
      forall i :: 0 <= i < |levels| && i != k ==>
        levels[i].queue == nodes[i] && LevelOK(levels[i], side, nodes[i], vals[i])
    }

    /** Ghost bookkeeping when only level k's queue has changed. */
    ghost method Restock(k: nat, q: seq<OrderNode>, v: seq<Order>, added: set<OrderNode>)
      requires Owned() && k < |levels| && StockedExcept(k)
      requires levels[k].queue == q && LevelOK(levels[k], side, q, v)
      requires forall j :: 0 <= j < |q| ==> q[j] in orderSet + added
      modifies `nodes, `vals, `orderSet
      ensures nodes == old(nodes)[k := q] && vals == old(vals)[k := v] && orderSet == old(orderSet) + added
      ensures Owned() && Stocked()
    {
      nodes, vals, orderSet := nodes[k := q], vals[k := v], orderSet + added;
    }

    /** The k-th level's orders have been relinked or changed; the other levels have not noticed. */
    twostate lemma OthersKept(k: nat)
      requires old(Owned()) && old(Stocked()) && k < |levels|
      requires levels == old(levels) && nodes == old(nodes) && vals == old(vals)
      requires levelSet == old(levelSet) && orderSet == old(orderSet)
      requires forall i :: 0 <= i < |levels| && i != k ==>
                 levels[i].side == old(levels[i].side) && levels[i].price == old(levels[i].price) &&
                 levels[i].first == old(levels[i].first) && levels[i].queue == old(levels[i].queue)
      requires forall i, j :: 0 <= i < |nodes| && i != k && 0 <= j < |nodes[i]| ==>
                 nodes[i][j].data == old(nodes[i][j].data) && nodes[i][j].prev == old(nodes[i][j].prev) &&
                 nodes[i][j].next == old(nodes[i][j].next)
      ensures StockedExcept(k)
    {
      forall i | 0 <= i < |levels| && i != k
        ensures levels[i].queue == nodes[i] && LevelOK(levels[i], side, nodes[i], vals[i])
      {
        assert old(LevelOK(levels[i], side, nodes[i], vals[i]));
      }
    }

    /** addOrder, level present (me_order_book.h:215-219). */
    method AppendOrder(level: LevelNode, order: OrderNode, ghost k: nat)
      requires Valid() && k < |levels| && levels[k] == level && order !in orderSet
      requires order.data.side == side && order.data.price == level.price
      modifies `nodes, `vals, `orderSet, level`queue, orderSet`prev, orderSet`next, order`prev, order`next
      ensures Valid()
      ensures nodes == old(nodes)[k := old(nodes)[k] + [order]]
      ensures vals == old(vals)[k := old(vals)[k] + [order.data]]
      ensures orderSet == old(orderSet) + {order}
    {
      AppendLayered(k, order.data);
      PushBack(level, order, k);
      Restock(k, nodes[k] + [order], vals[k] + [order.data], {order});
    }

    lemma AppendLayered(k: nat, o: Order)
      requires Owned() && Stocked() && Layered(side, vals) && k < |levels| && o.price == levels[k].price
      ensures Layered(side, vals[k := vals[k] + [o]])
    {
      LevelsSorted();
      AppendInserts(side, vals, o, k);
    }

    method PushBack(level: LevelNode, order: OrderNode, ghost k: nat)
      requires Owned() && Stocked() && Layered(side, vals) && k < |levels| && levels[k] == level && order !in orderSet
      requires Distinct(levels)
      requires order.data.side == side && order.data.price == level.price
      modifies level`queue, orderSet`prev, orderSet`next, order`prev, order`next
      ensures StockedExcept(k)
      ensures level.queue == nodes[k] + [order] && LevelOK(level, side, nodes[k] + [order], vals[k] + [order.data])
    {
      QueuesDisjoint(k);
      assert LevelOK(level, side, nodes[k], vals[k]);
      level.Append(order);
      OthersKept(k);
    }

    /** removeOrder, when others remain in the level (me_order_book.h:189-197). */
    method RemoveFromLevel(level: LevelNode, order: OrderNode, ghost k: nat, ghost j: nat)
      requires Valid() && k < |levels| && levels[k] == level && j < |nodes[k]| && nodes[k][j] == order && |nodes[k]| > 1
      modifies `nodes, `vals, `orderSet, level`first, level`queue, orderSet`prev, orderSet`next
      ensures Valid()
      ensures nodes == old(nodes)[k := old(nodes)[k][..j] + old(nodes)[k][j + 1..]]
      ensures |old(vals)[k]| > 1 && vals == Without(old(vals), k, j) && orderSet == old(orderSet)
    {
      RemovalLayered(k, j);
      TakeOut(level, order, k, j);
      assert Chained();
      Restock(k, level.queue, RemoveAt(vals[k], j), {});
      assert Layered(side, vals);
    }

    lemma RemovalLayered(k: nat, j: nat)
      requires Owned() && Stocked() && Layered(side, vals) && k < |levels| && j < |nodes[k]| && |nodes[k]| > 1
      ensures |vals[k]| == |nodes[k]| && Layered(side, vals[k := RemoveAt(vals[k], j)])
      ensures vals[k := RemoveAt(vals[k], j)] == Without(vals, k, j)
    {
      assert LevelOK(levels[k], side, nodes[k], vals[k]);
      RemovalRemoves(side, vals, k, j);
    }

    method TakeOut(level: LevelNode, order: OrderNode, ghost k: nat, ghost j: nat)
      requires Owned() && Stocked() && Layered(side, vals) && Distinct(levels)
      requires k < |levels| && levels[k] == level && j < |nodes[k]| && nodes[k][j] == order && |nodes[k]| > 1
      requires |vals[k]| == |nodes[k]|
      modifies level`first, level`queue, orderSet`prev, orderSet`next
      ensures StockedExcept(k)
      ensures level.queue == nodes[k][..j] + nodes[k][j + 1..] && LevelOK(level, side, level.queue, RemoveAt(vals[k], j))
      ensures forall i :: 0 <= i < |level.queue| ==> level.queue[i] in orderSet
    {
      QueuesDisjoint(k);
      assert LevelOK(level, side, nodes[k], vals[k]);
      level.Unlink(order, j);
      OthersKept(k);
    }

    /** The quantity of a resting order changes in place and it keeps its position
        (me_order_book.cpp:36, market_order_book.cpp:56). */
    method ChangeQty(order: OrderNode, qty: nat, ghost k: nat, ghost j: nat)
      requires Valid() && k < |levels| && j < |nodes[k]| && nodes[k][j] == order
      modifies `nodes, `vals, `orderSet, order`data
      ensures Valid() && order.data == old(order.data).(qty := qty)
      ensures nodes == old(nodes) && orderSet == old(orderSet) && j < |old(vals)[k]|
      ensures vals == old(vals)[k := old(vals)[k][j := old(vals)[k][j].(qty := qty)]]
    {
      assert LevelOK(levels[k], side, nodes[k], vals[k]);
      ghost var v := vals[k][j := vals[k][j].(qty := qty)];
      ChangeChanges(side, vals, k, j, vals[k][j].(qty := qty));
      Reprice(order, qty, k, j);
      Restock(k, nodes[k], v, {});
    }

    method Reprice(order: OrderNode, qty: nat, ghost k: nat, ghost j: nat)
      requires Owned() && Stocked() && Layered(side, vals)
      requires k < |levels| && j < |nodes[k]| && nodes[k][j] == order && |vals[k]| == |nodes[k]|
      modifies order`data
      ensures order.data == old(order.data).(qty := qty) && StockedExcept(k)
      ensures levels[k].queue == nodes[k] && LevelOK(levels[k], side, nodes[k], vals[k][j := vals[k][j].(qty := qty)])
    {
      QueuesDisjoint(k);
      assert LevelOK(levels[k], side, nodes[k], vals[k]);
      order.data := order.data.(qty := qty);
      OthersKept(k);
    }

    // -------------------------------------------------------------------- a level goes

    /** removeOrdersAtPrice (me_order_book.h:144-160). */
    method RemoveOrdersAtPrice(level: LevelNode, ghost k: nat)
      requires Valid() && k < |levels| && levels[k] == level
      modifies `head, `levels, `nodes, `vals, levelSet`prev, levelSet`next
      ensures Valid() && levelSet == old(levelSet) && orderSet == old(orderSet)
      ensures levels == old(levels)[..k] + old(levels)[k + 1..]
      ensures nodes == old(nodes)[..k] + old(nodes)[k + 1..]
      ensures vals == old(vals)[..k] + old(vals)[k + 1..]
    {
      LayeredRemove(side, vals, k);
      UnchainLevel(level, k);
      Delist(k);
    }

    ghost predicate UnlinkedAt(k: nat)
      requires k < |levels|
      reads `head, `levels, levels`prev, levels`next
    {
      var s := levels[..k] + levels[k + 1..];
      && Distinct(s) && (s == [] <==> head == null)
      && (s != [] ==> LevelRing(s) && head == s[0])
    }

    method UnchainLevel(level: LevelNode, ghost k: nat)
      requires Chained() && k < |levels| && levels[k] == level
      modifies `head, levels`prev, levels`next
      ensures UnlinkedAt(k)
    {
      LevelNeighbours(levels, k);
      var best := head;
      if level.next == level {
        assert |levels| == 1;
        head := null;
      } else {
        assert |levels| > 1;
        var next := level.next;
        UnlinkLevel(level, levels, k);
        if level == best {
          head := next;
        }
      }
    }

    ghost method Delist(k: nat)
      requires Owned() && Stocked() && k < |levels|
      modifies `levels, `nodes, `vals
      ensures levels == old(levels)[..k] + old(levels)[k + 1..]
      ensures nodes == old(nodes)[..k] + old(nodes)[k + 1..]
      ensures vals == old(vals)[..k] + old(vals)[k + 1..]
      ensures Owned() && Stocked()
    {
      var lv, q, v := levels, nodes, vals;
      levels, nodes, vals := lv[..k] + lv[k + 1..], q[..k] + q[k + 1..], v[..k] + v[k + 1..];
      forall i | 0 <= i < |levels|
        ensures levels[i] in levelSet && levels[i].queue == nodes[i] && LevelOK(levels[i], side, nodes[i], vals[i])
        ensures forall j :: 0 <= j < |nodes[i]| ==> nodes[i][j] in orderSet
      {
        var i' := if i < k then i else i + 1;
        assert levels[i] == lv[i'] && nodes[i] == q[i'] && vals[i] == v[i'];
        assert LevelOK(lv[i'], side, q[i'], v[i']);
      }
    }
  }
}
