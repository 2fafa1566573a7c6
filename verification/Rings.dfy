/** The two intrusive circular lists of an order book (exchange/matcher/me_order.h): the FIFO ring
    of orders at one price and the ring of price levels of one side. */
module Rings {
  import opened Types

  class OrderNode {
    var data: Order
    var prev: OrderNode?
    var next: OrderNode?

    constructor (data: Order)
      ensures this.data == data && prev == null && next == null
    {
      this.data := data;
      prev, next := null, null;
    }
  }

  class LevelNode {
    var side: Side
    var price: int
    var first: OrderNode
    var prev: LevelNode?
    var next: LevelNode?
    ghost var queue: seq<OrderNode>

    constructor (side: Side, price: int, first: OrderNode)
      ensures this.side == side && this.price == price && this.first == first
      ensures prev == null && next == null && queue == [first]
    {
      this.side, this.price, this.first := side, price, first;
      prev, next, queue := null, null, [first];
    }

    /** The queue is a circular doubly linked list that starts at `first`. */
    ghost predicate Valid()
      reads `first, `queue, queue`prev, queue`next
    {
      && queue != [] && first == queue[0]
      && Distinct(queue) && OrderRing(queue)
    }

    /** addOrder, non-empty level (me_order_book.h:215-219). */
    method Append(order: OrderNode)
      requires Valid() && order !in queue
      modifies `queue, queue`prev, queue`next, order`prev, order`next
      ensures Valid() && queue == old(queue) + [order]
    {
      assert first.prev == queue[|queue| - 1];
      first.prev.next := order;
      order.prev := first.prev;
      order.next := first;
      first.prev := order;
      queue := queue + [order];
    }

    /** removeOrder, when it is not alone in its level (me_order_book.h:189-197). */
    method Unlink(order: OrderNode, ghost k: nat)
      requires Valid() && |queue| > 1 && k < |queue| && queue[k] == order
      modifies `first, `queue, queue`prev, queue`next
      ensures Valid() && queue == old(queue)[..k] + old(queue)[k + 1..]
    {
      RingNeighbours(queue, k);
      var after := order.next;
      UnlinkOrder(order, queue, k);
      if first == order {
        first := after;
      }
      queue := queue[..k] + queue[k + 1..];
    }
  }

  method UnlinkOrder(order: OrderNode, ghost q: seq<OrderNode>, ghost k: nat)
    requires |q| > 1 && k < |q| && Distinct(q) && OrderRing(q) && order == q[k]
    modifies q`prev, q`next
    ensures Distinct(q[..k] + q[k + 1..]) && OrderRing(q[..k] + q[k + 1..])
  {
    RingNeighbours(q, k);
    order.prev.next := order.next;
    order.next.prev := order.prev;
    order.prev, order.next := null, null;
    ghost var r := q[..k] + q[k + 1..];
    assert forall i :: 0 <= i < |r| ==> r[i] == q[if i < k then i else i + 1];
  }

  ghost predicate OrderRing(q: seq<OrderNode>)
    requires q != []
    reads q`prev, q`next
  {
    && (forall i {:trigger q[i].next} :: 0 <= i < |q| - 1 ==> q[i].next == q[i + 1])
    && (forall i {:trigger q[i].prev} :: 0 < i < |q| ==> q[i].prev == q[i - 1])
    && q[|q| - 1].next == q[0] && q[0].prev == q[|q| - 1]
  }

  lemma RingNeighbours(q: seq<OrderNode>, k: nat)
    requires q != [] && k < |q| && OrderRing(q)
    ensures q[k].prev == q[if k == 0 then |q| - 1 else k - 1]
    ensures q[k].next == q[if k == |q| - 1 then 0 else k + 1]
  {
  }

  ghost predicate LevelRing(s: seq<LevelNode>)
    requires s != []
    reads s`prev, s`next
  {
    && (forall i {:trigger s[i].next} :: 0 <= i < |s| - 1 ==> s[i].next == s[i + 1])
    && (forall i {:trigger s[i].prev} :: 0 < i < |s| ==> s[i].prev == s[i - 1])
    && s[|s| - 1].next == s[0] && s[0].prev == s[|s| - 1]
  }

  lemma LevelNeighbours(s: seq<LevelNode>, k: nat)
    requires s != [] && k < |s| && LevelRing(s)
    ensures s[k].prev == s[if k == 0 then |s| - 1 else k - 1]
    ensures s[k].next == s[if k == |s| - 1 then 0 else k + 1]
  {
  }

  /** addOrdersAtPrice, worse than every level: insert after the last (me_order_book.h:121-125). */
  method InsertLevelAfter(level: LevelNode, target: LevelNode, ghost s: seq<LevelNode>)
    requires s != [] && Distinct(s) && LevelRing(s) && target == s[|s| - 1] && level !in s
    modifies s`prev, s`next, level`prev, level`next
    ensures Distinct(s + [level]) && LevelRing(s + [level])
  {
    level.prev := target;
    target.next.prev := level;
    level.next := target.next;
    target.next := level;
  }

  /** addOrdersAtPrice, better than `target` and than nothing before it (me_order_book.h:128-131). */
  method InsertLevelBefore(level: LevelNode, target: LevelNode, ghost s: seq<LevelNode>, ghost k: nat)
    requires k < |s| && Distinct(s) && LevelRing(s) && target == s[k] && level !in s
    modifies s`prev, s`next, level`prev, level`next
    ensures Distinct(s[..k] + [level] + s[k..]) && LevelRing(s[..k] + [level] + s[k..])
  {
    LevelNeighbours(s, k);
    level.prev := target.prev;
    level.next := target;
    target.prev.next := level;
    target.prev := level;
  }

  /** removeOrdersAtPrice, when it is not the only level of its side (me_order_book.h:152-159). */
  method UnlinkLevel(level: LevelNode, ghost s: seq<LevelNode>, ghost k: nat)
    requires |s| > 1 && k < |s| && Distinct(s) && LevelRing(s) && level == s[k]
    modifies s`prev, s`next
    ensures Distinct(s[..k] + s[k + 1..]) && LevelRing(s[..k] + s[k + 1..])
  {
    LevelNeighbours(s, k);
    level.prev.next := level.next;
    level.next.prev := level.prev;
    level.prev, level.next := null, null;
  }
}
