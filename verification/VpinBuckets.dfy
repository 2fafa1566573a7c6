/** What the closed buckets of the volume clock say of the tape (trading/strategy/vpin.h:9-13): lay all trades end
    to end along one axis of volume; bucket i is then the stretch from i to i + 1 bucket sizes, and its
    imbalance is the difference between what was bought and what was sold on that stretch. */
module VpinBuckets {
  import opened Vpin

  datatype Trade = Trade(qty: real, isBuy: bool)

  function Size(t: Trade): real {
    if t.qty <= 0.0 then 0.0 else t.qty
  }

  function Total(tape: seq<Trade>): real {
    if tape == [] then 0.0 else Total(tape[..|tape| - 1]) + Size(tape[|tape| - 1])
  }

  /** The part of a stretch of length `qty` that lies below x. */
  function Part(x: real, qty: real): real {
    if x <= 0.0 then 0.0 else if x <= qty then x else qty
  }

  /** Bought less sold on the first v of volume. */
  function Net(tape: seq<Trade>, v: real): real {
    if tape == [] then 0.0
    else
      var front, t := tape[..|tape| - 1], tape[|tape| - 1];
      var part := Part(v - Total(front), Size(t));
      Net(front, v) + if t.isBuy then part else -part
  }

  /** The state after a tape. */
  function TradedAll(tape: seq<Trade>, size: real): (c: Clock)
    requires size > 0.0
    ensures Running(c, size)
  {
    if tape == [] then START
    else Traded(TradedAll(tape[..|tape| - 1], size), tape[|tape| - 1].qty, tape[|tape| - 1].isBuy, size)
  }

  // ---------------------------------------------------------------------- the axis of volume

  lemma NetSnoc(tape: seq<Trade>, t: Trade, v: real)
    ensures Total(tape + [t]) == Total(tape) + Size(t)
    ensures var part := Part(v - Total(tape), Size(t)); Net(tape + [t], v) == Net(tape, v) + if t.isBuy then part else -part
  {
    assert (tape + [t])[..|tape|] == tape;
  }

  /** Beyond the end of the tape there is nothing more. */
  lemma {:induction false} NetBeyond(tape: seq<Trade>, v: real)
    requires v >= Total(tape)
    ensures Net(tape, v) == Net(tape, Total(tape))
    decreases |tape|
  {
    if tape != [] {
      var front := tape[..|tape| - 1];
      NetBeyond(front, v);
      NetBeyond(front, Total(tape));
    }
  }

  /** A trade in two pieces covers the same stretch. */
  lemma NetSplit(tape: seq<Trade>, a: real, b: real, isBuy: bool, v: real)
    requires a >= 0.0 && b >= 0.0
    ensures Net(tape + [Trade(a, isBuy)] + [Trade(b, isBuy)], v) == Net(tape + [Trade(a + b, isBuy)], v)
    ensures Total(tape + [Trade(a, isBuy)] + [Trade(b, isBuy)]) == Total(tape + [Trade(a + b, isBuy)])
  {
    NetSnoc(tape, Trade(a, isBuy), v);
    NetSnoc(tape + [Trade(a, isBuy)], Trade(b, isBuy), v);
    NetSnoc(tape, Trade(a + b, isBuy), v);
  }

  // ---------------------------------------------------------------------- the buckets

  /** The imbalance times the bucket size is the difference, without its sign, between what was bought and what
      was sold on bucket i's stretch. */
  ghost predicate BucketIs(x: real, tape: seq<Trade>, i: nat, size: real) {
    var d := Net(tape, Times(i + 1, size)) - Net(tape, Times(i, size));
    x * size == if d >= 0.0 then d else -d
  }

  /** All closed buckets and the open one are what the tape says. */
  ghost predicate Tells(c: Clock, tape: seq<Trade>, size: real) {
    && Times(|c.closed|, size) <= Total(tape) && c.buy + c.sell == Total(tape) - Times(|c.closed|, size)
    && c.buy - c.sell == Net(tape, Total(tape)) - Net(tape, Times(|c.closed|, size))
    && forall i :: 0 <= i < |c.closed| ==> BucketIs(c.closed[i], tape, i, size)
  }

  lemma {:induction false} TimesGrows(n: nat, m: nat, size: real)
    requires n <= m && size > 0.0
    ensures Times(n, size) <= Times(m, size)
    decreases m
  {
    if n < m {
      TimesGrows(n, m - 1, size);
    }
  }

  /** What a longer tape says of the stretch before the new trade is unchanged. */
  lemma NetBefore(tape: seq<Trade>, t: Trade, v: real)
    requires v <= Total(tape)
    ensures Net(tape + [t], v) == Net(tape, v)
  {
    NetSnoc(tape, t, v);
  }

  lemma BucketStays(x: real, tape: seq<Trade>, t: Trade, i: nat, n: nat, size: real)
    requires BucketIs(x, tape, i, size) && i < n && size > 0.0 && Times(n, size) <= Total(tape)
    ensures BucketIs(x, tape + [t], i, size)
  {
    TimesGrows(i, n, size);
    TimesGrows(i + 1, n, size);
    NetBefore(tape, t, Times(i, size));
    NetBefore(tape, t, Times(i + 1, size));
  }

  lemma PourTells(c: Clock, tape: seq<Trade>, qty: real, isBuy: bool, size: real)
    requires Tells(c, tape, size) && size > 0.0 && qty >= 0.0
    ensures Tells(Poured(c, qty, isBuy), tape + [Trade(qty, isBuy)], size)
  {
    var t, n := Trade(qty, isBuy), |c.closed|;
    NetSnoc(tape, t, Total(tape) + qty);
    NetBeyond(tape, Total(tape) + qty);
    NetBefore(tape, t, Times(n, size));
    forall i | 0 <= i < n
      ensures BucketIs(c.closed[i], tape + [t], i, size)
    {
      BucketStays(c.closed[i], tape, t, i, n, size);
    }
  }

  lemma ImbalanceTimes(buy: real, sell: real, size: real)
    requires size > 0.0
    ensures Imbalance(buy, sell, size) * size == if buy >= sell then buy - sell else sell - buy
  {
    QuotientTimes(AbsReal(buy - sell), size);
  }

  lemma OneBucketMore(c: Clock, x: real, tape: seq<Trade>, size: real)
    requires Tells(c, tape, size) && c.Filled() == size
    requires x * size == if c.buy >= c.sell then c.buy - c.sell else c.sell - c.buy
    ensures Tells(Clock(0.0, 0.0, c.closed + [x]), tape, size)
  {
    assert Times(|c.closed| + 1, size) == Total(tape);
    assert BucketIs(x, tape, |c.closed|, size);
  }

  lemma ShutTells(c: Clock, tape: seq<Trade>, size: real)
    requires Tells(c, tape, size) && size > 0.0 && c.Filled() == size
    ensures Tells(Shut(c, size), tape, size)
  {
    ImbalanceTimes(c.buy, c.sell, size);
    OneBucketMore(c, Imbalance(c.buy, c.sell, size), tape, size);
  }

  lemma SameTape(c: Clock, tape: seq<Trade>, tape': seq<Trade>, size: real)
    requires Tells(c, tape, size) && Total(tape') == Total(tape) && forall v: real :: Net(tape', v) == Net(tape, v)
    ensures Tells(c, tape', size)
  {
    forall i | 0 <= i < |c.closed|
      ensures BucketIs(c.closed[i], tape', i, size)
    {
      assert BucketIs(c.closed[i], tape, i, size);
    }
  }

  lemma NothingTraded(c: Clock, tape: seq<Trade>, t: Trade, size: real)
    requires Tells(c, tape, size) && t.qty <= 0.0
    ensures Tells(c, tape + [t], size)
  {
    forall v: real
      ensures Net(tape + [t], v) == Net(tape, v)
    {
      NetSnoc(tape, t, v);
    }
    NetSnoc(tape, t, 0.0);
    SameTape(c, tape, tape + [t], size);
  }

  lemma {:induction false} TradeTells(c: Clock, tape: seq<Trade>, qty: real, isBuy: bool, size: real)
    requires Running(c, size) && Tells(c, tape, size)
    ensures Tells(Traded(c, qty, isBuy, size), tape + [Trade(qty, isBuy)], size)
    decreases if qty > 0.0 && c.Filled() + qty >= size then Fills(c, qty, size) + 1 else 0
  {
    var room := size - c.Filled();
    if qty <= 0.0 {
      NothingTraded(c, tape, Trade(qty, isBuy), size);
    } else if qty < room {
      PourTells(c, tape, qty, isBuy, size);
    } else {
      FullIsBalanced(c, room, isBuy, size);
      OneFewer(c.Filled() + qty, size);
      PourTells(c, tape, room, isBuy, size);
      var p, poured := Poured(c, room, isBuy), tape + [Trade(room, isBuy)];
      ShutTells(p, poured, size);
      var rest := qty - room;
      TradeTells(Shut(p, size), poured, rest, isBuy, size);
      Together(Traded(c, qty, isBuy, size), tape, room, rest, qty, isBuy, size);
    }
  }

  lemma Together(c: Clock, tape: seq<Trade>, a: real, b: real, qty: real, isBuy: bool, size: real)
    requires a >= 0.0 && b >= 0.0 && a + b == qty && Tells(c, tape + [Trade(a, isBuy)] + [Trade(b, isBuy)], size)
    ensures Tells(c, tape + [Trade(qty, isBuy)], size)
  {
    var pieces := tape + [Trade(a, isBuy)] + [Trade(b, isBuy)];
    forall v: real
      ensures Net(tape + [Trade(qty, isBuy)], v) == Net(pieces, v)
    {
      NetSplit(tape, a, b, isBuy, v);
    }
    NetSplit(tape, a, b, isBuy, 0.0);
    SameTape(c, pieces, tape + [Trade(qty, isBuy)], size);
  }

  /** Over every tape: bucket i closes at |bought - sold| over its size, counted on the volume between i and i + 1
      sizes, however trades straddle it; and the open bucket holds what has been bought and sold since. */
  lemma {:induction false} BucketsTell(tape: seq<Trade>, size: real)
    requires size > 0.0
    ensures Tells(TradedAll(tape, size), tape, size)
    decreases |tape|
  {
    if tape != [] {
      var front, t := tape[..|tape| - 1], tape[|tape| - 1];
      BucketsTell(front, size);
      TradeTells(TradedAll(front, size), front, t.qty, t.isBuy, size);
      assert tape == front + [Trade(t.qty, t.isBuy)];
    }
  }
}
