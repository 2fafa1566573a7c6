/** VPIN's volume clock (trading/strategy/vpin.h): trades are poured into buckets of equal volume, and
    the value is the mean imbalance of the last kWindow full buckets. Doubles are modelled as reals. */
module Vpin {
  import RingQueue

  /** The bucket being filled and the imbalances of all full ones, oldest first. */
  datatype Clock = Clock(buy: real, sell: real, closed: seq<real>) {
    function Filled(): real {
      buy + sell
    }
  }

  const START: Clock := Clock(0.0, 0.0, [])

  function AbsReal(x: real): real {
    if x < 0.0 then -x else x
  }

  function Imbalance(buy: real, sell: real, size: real): real
    requires size > 0.0
  {
    AbsReal(buy - sell) / size
  }

  /** Part of a trade goes into the bucket. */
  function Poured(c: Clock, qty: real, isBuy: bool): Clock {
    if isBuy then c.(buy := c.buy + qty) else c.(sell := c.sell + qty)
  }

  /** closeBucket. */
  function Shut(c: Clock, size: real): Clock
    requires size > 0.0
  {
    Clock(0.0, 0.0, c.closed + [Imbalance(c.buy, c.sell, size)])
  }

  ghost predicate Running(c: Clock, size: real) {
    && size > 0.0 && 0.0 <= c.buy && 0.0 <= c.sell && c.Filled() < size
    && forall i :: 0 <= i < |c.closed| ==> 0.0 <= c.closed[i] <= 1.0
  }

  /** How many buckets a trade will fill. */
  function Fills(c: Clock, qty: real, size: real): int
    requires size > 0.0
  {
    ((c.Filled() + qty) / size).Floor
  }

  lemma QuotientIs(a: real, b: real, c: real)
    requires b > 0.0 && a == c * b
    ensures a / b == c
  {
  }

  lemma QuotientTimes(a: real, b: real)
    requires b > 0.0
    ensures (a / b) * b == a && (a >= b ==> a / b >= 1.0)
  {
  }

  lemma OneFewer(x: real, size: real)
    requires size > 0.0 && x >= size
    ensures ((x - size) / size).Floor == (x / size).Floor - 1 >= 0
  {
    QuotientTimes(x, size);
    MinusOne(x / size, size);
    QuotientIs(x - size, size, x / size - 1.0);
  }

  lemma MinusOne(y: real, size: real)
    ensures (y - 1.0) * size == y * size - size
  {
  }

  lemma FullIsBalanced(c: Clock, qty: real, isBuy: bool, size: real)
    requires Running(c, size) && c.Filled() + qty == size && qty >= 0.0
    ensures var p := Poured(c, qty, isBuy); 0.0 <= Imbalance(p.buy, p.sell, size) <= 1.0
    ensures Running(Shut(Poured(c, qty, isBuy), size), size)
  {
    var p := Poured(c, qty, isBuy);
    var d := AbsReal(p.buy - p.sell);
    assert 0.0 <= d <= size;
    DividedWithin(d, size);
  }

  lemma DividedWithin(d: real, size: real)
    requires 0.0 <= d <= size && size > 0.0
    ensures 0.0 <= d / size <= 1.0
  {
  }

  /** onTrade. */
  function Traded(c: Clock, qty: real, isBuy: bool, size: real): (r: Clock)
    requires Running(c, size)
    ensures Running(r, size)
    decreases if qty > 0.0 && c.Filled() + qty >= size then Fills(c, qty, size) + 1 else 0
  {
    if qty <= 0.0 then c
    else
      var room := size - c.Filled();
      if qty < room then Poured(c, qty, isBuy)
      else
        FullIsBalanced(c, room, isBuy, size);
        OneFewer(c.Filled() + qty, size);
        Traded(Shut(Poured(c, room, isBuy), size), qty - room, isBuy, size)
  }

  // ---------------------------------------------------------------------- laws

  /** The volume of n full buckets. */
  function Times(n: nat, size: real): real {
    if n == 0 then 0.0 else Times(n - 1, size) + size
  }

  /** All the volume that has gone in. */
  function Volume(c: Clock, size: real): real {
    Times(|c.closed|, size) + c.Filled()
  }

  /** Volume is conserved across full buckets and the open one. */
  lemma {:induction false} VolumeConserved(c: Clock, qty: real, isBuy: bool, size: real)
    requires Running(c, size) && qty >= 0.0
    ensures Volume(Traded(c, qty, isBuy, size), size) == Volume(c, size) + qty
    decreases if qty > 0.0 && c.Filled() + qty >= size then Fills(c, qty, size) + 1 else 0
  {
    var room := size - c.Filled();
    if qty > 0.0 && qty >= room {
      FullIsBalanced(c, room, isBuy, size);
      OneFewer(c.Filled() + qty, size);
      var next := Shut(Poured(c, room, isBuy), size);
      VolumeConserved(next, qty - room, isBuy, size);
    }
  }

  /** A trade in two pieces of the same side leaves the same state as in one. */
  lemma {:induction false} SplitTrade(c: Clock, a: real, b: real, isBuy: bool, size: real)
    requires Running(c, size) && a >= 0.0 && b >= 0.0
    ensures Traded(Traded(c, a, isBuy, size), b, isBuy, size) == Traded(c, a + b, isBuy, size)
    decreases if a > 0.0 && c.Filled() + a >= size then Fills(c, a, size) + 1 else 0
  {
    var room := size - c.Filled();
    if a > 0.0 && a >= room {
      FullIsBalanced(c, room, isBuy, size);
      OneFewer(c.Filled() + a, size);
      OneFewer(c.Filled() + a + b, size);
      SplitTrade(Shut(Poured(c, room, isBuy), size), a - room, b, isBuy, size);
    } else if a > 0.0 && a + b >= room {
      var p := Poured(c, a, isBuy);
      assert Poured(p, room - a, isBuy) == Poured(c, room, isBuy);
    }
  }

  /** Buckets fill in order: what was closed stays closed. */
  lemma {:induction false} ClosedGrows(c: Clock, qty: real, isBuy: bool, size: real)
    requires Running(c, size)
    ensures c.closed <= Traded(c, qty, isBuy, size).closed
    decreases if qty > 0.0 && c.Filled() + qty >= size then Fills(c, qty, size) + 1 else 0
  {
    var room := size - c.Filled();
    if qty > 0.0 && qty >= room {
      FullIsBalanced(c, room, isBuy, size);
      OneFewer(c.Filled() + qty, size);
      ClosedGrows(Shut(Poured(c, room, isBuy), size), qty - room, isBuy, size);
    }
  }

  // ---------------------------------------------------------------------- the last buckets

  function SumOf(s: seq<real>): real {
    if s == [] then 0.0 else s[0] + SumOf(s[1..])
  }

  lemma {:induction false} SumConcat(s: seq<real>, t: seq<real>)
    ensures SumOf(s + t) == SumOf(s) + SumOf(t)
    decreases |s|
  {
    if s == [] {
      assert s + t == t;
    } else {
      assert (s + t)[1..] == s[1..] + t;
      SumConcat(s[1..], t);
    }
  }

  lemma {:induction false} SumWithin(s: seq<real>)
    requires forall i :: 0 <= i < |s| ==> 0.0 <= s[i] <= 1.0
    ensures 0.0 <= SumOf(s) <= |s| as real
    decreases |s|
  {
    if s != [] {
      SumWithin(s[1..]);
    }
  }

  /** i modulo the window, by subtraction. */
  function Place(i: nat, window: nat): (k: nat)
    requires window > 0
    ensures k < window
    decreases i
  {
    if i < window then i else Place(i - window, window)
  }

  lemma {:induction false} SlotIsMod(i: nat, window: nat)
    requires window > 0
    ensures Place(i, window) == i % window
    decreases i
  {
    if i >= window {
      SlotIsMod(i - window, window);
      RingQueue.ModUnique(i, (i - window) / window + 1, (i - window) % window, window);
    }
  }

  lemma SlotsApart(i: nat, n: nat, window: nat)
    requires i < n < i + window
    ensures Place(i, window) != Place(n, window)
  {
    RingQueue.SlotsDiffer(i, n, window);
    SlotIsMod(i, window);
    SlotIsMod(n, window);
  }

  lemma SlotAfterThat(n: nat, window: nat)
    requires window > 0
    ensures Place(n + 1, window) == (Place(n, window) + 1) % window
  {
    SlotIsMod(n, window);
    SlotIsMod(n + 1, window);
    RingQueue.NextSlot(n, window);
  }

  /** The array holds the last full buckets, bucket i in slot i modulo the window. */
  ghost predicate Holds(a: seq<real>, closed: seq<real>) {
    a != [] && forall i: nat :: i < |closed| <= i + |a| ==> a[Place(i, |a|)] == closed[i]
  }

  lemma StartHolds(a: seq<real>, window: nat)
    requires |a| == window > 0
    ensures Holds(a, START.closed) && Place(|START.closed|, window) == 0
  {
  }

  lemma HoldsNext(a: seq<real>, closed: seq<real>, x: real)
    requires Holds(a, closed)
    ensures Holds(a[Place(|closed|, |a|) := x], closed + [x])
  {
    var n := |closed|;
    var b, d := a[Place(n, |a|) := x], closed + [x];
    forall i: nat | i < |d| <= i + |b|
      ensures b[Place(i, |b|)] == d[i]
    {
      if i < n {
        SlotsApart(i, n, |a|);
        assert a[Place(i, |a|)] == closed[i];
      }
    }
  }

  /** The most recent `window` full buckets. */
  function Recent(closed: seq<real>, window: nat): seq<real>
    requires window <= |closed|
  {
    closed[|closed| - window..]
  }

  lemma RotatedSum(a: seq<real>, b: seq<real>, h: nat)
    requires |a| == |b| && h <= |a| && a[h..] == b[..|b| - h] && a[..h] == b[|b| - h..]
    ensures SumOf(a) == SumOf(b)
  {
    assert a == a[..h] + a[h..] && b == b[..|b| - h] + b[|b| - h..];
    SumConcat(a[..h], a[h..]);
    SumConcat(b[..|b| - h], b[|b| - h..]);
  }

  lemma RingAt(a: seq<real>, closed: seq<real>, j: nat)
    requires Holds(a, closed) && |a| <= |closed| && j < |a|
    ensures var k, h := |a|, Place(|closed|, |a|);
            h < k && a[if h + j < k then h + j else h + j - k] == Recent(closed, k)[j]
  {
    var k, n := |a|, |closed|;
    SamePlace(n, k, j);
    assert a[Place(n - k + j, k)] == closed[n - k + j];
  }

  /** Summing the array, in whatever rotation, sums the most recent buckets. */
  lemma RingSum(a: seq<real>, closed: seq<real>)
    requires Holds(a, closed) && |a| <= |closed|
    ensures SumOf(a) == SumOf(Recent(closed, |a|))
  {
    var k, h, recent := |a|, Place(|closed|, |a|), Recent(closed, |a|);
    forall j | 0 <= j < k
      ensures h < k && a[if h + j < k then h + j else h + j - k] == recent[j]
    {
      RingAt(a, closed, j);
    }
    Rotation(a, recent, h);
    RotatedSum(a, recent, h);
  }

  lemma Rotation(a: seq<real>, b: seq<real>, h: nat)
    requires |a| == |b| && h < |a|
    requires forall j :: 0 <= j < |a| ==> a[if h + j < |a| then h + j else h + j - |a|] == b[j]
    ensures a[h..] == b[..|b| - h] && a[..h] == b[|b| - h..]
  {
    forall i | 0 <= i < |a|
      ensures a[i] == b[if i >= h then i - h else i - h + |a|]
    {
      var j := if i >= h then i - h else i - h + |a|;
      assert a[if h + j < |a| then h + j else h + j - |a|] == b[j];
    }
  }

  lemma SamePlace(n: nat, k: nat, j: nat)
    requires 0 < k <= n && j < k
    ensures var h := Place(n, k); Place(n - k + j, k) == if h + j < k then h + j else h + j - k
  {
    SlotIsMod(n - k, k);
    SlotIsMod(n - k + j, k);
    RingQueue.SlotAfter(n - k, j, k);
  }

  function MeanOf(sum: real, n: nat): real
    requires n > 0
  {
    sum / n as real
  }

  lemma MeanTimes(sum: real, n: nat)
    requires n > 0
    ensures MeanOf(sum, n) * n as real == sum
  {
  }

  /** The mean of the last buckets is their sum divided by how many they are, and lies in [0, 1]. */
  lemma MeanWithin(closed: seq<real>, window: nat)
    requires 0 < window <= |closed| && forall i :: 0 <= i < |closed| ==> 0.0 <= closed[i] <= 1.0
    ensures 0.0 <= MeanOf(SumOf(Recent(closed, window)), window) <= 1.0
    ensures MeanOf(SumOf(Recent(closed, window)), window) * window as real == SumOf(Recent(closed, window))
  {
    MeanTimes(SumOf(Recent(closed, window)), window);
    SumWithin(Recent(closed, window));
    DividedWithin(SumOf(Recent(closed, window)), window as real);
  }

  // ---------------------------------------------------------------------- the accumulator

  datatype Value = NotYet | Mean(value: real)

  /** The count of full buckets stops at twice the window. */
  predicate Seen(seen: nat, closed: nat, window: nat) {
    seen == if closed < 2 * window then closed else 2 * window
  }

  class Vpin {
    var bucketSize: real
    var curBuy: real
    var curSell: real
    var curFilled: real
    const imbalances: array<real>
    var head: nat
    var bucketsSeen: nat
    ghost var clock: Clock

    /** The array and its indices follow the full buckets. */
    ghost predicate Ringed()
      reads `head, `bucketsSeen, `clock, imbalances
    {
      && imbalances.Length > 0
      && Holds(imbalances[..], clock.closed) && head == Place(|clock.closed|, imbalances.Length)
      && Seen(bucketsSeen, |clock.closed|, imbalances.Length)
    }

    /** The accumulators follow the open bucket. */
    ghost predicate Metered()
      reads `bucketSize, `curBuy, `curSell, `curFilled, `clock
    {
      && curBuy == clock.buy && curSell == clock.sell && curFilled == clock.Filled()
      && (bucketSize > 0.0 ==> Running(clock, bucketSize)) && (bucketSize <= 0.0 ==> clock == START)
    }

    ghost predicate Valid()
      reads this, imbalances
    {
      Ringed() && Metered()
    }

    constructor (window: nat)
      requires window > 0
      ensures Valid() && fresh(imbalances) && imbalances.Length == window && clock == START && bucketSize == 0.0
    {
      imbalances := new real[window];
      bucketSize, curBuy, curSell, curFilled, head, bucketsSeen := 0.0, 0.0, 0.0, 0.0, 0, 0;
      clock := START;
      new;
      StartHolds(imbalances[..], window);
    }

    /** setBucketSize, before any trade. */
    method SetBucketSize(size: real)
      requires Valid() && clock == START
      modifies `bucketSize
      ensures Valid() && bucketSize == size && clock == START
    {
      bucketSize := size;
    }

    /** closeBucket (vpin.h:57-65), on a full bucket. */
    method CloseBucket()
      requires bucketSize > 0.0 && Ringed() && curBuy == clock.buy && curSell == clock.sell
      modifies `curBuy, `curSell, `curFilled, `head, `bucketsSeen, `clock, imbalances
      ensures clock == Shut(old(clock), bucketSize) && Ringed()
      ensures curBuy == 0.0 && curSell == 0.0 && curFilled == 0.0
    {
      var imb := Imbalance(curBuy, curSell, bucketSize);
      HoldsNext(imbalances[..], clock.closed, imb);
      SlotAfterThat(|clock.closed|, imbalances.Length);
      ghost var after := imbalances[..][head := imb];
      imbalances[head] := imb;
      assert imbalances[..] == after;
      head := (head + 1) % imbalances.Length;
      if bucketsSeen < imbalances.Length * 2 {
        bucketsSeen := bucketsSeen + 1;
      }
      curBuy, curSell, curFilled := 0.0, 0.0, 0.0;
      clock := Shut(clock, bucketSize);
    }

    /** onTrade (vpin.h:29-44). */
    method OnTrade(qty: real, isBuyerInitiated: bool)
      requires Valid()
      modifies this, imbalances
      ensures Valid() && bucketSize == old(bucketSize)
      ensures clock == if bucketSize <= 0.0 then old(clock) else Traded(old(clock), qty, isBuyerInitiated, bucketSize)
      ensures old(clock).closed <= clock.closed
    {
      if bucketSize <= 0.0 {
        return;
      }
      ClosedGrows(clock, qty, isBuyerInitiated, bucketSize);
      var remaining := qty;
      while remaining > 0.0
        invariant Valid() && bucketSize == old(bucketSize)
        invariant Traded(clock, remaining, isBuyerInitiated, bucketSize) == Traded(old(clock), qty, isBuyerInitiated, bucketSize)
        decreases if remaining > 0.0 && clock.Filled() + remaining >= bucketSize then Fills(clock, remaining, bucketSize) + 1 else 0,
                  remaining > 0.0
      {
        remaining := PourSome(remaining, isBuyerInitiated);
      }
    }

    /** One turn of the loop: fill the bucket, or pour all that is left (vpin.h:34-42). */
    method PourSome(remaining: real, isBuy: bool) returns (left: real)
      requires Valid() && bucketSize > 0.0 && remaining > 0.0
      modifies `curBuy, `curSell, `curFilled, `head, `bucketsSeen, `clock, imbalances
      ensures Valid()
      ensures Traded(clock, left, isBuy, bucketSize) == Traded(old(clock), remaining, isBuy, bucketSize)
      ensures var room := bucketSize - old(clock).Filled();
              if remaining < room then left == 0.0
              else left == remaining - room && clock.Filled() == 0.0
                   && Fills(clock, left, bucketSize) == Fills(old(clock), remaining, bucketSize) - 1 >= 0
    {
      var room := bucketSize - curFilled;
      var take := if remaining < room then remaining else room;
      if remaining >= room {
        FullIsBalanced(clock, room, isBuy, bucketSize);
        OneFewer(clock.Filled() + remaining, bucketSize);
      }
      if isBuy {
        curBuy := curBuy + take;
      } else {
        curSell := curSell + take;
      }
      curFilled := curFilled + take;
      clock := Poured(clock, take, isBuy);
      left := remaining - take;
      if curFilled >= bucketSize {
        CloseBucket();
      }
    }

    method Total() returns (s: real)
      ensures s == SumOf(imbalances[..])
    {
      s := 0.0;
      var i := 0;
      while i < imbalances.Length
        invariant i <= imbalances.Length && s == SumOf(imbalances[..i])
      {
        SumConcat(imbalances[..i], [imbalances[i]]);
        assert imbalances[..i + 1] == imbalances[..i] + [imbalances[i]];
        s := s + imbalances[i];
        i := i + 1;
      }
      assert imbalances[..i] == imbalances[..];
    }

    /** value (vpin.h:47-52): the mean imbalance of the last full buckets, once there are enough. */
    method Current() returns (v: Value)
      requires Valid()
      ensures v.NotYet? <==> |clock.closed| < imbalances.Length
      ensures v.Mean? ==> v.value == MeanOf(SumOf(Recent(clock.closed, imbalances.Length)), imbalances.Length)
      ensures v.Mean? ==> 0.0 <= v.value <= 1.0
    {
      if bucketsSeen < imbalances.Length {
        v := NotYet;
      } else {
        var s := Total();
        RingSum(imbalances[..], clock.closed);
        CurrentWithin();
        v := Mean(MeanOf(s, imbalances.Length));
      }
    }

    lemma CurrentWithin()
      requires Valid() && imbalances.Length <= |clock.closed|
      ensures 0.0 <= MeanOf(SumOf(Recent(clock.closed, imbalances.Length)), imbalances.Length) <= 1.0
    {
      MeanWithin(clock.closed, imbalances.Length);
    }
  }
}
