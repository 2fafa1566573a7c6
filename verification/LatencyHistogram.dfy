/** The log2 latency histogram (common/latency_histogram.h). Bucket i counts the values from 2^i up to
    2^(i+1), bucket 0 also the zeros; a percentile interpolates inside the bucket its rank falls in. */
module LatencyHistogram {

  const BUCKETS: nat := 64
  const INT64_MAX: nat := 0x7FFF_FFFF_FFFF_FFFF
  const UINT64_RANGE: nat := 0x1_0000_0000_0000_0000

  function Pow2(i: nat): (r: nat)
    ensures r > i
  {
    if i == 0 then 1 else 2 * Pow2(i - 1)
  }

  lemma {:induction false} Pow2Monotone(i: nat, j: nat)
    requires i <= j
    ensures Pow2(i) <= Pow2(j)
    decreases j
  {
    if i < j {
      Pow2Monotone(i, j - 1);
    }
  }

  /** 63 less the leading zeros: the position of the highest bit; zero goes to bucket 0. */
  function BucketOf(v: nat): (i: nat)
    ensures v < Pow2(i + 1) && (i > 0 ==> Pow2(i) <= v)
  {
    if v < 2 then 0 else
    assert Pow2(1) == 2 * Pow2(0);
    1 + BucketOf(v / 2)
  }

  lemma BucketBelow(v: nat, i: nat)
    ensures BucketOf(v) <= i <==> v < Pow2(i + 1)
  {
    var b := BucketOf(v);
    if b <= i {
      Pow2Monotone(b + 1, i + 1);
    } else {
      Pow2Monotone(i + 1, b);
    }
  }

  // ---------------------------------------------------------------------- counting

  function InBucket(vs: seq<nat>, i: nat): nat {
    if vs == [] then 0 else (if BucketOf(vs[|vs| - 1]) == i then 1 else 0) + InBucket(vs[..|vs| - 1], i)
  }

  /** How many recorded values are below x. */
  function Below(vs: seq<nat>, x: nat): nat {
    if vs == [] then 0 else (if vs[|vs| - 1] < x then 1 else 0) + Below(vs[..|vs| - 1], x)
  }

  lemma {:induction false} BelowMonotone(vs: seq<nat>, x: nat, y: nat)
    requires x <= y
    ensures Below(vs, x) <= Below(vs, y) <= |vs|
    decreases |vs|
  {
    if vs != [] {
      BelowMonotone(vs[..|vs| - 1], x, y);
    }
  }

  lemma {:induction false} BelowAll(vs: seq<nat>, x: nat)
    requires forall k :: 0 <= k < |vs| ==> vs[k] < x
    ensures Below(vs, x) == |vs|
    decreases |vs|
  {
    if vs != [] {
      BelowAll(vs[..|vs| - 1], x);
    }
  }

  /** The counts of the first buckets add up to the values below the next power of two. */
  lemma {:induction false} NextBucket(vs: seq<nat>, i: nat)
    ensures Below(vs, Pow2(i + 1)) == InBucket(vs, i) + if i == 0 then 0 else Below(vs, Pow2(i))
    decreases |vs|
  {
    if vs != [] {
      NextBucket(vs[..|vs| - 1], i);
      BucketBelow(vs[|vs| - 1], i);
      if i > 0 {
        BucketBelow(vs[|vs| - 1], i - 1);
      }
    }
  }

  // ---------------------------------------------------------------------- percentiles

  ghost predicate Recordable(vs: seq<nat>) {
    forall k :: 0 <= k < |vs| ==> vs[k] <= INT64_MAX
  }

  /** The first bucket, from i on, at which the running count reaches the rank. */
  function Reached(vs: seq<nat>, rank: nat, i: nat): (b: nat)
    requires i < BUCKETS && rank <= |vs| && Recordable(vs)
    ensures i <= b < BUCKETS && rank <= Below(vs, Pow2(b + 1))
    ensures b > i ==> Below(vs, Pow2(b)) < rank
    decreases BUCKETS - i
  {
    if rank <= Below(vs, Pow2(i + 1)) || i == BUCKETS - 1 then
      AllBelowTop(vs);
      i
    else Reached(vs, rank, i + 1)
  }

  lemma Pow2Step(i: nat)
    ensures Pow2(i + 8) == 256 * Pow2(i)
  {
    assert Pow2(i + 2) == 4 * Pow2(i);
    assert Pow2(i + 4) == 4 * Pow2(i + 2);
    assert Pow2(i + 6) == 4 * Pow2(i + 4);
  }

  lemma Pow2Steps(i: nat)
    ensures Pow2(i + 32) == 0x1_0000_0000 * Pow2(i)
  {
    Pow2Step(i);
    Pow2Step(i + 8);
    Pow2Step(i + 16);
    Pow2Step(i + 24);
  }

  lemma TopBucket()
    ensures Pow2(BUCKETS) > INT64_MAX
  {
    Pow2Steps(0);
    Pow2Steps(32);
    assert Pow2(32) == 0x1_0000_0000 * Pow2(0);
    assert Pow2(64) == 0x1_0000_0000 * Pow2(32);
  }

  lemma AllBelowTop(vs: seq<nat>)
    requires Recordable(vs)
    ensures Below(vs, Pow2(BUCKETS)) == |vs|
  {
    TopBucket();
    BelowAll(vs, Pow2(BUCKETS));
  }

  /** Part of the way through a bucket (lines 58-61 of the source). */
  function Interpolated(low: nat, width: nat, part: nat, whole: nat): int {
    if whole == 0 then low else (low as real + Share(part, whole) * width as real).Floor
  }

  function Share(part: nat, whole: nat): real
    requires whole > 0
  {
    part as real / whole as real
  }

  lemma ShareWithin(part: nat, whole: nat)
    requires part <= whole && whole > 0
    ensures 0.0 <= Share(part, whole) <= 1.0
  {
  }

  lemma ShareMonotone(part: nat, more: nat, whole: nat)
    requires part <= more && whole > 0
    ensures Share(part, whole) <= Share(more, whole)
  {
  }

  lemma TimesMonotone(x: real, y: real, w: real)
    requires x <= y && w >= 0.0
    ensures x * w <= y * w
  {
  }

  lemma InterpolatedWithin(low: nat, width: nat, part: nat, whole: nat)
    requires part <= whole
    ensures low <= Interpolated(low, width, part, whole) <= low + width
  {
    if whole > 0 {
      ShareWithin(part, whole);
      TimesMonotone(0.0, Share(part, whole), width as real);
      TimesMonotone(Share(part, whole), 1.0, width as real);
    }
  }

  lemma InterpolatedMonotone(low: nat, width: nat, part: nat, more: nat, whole: nat)
    requires part <= more
    ensures Interpolated(low, width, part, whole) <= Interpolated(low, width, more, whole)
  {
    if whole > 0 {
      ShareMonotone(part, more, whole);
      TimesMonotone(Share(part, whole), Share(more, whole), width as real);
    }
  }

  /** percentile for a given rank. */
  function AtRank(vs: seq<nat>, rank: nat): int
    requires rank <= |vs| && Recordable(vs)
  {
    var b := Reached(vs, rank, 0);
    if b == 0 then 0
    else
      BelowMonotone(vs, Pow2(b), Pow2(b + 1));
      Interpolated(Pow2(b), Pow2(b), rank - Below(vs, Pow2(b)), InBucket(vs, b))
  }

  lemma FloorBound(x: real, n: nat)
    requires 0.0 <= x <= n as real
    ensures 0 <= x.Floor <= n
  {
  }

  /** The rank of a percentile (lines 46-49). */
  function RankOf(p: real, count: nat): (rank: nat)
    ensures rank <= count
  {
    if p < 0.0 then 0 else if p > 1.0 then count
    else
      TimesMonotone(0.0, p, count as real);
      TimesMonotone(p, 1.0, count as real);
      FloorBound(p * count as real, count);
      (p * count as real).Floor
  }

  lemma RankMonotone(p: real, q: real, count: nat)
    requires p <= q
    ensures RankOf(p, count) <= RankOf(q, count)
  {
    TimesMonotone(p, q, count as real);
    FloorMonotone(p * count as real, q * count as real);
  }

  lemma FloorMonotone(x: real, y: real)
    requires x <= y
    ensures x.Floor <= y.Floor
  {
  }

  /** What a rank of at least 1 gives: the bucket, and a result in its closed range. */
  lemma AtRankWithin(vs: seq<nat>, rank: nat)
    requires rank <= |vs| && Recordable(vs)
    ensures var b := Reached(vs, rank, 0);
            if b == 0 then AtRank(vs, rank) == 0 else Pow2(b) <= AtRank(vs, rank) <= Pow2(b + 1)
  {
    var b := Reached(vs, rank, 0);
    if b > 0 {
      NextBucket(vs, b);
      InterpolatedWithin(Pow2(b), Pow2(b), rank - Below(vs, Pow2(b)), InBucket(vs, b));
    }
  }

  /** v is the rank-th smallest recorded value. */
  predicate IsRanked(vs: seq<nat>, rank: nat, v: nat) {
    Below(vs, v) < rank <= Below(vs, v + 1)
  }

  lemma RankedBucket(vs: seq<nat>, rank: nat, v: nat)
    requires 1 <= rank <= |vs| && Recordable(vs) && IsRanked(vs, rank, v)
    ensures Reached(vs, rank, 0) == BucketOf(v)
  {
    var b, c := Reached(vs, rank, 0), BucketOf(v);
    if c < b {
      Pow2Monotone(c + 1, b);
      BelowMonotone(vs, v + 1, Pow2(b));
    } else if b < c {
      Pow2Monotone(b + 1, c);
      BelowMonotone(vs, Pow2(b + 1), v);
    }
  }

  /** For a rank of at least 1, the percentile lies in the closed range of the bucket that holds the true
      order statistic, so outside bucket 0 it is within a factor of two of it. */
  lemma PercentileBound(vs: seq<nat>, rank: nat, v: nat)
    requires 1 <= rank <= |vs| && Recordable(vs) && IsRanked(vs, rank, v)
    ensures var r := AtRank(vs, rank);
            && (v <= 1 ==> r == 0)
            && (v > 1 ==> Pow2(BucketOf(v)) <= r <= Pow2(BucketOf(v) + 1) && v < 2 * r && r <= 2 * v)
  {
    RankedBucket(vs, rank, v);
    AtRankWithin(vs, rank);
  }

  lemma ReachedMonotone(vs: seq<nat>, r: nat, s: nat)
    requires r <= s <= |vs| && Recordable(vs)
    ensures Reached(vs, r, 0) <= Reached(vs, s, 0)
  {
    var b, c := Reached(vs, r, 0), Reached(vs, s, 0);
    if c < b {
      Pow2Monotone(c + 1, b);
      BelowMonotone(vs, Pow2(c + 1), Pow2(b));
    }
  }

  lemma AtRankMonotone(vs: seq<nat>, r: nat, s: nat)
    requires r <= s <= |vs| && Recordable(vs)
    ensures AtRank(vs, r) <= AtRank(vs, s)
  {
    var b, c := Reached(vs, r, 0), Reached(vs, s, 0);
    ReachedMonotone(vs, r, s);
    if b == c {
      SameBucket(vs, r, s, b);
    } else {
      AtRankWithin(vs, r);
      AtRankWithin(vs, s);
      Pow2Monotone(b + 1, c);
    }
  }

  lemma SameBucket(vs: seq<nat>, r: nat, s: nat, b: nat)
    requires r <= s <= |vs| && Recordable(vs) && b == Reached(vs, r, 0) == Reached(vs, s, 0)
    ensures AtRank(vs, r) <= AtRank(vs, s)
  {
    if b > 0 {
      InterpolatedMonotone(Pow2(b), Pow2(b), r - Below(vs, Pow2(b)), s - Below(vs, Pow2(b)), InBucket(vs, b));
    }
  }

  /** Percentiles grow with the percentage. */
  lemma PercentileMonotone(vs: seq<nat>, p: real, q: real)
    requires p <= q && Recordable(vs)
    ensures AtRank(vs, RankOf(p, |vs|)) <= AtRank(vs, RankOf(q, |vs|))
  {
    RankMonotone(p, q, |vs|);
    AtRankMonotone(vs, RankOf(p, |vs|), RankOf(q, |vs|));
  }

  // ---------------------------------------------------------------------- exactly where the estimate is

  /** The rank is the largest whole number that is at most the clamped share of the count. */
  lemma RankIs(p: real, count: nat)
    ensures p <= 0.0 ==> RankOf(p, count) == 0
    ensures p >= 1.0 ==> RankOf(p, count) == count
    ensures 0.0 <= p <= 1.0 ==> RankOf(p, count) as real <= p * count as real < RankOf(p, count) as real + 1.0
  {
  }

  lemma ShareScaled(part: nat, whole: nat, n: real, x: real)
    requires whole > 0 && x == Share(part, whole) * n
    ensures x * whole as real == part as real * n
  {
    assert Share(part, whole) * whole as real == part as real;
  }

  lemma StrictlyScaled(x: real, y: real, w: real)
    requires x < y && w > 0.0
    ensures x * w < y * w
  {
  }

  lemma ProductReal(a: int, b: int)
    ensures (a * b) as real == a as real * b as real
  {
  }

  /** Between two products of whole numbers it does not matter whether they are taken as reals. */
  lemma ProductsBetween(d: int, e: int, w: int, part: int, width: int, t: real)
    requires d as real * w as real <= t < e as real * w as real && t == part as real * width as real
    ensures d * w <= part * width < e * w
  {
    ProductReal(d, w);
    ProductReal(e, w);
    ProductReal(part, width);
    RealsBetween(d * w, part * width, e * w);
  }

  lemma RealsBetween(a: int, b: int, c: int)
    requires a as real <= b as real < c as real
    ensures a <= b < c
  {
  }

  lemma WholePart(d: int, e: int, x: real, part: nat, whole: nat, width: nat)
    requires whole > 0 && d as real <= x < e as real && x * whole as real == part as real * width as real
    ensures d * whole <= part * width < e * whole
  {
    TimesMonotone(d as real, x, whole as real);
    StrictlyScaled(x, e as real, whole as real);
    ProductsBetween(d, e, whole, part, width, x * whole as real);
  }

  lemma InterpolatedFloor(low: nat, width: nat, part: nat, whole: nat) returns (d: int, x: real)
    requires whole > 0
    ensures Interpolated(low, width, part, whole) == low + d && d as real <= x < (d + 1) as real
    ensures x * whole as real == part as real * width as real
  {
    x := Share(part, whole) * width as real;
    d := Interpolated(low, width, part, whole) - low;
    ShareScaled(part, whole, width as real, x);
  }

  /** How far into the bucket: the whole part of the share of its width. */
  lemma InterpolatedIs(low: nat, width: nat, part: nat, whole: nat)
    requires whole > 0
    ensures var d := Interpolated(low, width, part, whole) - low; d * whole <= part * width < (d + 1) * whole
  {
    var d, x := InterpolatedFloor(low, width, part, whole);
    WholePart(d, d + 1, x, part, whole, width);
  }

  /** The parts of the estimate. */
  lemma AtRankParts(vs: seq<nat>, rank: nat, v: nat, b: nat) returns (low: nat, part: nat, whole: nat)
    requires 1 <= rank <= |vs| && Recordable(vs) && IsRanked(vs, rank, v) && v > 1 && b == BucketOf(v)
    ensures low == Pow2(b) && part == rank - Below(vs, Pow2(b)) && whole == Below(vs, Pow2(b + 1)) - Below(vs, Pow2(b)) > 0
    ensures AtRank(vs, rank) == Interpolated(low, low, part, whole)
  {
    RankedBucket(vs, rank, v);
    NextBucket(vs, b);
    low, part, whole := Pow2(b), rank - Below(vs, Pow2(b)), InBucket(vs, b);
  }

  /** The estimate in whole numbers: with the true value in the bucket from `low` to twice that, `whole` of the
      values in it, the rank `part` of the way through them, it is `low` plus the whole part of low * part / whole. */
  lemma PercentileExact(vs: seq<nat>, rank: nat, v: nat) returns (low: nat, part: nat, whole: nat)
    requires 1 <= rank <= |vs| && Recordable(vs) && IsRanked(vs, rank, v) && v > 1
    ensures low == Pow2(BucketOf(v)) && part == rank - Below(vs, low) && whole == Below(vs, 2 * low) - Below(vs, low) > 0
    ensures var d := AtRank(vs, rank) - low; d * whole <= part * low < (d + 1) * whole
  {
    low, part, whole := AtRankParts(vs, rank, v, BucketOf(v));
    assert Pow2(BucketOf(v) + 1) == 2 * low;
    InterpolatedIs(low, low, part, whole);
  }

  // ---------------------------------------------------------------------- the histogram

  function SumOf(vs: seq<nat>): nat {
    if vs == [] then 0 else SumOf(vs[..|vs| - 1]) + vs[|vs| - 1]
  }

  function CountAll(buckets: seq<nat>): nat {
    if buckets == [] then 0 else CountAll(buckets[..|buckets| - 1]) + buckets[|buckets| - 1]
  }

  ghost predicate Counts(buckets: seq<nat>, vs: seq<nat>) {
    forall i :: 0 <= i < |buckets| ==> buckets[i] == InBucket(vs, i)
  }

  /** The counts of the first n buckets are the values below 2^n. */
  lemma {:induction false} CountsBelow(buckets: seq<nat>, vs: seq<nat>, n: nat)
    requires Counts(buckets, vs) && n <= |buckets|
    ensures CountAll(buckets[..n]) == if n == 0 then 0 else Below(vs, Pow2(n))
    decreases n
  {
    if n > 0 {
      CountsBelow(buckets, vs, n - 1);
      NextBucket(vs, n - 1);
      assert buckets[..n][..n - 1] == buckets[..n - 1];
    }
  }

  /** Bucket counts sum to the number of values recorded. */
  lemma CountsSum(buckets: seq<nat>, vs: seq<nat>)
    requires Counts(buckets, vs) && |buckets| == BUCKETS && Recordable(vs)
    ensures CountAll(buckets) == |vs|
  {
    CountsBelow(buckets, vs, BUCKETS);
    AllBelowTop(vs);
    assert buckets[..BUCKETS] == buckets;
  }

  lemma CountsSnoc(buckets: seq<nat>, vs: seq<nat>, v: nat)
    requires Counts(buckets, vs) && |buckets| == BUCKETS && v <= INT64_MAX
    ensures BucketOf(v) < BUCKETS
    ensures Counts(buckets[BucketOf(v) := buckets[BucketOf(v)] + 1], vs + [v])
  {
    TopBucket();
    BucketBelow(v, BUCKETS - 1);
    assert (vs + [v])[..|vs|] == vs;
  }

  /** Count, sum and extremes of what was recorded; the sum is an unsigned 64-bit one. */
  ghost predicate Summarises(vs: seq<nat>, count: nat, sum: nat, min: int, max: int) {
    && count == |vs| && sum == SumOf(vs) % UINT64_RANGE
    && (forall k :: 0 <= k < |vs| ==> min <= vs[k] <= max)
    && (if vs == [] then min == INT64_MAX && max == 0 else min in vs && max in vs)
  }

  lemma WrappedSum(a: nat, b: nat)
    ensures (a % UINT64_RANGE + b) % UINT64_RANGE == (a + b) % UINT64_RANGE
  {
  }

  lemma SummarisesNext(vs: seq<nat>, count: nat, sum: nat, min: int, max: int, v: nat)
    requires Summarises(vs, count, sum, min, max) && v <= INT64_MAX
    ensures Summarises(vs + [v], count + 1, (sum + v) % UINT64_RANGE, if v < min then v else min, if v > max then v else max)
  {
    var ws := vs + [v];
    assert ws[..|vs|] == vs && ws[|vs|] == v;
    WrappedSum(SumOf(vs), v);
    assert min in vs ==> min in ws;
    assert max in vs ==> max in ws;
  }

  /** The running count before bucket i, and no earlier bucket reaches the rank. */
  ghost predicate Scanned(vs: seq<nat>, rank: nat, i: nat, cumulative: nat) {
    && i <= BUCKETS && rank <= |vs| && Recordable(vs)
    && cumulative == (if i == 0 then 0 else Below(vs, Pow2(i)))
    && (if i < BUCKETS then Reached(vs, rank, 0) == Reached(vs, rank, i) else cumulative < rank)
  }

  lemma ScanGoesOn(vs: seq<nat>, rank: nat, i: nat, cumulative: nat)
    requires i < BUCKETS && Scanned(vs, rank, i, cumulative) && cumulative + InBucket(vs, i) < rank
    ensures Scanned(vs, rank, i + 1, cumulative + InBucket(vs, i))
  {
    NextBucket(vs, i);
  }

  /** The estimate within bucket i (lines 55-61): linear between its bounds, zero in the first. */
  function Estimate(i: nat, part: nat, whole: nat): int {
    if i == 0 then 0 else Interpolated(Pow2(i), Pow2(i + 1) - Pow2(i), part, whole)
  }

  lemma ScanStops(vs: seq<nat>, rank: nat, i: nat, cumulative: nat)
    requires i < BUCKETS && Scanned(vs, rank, i, cumulative) && cumulative + InBucket(vs, i) >= rank
    ensures rank >= cumulative && AtRank(vs, rank) == Estimate(i, rank - cumulative, InBucket(vs, i))
  {
    NextBucket(vs, i);
    assert Reached(vs, rank, i) == i;
  }

  lemma ScanEnds(vs: seq<nat>, rank: nat, cumulative: nat)
    requires rank <= |vs| && Recordable(vs)
    ensures !Scanned(vs, rank, BUCKETS, cumulative)
  {
    AllBelowTop(vs);
  }

  class LatencyHistogram {
    const buckets: array<nat>
    var count: nat
    var sum: nat
    var min: int
    var max: int
    ghost var recorded: seq<nat>

    ghost predicate Valid()
      reads this, buckets
    {
      && buckets.Length == BUCKETS && Recordable(recorded) && Counts(buckets[..], recorded)
      && Summarises(recorded, count, sum, min, max)
    }

    constructor ()
      ensures Valid() && recorded == [] && fresh(buckets)
    {
      buckets := new nat[BUCKETS](_ => 0);
      count, sum, min, max := 0, 0, INT64_MAX, 0;
      recorded := [];
    }

    /** record (lines 23-33). */
    method Record(value: int)
      requires Valid() && value <= INT64_MAX
      modifies this, buckets
      ensures Valid() && recorded == old(recorded) + [if value < 0 then 0 else value]
    {
      var v: nat := if value < 0 then 0 else value;
      Summarise(v);
      Count(v);
      recorded := recorded + [v];
    }

    method Summarise(v: nat)
      requires Summarises(recorded, count, sum, min, max) && v <= INT64_MAX
      modifies `count, `sum, `min, `max
      ensures Summarises(recorded + [v], count, sum, min, max)
    {
      SummarisesNext(recorded, count, sum, min, max, v);
      if v > max { max := v; }
      if v < min { min := v; }
      sum := (sum + v) % UINT64_RANGE;
      count := count + 1;
    }

    method Count(v: nat)
      requires buckets.Length == BUCKETS && Counts(buckets[..], recorded) && v <= INT64_MAX
      modifies buckets
      ensures Counts(buckets[..], recorded + [v])
    {
      CountsSnoc(buckets[..], recorded, v);
      var bucket := BucketOf(v);
      ghost var after := buckets[..][bucket := buckets[bucket] + 1];
      buckets[bucket] := buckets[bucket] + 1;
      assert buckets[..] == after;
    }

    /** percentile (lines 45-65). */
    method Percentile(p: real) returns (r: int)
      requires Valid()
      ensures r == if recorded == [] then 0 else AtRank(recorded, RankOf(p, |recorded|))
    {
      if count == 0 {
        return 0;
      }
      r := Scan(RankOf(p, count));
    }

    lemma BucketHolds(i: nat)
      requires Valid() && i < BUCKETS
      ensures buckets[i] == InBucket(recorded, i)
    {
      assert buckets[..][i] == InBucket(recorded, i);
    }

    /** The scan for the bucket of a rank (lines 50-64). */
    method Scan(target: nat) returns (r: int)
      requires Valid() && target <= |recorded|
      ensures r == AtRank(recorded, target)
    {
      var cumulative: nat := 0;
      var i: nat := 0;
      while i < BUCKETS
        invariant Scanned(recorded, target, i, cumulative)
      {
        BucketHolds(i);
        if cumulative + buckets[i] >= target {
          ScanStops(recorded, target, i, cumulative);
          return Estimate(i, target - cumulative, buckets[i]);
        }
        ScanGoesOn(recorded, target, i, cumulative);
        cumulative := cumulative + buckets[i];
        i := i + 1;
      }
      ScanEnds(recorded, target, cumulative);
      r := max;
    }
  }
}
