/** The message-level state machine of the market data consumer as a function of its state
    (trading/market_data/market_data_consumer.cpp:82-107, 122-258). */
module GapRecovery {
  import opened Types

  type Queued = map<nat, Update>

  datatype Consumer = Consumer(inRecovery: bool, nextExp: nat, snap: Queued, inc: Queued, forwarded: seq<Update>)

  const FRESH: Consumer := Consumer(false, 1, map[], map[], [])

  predicate Marks(u: Update) {
    u.kind.SnapshotStart? || u.kind.SnapshotEnd?
  }

  /** START and END frames are not events for the trade engine. */
  function Kept(u: Update): seq<Update> {
    if Marks(u) then [] else [u]
  }

  // ---------------------------------------------------------------------- reading the queues in key order

  /** The keys are exactly 0, 1, ... */
  ghost predicate Contiguous(m: Queued) {
    forall k: nat :: k in m <==> k < |m|
  }

  ghost predicate Covers(m: Queued, lo: nat, hi: nat) {
    forall k: nat :: lo <= k < hi ==> k in m
  }

  /** The events queued under lo, lo+1, ... hi-1. */
  function Events(m: Queued, lo: nat, hi: nat): seq<Update>
    requires Covers(m, lo, hi)
  {
    if hi <= lo then [] else Events(m, lo, hi - 1) + Kept(m[hi - 1])
  }

  /** The first key from `e` on that is not queued. */
  ghost function FirstGap(m: Queued, e: nat): (g: nat)
    ensures e <= g && g !in m && Covers(m, e, g)
    decreases From(m, e)
  {
    if e in m then
      assert e in From(m, e) && From(m, e + 1) <= From(m, e);
      FirstGap(m, e + 1)
    else e
  }

  ghost function From(m: Queued, e: nat): (s: set<nat>)
    ensures forall k :: k in s <==> k in m && k >= e
  {
    set k | k in m && k >= e
  }

  ghost function First(m: Queued): (k: nat)
    requires m != map[]
    ensures k in m && forall j :: j in m ==> k <= j
  {
    Least(m.Keys)
  }

  lemma StartsAtZero(m: Queued)
    requires 0 in m
    ensures First(m) == 0
  {
    assert First(m) <= 0;
  }

  lemma LeastOf(s: set<nat>) returns (k: nat)
    requires s != {}
    ensures k in s && forall j :: j in s ==> k <= j
    decreases s
  {
    k :| k in s;
    var rest := s - {k};
    if rest != {} {
      var m := LeastOf(rest);
      assert forall j :: j in s ==> j == k || j in rest;
      k := if k < m then k else m;
    } else {
      assert s == {k};
    }
  }

  lemma HasLeast(s: set<nat>)
    requires s != {}
    ensures exists k :: k in s && forall j :: j in s ==> k <= j
  {
    var k := LeastOf(s);
  }

  function Least(s: set<nat>): (k: nat)
    requires s != {}
    ensures k in s && forall j :: j in s ==> k <= j
  {
    HasLeast(s);
    var k :| k in s && forall j :: j in s ==> k <= j;
    k
  }

  // ---------------------------------------------------------------------- one message

  /** queueMessage, lines 143-154. */
  function Queue(c: Consumer, isSnapshot: bool, seqNum: nat, u: Update): Consumer {
    if isSnapshot then c.(snap := (if seqNum in c.snap then map[] else c.snap)[seqNum := u])
    else c.(inc := c.inc[seqNum := u])
  }

  /** What checkSnapshotSync decides once the snapshot queue is complete. */
  ghost function Resume(c: Consumer): Consumer
    requires c.snap != map[] && Contiguous(c.snap)
  {
    var n := |c.snap|;
    var e := c.snap[n - 1].orderId + 1;
    var g := FirstGap(c.inc, e);
    if exists k :: k in c.inc && k > g then c.(nextExp := g, snap := map[])
    else Consumer(false, g, map[], map[], c.forwarded + (Events(c.snap, 0, n) + Events(c.inc, e, g)))
  }

  /** checkSnapshotSync. */
  ghost function Sync(c: Consumer): Consumer {
    if c.snap == map[] then c
    else if !c.snap[First(c.snap)].kind.SnapshotStart? || !Contiguous(c.snap) then c.(snap := map[])
    else if !c.snap[|c.snap| - 1].kind.SnapshotEnd? then c
    else Resume(c)
  }

  /** A complete snapshot that ends in END is resumed from. */
  lemma SyncResumes(c: Consumer)
    requires 0 in c.snap && c.snap[0].kind.SnapshotStart? && Contiguous(c.snap) && c.snap[|c.snap| - 1].kind.SnapshotEnd?
    ensures Sync(c) == Resume(c)
  {
    StartsAtZero(c.snap);
  }

  /** A queue that is not complete yet stays. */
  lemma SyncWaits(c: Consumer)
    requires 0 in c.snap && c.snap[0].kind.SnapshotStart? && Contiguous(c.snap) && !c.snap[|c.snap| - 1].kind.SnapshotEnd?
    ensures Sync(c) == c
  {
    StartsAtZero(c.snap);
  }

  /** The body of the receive loop, lines 85-107. */
  ghost function Receive(c: Consumer, isSnapshot: bool, seqNum: nat, u: Update): Consumer {
    if c.inRecovery then Sync(Queue(c, isSnapshot, seqNum, u))
    else if seqNum != c.nextExp then
      Sync(Queue(c.(inRecovery := true, snap := map[], inc := map[]), isSnapshot, seqNum, u))
    else if isSnapshot then c
    else c.(nextExp := c.nextExp + 1, forwarded := c.forwarded + [u])
  }
}
