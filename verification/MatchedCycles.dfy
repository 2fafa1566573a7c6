/** Recovery when STARTs may be lost too. The consumer never compares the sequence numbers in
    SNAPSHOT_START and SNAPSHOT_END (trading/market_data/market_data_consumer.cpp:205-216); here it is
    proved that comparing them would be enough: if cycles arrive in the order they were sent, with any
    frames lost, every recovery whose START and END agree catches up. */
module MatchedCycles {
  import opened Types
  import opened MarketLog
  import opened GapRecovery
  import opened Recovery

  /** Cycles arrive in order; any frame, the START included, may be missing, repeated or out of order
      within its cycle. */
  ghost predicate InOrder(n: Net, e: Event) {
    Sent(n, e) && (e.SnapshotFrame? && n.started ==> n.cycle <= e.last)
  }

  // ---------------------------------------------------------------------- the queue

  /** A frame with number k of some cycle taken between lo and hi. */
  ghost predicate FrameBetween(log: seq<Update>, lo: nat, hi: nat, k: nat, u: Update)
    requires hi <= |log|
  {
    exists last :: lo <= last <= hi && k < |CycleOf(log, last)| && CycleOf(log, last)[k] == u
  }

  /** The queue begins with a START and all of it comes from cycles between that START's and hi's. */
  ghost predicate Built(log: seq<Update>, hi: nat, snap: Queued) {
    && hi <= |log| && 0 in snap && snap[0].kind.SnapshotStart?
    && forall k: nat :: k in snap ==> FrameBetween(log, snap[0].orderId, hi, k, snap[k])
  }

  /** It runs on without a gap and has not come to an END. */
  ghost predicate Pending(log: seq<Update>, hi: nat, snap: Queued) {
    Built(log, hi, snap) && Contiguous(snap) && !snap[|snap| - 1].kind.SnapshotEnd?
  }

  ghost predicate QueueOK(n: Net) {
    && (n.started ==> n.cycle <= |n.log|) && Genuine(n.log, n.consumer.inc)
    && (n.consumer.snap != map[] ==> n.started && Pending(n.log, n.cycle, n.consumer.snap))
    && (!n.consumer.inRecovery ==> n.consumer.snap == map[] && n.consumer.inc == map[])
  }

  /** Outside recovery the consumer has caught up. */
  ghost predicate Safe(n: Net) {
    LegalLog(n.log) && QueueOK(n) && (!n.consumer.inRecovery ==> Caught(n.log, n.consumer))
  }

  // ---------------------------------------------------------------------- comparing START and END

  /** The consumer with a message queued, before it tries to resynchronise. */
  ghost function Queueing(c: Consumer, isSnapshot: bool, seqNum: nat, u: Update): Consumer {
    Queue(if c.inRecovery then c else c.(inRecovery := true, snap := map[], inc := map[]), isSnapshot, seqNum, u)
  }

  /** The frame ends a recovery. */
  ghost predicate Recovers(n: Net, e: Event)
    requires Sent(n, e)
  {
    && e.SnapshotFrame? && !e.discarded && (n.consumer.inRecovery || e.k != n.consumer.nextExp)
    && !Step(n, e).consumer.inRecovery
  }

  /** The queue's first and last frame carry the same sequence number. */
  ghost predicate Agrees(snap: Queued) {
    0 in snap && |snap| > 0 && |snap| - 1 in snap && snap[0].orderId == snap[|snap| - 1].orderId
  }

  /** If the frame ends a recovery, the START and the END it ends with agree: what the consumer could look
      at in its own queue before it commits. */
  ghost predicate Matched(n: Net, e: Event)
    requires Sent(n, e)
  {
    Recovers(n, e) ==> Agrees(Queueing(n.consumer, true, e.k, CycleOf(n.log, e.last)[e.k]).snap)
  }

  // ---------------------------------------------------------------------- one frame

  lemma FrameIs(log: seq<Update>, last: nat, k: nat)
    requires last <= |log| && k < |CycleOf(log, last)|
    ensures var u, fs := CycleOf(log, last)[k], CycleOf(log, last);
            && (u.kind.SnapshotStart? <==> k == 0) && (u.kind.SnapshotEnd? <==> k == |fs| - 1)
            && (k == 0 || k == |fs| - 1 ==> u.orderId == last)
  {
    FrameKinds(Replay(NO_BOOKS, log[..last]), last);
  }

  lemma WidenBetween(log: seq<Update>, lo: nat, hi: nat, hi': nat, k: nat, u: Update)
    requires hi <= hi' <= |log| && FrameBetween(log, lo, hi, k, u)
    ensures FrameBetween(log, lo, hi', k, u)
  {
  }

  /** Only the next frame after a gapless queue leaves it gapless. */
  lemma NextKey(snap: Queued, k: nat, u: Update)
    requires Contiguous(snap) && k !in snap && Contiguous(snap[k := u])
    ensures k == |snap| && |snap[k := u]| == |snap| + 1
  {
    assert k in snap[k := u];
    assert k < |snap[k := u]|;
  }

  /** A queue grows by a frame of the same cycle or a later one. */
  lemma GrowsBuilt(log: seq<Update>, hi: nat, snap: Queued, last: nat, k: nat, t: Queued)
    requires Built(log, hi, snap) && hi <= last <= |log| && k < |CycleOf(log, last)| && k !in snap
    requires t == snap[k := CycleOf(log, last)[k]]
    ensures Built(log, last, t)
  {
    assert FrameBetween(log, snap[0].orderId, hi, 0, snap[0]);
    forall j: nat | j in t
      ensures FrameBetween(log, t[0].orderId, last, j, t[j])
    {
      if j != k {
        WidenBetween(log, snap[0].orderId, hi, last, j, snap[j]);
      }
    }
  }

  lemma OneFrameBuilt(log: seq<Update>, last: nat, t: Queued)
    requires last <= |log| && |CycleOf(log, last)| > 0 && t == map[0 := CycleOf(log, last)[0]]
    requires t[0].kind.SnapshotStart? && t[0].orderId == last
    ensures Built(log, last, t)
  {
    assert FrameBetween(log, last, last, 0, t[0]);
  }

  /** Queueing a frame in a pending queue: if what results is gapless and starts with a START, it is built
      of cycles up to the frame's own. */
  lemma QueuedBuilt(log: seq<Update>, hi: nat, c: Consumer, last: nat, k: nat)
    requires last <= |log| && k < |CycleOf(log, last)|
    requires c.snap != map[] ==> hi <= last && Pending(log, hi, c.snap)
    ensures var t := Queue(c, true, k, CycleOf(log, last)[k]).snap;
            0 in t && t[0].kind.SnapshotStart? ==> Built(log, last, t)
  {
    var u := CycleOf(log, last)[k];
    var t := Queue(c, true, k, u).snap;
    if c.snap != map[] && k !in c.snap {
      GrowsBuilt(log, hi, c.snap, last, k, t);
    } else if k == 0 {
      FrameIs(log, last, 0);
      OneFrameBuilt(log, last, t);
    }
  }

  /** The frame just queued is the last one if the queue is gapless. */
  lemma QueuedLast(log: seq<Update>, hi: nat, c: Consumer, last: nat, k: nat)
    requires last <= |log| && k < |CycleOf(log, last)|
    requires c.snap != map[] ==> Pending(log, hi, c.snap)
    ensures var t := Queue(c, true, k, CycleOf(log, last)[k]).snap;
            Contiguous(t) ==> k == |t| - 1 && t[k] == CycleOf(log, last)[k]
  {
    var u := CycleOf(log, last)[k];
    var t := Queue(c, true, k, u).snap;
    if Contiguous(t) {
      if c.snap != map[] && k !in c.snap {
        NextKey(c.snap, k, u);
      } else {
        assert k in t;
        assert 0 in t;
      }
    }
  }

  /** If START and END agree, everything between comes from one cycle. */
  lemma OneCycle(log: seq<Update>, last: nat, snap: Queued)
    requires Built(log, last, snap) && snap[0].orderId == last
    ensures OfCycle(CycleOf(log, last), snap)
  {
    forall j: nat | j in snap
      ensures j < |CycleOf(log, last)| && snap[j] == CycleOf(log, last)[j]
    {
      assert FrameBetween(log, last, last, j, snap[j]);
    }
  }

  /** A gapless queue whose first and last frames are a START and an END that agree is one whole cycle. */
  lemma AgreedIsWhole(log: seq<Update>, last: nat, snap: Queued, k: nat)
    requires Built(log, last, snap) && k == |snap| - 1 && k in snap && k < |CycleOf(log, last)|
    requires snap[k] == CycleOf(log, last)[k] && snap[k].kind.SnapshotEnd? && Agrees(snap)
    ensures OfCycle(CycleOf(log, last), snap)
  {
    FrameIs(log, last, k);
    OneCycle(log, last, snap);
  }

  // ---------------------------------------------------------------------- every step

  lemma ResumeClears(q: Consumer)
    requires q.snap != map[] && Contiguous(q.snap)
    ensures var d := Resume(q);
            d.snap == map[] && (d.inc == q.inc || d.inc == map[]) && (d.inRecovery != q.inRecovery ==> d.inc == map[])
  {
  }

  /** Synchronising keeps a queue only if it runs from a START without a gap and has no END yet. */
  lemma SyncKeeps(q: Consumer)
    requires q.inRecovery && q.snap != map[]
    ensures var d := Sync(q);
            && (d.inc == q.inc || d.inc == map[]) && (!d.inRecovery ==> d.snap == map[] && d.inc == map[])
            && (d.snap != map[] ==> d.snap == q.snap && 0 in q.snap && q.snap[0].kind.SnapshotStart?
                                    && Contiguous(q.snap) && !q.snap[|q.snap| - 1].kind.SnapshotEnd?)
  {
    if Contiguous(q.snap) {
      assert 0 in q.snap;
      StartsAtZero(q.snap);
      ResumeClears(q);
    }
  }

  /** It ends recovery only on a gapless queue from a START to an END. */
  lemma SyncEnds(q: Consumer)
    requires q.inRecovery && q.snap != map[] && !Sync(q).inRecovery
    ensures 0 in q.snap && q.snap[0].kind.SnapshotStart? && Contiguous(q.snap)
    ensures q.snap[|q.snap| - 1].kind.SnapshotEnd? && Sync(q) == Resume(q)
  {
    assert 0 in q.snap;
    StartsAtZero(q.snap);
  }

  /** And if START and END agree it then catches up. */
  lemma AgreedCatchesUp(log: seq<Update>, hi: nat, c: Consumer, last: nat, k: nat, q: Consumer)
    requires LegalLog(log) && Genuine(log, c.inc) && c.inRecovery && last <= |log| && k < |CycleOf(log, last)|
    requires c.snap != map[] ==> hi <= last && Pending(log, hi, c.snap)
    requires q == Queue(c, true, k, CycleOf(log, last)[k]) && !Sync(q).inRecovery && Agrees(q.snap)
    ensures Caught(log, Sync(q))
  {
    SyncEnds(q);
    assert OfCycle(CycleOf(log, last), q.snap) by {
      QueuedLast(log, hi, c, last, k);
      QueuedBuilt(log, hi, c, last, k);
      AgreedIsWhole(log, last, q.snap, k);
    }
    ResumeCatchesUp(log, last, q);
  }

  lemma FrameSafely(n: Net, last: nat, k: nat)
    requires Safe(n) && InOrder(n, SnapshotFrame(last, k, false)) && Matched(n, SnapshotFrame(last, k, false))
    ensures Safe(Step(n, SnapshotFrame(last, k, false)))
  {
    var c := n.consumer;
    if c.inRecovery || k != c.nextExp {
      var d := if c.inRecovery then c else c.(inRecovery := true, snap := map[], inc := map[]);
      var q := Queueing(c, true, k, CycleOf(n.log, last)[k]);
      assert k in q.snap;
      QueuedBuilt(n.log, n.cycle, d, last, k);
      SyncKeeps(q);
      if !Sync(q).inRecovery {
        AgreedCatchesUp(n.log, n.cycle, d, last, k, q);
      }
    }
  }

  /** An incremental never completes the snapshot queue. */
  lemma IncrementalWaits(n: Net, i: nat, q: Consumer)
    requires QueueOK(n) && Sent(n, Incremental(i)) && q == Queueing(n.consumer, false, i, n.log[i - 1])
    ensures Sync(q) == q && q.inRecovery && q.snap == n.consumer.snap && Genuine(n.log, q.inc)
  {
    if q.snap != map[] {
      SyncWaits(q);
    }
  }

  lemma IncrementalSafely(n: Net, i: nat)
    requires Safe(n) && Sent(n, Incremental(i))
    ensures Safe(Step(n, Incremental(i)))
  {
    var c := n.consumer;
    if !c.inRecovery && i == c.nextExp {
      NextForwarded(n.log, c, Step(n, Incremental(i)).consumer);
    } else {
      IncrementalWaits(n, i, Queueing(c, false, i, n.log[i - 1]));
    }
  }

  lemma {:induction false} BetweenGrows(log: seq<Update>, u: Update, lo: nat, hi: nat, k: nat, f: Update)
    requires hi <= |log| && FrameBetween(log, lo, hi, k, f)
    ensures FrameBetween(log + [u], lo, hi, k, f)
  {
    var last :| lo <= last <= hi && k < |CycleOf(log, last)| && CycleOf(log, last)[k] == f;
    assert (log + [u])[..last] == log[..last];
    assert CycleOf(log + [u], last) == CycleOf(log, last);
  }

  lemma PendingGrows(log: seq<Update>, u: Update, hi: nat, snap: Queued)
    requires Pending(log, hi, snap)
    ensures Pending(log + [u], hi, snap)
  {
    forall k: nat | k in snap
      ensures FrameBetween(log + [u], snap[0].orderId, hi, k, snap[k])
    {
      BetweenGrows(log, u, snap[0].orderId, hi, k, snap[k]);
    }
  }

  lemma PublishSafely(n: Net, u: Update)
    requires Safe(n) && Sent(n, Publish(u))
    ensures Safe(Step(n, Publish(u)))
  {
    assert LegalLog(n.log + [u]) by {
      LegalAppend(n.log, u);
    }
    GrownLog(n.log, u, n.consumer, 0);
    if n.consumer.snap != map[] {
      PendingGrows(n.log, u, n.cycle, n.consumer.snap);
    }
  }

  lemma StepSafely(n: Net, e: Event)
    requires Safe(n) && InOrder(n, e) && Matched(n, e)
    ensures Safe(Step(n, e))
  {
    match e
    case Publish(u) => PublishSafely(n, u);
    case Incremental(i) => IncrementalSafely(n, i);
    case SnapshotFrame(last, k, discarded) =>
      if !discarded {
        FrameSafely(n, last, k);
      }
  }

  // ---------------------------------------------------------------------- every run

  ghost predicate InOrderAll(n: Net, es: seq<Event>)
    decreases |es|
  {
    es == [] || (InOrder(n, es[0]) && InOrderAll(Step(n, es[0]), es[1..]))
  }

  ghost predicate MatchedAll(n: Net, es: seq<Event>)
    requires InOrderAll(n, es)
    decreases |es|
  {
    es == [] || (Matched(n, es[0]) && MatchedAll(Step(n, es[0]), es[1..]))
  }

  ghost function Arrived(n: Net, es: seq<Event>): Net
    requires InOrderAll(n, es)
    decreases |es|
  {
    if es == [] then n else Arrived(Step(n, es[0]), es[1..])
  }

  lemma {:induction false} AlwaysSafe(n: Net, es: seq<Event>)
    requires Safe(n) && InOrderAll(n, es) && MatchedAll(n, es)
    ensures Safe(Arrived(n, es))
    decreases |es|
  {
    if es != [] {
      StepSafely(n, es[0]);
      AlwaysSafe(Step(n, es[0]), es[1..]);
    }
  }

  /** Over every run in which cycles arrive in order, any frames lost: if each recovery ends with a START
      and an END that agree, the consumer outside recovery holds the exchange's books as of its last
      sequence number. */
  lemma MatchedRecoverySafe(es: seq<Event>)
    requires InOrderAll(BEGIN, es) && MatchedAll(BEGIN, es)
    ensures var n := Arrived(BEGIN, es);
            !n.consumer.inRecovery ==>
              && 1 <= n.consumer.nextExp <= |n.log| + 1
              && Replay(NO_BOOKS, n.consumer.forwarded) == Replay(NO_BOOKS, n.log[..n.consumer.nextExp - 1])
  {
    AlwaysSafe(BEGIN, es);
  }
}
