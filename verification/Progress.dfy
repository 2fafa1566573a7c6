/** What the consumer is sure to get done (trading/market_data/market_data_consumer.cpp:85-107): updates
    that arrive in sequence are forwarded one by one, a gap opens recovery and loses nothing that arrives
    in it, and after any loss the next whole snapshot cycle brings the consumer to an exactly known place. */
module Progress {
  import opened Types
  import opened MarketLog
  import opened Snapshot
  import opened GapRecovery
  import opened Recovery

  // ---------------------------------------------------------------------- outside recovery

  /** The expected incremental is forwarded, and nothing else changes. */
  lemma NextIsForwarded(n: Net)
    requires Inv(n) && !n.consumer.inRecovery && n.consumer.nextExp <= |n.log|
    ensures var c := n.consumer;
            && Possible(n, Incremental(c.nextExp))
            && Step(n, Incremental(c.nextExp)) ==
               n.(consumer := Consumer(false, c.nextExp + 1, map[], map[], c.forwarded + [n.log[c.nextExp - 1]]))
  {
  }

  /** Any other one opens recovery and is the first to be queued; nothing is forwarded. */
  lemma GapOpensRecovery(n: Net, i: nat)
    requires Inv(n) && !n.consumer.inRecovery && 1 <= i <= |n.log| && i != n.consumer.nextExp
    ensures Possible(n, Incremental(i))
    ensures Step(n, Incremental(i)) ==
            n.(consumer := Consumer(true, n.consumer.nextExp, map[], map[i := n.log[i - 1]], n.consumer.forwarded))
  {
  }

  /** A frame in the middle of a read opens recovery unless its number happens to be the expected one; only a
      START stays queued. */
  lemma FrameOpensRecovery(n: Net, last: nat, k: nat)
    requires Inv(n) && !n.consumer.inRecovery && Possible(n, SnapshotFrame(last, k, false))
    ensures var c, d := n.consumer, Step(n, SnapshotFrame(last, k, false)).consumer;
            if k == c.nextExp then d == c
            else d == Consumer(true, c.nextExp, if k == 0 then map[0 := Marker(SnapshotStart, last)] else map[], map[], c.forwarded)
  {
    FrameKinds(Replay(NO_BOOKS, n.log[..last]), last);
    var q: Queued := map[k := CycleOf(n.log, last)[k]];
    if k != n.consumer.nextExp {
      OneFrame(q, k);
      assert First(q) in q;
    }
  }

  lemma OneFrame(q: Queued, k: nat)
    requires q.Keys == {k}
    ensures q != map[] && |q| == 1 && (Contiguous(q) <==> k == 0)
  {
    assert k in q;
    assert |q| == |q.Keys|;
  }

  // ---------------------------------------------------------------------- a feed without loss

  /** The sequence numbers of the incrementals that arrive, in order. */
  function Heard(es: seq<Event>): seq<nat> {
    if es == [] then [] else (if es[0].Incremental? then [es[0].i] else []) + Heard(es[1..])
  }

  ghost predicate Numbered(ks: seq<nat>, from: nat) {
    forall j :: 0 <= j < |ks| ==> ks[j] == from + j
  }

  /** Snapshot frames are thrown away, as they are while the consumer has not joined their group. */
  ghost predicate Discards(es: seq<Event>) {
    forall j :: 0 <= j < |es| && es[j].SnapshotFrame? ==> es[j].discarded
  }

  lemma {:induction false} LogGrows(n: Net, es: seq<Event>)
    requires PossibleAll(n, es)
    ensures n.log <= StepAll(n, es).log
    decreases |es|
  {
    if es != [] {
      LogGrows(Step(n, es[0]), es[1..]);
    }
  }

  lemma HeardTail(es: seq<Event>, from: nat)
    requires es != [] && Numbered(Heard(es), from) && Discards(es)
    ensures Discards(es[1..])
    ensures es[0].Incremental? ==> es[0].i == from && Numbered(Heard(es[1..]), from + 1) && |Heard(es)| == 1 + |Heard(es[1..])|
    ensures !es[0].Incremental? ==> Heard(es) == Heard(es[1..])
  {
    if es[0].Incremental? {
      var rest := Heard(es[1..]);
      assert Heard(es) == [es[0].i] + rest;
      forall j | 0 <= j < |rest|
        ensures rest[j] == from + 1 + j
      {
        assert Heard(es)[j + 1] == rest[j];
      }
      assert Heard(es)[0] == es[0].i;
    } else {
      assert [] + Heard(es[1..]) == Heard(es[1..]);
    }
  }

  lemma OneMore(f: seq<Update>, log: seq<Update>, e: nat, m: nat)
    requires 1 <= e <= m <= |log|
    ensures (f + [log[e - 1]]) + log[e..m] == f + log[e - 1..m]
  {
  }

  /** The consumer is m updates on from `c`, with exactly those of the log forwarded. */
  ghost predicate Ahead(c: Consumer, log: seq<Update>, m: nat, d: Consumer) {
    && 1 <= c.nextExp && c.nextExp + m <= |log| + 1
    && d == Consumer(false, c.nextExp + m, map[], map[], c.forwarded + log[c.nextExp - 1..c.nextExp + m - 1])
  }

  lemma AheadByOne(c: Consumer, s: Consumer, log: seq<Update>, m: nat, d: Consumer)
    requires 1 <= c.nextExp <= |log|
    requires s == Consumer(false, c.nextExp + 1, map[], map[], c.forwarded + [log[c.nextExp - 1]]) && Ahead(s, log, m, d)
    ensures Ahead(c, log, m + 1, d)
  {
    OneMore(c.forwarded, log, c.nextExp, c.nextExp + m);
  }

  lemma AheadByNone(c: Consumer, log: seq<Update>)
    requires Caught(log, c) && !c.inRecovery && c.snap == map[] && c.inc == map[]
    ensures Ahead(c, log, 0, c)
  {
    assert c.forwarded + log[c.nextExp - 1..c.nextExp - 1] == c.forwarded;
  }

  /** From any reachable state outside recovery, what arrives in sequence is forwarded update for update, with
      any publications and discarded frames in between. */
  lemma {:induction false} InSequence(n: Net, es: seq<Event>)
    requires Inv(n) && !n.consumer.inRecovery && PossibleAll(n, es)
    requires Discards(es) && Numbered(Heard(es), n.consumer.nextExp)
    ensures Ahead(n.consumer, StepAll(n, es).log, |Heard(es)|, StepAll(n, es).consumer)
    decreases |es|
  {
    if es == [] {
      AheadByNone(n.consumer, n.log);
    } else {
      var s := Step(n, es[0]);
      HeardTail(es, n.consumer.nextExp);
      StepSafe(n, es[0]);
      if es[0].Incremental? {
        NextIsForwarded(n);
        LogGrows(n, es);
        InSequence(s, es[1..]);
        AheadByOne(n.consumer, s.consumer, StepAll(n, es).log, |Heard(es[1..])|, StepAll(n, es).consumer);
      } else {
        InSequence(s, es[1..]);
      }
    }
  }

  /** A feed that arrives whole and in order is forwarded as it was published. */
  lemma OrderedFeed(es: seq<Event>)
    requires PossibleAll(BEGIN, es) && Discards(es) && Numbered(Heard(es), 1)
    ensures var n, heard := StepAll(BEGIN, es), |Heard(es)|;
            heard <= |n.log| && n.consumer == Consumer(false, heard + 1, map[], map[], n.log[..heard])
  {
    InSequence(BEGIN, es);
    var n, heard := StepAll(BEGIN, es), |Heard(es)|;
    assert [] + n.log[0..heard] == n.log[..heard];
  }

  // ---------------------------------------------------------------------- inside recovery

  /** What is queued of a snapshot runs from a START without a gap and has not come to an END. */
  ghost predicate Waiting(c: Consumer) {
    && (c.snap != map[] ==> 0 in c.snap && c.snap[0].kind.SnapshotStart? && Contiguous(c.snap) && !c.snap[|c.snap| - 1].kind.SnapshotEnd?)
    && (!c.inRecovery ==> c.snap == map[])
  }

  lemma SyncLeavesWaiting(q: Consumer)
    requires q.inRecovery
    ensures Waiting(Sync(q))
  {
    if q.snap != map[] && Contiguous(q.snap) {
      assert 0 in q.snap;
      StartsAtZero(q.snap);
    }
  }

  lemma {:induction false} AlwaysWaiting(n: Net, es: seq<Event>)
    requires Waiting(n.consumer) && PossibleAll(n, es)
    ensures Waiting(StepAll(n, es).consumer)
    decreases |es|
  {
    if es != [] {
      ReceiveLeavesWaiting(n, es[0]);
      AlwaysWaiting(Step(n, es[0]), es[1..]);
    }
  }

  lemma ReceiveLeavesWaiting(n: Net, e: Event)
    requires Waiting(n.consumer) && Sent(n, e)
    ensures Waiting(Step(n, e).consumer)
  {
    var c := n.consumer;
    var d := if c.inRecovery then c else c.(inRecovery := true, snap := map[], inc := map[]);
    match e
    case Publish(u) =>
    case Incremental(i) => SyncLeavesWaiting(Queue(d, false, i, n.log[i - 1]));
    case SnapshotFrame(last, k, _) => SyncLeavesWaiting(Queue(d, true, k, CycleOf(n.log, last)[k]));
  }

  /** Every incremental that arrives in recovery is queued; it forwards nothing and ends nothing. */
  lemma IncrementalIsKept(n: Net, i: nat)
    requires Waiting(n.consumer) && n.consumer.inRecovery && 1 <= i <= |n.log|
    ensures Possible(n, Incremental(i))
    ensures Step(n, Incremental(i)) == n.(consumer := n.consumer.(inc := n.consumer.inc[i := n.log[i - 1]]))
  {
    var q := Queue(n.consumer, false, i, n.log[i - 1]);
    if q.snap != map[] {
      SyncWaits(q);
    }
  }

  /** In any run. */
  lemma NothingHeardIsLost(es: seq<Event>, i: nat)
    requires PossibleAll(BEGIN, es) && StepAll(BEGIN, es).consumer.inRecovery && 1 <= i <= |StepAll(BEGIN, es).log|
    ensures var n := StepAll(BEGIN, es);
            && Possible(n, Incremental(i))
            && Step(n, Incremental(i)).consumer == n.consumer.(inc := n.consumer.inc[i := n.log[i - 1]])
  {
    AlwaysWaiting(BEGIN, es);
    IncrementalIsKept(StepAll(BEGIN, es), i);
  }

  // ---------------------------------------------------------------------- after a loss

  /** Incrementals i, i+1, ... up to, not including, m. */
  function Incrementals(i: nat, m: nat): seq<Event>
    requires i <= m
    decreases m - i
  {
    if i == m then [] else [Incremental(i)] + Incrementals(i + 1, m)
  }

  /** The queue they make. */
  function Span(log: seq<Update>, i: nat, m: nat): (q: Queued)
    requires 1 <= i <= m <= |log| + 1
    ensures forall k: nat :: k in q <==> i <= k < m
    ensures forall k: nat :: k in q ==> q[k] == log[k - 1]
    decreases m
  {
    if i == m then map[] else Span(log, i, m - 1)[m - 1 := log[m - 2]]
  }

  lemma KeptFirst(n: Net, i: nat, j: nat, t: Net, rest: seq<Event>, es: seq<Event>)
    requires 1 <= i <= j <= |n.log| && n.consumer.inRecovery && n.consumer.snap == map[] && n.consumer.inc == Span(n.log, i, j)
    requires t == n.(consumer := n.consumer.(inc := Span(n.log, i, j + 1))) && PossibleAll(t, rest)
    requires es == [Incremental(j)] + rest
    ensures PossibleAll(n, es) && StepAll(n, es) == StepAll(t, rest)
  {
    IncrementalIsKept(n, j);
    EventFirst(n, Incremental(j), rest);
  }

  /** The consumer has queued updates i up to, not including, j. */
  ghost predicate HasQueued(n: Net, c: Consumer, i: nat, j: nat) {
    1 <= i <= j <= |n.log| + 1 && c.inRecovery && c.snap == map[] && n.consumer == c.(inc := Span(n.log, i, j))
  }

  lemma {:induction false} KeepsQueueing(n: Net, c: Consumer, i: nat, j: nat, m: nat, es: seq<Event>, u: Net)
    requires HasQueued(n, c, i, j) && j <= m <= |n.log| + 1 && es == Incrementals(j, m)
    requires u == n.(consumer := c.(inc := Span(n.log, i, m)))
    ensures PossibleAll(n, es) && StepAll(n, es) == u
    decreases m - j
  {
    if j < m {
      var t, rest := n.(consumer := c.(inc := Span(n.log, i, j + 1))), Incrementals(j + 1, m);
      KeepsQueueing(t, c, i, j + 1, m, rest, u);
      KeptFirst(n, i, j, t, rest, es);
    }
  }

  lemma SpanRuns(log: seq<Update>, i: nat, m: nat, last: nat)
    requires 1 <= i < m <= |log| + 1 && last <= |log|
    ensures var q := Span(log, i, m);
            && Genuine(log, q) && (NoHole(q, last) <==> i <= last + 1)
            && RunEnds(q, last, if i <= last + 1 < m then m else last + 1)
  {
    var q := Span(log, i, m);
    if i > last + 1 {
      assert last + 1 !in q && i in q && last < last + 1 < i;
    }
  }

  lemma GapFirst(n: Net, i: nat, t: Net, rest: seq<Event>, es: seq<Event>)
    requires Inv(n) && !n.consumer.inRecovery && 1 <= i <= |n.log| && i != n.consumer.nextExp
    requires t == n.(consumer := Consumer(true, n.consumer.nextExp, map[], Span(n.log, i, i + 1), n.consumer.forwarded))
    requires PossibleAll(t, rest) && es == [Incremental(i)] + rest
    ensures PossibleAll(n, es) && StepAll(n, es) == StepAll(t, rest)
  {
    GapOpensRecovery(n, i);
    assert Span(n.log, i, i + 1) == map[i := n.log[i - 1]];
    EventFirst(n, Incremental(i), rest);
  }

  lemma GapThenMore(n: Net, i: nat, m: nat, es: seq<Event>, u: Net)
    requires Inv(n) && !n.consumer.inRecovery && 1 <= i < m <= |n.log| + 1 && i != n.consumer.nextExp
    requires es == Incrementals(i, m)
    requires u == n.(consumer := Consumer(true, n.consumer.nextExp, map[], Span(n.log, i, m), n.consumer.forwarded))
    ensures PossibleAll(n, es) && StepAll(n, es) == u
  {
    var d := Consumer(true, n.consumer.nextExp, map[], Span(n.log, i, i + 1), n.consumer.forwarded);
    var t, rest := n.(consumer := d), Incrementals(i + 1, m);
    KeepsQueueing(t, d, i, i + 1, m, rest, u);
    GapFirst(n, i, t, rest, es);
  }

  lemma AfterTheGap(log: seq<Update>, c: Consumer, t: Net, i: nat, m: nat, last: nat)
    requires 1 <= i < m <= |log| + 1 && last <= |log| && Inv(t) && t.log == log
    requires t.consumer == Consumer(true, c.nextExp, map[], Span(log, i, m), c.forwarded)
    ensures var frames := RestOfCycle(last, 0, |CycleOf(log, last)|);
            && PossibleAll(t, frames)
            && var d := StepAll(t, frames).consumer;
               && (!d.inRecovery <==> i <= last + 1)
               && (!d.inRecovery ==> d.nextExp == (if m > last then m else last + 1) && Caught(log, d))
               && (d.inRecovery ==> d.inc == Span(log, i, m) && d.forwarded == c.forwarded)
  {
    var size := |CycleOf(log, last)|;
    var frames := RestOfCycle(last, 0, size);
    SpanRuns(log, i, m, last);
    FrameKinds(Replay(NO_BOOKS, log[..last]), last);
    CycleOutcome(t, last, 0, size, if i <= last + 1 < m then m else last + 1);
    AlwaysInv(t, frames);
  }

  /** Any reachable consumer outside recovery misses something (or hears an old update again), goes on with
      updates i to m - 1, and then a whole snapshot cycle as of `last` arrives. It is back exactly if the
      snapshot reaches up to i, has then caught up with the exchange, and expects the update after the last
      one it knows of, by the snapshot or by what it queued; otherwise it still holds all it heard. */
  lemma LossThenCycle(es: seq<Event>, i: nat, m: nat, last: nat)
    requires PossibleAll(BEGIN, es) && !StepAll(BEGIN, es).consumer.inRecovery
    requires var n := StepAll(BEGIN, es); 1 <= i < m <= |n.log| + 1 && i != n.consumer.nextExp && last <= |n.log|
    ensures var n := StepAll(BEGIN, es);
            && PossibleAll(n, Incrementals(i, m))
            && var t, frames := StepAll(n, Incrementals(i, m)), RestOfCycle(last, 0, |CycleOf(n.log, last)|);
            && PossibleAll(t, frames)
            && var d := StepAll(t, frames).consumer;
               && (!d.inRecovery <==> i <= last + 1)
               && (!d.inRecovery ==> d.nextExp == (if m > last then m else last + 1) && Caught(n.log, d))
               && (d.inRecovery ==> d.inc == Span(n.log, i, m) && d.forwarded == n.consumer.forwarded)
  {
    var n := StepAll(BEGIN, es);
    AlwaysInv(BEGIN, es);
    var u := n.(consumer := Consumer(true, n.consumer.nextExp, map[], Span(n.log, i, m), n.consumer.forwarded));
    GapThenMore(n, i, m, Incrementals(i, m), u);
    AlwaysInv(n, Incrementals(i, m));
    AfterTheGap(n.log, n.consumer, u, i, m, last);
  }
}
