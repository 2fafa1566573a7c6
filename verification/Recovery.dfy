/** Publisher, synthesizer and consumer over a lossy network: whenever the consumer is not recovering,
    what it has forwarded folds to the exchange's books as of its last sequence number.

    Incrementals may be lost, repeated and reordered in any way. Of the snapshot stream it is assumed
    that a frame reaches the consumer only after the START of its own cycle and before that of another;
    frames may otherwise be lost, repeated and reordered. */
module Recovery {
  import opened Types
  import opened Feed
  import opened MarketLog
  import opened Snapshot
  import opened GapRecovery

  /** `cycle` is the sequence number that the last START to arrive was built from. */
  datatype Net = Net(log: seq<Update>, started: bool, cycle: nat, consumer: Consumer)

  const BEGIN: Net := Net([], false, 0, FRESH)

  datatype Event =
    | Publish(u: Update)
    | Incremental(i: nat)
    | SnapshotFrame(last: nat, k: nat, discarded: bool)

  /** The frames of the snapshot taken after the first `last` updates. */
  function CycleOf(log: seq<Update>, last: nat): seq<Update>
    requires last <= |log|
  {
    Frames(Replay(NO_BOOKS, log[..last]), last)
  }

  /** What can arrive at all: legal updates, incrementals and frames that were sent. */
  ghost predicate Sent(n: Net, e: Event) {
    match e
    case Publish(u) => LegalIn(Replay(NO_BOOKS, n.log), u)
    case Incremental(i) => 1 <= i <= |n.log|
    case SnapshotFrame(last, k, discarded) =>
      && last <= |n.log| && k < |CycleOf(n.log, last)| && (discarded ==> !n.consumer.inRecovery)
  }

  /** And a frame of a cycle only between its own START and the next. */
  ghost predicate Possible(n: Net, e: Event) {
    Sent(n, e) && (e.SnapshotFrame? && e.k > 0 ==> n.started && n.cycle == e.last)
  }

  /** A frame that arrives outside recovery at the start of a read is thrown away (lines 67-73); in the
      middle of one it goes through the receive loop like any other. */
  ghost function Step(n: Net, e: Event): Net
    requires Sent(n, e)
  {
    match e
    case Publish(u) => n.(log := n.log + [u])
    case Incremental(i) => n.(consumer := Receive(n.consumer, false, i, n.log[i - 1]))
    case SnapshotFrame(last, k, discarded) =>
      var c := if discarded then n.consumer else Receive(n.consumer, true, k, CycleOf(n.log, last)[k]);
      Net(n.log, true, last, c)
  }

  ghost predicate PossibleAll(n: Net, es: seq<Event>)
    decreases |es|
  {
    es == [] || (Possible(n, es[0]) && PossibleAll(Step(n, es[0]), es[1..]))
  }

  ghost function StepAll(n: Net, es: seq<Event>): Net
    requires PossibleAll(n, es)
    decreases |es|
  {
    if es == [] then n else StepAll(Step(n, es[0]), es[1..])
  }

  // ---------------------------------------------------------------------- the invariant

  /** The forwarded updates fold to the books as of sequence number nextExp - 1. */
  ghost predicate Caught(log: seq<Update>, c: Consumer) {
    && 1 <= c.nextExp <= |log| + 1
    && Replay(NO_BOOKS, c.forwarded) == Replay(NO_BOOKS, log[..c.nextExp - 1])
  }

  ghost predicate Genuine(log: seq<Update>, inc: Queued) {
    forall i :: i in inc ==> 1 <= i <= |log| && inc[i] == log[i - 1]
  }

  /** What is queued of a snapshot belongs to one cycle and begins with its START. */
  ghost predicate OfCycle(frames: seq<Update>, snap: Queued) {
    snap != map[] ==> 0 in snap && forall k :: k in snap ==> k < |frames| && snap[k] == frames[k]
  }

  ghost predicate Inv(n: Net) {
    && LegalLog(n.log) && (n.started ==> n.cycle <= |n.log|)
    && Genuine(n.log, n.consumer.inc)
    && (n.consumer.snap != map[] ==> n.started && OfCycle(CycleOf(n.log, n.cycle), n.consumer.snap))
    && (!n.consumer.inRecovery ==> n.consumer.snap == map[] && n.consumer.inc == map[] && Caught(n.log, n.consumer))
  }

  // ---------------------------------------------------------------------- the frames of a cycle

  lemma {:induction false} BodyKinds(bs: Books, n: nat)
    requires n <= |bs|
    ensures forall i :: 0 <= i < |Body(bs, n)| ==> !Marks(Body(bs, n)[i])
    decreases n
  {
    if n > 0 {
      BodyKinds(bs, n - 1);
      ListingNames(n - 1, bs[n - 1], ME_MAX_ORDER_IDS);
    }
  }

  /** START is the first frame only, END the last only. */
  lemma FrameKinds(bs: Books, last: nat)
    ensures var fs := Frames(bs, last);
            && |fs| >= 2
            && fs[0] == Marker(SnapshotStart, last) && fs[|fs| - 1] == Marker(SnapshotEnd, last)
            && fs[1..|fs| - 1] == Body(bs, |bs|)
            && (forall k :: 0 < k < |fs| - 1 ==> !Marks(fs[k]))
  {
    BodyKinds(bs, |bs|);
    var fs := Frames(bs, last);
    forall k | 0 < k < |fs| - 1
      ensures !Marks(fs[k])
    {
      assert fs[k] == Body(bs, |bs|)[k - 1];
    }
  }

  /** The messages queued from lo on are these, none of them a START or an END. */
  ghost predicate Queues(m: Queued, lo: nat, us: seq<Update>) {
    forall i :: 0 <= i < |us| ==> lo + i in m && m[lo + i] == us[i] && !Marks(us[i])
  }

  lemma {:induction false} EventsAre(m: Queued, lo: nat, us: seq<Update>)
    requires Queues(m, lo, us) && Covers(m, lo, lo + |us|)
    ensures Events(m, lo, lo + |us|) == us
    decreases |us|
  {
    if us != [] {
      var front := us[..|us| - 1];
      EventsAre(m, lo, front);
      assert us == front + [us[|us| - 1]];
    }
  }

  lemma EventsLast(m: Queued, hi: nat)
    requires Covers(m, 0, hi + 1) && Marks(m[hi])
    ensures Events(m, 0, hi + 1) == Events(m, 0, hi)
  {
  }

  /** Messages between two markers: the events are those between. */
  lemma BracketedEvents(m: Queued, us: seq<Update>, n: nat)
    requires n == |us| + 1 && Covers(m, 0, n + 1) && Marks(m[0]) && Marks(m[n]) && Queues(m, 1, us)
    ensures Events(m, 0, n + 1) == us
  {
    EventsLast(m, n);
    EventsFromOne(m, n);
    EventsAre(m, 1, us);
  }

  /** The events of a complete cycle are its body. */
  lemma CycleEvents(snap: Queued, bs: Books, last: nat)
    requires Contiguous(snap) && |snap| == |Frames(bs, last)|
    requires forall k :: k in snap ==> k < |Frames(bs, last)| && snap[k] == Frames(bs, last)[k]
    ensures Events(snap, 0, |snap|) == Body(bs, |bs|)
  {
    var us := Body(bs, |bs|);
    BodyKinds(bs, |bs|);
    forall i | 0 <= i < |us|
      ensures 1 + i in snap && snap[1 + i] == us[i]
    {
      assert 1 + i in snap;
    }
    assert 0 in snap && |us| + 1 in snap;
    BracketedEvents(snap, us, |us| + 1);
  }

  lemma {:induction false} EventsFromOne(m: Queued, hi: nat)
    requires 1 <= hi && Covers(m, 0, hi) && Marks(m[0])
    ensures Events(m, 0, hi) == Events(m, 1, hi)
    decreases hi
  {
    if hi > 1 {
      EventsFromOne(m, hi - 1);
    } else {
      assert Events(m, 0, 0) == [];
    }
  }

  // ---------------------------------------------------------------------- leaving recovery

  lemma Pieces(log: seq<Update>, last: nat, next: nat)
    requires last <= next <= |log|
    ensures log[..next] == log[..last] + log[last..next]
  {
  }

  /** A snapshot as of `last`, then the incrementals after it, from whatever was forwarded before. */
  lemma Reassembled(log: seq<Update>, start: Books, last: nat, next: nat)
    requires LegalLog(log) && last <= next <= |log| && |start| == ME_MAX_TICKERS
    ensures var bs := Replay(NO_BOOKS, log[..last]);
            Replay(start, Body(bs, |bs|) + log[last..next]) == Replay(NO_BOOKS, log[..next])
  {
    var bs := Replay(NO_BOOKS, log[..last]);
    LogBooksOK(log, last);
    SnapshotRestores(start, bs);
    ReplayConcat(start, Body(bs, |bs|), log[last..next]);
    Pieces(log, last, next);
    ReplayConcat(NO_BOOKS, log[..last], log[last..next]);
  }

  lemma LogUnmarked(log: seq<Update>)
    requires LegalLog(log)
    ensures Unmarked(log)
  {
    forall k | 0 <= k < |log|
      ensures !Marks(log[k])
    {
      assert LegalIn(Replay(NO_BOOKS, log[..k]), log[k]);
    }
  }

  lemma GapWithin(log: seq<Update>, inc: Queued, last: nat)
    requires Genuine(log, inc) && last <= |log|
    ensures last + 1 <= FirstGap(inc, last + 1) <= |log| + 1
  {
    var g := FirstGap(inc, last + 1);
    assert g > last + 1 ==> g - 1 in inc;
  }

  ghost predicate Unmarked(log: seq<Update>) {
    forall k :: 0 <= k < |log| ==> !Marks(log[k])
  }

  lemma IncrementalEvents(log: seq<Update>, inc: Queued, last: nat, g: nat)
    requires Unmarked(log) && Genuine(log, inc) && last < g <= |log| + 1 && Covers(inc, last + 1, g)
    ensures Events(inc, last + 1, g) == log[last..g - 1]
  {
    QueuedLog(log, inc, last, g);
    EventsAre(inc, last + 1, log[last..g - 1]);
  }

  lemma QueuedLog(log: seq<Update>, inc: Queued, last: nat, g: nat)
    requires Genuine(log, inc) && last < g <= |log| + 1 && Covers(inc, last + 1, g)
    requires Unmarked(log)
    ensures Queues(inc, last + 1, log[last..g - 1])
  {
    var us := log[last..g - 1];
    forall i | 0 <= i < |us|
      ensures last + 1 + i in inc && inc[last + 1 + i] == us[i] && !Marks(us[i])
    {
      assert last + 1 + i in inc && us[i] == log[last + i];
    }
  }

  /** A queue that is complete and ends in END holds the whole cycle. */
  lemma WholeCycle(snap: Queued, bs: Books, last: nat)
    requires snap != map[] && OfCycle(Frames(bs, last), snap) && Contiguous(snap) && snap[|snap| - 1].kind.SnapshotEnd?
    ensures |snap| == |Frames(bs, last)| && snap[|snap| - 1].orderId == last
  {
    FrameKinds(bs, last);
    assert |snap| - 1 in snap;
    assert snap[|snap| - 1] == Frames(bs, last)[|snap| - 1];
  }

  lemma Merged(log: seq<Update>, before: seq<Update>, last: nat, next: nat)
    requires LegalLog(log) && last <= next <= |log|
    ensures var bs := Replay(NO_BOOKS, log[..last]);
            Replay(NO_BOOKS, before + (Body(bs, |bs|) + log[last..next])) == Replay(NO_BOOKS, log[..next])
  {
    var bs := Replay(NO_BOOKS, log[..last]);
    Reassembled(log, Replay(NO_BOOKS, before), last, next);
    ReplayConcat(NO_BOOKS, before, Body(bs, |bs|) + log[last..next]);
  }

  lemma MergedCaught(log: seq<Update>, before: seq<Update>, last: nat, g: nat)
    requires LegalLog(log) && last < g <= |log| + 1
    ensures var bs := Replay(NO_BOOKS, log[..last]);
            Caught(log, Consumer(false, g, map[], map[], before + (Body(bs, |bs|) + log[last..g - 1])))
  {
    Merged(log, before, last, g - 1);
  }

  /** What resuming forwards, if it succeeds. */
  lemma ResumeIs(c: Consumer, last: nat, g: nat, body: seq<Update>, more: seq<Update>)
    requires c.inRecovery && c.snap != map[] && Contiguous(c.snap) && c.snap[|c.snap| - 1].orderId == last
    requires g == FirstGap(c.inc, last + 1) && Events(c.snap, 0, |c.snap|) == body && Events(c.inc, last + 1, g) == more
    ensures !Resume(c).inRecovery ==> Resume(c) == Consumer(false, g, map[], map[], c.forwarded + (body + more))
  {
  }

  lemma ResumeCatchesUp(log: seq<Update>, last: nat, c: Consumer)
    requires LegalLog(log) && last <= |log| && Genuine(log, c.inc) && c.inRecovery
    requires c.snap != map[] && OfCycle(CycleOf(log, last), c.snap) && Contiguous(c.snap)
    requires c.snap[|c.snap| - 1].kind.SnapshotEnd?
    ensures !Resume(c).inRecovery ==> Caught(log, Resume(c))
  {
    var bs, g := Replay(NO_BOOKS, log[..last]), FirstGap(c.inc, last + 1);
    assert c.snap[|c.snap| - 1].orderId == last && Events(c.snap, 0, |c.snap|) == Body(bs, |bs|) by {
      WholeCycle(c.snap, bs, last);
      CycleEvents(c.snap, bs, last);
    }
    assert last < g <= |log| + 1 && Events(c.inc, last + 1, g) == log[last..g - 1] by {
      LogUnmarked(log);
      GapWithin(log, c.inc, last);
      IncrementalEvents(log, c.inc, last, g);
    }
    ResumeIs(c, last, g, Body(bs, |bs|), log[last..g - 1]);
    MergedCaught(log, c.forwarded, last, g);
  }

  /** Synchronising keeps what must hold of the queues and, if it ends recovery, catches up. */
  lemma SyncSafe(log: seq<Update>, last: nat, c: Consumer)
    requires LegalLog(log) && last <= |log| && Genuine(log, c.inc) && c.inRecovery
    requires forall k :: k in c.snap ==> k < |CycleOf(log, last)| && c.snap[k] == CycleOf(log, last)[k]
    ensures var d := Sync(c);
            && Genuine(log, d.inc) && OfCycle(CycleOf(log, last), d.snap)
            && (!d.inRecovery ==> d.snap == map[] && d.inc == map[] && Caught(log, d))
  {
    if c.snap != map[] {
      FrameKinds(Replay(NO_BOOKS, log[..last]), last);
      assert First(c.snap) in c.snap;
      if c.snap[First(c.snap)].kind.SnapshotStart? && Contiguous(c.snap) && c.snap[|c.snap| - 1].kind.SnapshotEnd? {
        ResumeCatchesUp(log, last, c);
      }
    }
  }

  // ---------------------------------------------------------------------- every step

  lemma GrownLog(log: seq<Update>, u: Update, c: Consumer, cycle: nat)
    requires Genuine(log, c.inc) && cycle <= |log|
    ensures Genuine(log + [u], c.inc) && CycleOf(log + [u], cycle) == CycleOf(log, cycle)
    ensures Caught(log, c) ==> Caught(log + [u], c)
  {
    assert (log + [u])[..cycle] == log[..cycle];
    if Caught(log, c) {
      assert (log + [u])[..c.nextExp - 1] == log[..c.nextExp - 1];
    }
  }

  lemma PublishSafe(n: Net, u: Update)
    requires Inv(n) && Possible(n, Publish(u))
    ensures Inv(Step(n, Publish(u)))
  {
    assert LegalLog(n.log + [u]) by {
      LegalAppend(n.log, u);
    }
    GrownLog(n.log, u, n.consumer, if n.started then n.cycle else 0);
  }

  lemma NextForwarded(log: seq<Update>, c: Consumer, d: Consumer)
    requires Caught(log, c) && c.nextExp <= |log|
    requires d == c.(nextExp := c.nextExp + 1, forwarded := c.forwarded + [log[c.nextExp - 1]])
    ensures Caught(log, d)
  {
    var i := c.nextExp;
    assert log[..i] == log[..i - 1] + [log[i - 1]];
    ReplaySnoc(NO_BOOKS, c.forwarded, log[i - 1]);
    ReplaySnoc(NO_BOOKS, log[..i - 1], log[i - 1]);
  }

  lemma IncrementalSafe(n: Net, i: nat)
    requires Inv(n) && Possible(n, Incremental(i))
    ensures Inv(Step(n, Incremental(i)))
  {
    var c, u := n.consumer, n.log[i - 1];
    if !c.inRecovery && i == c.nextExp {
      NextForwarded(n.log, c, Step(n, Incremental(i)).consumer);
    } else {
      var d := Queue(if c.inRecovery then c else c.(inRecovery := true, snap := map[], inc := map[]), false, i, u);
      SyncSafe(n.log, if n.started then n.cycle else 0, d);
    }
  }

  lemma FrameSafe(n: Net, last: nat, k: nat)
    requires Inv(n) && Possible(n, SnapshotFrame(last, k, false))
    ensures Inv(Step(n, SnapshotFrame(last, k, false)))
  {
    var c, u := n.consumer, CycleOf(n.log, last)[k];
    if c.inRecovery || k != c.nextExp {
      var d := Queue(if c.inRecovery then c else c.(inRecovery := true, snap := map[], inc := map[]), true, k, u);
      SyncSafe(n.log, last, d);
    }
  }

  lemma StepSafe(n: Net, e: Event)
    requires Inv(n) && Possible(n, e)
    ensures Inv(Step(n, e))
  {
    match e
    case Publish(u) => PublishSafe(n, u);
    case Incremental(i) => IncrementalSafe(n, i);
    case SnapshotFrame(last, k, discarded) =>
      if !discarded {
        FrameSafe(n, last, k);
      }
  }

  lemma {:induction false} AlwaysInv(n: Net, es: seq<Event>)
    requires Inv(n) && PossibleAll(n, es)
    ensures Inv(StepAll(n, es))
    decreases |es|
  {
    if es != [] {
      StepSafe(n, es[0]);
      AlwaysInv(Step(n, es[0]), es[1..]);
    }
  }

  /** Recovery safety, over every run: outside recovery the forwarded updates fold to exactly the
      exchange's books as of sequence number nextExp - 1. */
  lemma RecoverySafety(es: seq<Event>)
    requires PossibleAll(BEGIN, es)
    ensures var n := StepAll(BEGIN, es);
            !n.consumer.inRecovery ==>
              && 1 <= n.consumer.nextExp <= |n.log| + 1
              && Replay(NO_BOOKS, n.consumer.forwarded) == Replay(NO_BOOKS, n.log[..n.consumer.nextExp - 1])
  {
    AlwaysInv(BEGIN, es);
  }

  /** From requests to the trade engine: a consumer that is outside recovery and has heard the whole log
      holds the public view of every book of the exchange, whatever was routed and whatever was lost. */
  lemma EndToEnd(rs: seq<Routed>, es: seq<Event>)
    requires RoutableAll(OPENING, rs) && PossibleAll(BEGIN, es) && StepAll(BEGIN, es).log == RouteAll(OPENING, rs).log
    requires var n := StepAll(BEGIN, es); !n.consumer.inRecovery && n.consumer.nextExp == |n.log| + 1
    ensures Shows(Replay(NO_BOOKS, StepAll(BEGIN, es).consumer.forwarded), RouteAll(OPENING, rs))
  {
    OpeningTold();
    LogRebuildsBooks(OPENING, rs);
    AlwaysInv(BEGIN, es);
    UpToDate(RouteAll(OPENING, rs), StepAll(BEGIN, es).consumer);
  }

  lemma UpToDate(h: Hub, c: Consumer)
    requires Told(h) && Caught(h.log, c) && c.nextExp == |h.log| + 1
    ensures Shows(Replay(NO_BOOKS, c.forwarded), h)
  {
    assert h.log[..|h.log|] == h.log;
    ToldShows(h);
  }

  /** The books are the public view of the exchange's. */
  ghost predicate Shows(books: Books, h: Hub) {
    |books| == |h.exchanges| == ME_MAX_TICKERS && forall t :: 0 <= t < |books| ==> books[t] == PublicBook(h.exchanges[t].book)
  }

  lemma ToldShows(h: Hub)
    requires Told(h)
    ensures Shows(Replay(NO_BOOKS, h.log), h)
  {
  }

  // ---------------------------------------------------------------------- recovery can end

  /** The queue after the first k frames of a cycle. */
  function Prefix(fs: seq<Update>, k: nat): (m: Queued)
    requires k <= |fs|
    ensures |m| == k
    ensures forall i: nat :: i in m <==> i < k
    ensures forall i: nat :: i in m ==> m[i] == fs[i]
  {
    if k == 0 then map[] else Prefix(fs, k - 1)[k - 1 := fs[k - 1]]
  }

  /** The network once the first k frames of a cycle have been queued. */
  ghost predicate Midway(n: Net, last: nat, k: nat) {
    && Inv(n) && n.consumer.inRecovery && last <= |n.log|
    && (k > 0 ==> n.started && n.cycle == last && k <= |CycleOf(n.log, last)| && n.consumer.snap == Prefix(CycleOf(n.log, last), k))
  }

  lemma FrameQueued(n: Net, last: nat, k: nat)
    requires Midway(n, last, k) && k < |CycleOf(n.log, last)|
    ensures Queue(n.consumer, true, k, CycleOf(n.log, last)[k]) ==
            n.consumer.(snap := Prefix(CycleOf(n.log, last), k + 1))
  {
  }

  /** A frame before the last one is queued, and recovery goes on. */
  lemma FrameWaits(n: Net, last: nat, k: nat)
    requires Midway(n, last, k) && k < |CycleOf(n.log, last)| - 1
    ensures Possible(n, SnapshotFrame(last, k, false))
    ensures Midway(Step(n, SnapshotFrame(last, k, false)), last, k + 1)
    ensures Step(n, SnapshotFrame(last, k, false)).consumer.inc == n.consumer.inc
    ensures Step(n, SnapshotFrame(last, k, false)).consumer.forwarded == n.consumer.forwarded
    ensures Step(n, SnapshotFrame(last, k, false)).log == n.log
  {
    var fs := CycleOf(n.log, last);
    FrameQueued(n, last, k);
    FrameKinds(Replay(NO_BOOKS, n.log[..last]), last);
    PrefixIsWhole(fs, k + 1);
    SyncWaits(n.consumer.(snap := Prefix(fs, k + 1)));
    StepSafe(n, SnapshotFrame(last, k, false));
  }

  /** Behind the snapshot nothing is missing before something that is queued. */
  ghost predicate NoHole(inc: Queued, last: nat) {
    forall j: nat, k: nat :: last < j < k && k in inc ==> j in inc
  }

  /** `g` is one past the longest gapless run of queued incrementals after the snapshot. */
  ghost predicate RunEnds(inc: Queued, last: nat, g: nat) {
    g > last && Covers(inc, last + 1, g) && g !in inc
  }

  lemma GapIsRunEnd(inc: Queued, last: nat, g: nat)
    requires RunEnds(inc, last, g)
    ensures g == FirstGap(inc, last + 1)
    ensures NoHole(inc, last) <==> !exists k :: k in inc && k > g
  {
    var f := FirstGap(inc, last + 1);
    assert f < g ==> f in inc;
    assert g < f ==> g in inc;
    if k :| k in inc && k > g {
      assert last < g < k;
    }
  }

  lemma PrefixIsWhole(fs: seq<Update>, n: nat)
    requires 0 < n <= |fs|
    ensures var m := Prefix(fs, n); Contiguous(m) && 0 in m && m[0] == fs[0] && m[|m| - 1] == fs[n - 1]
  {
  }

  /** Where a whole cycle as of `last` leaves a recovering consumer: back, with the snapshot and the queued
      incrementals after it forwarded, or, if there is a hole behind the snapshot, waiting for another. */
  ghost function Rejoined(log: seq<Update>, inc: Queued, forwarded: seq<Update>, last: nat, g: nat): Consumer
    requires last < g <= |log| + 1
  {
    var bs := Replay(NO_BOOKS, log[..last]);
    if NoHole(inc, last) then Consumer(false, g, map[], map[], forwarded + (Body(bs, |bs|) + log[last..g - 1]))
    else Consumer(true, g, map[], inc, forwarded)
  }

  /** What resuming does either way. */
  lemma ResumeEither(c: Consumer, last: nat, g: nat, body: seq<Update>, more: seq<Update>, whole: bool)
    requires c.inRecovery && c.snap != map[] && Contiguous(c.snap) && c.snap[|c.snap| - 1].orderId == last
    requires g == FirstGap(c.inc, last + 1) && Events(c.snap, 0, |c.snap|) == body && Events(c.inc, last + 1, g) == more
    requires whole <==> !exists k :: k in c.inc && k > g
    ensures whole ==> Resume(c) == Consumer(false, g, map[], map[], c.forwarded + (body + more))
    ensures !whole ==> Resume(c) == Consumer(true, g, map[], c.inc, c.forwarded)
  {
  }

  lemma ResumeOutcome(log: seq<Update>, c: Consumer, last: nat, g: nat)
    requires LegalLog(log) && last < g <= |log| + 1 && Genuine(log, c.inc) && c.inRecovery && RunEnds(c.inc, last, g)
    requires c.snap != map[] && Contiguous(c.snap) && c.snap[|c.snap| - 1].orderId == last
    requires var bs := Replay(NO_BOOKS, log[..last]); Events(c.snap, 0, |c.snap|) == Body(bs, |bs|)
    ensures Resume(c) == Rejoined(log, c.inc, c.forwarded, last, g)
  {
    var bs := Replay(NO_BOOKS, log[..last]);
    GapIsRunEnd(c.inc, last, g);
    assert Events(c.inc, last + 1, g) == log[last..g - 1] by {
      LogUnmarked(log);
      IncrementalEvents(log, c.inc, last, g);
    }
    ResumeEither(c, last, g, Body(bs, |bs|), log[last..g - 1], NoHole(c.inc, last));
  }

  lemma SyncOutcome(log: seq<Update>, c: Consumer, last: nat, g: nat)
    requires LegalLog(log) && last < g <= |log| + 1 && Genuine(log, c.inc) && c.inRecovery && RunEnds(c.inc, last, g)
    requires c.snap == Prefix(CycleOf(log, last), |CycleOf(log, last)|)
    ensures Sync(c) == Rejoined(log, c.inc, c.forwarded, last, g)
  {
    var bs := Replay(NO_BOOKS, log[..last]);
    var fs := Frames(bs, last);
    assert |fs| >= 2 && fs[0] == Marker(SnapshotStart, last) && fs[|fs| - 1] == Marker(SnapshotEnd, last) by {
      FrameKinds(bs, last);
    }
    PrefixIsWhole(fs, |fs|);
    SyncResumes(c);
    CycleEvents(c.snap, bs, last);
    ResumeOutcome(log, c, last, g);
  }

  lemma LastFrameEnds(n: Net, last: nat, k: nat, g: nat)
    requires last < g <= |n.log| + 1 && k > 0 && k == |CycleOf(n.log, last)| - 1 && Midway(n, last, k)
    requires RunEnds(n.consumer.inc, last, g)
    ensures Possible(n, SnapshotFrame(last, k, false))
    ensures Step(n, SnapshotFrame(last, k, false)).consumer == Rejoined(n.log, n.consumer.inc, n.consumer.forwarded, last, g)
  {
    FrameQueued(n, last, k);
    SyncOutcome(n.log, Queue(n.consumer, true, k, CycleOf(n.log, last)[k]), last, g);
  }

  /** Frames k, k+1, ... of a cycle of `size` frames, to its end. */
  function RestOfCycle(last: nat, k: nat, size: nat): seq<Event>
    requires k <= size
    decreases size - k
  {
    if k == size then [] else [SnapshotFrame(last, k, false)] + RestOfCycle(last, k + 1, size)
  }

  lemma OneEvent(n: Net, e: Event)
    requires Possible(n, e)
    ensures PossibleAll(n, [e]) && StepAll(n, [e]) == Step(n, e)
  {
    assert [e][1..] == [];
  }

  lemma EventFirst(n: Net, e: Event, es: seq<Event>)
    requires Possible(n, e) && PossibleAll(Step(n, e), es)
    ensures PossibleAll(n, [e] + es) && StepAll(n, [e] + es) == StepAll(Step(n, e), es)
  {
    assert ([e] + es)[1..] == es;
  }

  lemma {:induction false} CycleOutcome(n: Net, last: nat, k: nat, size: nat, g: nat)
    requires last < g <= |n.log| + 1 && size == |CycleOf(n.log, last)| && k < size
    requires Midway(n, last, k) && RunEnds(n.consumer.inc, last, g)
    ensures PossibleAll(n, RestOfCycle(last, k, size)) && StepAll(n, RestOfCycle(last, k, size)).log == n.log
    ensures StepAll(n, RestOfCycle(last, k, size)).consumer == Rejoined(n.log, n.consumer.inc, n.consumer.forwarded, last, g)
    decreases size - k
  {
    var e := SnapshotFrame(last, k, false);
    assert size >= 2 by {
      FrameKinds(Replay(NO_BOOKS, n.log[..last]), last);
    }
    if k == size - 1 {
      LastFrameEnds(n, last, k, g);
      assert RestOfCycle(last, k, size) == [e];
      OneEvent(n, e);
    } else {
      FrameWaits(n, last, k);
      CycleOutcome(Step(n, e), last, k + 1, size, g);
      EventFirst(n, e, RestOfCycle(last, k + 1, size));
    }
  }

  lemma RunEndsWithin(log: seq<Update>, inc: Queued, last: nat, g: nat)
    requires Genuine(log, inc) && last <= |log| && RunEnds(inc, last, g)
    ensures g <= |log| + 1
  {
    assert g > last + 1 ==> g - 1 in inc;
  }

  /** Recovery always can end, and exactly where it does: in any reachable state in recovery, a whole cycle
      as of `last` brings the consumer back if and only if no hole in the queued incrementals follows the
      snapshot. It then has forwarded the snapshot and the incrementals after it, has caught up, and expects
      the number after the longest gapless run of queued ones; otherwise it keeps its incrementals and
      waits. */
  lemma WholeCycleRecovers(es: seq<Event>, last: nat, g: nat)
    requires PossibleAll(BEGIN, es)
    requires var n := StepAll(BEGIN, es); n.consumer.inRecovery && last <= |n.log| && RunEnds(n.consumer.inc, last, g)
    ensures var n := StepAll(BEGIN, es);
            var frames := RestOfCycle(last, 0, |CycleOf(n.log, last)|);
            && PossibleAll(n, frames)
            && var c, d := n.consumer, StepAll(n, frames).consumer;
               && g <= |n.log| + 1 && StepAll(n, frames).log == n.log && d.nextExp == g && d.snap == map[]
               && (!d.inRecovery <==> NoHole(c.inc, last))
               && (!d.inRecovery ==> Caught(n.log, d) && d.inc == map[] && c.forwarded <= d.forwarded)
               && (d.inRecovery ==> d.inc == c.inc && d.forwarded == c.forwarded)
  {
    var n := StepAll(BEGIN, es);
    var frames := RestOfCycle(last, 0, |CycleOf(n.log, last)|);
    AlwaysInv(BEGIN, es);
    FrameKinds(Replay(NO_BOOKS, n.log[..last]), last);
    RunEndsWithin(n.log, n.consumer.inc, last, g);
    CycleOutcome(n, last, 0, |CycleOf(n.log, last)|, g);
    AlwaysInv(n, frames);
  }
}
