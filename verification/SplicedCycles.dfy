/** Why the snapshot stream needs its delivery assumption: the consumer looks at the sequence number in
    SNAPSHOT_END only (trading/market_data/market_data_consumer.cpp:205-216), so the beginning of one
    cycle and the end of the next can pass for one snapshot. */
module SplicedCycles {
  import opened Types
  import opened PriceTime
  import opened Matching
  import opened Feed
  import opened MarketLog
  import opened Snapshot
  import opened GapRecovery
  import opened Recovery

  const ADDED: Update := Update(Add, 1, 0, Buy, 100, 5, 1)
  const GONE: Update := Update(CancelOrder, 1, 0, Buy, 100, 0, 1)
  const LOG: seq<Update> := [ADDED, GONE]

  /** The books after the first update: one order on ticker 0. */
  const ONE_ORDER: Books := NO_BOOKS[0 := Book([OrderOf(ADDED)], [])]

  lemma OneSeq(o: Order, id: nat)
    ensures IndexOfId([o], id) == (if o.moid == id then 0 else -1) && RemoveAt([o], 0) == []
    ensures Insert(Buy, [], o) == [o]
  {
    assert [o][1..] == [];
  }

  lemma LogBooks()
    ensures LegalLog(LOG)
    ensures Replay(NO_BOOKS, LOG[..1]) == ONE_ORDER && Replay(NO_BOOKS, LOG[..2]) == NO_BOOKS
  {
    OneSeq(OrderOf(ADDED), 1);
    assert LOG[..0] == [] && LOG[..1] == [] + [ADDED] && LOG[..2] == LOG[..1] + [GONE];
    ReplaySnoc(NO_BOOKS, [], ADDED);
    ReplaySnoc(NO_BOOKS, LOG[..1], GONE);
    assert ApplyTo(NO_BOOKS, ADDED) == ONE_ORDER;
    assert ApplyTo(ONE_ORDER, GONE) == NO_BOOKS;
    assert LegalIn(NO_BOOKS, ADDED) && LegalIn(ONE_ORDER, GONE);
  }

  lemma {:induction false} EmptyListing(ticker: nat, n: nat)
    ensures Listing(ticker, EMPTY, n) == []
    decreases n
  {
    if n > 0 {
      EmptyListing(ticker, n - 1);
    }
  }

  lemma {:induction false} SingleListing(ticker: nat, o: Order, n: nat)
    ensures Listing(ticker, Book([o], []), n) == if o.moid < n then [Record(ticker, o)] else []
    decreases n
  {
    if n > 0 {
      SingleListing(ticker, o, n - 1);
      OneSeq(o, n - 1);
    }
  }

  lemma {:induction false} EmptyBody(bs: Books, n: nat)
    requires n <= |bs| && forall t :: 0 <= t < n ==> bs[t] == EMPTY
    ensures |Body(bs, n)| == n
    decreases n
  {
    if n > 0 {
      EmptyBody(bs, n - 1);
      EmptyListing(n - 1, ME_MAX_ORDER_IDS);
    }
  }

  lemma {:induction false} OneOrderBody(bs: Books, o: Order, n: nat)
    requires 0 < n <= |bs| && bs[0] == Book([o], []) && o.moid < ME_MAX_ORDER_IDS
    requires forall t :: 0 < t < n ==> bs[t] == EMPTY
    ensures |Body(bs, n)| == n + 1
    decreases n
  {
    if n > 1 {
      OneOrderBody(bs, o, n - 1);
      EmptyListing(n - 1, ME_MAX_ORDER_IDS);
    } else {
      SingleListing(0, o, ME_MAX_ORDER_IDS);
    }
  }

  /** The second cycle is one frame shorter than the first. */
  lemma SecondCycle()
    ensures |Body(Replay(NO_BOOKS, LOG[..2]), 8)| == 8 && |CycleOf(LOG, 2)| == 10 && CycleOf(LOG, 2)[9] == Marker(SnapshotEnd, 2)
  {
    LogBooks();
    EmptyBody(NO_BOOKS, 8);
  }

  /** Everything up to the queueing of a part of a cycle is possible. */
  lemma {:induction false} CycleWaits(n: Net, last: nat, k: nat, size: nat)
    requires last <= |n.log| && k <= size < |CycleOf(n.log, last)| && Midway(n, last, k) && (k == 0 ==> size > 0)
    ensures PossibleAll(n, RestOfCycle(last, k, size))
    ensures var m := StepAll(n, RestOfCycle(last, k, size));
            Midway(m, last, size) && m.log == n.log && m.consumer.inc == n.consumer.inc && m.consumer.forwarded == n.consumer.forwarded
    decreases size - k
  {
    if k < size {
      FrameWaits(n, last, k);
      FrameForwardsNothing(n, last, k);
      var e := SnapshotFrame(last, k, false);
      CycleWaits(Step(n, e), last, k + 1, size);
      EventFirst(n, e, RestOfCycle(last, k + 1, size));
    }
  }

  lemma FrameForwardsNothing(n: Net, last: nat, k: nat)
    requires last <= |n.log| && Midway(n, last, k) && k < |CycleOf(n.log, last)|
    requires Possible(n, SnapshotFrame(last, k, false)) && Step(n, SnapshotFrame(last, k, false)).consumer.inRecovery
    ensures Step(n, SnapshotFrame(last, k, false)).consumer.forwarded == n.consumer.forwarded
  {
  }

  /** Both updates are published, the first is lost, the second arrives: the consumer recovers. */
  lemma GapOpens() returns (a: Net, b: Net, n: Net)
    ensures Possible(BEGIN, Publish(ADDED)) && a == Step(BEGIN, Publish(ADDED))
    ensures Possible(a, Publish(GONE)) && b == Step(a, Publish(GONE))
    ensures Possible(b, Incremental(2)) && n == Step(b, Incremental(2))
    ensures n.log == LOG && n.consumer == Consumer(true, 1, map[], map[2 := GONE], [])
    ensures Midway(n, 1, 0)
  {
    LogBooks();
    a := Step(BEGIN, Publish(ADDED));
    assert a.log == LOG[..1];
    b := Step(a, Publish(GONE));
    assert b.log == LOG;
    n := Step(b, Incremental(2));
    StepSafe(BEGIN, Publish(ADDED));
    StepSafe(a, Publish(GONE));
    StepSafe(b, Incremental(2));
  }

  // ---------------------------------------------------------------------- what a spliced queue restores

  /** What the snapshot says of the tickers from t up to n. */
  function Between(bs: Books, t: nat, n: nat): seq<Update>
    requires n <= |bs|
  {
    if n <= t then [] else
    Between(bs, t, n - 1) + Restart(n - 1, bs[n - 1])
  }

  lemma {:induction false} BodySplits(bs: Books, t: nat, n: nat)
    requires t <= n <= |bs|
    ensures Body(bs, n) == Body(bs, t) + Between(bs, t, n)
    decreases n
  {
    if t < n {
      BodySplits(bs, t, n - 1);
    }
  }

  /** The tickers from t up to n are those of bs, the others as before. */
  ghost predicate Restored(start: Books, bs: Books, t: nat, n: nat, r: Books) {
    |r| == |start| == |bs| && forall i :: 0 <= i < |start| ==> r[i] == if t <= i < n then bs[i] else start[i]
  }

  lemma OneMoreRestored(start: Books, bs: Books, t: nat, n: nat, mid: Books)
    requires t < n <= |bs| && Restored(start, bs, t, n - 1, mid)
    ensures Restored(start, bs, t, n, mid[n - 1 := bs[n - 1]])
  {
  }

  lemma BetweenNext(start: Books, bs: Books, t: nat, n: nat)
    requires t < n <= |bs| && PublicOK(bs[n - 1]) && Restored(start, bs, t, n - 1, Replay(start, Between(bs, t, n - 1)))
    ensures Restored(start, bs, t, n, Replay(start, Between(bs, t, n)))
  {
    var mid := Replay(start, Between(bs, t, n - 1));
    ReplayConcat(start, Between(bs, t, n - 1), Restart(n - 1, bs[n - 1]));
    TickerRestores(mid, n - 1, bs[n - 1]);
    OneMoreRestored(start, bs, t, n, mid);
  }

  lemma {:induction false} BetweenRestores(start: Books, bs: Books, t: nat, n: nat)
    requires |start| == |bs| && t <= n <= |bs| && BooksOK(bs)
    ensures Restored(start, bs, t, n, Replay(start, Between(bs, t, n)))
    decreases n
  {
    if t < n {
      BetweenRestores(start, bs, t, n - 1);
      BetweenNext(start, bs, t, n);
    }
  }

  /** Ticker i after the first t tickers of one snapshot and those from t' on of another. */
  function SplicedBook(held: Books, first: Books, t: nat, second: Books, t': nat, i: nat): Book
    requires i < |held| == |first| == |second|
  {
    if t' <= i then second[i] else if i < t then first[i] else held[i]
  }

  lemma FirstThenSecond(held: Books, first: Books, t: nat, second: Books, t': nat, mid: Books, r: Books)
    requires |held| == |first| == |second| == |r| && t <= |first| && t' <= |second| && mid == first[..t] + held[t..]
    requires Restored(mid, second, t', |second|, r)
    ensures forall i :: 0 <= i < |held| ==> r[i] == SplicedBook(held, first, t, second, t', i)
  {
  }

  lemma SpliceRestores(held: Books, first: Books, t: nat, second: Books, t': nat)
    requires |held| == |first| == |second| && t <= |first| && t' <= |second| && BooksOK(first) && BooksOK(second)
    ensures var r := Replay(held, Body(first, t) + Between(second, t', |second|));
            |r| == |held| && forall i :: 0 <= i < |held| ==> r[i] == SplicedBook(held, first, t, second, t', i)
  {
    var mid: Books := first[..t] + held[t..];
    assert Replay(held, Body(first, t)) == mid by {
      BodyRestores(held, first, t);
    }
    BetweenRestores(mid, second, t', |second|);
    ReplayConcat(held, Body(first, t), Between(second, t', |second|));
    FirstThenSecond(held, first, t, second, t', mid, Replay(mid, Between(second, t', |second|)));
  }

  /** A queue that runs without a gap from a START over these events to an END is taken for a snapshot as of
      the sequence number in the END, whatever the START says. */
  lemma SplicedSync(c: Consumer, us: seq<Update>, last: nat)
    requires Contiguous(c.snap) && |c.snap| == |us| + 2 && c.snap[0].kind.SnapshotStart?
    requires c.snap[|us| + 1] == Marker(SnapshotEnd, last) && Queues(c.snap, 1, us)
    requires forall k :: k in c.inc ==> k <= last
    ensures Sync(c) == Consumer(false, last + 1, map[], map[], c.forwarded + us)
  {
    BracketedEvents(c.snap, us, |us| + 1);
    StartsAtZero(c.snap);
    assert FirstGap(c.inc, last + 1) == last + 1;
    assert us + [] == us;
  }

  /** The frames before the cut come from one cycle, the rest from another. */
  ghost predicate Spliced(snap: Queued, first: seq<Update>, second: seq<Update>, cut: nat) {
    && 1 <= cut <= |first| && cut < |second| && Contiguous(snap) && |snap| == |second|
    && forall k :: k in snap ==> snap[k] == if k < cut then first[k] else second[k]
  }

  /** Position k of a cycle between its START and its END. */
  lemma FrameAt(bs: Books, last: nat, t: nat, k: nat)
    requires t <= |bs| && 1 <= k <= |Body(bs, |bs|)|
    ensures var size := |Body(bs, t)|;
            && |Body(bs, |bs|)| == size + |Between(bs, t, |bs|)|
            && Frames(bs, last)[k] == (if k <= size then Body(bs, t)[k - 1] else Between(bs, t, |bs|)[k - 1 - size])
            && !Marks(Frames(bs, last)[k])
  {
    BodySplits(bs, t, |bs|);
    FrameKinds(bs, last);
    assert Frames(bs, last)[k] == Body(bs, |bs|)[k - 1];
  }

  /** One event of a queue cut where one cycle has said t tickers and the other t'. */
  lemma SplicedFrame(snap: Queued, first: Books, a: nat, t: nat, second: Books, b: nat, t': nat, us: seq<Update>, i: nat)
    requires t <= |first| && t' <= |second| && |Body(first, t)| == |Body(second, t')| && |Body(first, t)| <= |Body(first, |first|)|
    requires us == Body(first, t) + Between(second, t', |second|) && i < |us| == |Body(second, |second|)|
    requires 1 + i in snap && snap[1 + i] == if i < |Body(first, t)| then Frames(first, a)[1 + i] else Frames(second, b)[1 + i]
    ensures snap[1 + i] == us[i] && !Marks(us[i])
  {
    if i < |Body(first, t)| {
      FrameAt(first, a, t, 1 + i);
    } else {
      FrameAt(second, b, t', 1 + i);
    }
  }

  lemma SplicedQueues(snap: Queued, first: Books, a: nat, t: nat, second: Books, b: nat, t': nat, us: seq<Update>)
    requires t <= |first| && t' <= |second| && |Body(first, t)| == |Body(second, t')|
    requires Spliced(snap, Frames(first, a), Frames(second, b), |Body(first, t)| + 1)
    requires us == Body(first, t) + Between(second, t', |second|)
    ensures |snap| == |us| + 2 && Queues(snap, 1, us)
    ensures snap[0].kind.SnapshotStart? && snap[|us| + 1] == Marker(SnapshotEnd, b)
  {
    assert |Body(first, t)| <= |Body(first, |first|)| by {
      BodySplits(first, t, |first|);
    }
    assert |us| == |Body(second, |second|)| by {
      BodySplits(second, t', |second|);
    }
    assert 0 in snap && |us| + 1 in snap;
    forall i | 0 <= i < |us|
      ensures 1 + i in snap && snap[1 + i] == us[i] && !Marks(us[i])
    {
      assert 1 + i in snap;
      SplicedFrame(snap, first, a, t, second, b, t', us, i);
    }
  }

  /** The exact failure: such a queue always ends recovery at the END's sequence number, and the consumer
      has then caught up exactly if the tickers that the END's own cycle did not get to say are as that cycle
      would have said them. */
  lemma SpliceIff(log: seq<Update>, a: nat, t: nat, b: nat, t': nat, c: Consumer)
    requires LegalLog(log) && a <= |log| && b <= |log| && c.inRecovery && t <= ME_MAX_TICKERS && t' <= ME_MAX_TICKERS
    requires var first, second := Replay(NO_BOOKS, log[..a]), Replay(NO_BOOKS, log[..b]);
             && |Body(first, t)| == |Body(second, t')|
             && Spliced(c.snap, CycleOf(log, a), CycleOf(log, b), |Body(first, t)| + 1)
    requires forall k :: k in c.inc ==> k <= b
    ensures !Sync(c).inRecovery && Sync(c).nextExp == b + 1
    ensures var first, second, held := Replay(NO_BOOKS, log[..a]), Replay(NO_BOOKS, log[..b]), Replay(NO_BOOKS, c.forwarded);
            Caught(log, Sync(c)) <==> forall i :: 0 <= i < t' ==> (if i < t then first[i] else held[i]) == second[i]
  {
    var first, second, held := Replay(NO_BOOKS, log[..a]), Replay(NO_BOOKS, log[..b]), Replay(NO_BOOKS, c.forwarded);
    var us := Body(first, t) + Between(second, t', |second|);
    SplicedQueues(c.snap, first, a, t, second, b, t', us);
    SplicedSync(c, us, b);
    ReplayConcat(NO_BOOKS, c.forwarded, us);
    assert Replay(held, us) == second <==> forall i :: 0 <= i < t' ==> (if i < t then first[i] else held[i]) == second[i] by {
      LogBooksOK(log, a);
      LogBooksOK(log, b);
      SpliceRestores(held, first, t, second, t');
      SameBooks(held, first, t, second, t', Replay(held, us));
    }
  }

  lemma SameBooks(held: Books, first: Books, t: nat, second: Books, t': nat, r: Books)
    requires |r| == |held| == |first| == |second| && t' <= |second|
    requires forall i :: 0 <= i < |held| ==> r[i] == SplicedBook(held, first, t, second, t', i)
    ensures r == second <==> forall i :: 0 <= i < t' ==> (if i < t then first[i] else held[i]) == second[i]
  {
    if forall i :: 0 <= i < t' ==> (if i < t then first[i] else held[i]) == second[i] {
      assert forall i :: 0 <= i < |second| ==> r[i] == second[i];
    } else {
      var i :| 0 <= i < t' && (if i < t then first[i] else held[i]) != second[i];
      assert r[i] != second[i];
    }
  }

  // ---------------------------------------------------------------------- a run in which it happens

  lemma FirstCycle()
    ensures |CycleOf(LOG, 1)| == 11 && |Body(Replay(NO_BOOKS, LOG[..1]), 7)| == 8
  {
    LogBooks();
    assert ONE_ORDER[0] == Book([OrderOf(ADDED)], []);
    OneOrderBody(ONE_ORDER, OrderOf(ADDED), 7);
    OneOrderBody(ONE_ORDER, OrderOf(ADDED), 8);
  }

  /** A run that is possible, up to nine frames of the first cycle. */
  lemma HalfACycle() returns (es: seq<Event>, d: Consumer, cut: nat)
    ensures PossibleAll(BEGIN, es) && StepAll(BEGIN, es).log == LOG && d == StepAll(BEGIN, es).consumer
    ensures cut == 9 < |CycleOf(LOG, 1)| && d.inRecovery && d.snap == Prefix(CycleOf(LOG, 1), cut)
    ensures d.inc == map[2 := GONE]
  {
    FirstCycle();
    cut := 9;
    var a, b, n := GapOpens();
    CycleWaits(n, 1, 0, cut);
    var frames := RestOfCycle(1, 0, cut);
    EventFirst(b, Incremental(2), frames);
    EventFirst(a, Publish(GONE), [Incremental(2)] + frames);
    EventFirst(BEGIN, Publish(ADDED), [Publish(GONE)] + ([Incremental(2)] + frames));
    es := [Publish(ADDED)] + ([Publish(GONE)] + ([Incremental(2)] + frames));
    d := StepAll(BEGIN, es).consumer;
  }

  /** The END of the second cycle completes the queue. */
  lemma SplicedQueue(snap: Queued, first: seq<Update>, second: seq<Update>, cut: nat)
    requires 1 <= cut <= |first| && |second| == cut + 1 && snap == Prefix(first, cut)
    ensures Spliced(snap[cut := second[cut]], first, second, cut)
  {
  }

  /** A cycle that stops after t tickers, then the END of a later one, in the place where it belongs: the
      consumer believes a ticker that has changed in between. */
  lemma Misled(log: seq<Update>, a: nat, t: nat, b: nat, t': nat, d: Consumer, cut: nat, c: Consumer)
    requires LegalLog(log) && a <= |log| && b <= |log| && 0 < t <= ME_MAX_TICKERS && t' == ME_MAX_TICKERS
    requires var first, second := Replay(NO_BOOKS, log[..a]), Replay(NO_BOOKS, log[..b]);
             |Body(first, t)| + 1 == cut == |Body(second, t')| + 1 && first[0] != second[0]
    requires cut < |CycleOf(log, a)| && cut + 1 == |CycleOf(log, b)|
    requires d.inRecovery && d.snap == Prefix(CycleOf(log, a), cut) && (forall k :: k in d.inc ==> k <= b)
    requires c == Receive(d, true, cut, CycleOf(log, b)[cut])
    ensures !c.inRecovery && c.nextExp == b + 1 && !Caught(log, c)
  {
    SplicedQueue(d.snap, CycleOf(log, a), CycleOf(log, b), cut);
    SpliceIff(log, a, t, b, t', d.(snap := d.snap[cut := CycleOf(log, b)[cut]]));
  }

  lemma TwoCycles() returns (log: seq<Update>, a: nat, t: nat, b: nat, t': nat)
    ensures log == LOG && LegalLog(log) && a == 1 && b == 2 == |log| && 0 < t <= ME_MAX_TICKERS == t'
    ensures var first, second := Replay(NO_BOOKS, log[..a]), Replay(NO_BOOKS, log[..b]);
            |Body(first, t)| == 8 == |Body(second, t')| && first[0] != second[0]
    ensures |CycleOf(log, a)| == 11 && |CycleOf(log, b)| == 10
  {
    log, a, t, b, t' := LOG, 1, 7, 2, 8;
    FirstCycle();
    SecondCycle();
    LogBooks();
    assert ONE_ORDER[0] != NO_BOOKS[0];
  }

  /** A possible run, then the END frame of a cycle whose START was lost: the consumer leaves recovery
      holding an order that the exchange has already removed. */
  lemma SplicedCyclesMislead() returns (es: seq<Event>, c: Consumer)
    ensures PossibleAll(BEGIN, es) && StepAll(BEGIN, es).log == LOG && |CycleOf(LOG, 2)| == 10
    ensures c == Receive(StepAll(BEGIN, es).consumer, true, 9, CycleOf(LOG, 2)[9])
    ensures !c.inRecovery && c.nextExp == |LOG| + 1 && Replay(NO_BOOKS, c.forwarded) != Replay(NO_BOOKS, LOG)
  {
    var log, a, t, b, t' := TwoCycles();
    var d, cut;
    es, d, cut := HalfACycle();
    c := Receive(d, true, cut, CycleOf(log, b)[cut]);
    Misled(log, a, t, b, t', d, cut, c);
    assert log[..b] == log;
  }
}
