/** The market data consumer as it runs: flags, two ordered queues, and loops over them
    (trading/market_data/market_data_consumer.cpp). `forwarded` is what it has written to the trade
    engine's queue. */
module MarketDataConsumer {
  import opened Types
  import opened GapRecovery

  /** Phase A: the snapshot queue read in key order. */
  method ReadSnapshot(m: Queued) returns (complete: bool, events: seq<Update>)
    ensures complete <==> Contiguous(m)
    ensures complete ==> events == Events(m, 0, |m|)
  {
    complete, events := true, [];
    var keys, next := m.Keys, 0;
    while keys != {}
      invariant forall k :: k in keys <==> k in m && k >= next
      invariant Covers(m, 0, next) && next + |keys| == |m|
      invariant events == Events(m, 0, next)
      decreases keys
    {
      var k := Least(keys);
      if k != next {
        assert next !in m;
        return false, [];
      }
      if !Marks(m[k]) {
        events := events + [m[k]];
      }
      keys, next := keys - {k}, next + 1;
    }
  }

  /** Phase B: the incremental queue read in key order, from `from` on. */
  method ReadIncrementals(m: Queued, from: nat) returns (complete: bool, next: nat, events: seq<Update>)
    ensures next == FirstGap(m, from)
    ensures complete <==> !exists k :: k in m && k > next
    ensures events == Events(m, from, next)
  {
    complete, next, events := true, from, [];
    var keys := m.Keys;
    while keys != {}
      invariant keys <= m.Keys && forall k :: k in m ==> k in keys || k < next
      invariant from <= next && Covers(m, from, next) && FirstGap(m, from) == FirstGap(m, next)
      invariant events == Events(m, from, next)
      decreases keys
    {
      var k := Least(keys);
      keys := keys - {k};
      if k > next {
        assert next !in m;
        return false, next, events;
      } else if k == next {
        if !Marks(m[k]) {
          events := events + [m[k]];
        }
        next := next + 1;
      }
    }
    assert next !in m;
  }

  class MarketDataConsumer {
    var inRecovery: bool
    var nextExpIncSeqNum: nat
    var snapshotQueued: Queued
    var incrementalQueued: Queued
    var forwarded: seq<Update>

    constructor ()
      ensures State() == FRESH
    {
      inRecovery, nextExpIncSeqNum, snapshotQueued, incrementalQueued, forwarded := false, 1, map[], map[], [];
    }

    function State(): Consumer
      reads this
    {
      Consumer(inRecovery, nextExpIncSeqNum, snapshotQueued, incrementalQueued, forwarded)
    }

    /** recvCallback, one message (lines 85-107). */
    method OnMessage(isSnapshot: bool, seqNum: nat, u: Update)
      modifies this
      ensures State() == Receive(old(State()), isSnapshot, seqNum, u)
    {
      var alreadyInRecovery := inRecovery;
      inRecovery := alreadyInRecovery || seqNum != nextExpIncSeqNum;
      if inRecovery {
        if !alreadyInRecovery {
          StartSnapshotSync();
        }
        QueueMessage(isSnapshot, seqNum, u);
      } else if !isSnapshot {
        nextExpIncSeqNum := nextExpIncSeqNum + 1;
        forwarded := forwarded + [u];
      }
    }

    /** startSnapshotSync (lines 122-124); joining the multicast group is I/O. */
    method StartSnapshotSync()
      modifies `snapshotQueued, `incrementalQueued
      ensures snapshotQueued == map[] && incrementalQueued == map[]
    {
      snapshotQueued, incrementalQueued := map[], map[];
    }

    /** queueMessage (lines 141-157). */
    method QueueMessage(isSnapshot: bool, seqNum: nat, u: Update)
      modifies this
      ensures State() == Sync(Queue(old(State()), isSnapshot, seqNum, u))
    {
      if isSnapshot {
        if seqNum in snapshotQueued {
          snapshotQueued := map[];
        }
        snapshotQueued := snapshotQueued[seqNum := u];
      } else {
        incrementalQueued := incrementalQueued[seqNum := u];
      }
      CheckSnapshotSync();
    }

    /** checkSnapshotSync (lines 169-258). */
    method CheckSnapshotSync()
      modifies this
      ensures State() == Sync(old(State()))
    {
      if snapshotQueued == map[] {
        return;
      }
      var first := Least(snapshotQueued.Keys);
      if !snapshotQueued[first].kind.SnapshotStart? {
        snapshotQueued := map[];
        return;
      }
      var haveSnapshot, events := ReadSnapshot(snapshotQueued);
      if !haveSnapshot {
        snapshotQueued := map[];
        return;
      }
      var last := snapshotQueued[|snapshotQueued| - 1];
      if !last.kind.SnapshotEnd? {
        return;
      }
      var haveIncrementals, next, more := ReadIncrementals(incrementalQueued, last.orderId + 1);
      nextExpIncSeqNum := next;
      if haveIncrementals {
        forwarded := forwarded + (events + more);
        incrementalQueued := map[];
        inRecovery := false;
      }
      snapshotQueued := map[];
    }
  }
}
