/** The LOBSTER replay as the engine's book sees it. The reader's updates are fed to MarketOrderBook
    (backtest/backtest_engine.cpp:113-118), whose price index ignores sides; diffSide for the bids runs,
    adds included, before the asks are cancelled (backtest/lobster_tape_reader.cpp:147-148). */
module LobsterBook {
  import opened Types
  import opened PriceTime
  import opened Matching
  import opened Feed
  import opened BookIndex
  import LinkedBook
  import opened MarketOrderBook
  import opened Lobster

  // ---------------------------------------------------------------------- a book that shows a row

  ghost predicate Rests(s: seq<Order>, price: int) {
    exists i :: 0 <= i < |s| && s[i].price == price
  }

  ghost predicate LevelOrder(side: Side, o: Order, d: Depth) {
    o.side == side && o.price in d && o.qty == d[o.price] && o.moid == Oid(side, o.price)
  }

  /** One order per level, under the level's id, with the level's quantity. */
  ghost predicate SideReads(side: Side, s: seq<Order>, d: Depth) {
    && (forall i :: 0 <= i < |s| ==> LevelOrder(side, s[i], d))
    && (forall p :: p in d ==> Rests(s, p))
  }

  ghost predicate Reads(b: Book, row: Row) {
    MirrorOK(b) && SideReads(Buy, b.bids, row.bid) && SideReads(Sell, b.asks, row.ask)
  }

  lemma ReadsNothing()
    ensures Reads(EMPTY, NO_ROW)
  {
  }

  predicate SameSlot(p: int, q: int) {
    PriceToIndex(p) == PriceToIndex(q)
  }

  /** No level of the side uses the slot of this price, other than its own level. */
  ghost predicate OpenTo(d: Depth, own: bool, price: int) {
    forall q :: q in d && SameSlot(price, q) ==> own && q == price
  }

  ghost predicate RoomFor(row: Row, side: Side, price: int) {
    OpenTo(row.bid, side.Buy?, price) && OpenTo(row.ask, side.Sell?, price)
  }

  lemma SideRoom(t: Side, s: seq<Order>, d: Depth, side: Side, price: int)
    requires SideReads(t, s, d)
    ensures LinkedBook.SlotFits(s, side, price) <==> OpenTo(d, side == t, price)
  {
    if LinkedBook.SlotFits(s, side, price) {
      forall q | q in d && SameSlot(price, q)
        ensures side == t && q == price
      {
        var i :| 0 <= i < |s| && s[i].price == q;
      }
    }
  }

  lemma ReadsRoom(b: Book, row: Row, side: Side, price: int)
    requires Reads(b, row)
    ensures LinkedBook.Fits(b, side, price) <==> RoomFor(row, side, price)
  {
    SideRoom(Buy, b.bids, row.bid, side, price);
    SideRoom(Sell, b.asks, row.ask, side, price);
  }

  /** A new level finds its id in use exactly if the other side uses it. */
  lemma FreeId(t: Side, s: seq<Order>, d: Depth, side: Side, p: Price)
    requires SideReads(t, s, d) && !t.NoSide? && !side.NoSide? && (side == t ==> p !in d)
    ensures IndexOfId(s, Oid(side, p)) < 0 <==> side == t || IdFree(side, p, d)
  {
    var k := IndexOfId(s, Oid(side, p));
    if k >= 0 {
      assert LevelOrder(t, s[k], d);
      if side == t {
        OwnOids(side, s[k].price, p);
      }
    } else if side != t {
      forall q | q in d
        ensures Oid(side, p) != Oid(t, q)
      {
        assert Rests(s, q);
        var i :| 0 <= i < |s| && s[i].price == q;
        assert LevelOrder(t, s[i], d);
      }
    }
  }

  lemma LevelAt(side: Side, s: seq<Order>, d: Depth, p: Price)
    requires SideReads(side, s, d) && !side.NoSide? && p in d
    ensures var k := IndexOfId(s, Oid(side, p)); k >= 0 && s[k].price == p
  {
    assert Rests(s, p);
    var i :| 0 <= i < |s| && s[i].price == p;
    assert LevelOrder(side, s[i], d);
    var k := IndexOfId(s, Oid(side, p));
    assert LevelOrder(side, s[k], d);
    OwnOids(side, s[k].price, p);
  }

  // ---------------------------------------------------------------------- one update

  lemma SideAdds(side: Side, s: seq<Order>, d: Depth, o: Order, p: Price, e: Depth)
    requires SideReads(side, s, d) && o.side == side && o.price == p && p !in d && o.moid == Oid(side, p)
    requires e == d[p := o.qty]
    ensures SideReads(side, Insert(side, s, o), e)
  {
    var r, k := Insert(side, s, o), InsertPos(side, s, p);
    forall i | 0 <= i < |r|
      ensures LevelOrder(side, r[i], e)
    {
      assert r[i] == if i < k then s[i] else if i == k then o else s[i - 1];
    }
    forall q | q in e
      ensures Rests(r, q)
    {
      if q == p {
        assert r[k].price == q;
      } else {
        var i :| 0 <= i < |s| && s[i].price == q;
        assert r[if i < k then i else i + 1].price == q;
      }
    }
  }

  lemma PricesDistinct(side: Side, s: seq<Order>, d: Depth)
    requires SideReads(side, s, d) && NoClash(s)
    ensures forall i, j :: 0 <= i < j < |s| ==> s[i].price != s[j].price
  {
    IdsDistinct(s);
    forall i, j | 0 <= i < j < |s|
      ensures s[i].price != s[j].price
    {
      assert LevelOrder(side, s[i], d) && LevelOrder(side, s[j], d);
    }
  }

  lemma SideAmends(side: Side, s: seq<Order>, d: Depth, k: nat, p: Price, qty: nat, e: Depth)
    requires SideReads(side, s, d) && NoClash(s) && k < |s| && s[k].price == p && e == d[p := qty]
    ensures SideReads(side, Amend(s, k, qty), e)
  {
    PricesDistinct(side, s, d);
    var r := Amend(s, k, qty);
    forall i | 0 <= i < |r|
      ensures LevelOrder(side, r[i], e)
    {
      assert LevelOrder(side, s[i], d);
    }
    forall q | q in e
      ensures Rests(r, q)
    {
      assert q in d || q == p;
      var i :| 0 <= i < |s| && s[i].price == q;
      assert r[i].price == q;
    }
  }

  lemma SideRemoves(side: Side, s: seq<Order>, d: Depth, k: nat, p: Price, e: Depth)
    requires SideReads(side, s, d) && NoClash(s) && k < |s| && s[k].price == p && e == d - {p}
    ensures SideReads(side, RemoveAt(s, k), e)
  {
    PricesDistinct(side, s, d);
    var r := RemoveAt(s, k);
    forall i | 0 <= i < |r|
      ensures LevelOrder(side, r[i], e)
    {
      assert LevelOrder(side, s[if i < k then i else i + 1], d);
    }
    forall q | q in e
      ensures Rests(r, q)
    {
      var i :| 0 <= i < |s| && s[i].price == q;
      assert r[if i < k then i else i - 1].price == q;
    }
  }

  /** The mirror's array of orders has room for the id, and no level of the other side has it. */
  ghost predicate IdGood(side: Side, p: Price, other: Depth) {
    Oid(side, p) < ME_MAX_ORDER_IDS && IdFree(side, p, other)
  }

  /** A level can be added exactly if its slot is not in use, on either side, and its id is good. */
  lemma AddStep(b: Book, row: Row, side: Side, p: Price, qty: nat, priority: nat, u: Update)
    requires Reads(b, row) && !side.NoSide? && p !in row.On(side)
    requires u == Told(Add, side, p, qty, priority)
    ensures Applicable(b, u) <==> RoomFor(row, side, p) && IdGood(side, p, row.On(Opposite(side)))
    ensures Applicable(b, u) ==> Reads(Apply(b, u), row.With(side, row.On(side)[p := qty]))
  {
    ReadsRoom(b, row, side, p);
    FreeId(Buy, b.bids, row.bid, side, p);
    FreeId(Sell, b.asks, row.ask, side, p);
    if Applicable(b, u) {
      ApplicableKeepsMirror(b, u);
      SideAdds(side, b.On(side), row.On(side), OrderOf(u), p, row.On(side)[p := qty]);
    }
  }

  lemma ModifyStep(b: Book, row: Row, side: Side, p: Price, qty: nat, u: Update)
    requires Reads(b, row) && !side.NoSide? && p in row.On(side)
    requires u == Told(Modify, side, p, qty, PRIORITY_INVALID)
    ensures Applicable(b, u) && Reads(Apply(b, u), row.With(side, row.On(side)[p := qty]))
  {
    LevelAt(side, b.On(side), row.On(side), p);
    var k := IndexOfId(b.On(side), u.orderId);
    OnlyOnItsSide(b, side, k);
    ApplicableKeepsMirror(b, u);
    SideAmends(side, b.On(side), row.On(side), k, p, qty, row.On(side)[p := qty]);
  }

  lemma CancelStep(b: Book, row: Row, side: Side, p: Price, u: Update)
    requires Reads(b, row) && !side.NoSide? && p in row.On(side)
    requires u == Told(CancelOrder, side, p, 0, PRIORITY_INVALID)
    ensures Applicable(b, u) && Reads(Apply(b, u), row.With(side, row.On(side) - {p}))
  {
    LevelAt(side, b.On(side), row.On(side), p);
    var k := IndexOfId(b.On(side), u.orderId);
    OnlyOnItsSide(b, side, k);
    ApplicableKeepsMirror(b, u);
    SideRemoves(side, b.On(side), row.On(side), k, p, row.On(side) - {p});
  }

  // ---------------------------------------------------------------------- one side

  /** From b these updates are all applicable and lead to a book that shows the row. */
  ghost predicate Gives(b: Book, us: seq<Update>, row: Row) {
    ApplicableAll(b, us) && Reads(ApplyAll(b, us), row)
  }

  lemma GivesCancel(b: Book, us: seq<Update>, row: Row, side: Side, cur: Depth, p: Price, d: Depth)
    requires Gives(b, us, row) && !side.NoSide? && p in row.On(side)
    requires d == if p in cur then row.On(side) else row.On(side) - {p}
    ensures Gives(b, us + CancelOf(side, cur, p), row.With(side, d))
  {
    if p in cur {
      assert us + [] == us;
    } else {
      var u := Told(CancelOrder, side, p, 0, PRIORITY_INVALID);
      CancelStep(ApplyAll(b, us), row, side, p, u);
      ApplicableSnoc(b, us, u);
    }
  }

  lemma GivesRaise(b: Book, us: seq<Update>, row: Row, side: Side, before: Depth, p: Price, qty: nat, priority: nat, d: Depth)
    requires Gives(b, us, row) && !side.NoSide? && d == row.On(side)[p := qty]
    requires p in before <==> p in row.On(side)
    requires p in before ==> row.On(side)[p] == before[p]
    ensures var vs := us + RaiseOf(side, before, p, qty, priority);
            && (ApplicableAll(b, vs) <==> (p !in before ==> RoomFor(row, side, p) && IdGood(side, p, row.On(Opposite(side)))))
            && (ApplicableAll(b, vs) ==> Gives(b, vs, row.With(side, d)))
  {
    if p !in before {
      var u := Told(Add, side, p, qty, priority);
      AddStep(ApplyAll(b, us), row, side, p, qty, priority, u);
      ApplicableSnoc(b, us, u);
    } else if before[p] != qty {
      var u := Told(Modify, side, p, qty, PRIORITY_INVALID);
      ModifyStep(ApplyAll(b, us), row, side, p, qty, u);
      ApplicableSnoc(b, us, u);
    } else {
      assert us + [] == us;
      SameDepth(d, row.On(side));
    }
  }

  lemma {:induction false} GivesCancels(b: Book, us: seq<Update>, row: Row, side: Side, cur: Depth, order: seq<Price>)
    requires Gives(b, us, row) && !side.NoSide? && Distinct(order)
    requires forall p :: p in order ==> p in row.On(side)
    ensures Gives(b, us + CancelsOf(side, cur, order), row.With(side, Remaining(row.On(side), cur, order)))
    decreases |order|
  {
    var before := row.On(side);
    if order == [] {
      RemainingEnds(before, cur, []);
      assert us + [] == us;
    } else {
      var front, p := order[..|order| - 1], order[|order| - 1];
      DistinctFront(order);
      GivesCancels(b, us, row, side, cur, front);
      RemainingNext(before, cur, front, p);
      GivesCancel(b, us + CancelsOf(side, cur, front), row.With(side, Remaining(before, cur, front)), side, cur, p,
                  Remaining(before, cur, order));
      CancelsSnoc(side, cur, front, p);
      Associates(us, CancelsOf(side, cur, front), CancelOf(side, cur, p));
    }
  }

  /** Each new level finds its slot and its id free when its turn comes. */
  ghost predicate RoomInTurn(row: Row, side: Side, before: Depth, cur: Depth, order: seq<Price>)
    decreases |order|
  {
    order == [] ||
    var front, p := order[..|order| - 1], order[|order| - 1];
    && RoomInTurn(row, side, before, cur, front)
    && (p !in before ==> RoomFor(row.With(side, Raised(before, cur, front)), side, p) && IdGood(side, p, row.On(Opposite(side))))
  }

  lemma StaysInapplicable(b: Book, us: seq<Update>, vs: seq<Update>)
    requires !ApplicableAll(b, us)
    ensures !ApplicableAll(b, us + vs)
  {
    ApplicableConcat(b, us, vs);
  }

  /** These levels of the new row are told exactly if each finds its slot free, and then the book shows them. */
  ghost predicate ToldIff(b: Book, row: Row, side: Side, before: Depth, cur: Depth, order: seq<Price>, vs: seq<Update>) {
    && (ApplicableAll(b, vs) <==> RoomInTurn(row, side, before, cur, order))
    && (ApplicableAll(b, vs) ==> Gives(b, vs, row.With(side, Raised(before, cur, order))))
  }

  lemma ToldNext(b: Book, us: seq<Update>, row: Row, side: Side, before: Depth, cur: Depth,
                 front: seq<Price>, p: Price, priority: nat, order: seq<Price>)
    requires !side.NoSide? && p in cur && p !in front
    requires order == front + [p] && order[..|order| - 1] == front
    requires ToldIff(b, row, side, before, cur, front, us)
    ensures ToldIff(b, row, side, before, cur, order, us + RaiseOf(side, before, p, cur[p], priority))
  {
    if ApplicableAll(b, us) {
      RaisedNext(before, cur, front, p);
      GivesRaise(b, us, row.With(side, Raised(before, cur, front)), side, before, p, cur[p], priority, Raised(before, cur, order));
    } else {
      StaysInapplicable(b, us, RaiseOf(side, before, p, cur[p], priority));
    }
  }

  lemma {:induction false} RaisesIff(b: Book, us: seq<Update>, row: Row, side: Side, before: Depth, cur: Depth,
                                     order: seq<Price>, priority: nat)
    requires Gives(b, us, row) && !side.NoSide? && Distinct(order)
    requires row.On(side) == Raised(before, cur, []) && forall p :: p in order ==> p in cur
    ensures ToldIff(b, row, side, before, cur, order, us + RaisesOf(side, before, cur, order, priority))
    decreases |order|
  {
    if order == [] {
      assert us + [] == us;
    } else {
      var front, p := order[..|order| - 1], order[|order| - 1];
      DistinctFront(order);
      RaisesIff(b, us, row, side, before, cur, front, priority);
      var said, next := RaisesOf(side, before, cur, front, priority), priority + NewIn(before, front);
      RaisesSnoc(side, before, cur, front, p, priority);
      Associates(us, said, RaiseOf(side, before, p, cur[p], next));
      ToldNext(b, us + said, row, side, before, cur, front, p, next, order);
    }
  }

  // ---------------------------------------------------------------------- whatever the order

  /** No other level of the side has the slot of this price. */
  ghost predicate FreeIn(p: Price, d: Depth) {
    forall q :: q in d && SameSlot(p, q) ==> p == q
  }

  /** No level of the side has it. */
  ghost predicate FreeOf(p: Price, d: Depth) {
    forall q :: q in d ==> !SameSlot(p, q)
  }

  /** A new level may stand beside the other side: no shared slot, a good id. */
  ghost predicate Beside(side: Side, p: Price, other: Depth) {
    FreeOf(p, other) && IdGood(side, p, other)
  }

  /** No new level shares its slot with another level of its own side or any of the other side, and each
      has an id in range that the other side does not use. */
  ghost predicate NewFree(side: Side, before: Depth, cur: Depth, other: Depth) {
    forall p :: p in cur && p !in before ==> FreeIn(p, cur) && Beside(side, p, other)
  }

  /** One new level, found free at its turn. */
  lemma FreeAtTurn(row: Row, side: Side, d: Depth, p: Price)
    requires !side.NoSide? && p !in d
    ensures RoomFor(row.With(side, d), side, p) <==> FreeOf(p, d) && FreeOf(p, row.On(Opposite(side)))
  {
  }

  /** New levels among the first ones of an order. */
  ghost predicate FirstFree(side: Side, before: Depth, cur: Depth, other: Depth, order: seq<Price>) {
    forall p :: p in order && p !in before ==> FreeIn(p, Raised(before, cur, order)) && Beside(side, p, other)
  }

  /** A level that is new joins those looked at. */
  lemma FreeGrows(before: Depth, cur: Depth, front: seq<Price>, p: Price, q: Price)
    requires p in cur && p !in front && q in front
    ensures FreeIn(q, Raised(before, cur, front + [p])) <==>
            FreeIn(q, Raised(before, cur, front)) && (p !in before ==> !SameSlot(p, q))
  {
    var d, e := Raised(before, cur, front), Raised(before, cur, front + [p]);
    RaisedNext(before, cur, front, p);
    if FreeIn(q, e) {
      assert p in e;
      assert forall r :: r in d ==> r in e;
    } else {
      var r :| r in e && SameSlot(q, r) && q != r;
      assert r == p || r in d;
    }
  }

  lemma FirstFreeNext(side: Side, before: Depth, cur: Depth, other: Depth, front: seq<Price>, p: Price, order: seq<Price>)
    requires order == front + [p] && p !in front && p in cur && forall q :: q in front ==> q in cur
    ensures FirstFree(side, before, cur, other, order) <==>
            && FirstFree(side, before, cur, other, front)
            && (p !in before ==> FreeOf(p, Raised(before, cur, front)) && Beside(side, p, other))
  {
    var d, e := Raised(before, cur, front), Raised(before, cur, order);
    RaisedNext(before, cur, front, p);
    forall q | q in front
      ensures FreeIn(q, e) <==> FreeIn(q, d) && (p !in before ==> !SameSlot(p, q))
    {
      FreeGrows(before, cur, front, p, q);
    }
    if p !in before {
      assert FreeIn(p, e) <==> FreeOf(p, d) by {
        LastFree(p, d, e, cur[p]);
      }
      if FreeOf(p, d) {
        assert forall q :: q in front ==> q in d;
      }
    }
    assert forall q :: q in order <==> q in front || q == p;
  }

  lemma LastFree(p: Price, d: Depth, e: Depth, qty: nat)
    requires p !in d && e == d[p := qty]
    ensures FreeIn(p, e) <==> FreeOf(p, d)
  {
    if FreeIn(p, e) {
      forall q | q in d
        ensures !SameSlot(p, q)
      {
        assert q in e;
      }
    }
  }

  lemma {:induction false} TurnsIff(row: Row, side: Side, before: Depth, cur: Depth, order: seq<Price>)
    requires !side.NoSide? && Distinct(order) && forall p :: p in order ==> p in cur
    ensures RoomInTurn(row, side, before, cur, order) <==> FirstFree(side, before, cur, row.On(Opposite(side)), order)
    decreases |order|
  {
    if order != [] {
      var front, p := order[..|order| - 1], order[|order| - 1];
      DistinctFront(order);
      TurnsIff(row, side, before, cur, front);
      FirstFreeNext(side, before, cur, row.On(Opposite(side)), front, p, order);
      if p !in before {
        FreeAtTurn(row, side, Raised(before, cur, front), p);
      }
    }
  }

  lemma FreeWhenListed(side: Side, before: Depth, cur: Depth, other: Depth, order: seq<Price>)
    requires Lists(order, cur)
    ensures FirstFree(side, before, cur, other, order) <==> NewFree(side, before, cur, other)
  {
    RaisedEnds(before, cur, order);
  }

  lemma SideIff(b: Book, us: seq<Update>, row: Row, side: Side, cur: Depth, gone: seq<Price>, come: seq<Price>, priority: nat,
                vs: seq<Update>, next: Row)
    requires Gives(b, us, row) && !side.NoSide? && Lists(gone, row.On(side)) && Lists(come, cur)
    requires vs == us + SideDiff(side, row.On(side), cur, gone, come, priority) && next == row.With(side, cur)
    ensures ApplicableAll(b, vs) <==> NewFree(side, row.On(side), cur, row.On(Opposite(side)))
    ensures ApplicableAll(b, vs) ==> Gives(b, vs, next)
  {
    var before, said := row.On(side), CancelsOf(side, cur, gone);
    GivesCancels(b, us, row, side, cur, gone);
    RemainingEnds(before, cur, gone);
    var kept := row.With(side, Raised(before, cur, []));
    RaisesIff(b, us + said, kept, side, before, cur, come, priority);
    RaisedEnds(before, cur, come);
    TurnsIff(kept, side, before, cur, come);
    FreeWhenListed(side, before, cur, row.On(Opposite(side)), come);
    Associates(us, said, RaisesOf(side, before, cur, come, priority));
  }

  /** No level new to the bids shares a slot with another bid or with an ask of the previous row, and no
      level new to the asks with another ask or with a bid; every new level has an id that the mirror has
      room for and that is not in use. */
  ghost predicate FreeMove(prev: Row, cur: Row) {
    NewFree(Buy, prev.bid, cur.bid, prev.ask) && NewFree(Sell, prev.ask, cur.ask, cur.bid)
  }

  lemma BidsIff(b: Book, prev: Row, cur: Row, steps: Steps)
    requires Reads(b, prev) && Chosen(steps, prev, cur)
    ensures var us := BidDiff(prev, cur, steps);
            && (ApplicableAll(b, us) <==> NewFree(Buy, prev.bid, cur.bid, prev.ask))
            && (ApplicableAll(b, us) ==> Gives(b, us, Row(cur.bid, prev.ask)))
  {
    assert [] + BidDiff(prev, cur, steps) == BidDiff(prev, cur, steps);
    SideIff(b, [], prev, Buy, cur.bid, steps.bidsGone, steps.bidsCome, steps.priority,
            BidDiff(prev, cur, steps), Row(cur.bid, prev.ask));
  }

  lemma AsksIff(b: Book, us: seq<Update>, prev: Row, cur: Row, steps: Steps)
    requires Gives(b, us, Row(cur.bid, prev.ask)) && Chosen(steps, prev, cur)
    ensures var vs := us + AskDiff(prev, cur, steps);
            && (ApplicableAll(b, vs) <==> NewFree(Sell, prev.ask, cur.ask, cur.bid))
            && (ApplicableAll(b, vs) ==> Gives(b, vs, cur))
  {
    SideIff(b, us, Row(cur.bid, prev.ask), Sell, cur.ask, steps.asksGone, steps.asksCome,
            steps.priority + NewIn(prev.bid, steps.bidsCome), us + AskDiff(prev, cur, steps), cur);
  }

  /** From a book that shows the previous row, and in whatever orders the maps yield their entries: every
      update of the differences is applicable to MarketOrderBook's structure exactly if the move is free; the
      book then shows the new row. */
  lemma DiffIff(b: Book, prev: Row, cur: Row, steps: Steps)
    requires Reads(b, prev) && Chosen(steps, prev, cur)
    ensures var us := RowDiff(prev, cur, steps);
            && (ApplicableAll(b, us) <==> FreeMove(prev, cur))
            && (ApplicableAll(b, us) ==> Reads(ApplyAll(b, us), cur))
  {
    BidsIff(b, prev, cur, steps);
    if NewFree(Buy, prev.bid, cur.bid, prev.ask) {
      AsksIff(b, BidDiff(prev, cur, steps), prev, cur, steps);
    } else {
      StaysInapplicable(b, BidDiff(prev, cur, steps), AskDiff(prev, cur, steps));
    }
  }

  // ---------------------------------------------------------------------- a whole tape

  ghost predicate ChosenAll(prev: Row, rows: seq<Row>, all: seq<Steps>)
    decreases |rows|
  {
    && |all| == |rows|
    && (rows == [] || (Chosen(all[0], prev, rows[0]) && ChosenAll(rows[0], rows[1..], all[1..])))
  }

  /** The differences of a tape of rows; the prints between them leave the book as it is. */
  ghost function TapeOf(prev: Row, rows: seq<Row>, all: seq<Steps>): seq<Update>
    requires ChosenAll(prev, rows, all)
    decreases |rows|
  {
    if rows == [] then [] else RowDiff(prev, rows[0], all[0]) + TapeOf(rows[0], rows[1..], all[1..])
  }

  ghost predicate FreeMoves(prev: Row, rows: seq<Row>)
    decreases |rows|
  {
    rows == [] || (FreeMove(prev, rows[0]) && FreeMoves(rows[0], rows[1..]))
  }

  /** Over every tape: the book stays intact exactly if every move is free, and then ends at the last row. */
  lemma {:induction false} TapeIff(b: Book, prev: Row, rows: seq<Row>, all: seq<Steps>)
    requires Reads(b, prev) && ChosenAll(prev, rows, all)
    ensures var us := TapeOf(prev, rows, all);
            && (ApplicableAll(b, us) <==> FreeMoves(prev, rows))
            && (ApplicableAll(b, us) ==> Reads(ApplyAll(b, us), if rows == [] then prev else rows[|rows| - 1]))
    decreases |rows|
  {
    if rows != [] {
      var us := RowDiff(prev, rows[0], all[0]);
      DiffIff(b, prev, rows[0], all[0]);
      ApplicableConcat(b, us, TapeOf(rows[0], rows[1..], all[1..]));
      ApplyAllConcat(b, us, TapeOf(rows[0], rows[1..], all[1..]));
      if FreeMove(prev, rows[0]) {
        TapeIff(ApplyAll(b, us), rows[0], rows[1..], all[1..]);
      }
    }
  }

  // ---------------------------------------------------------------------- what the reader's header claims

  ghost predicate Uncrossed(row: Row) {
    forall p, q :: p in row.bid && q in row.ask ==> p < q
  }

  /** The prices of the row lie in one window of the price index. */
  ghost predicate InWindow(row: Row, base: int) {
    DepthInWindow(row.bid, base) && DepthInWindow(row.ask, base)
  }

  lemma WindowSlots(base: int, p: int, q: int)
    requires base <= p < base + ME_MAX_PRICE_LEVELS && base <= q < base + ME_MAX_PRICE_LEVELS
    ensures SameSlot(p, q) <==> p == q
  {
  }

  ghost predicate DepthInWindow(d: Depth, base: int) {
    forall p :: p in d ==> base <= p < base + ME_MAX_PRICE_LEVELS
  }

  lemma FreeInWindow(base: int, p: Price, d: Depth)
    requires DepthInWindow(d, base) && base <= p < base + ME_MAX_PRICE_LEVELS
    ensures FreeIn(p, d) && (FreeOf(p, d) <==> p !in d)
  {
    forall q | q in d
      ensures SameSlot(p, q) <==> p == q
    {
      WindowSlots(base, p, q);
    }
  }

  /** No bid of the one row has the slot of an ask of the other. */
  ghost predicate SlotsApart(bid: Depth, ask: Depth) {
    forall p :: p in bid ==> FreeOf(p, ask)
  }

  /** The ids of these asks fit the mirror's array of orders. */
  ghost predicate AsksInTable(ask: Depth) {
    forall p :: p in ask ==> ASK_OID_OFFSET + p < ME_MAX_ORDER_IDS
  }

  lemma BidIdsGood(bid: Depth, ask: Depth, p: Price)
    requires DepthFits(Buy, bid) && DepthFits(Sell, ask) && p in bid
    ensures IdGood(Buy, p, ask)
  {
    forall q | q in ask
      ensures Oid(Buy, p) != Oid(Sell, q)
    {
      OidInjective(Buy, p, Sell, q);
    }
  }

  lemma AskIdsGood(bid: Depth, ask: Depth, p: Price)
    requires DepthFits(Buy, bid) && DepthFits(Sell, ask) && p in ask
    ensures IdGood(Sell, p, bid) <==> ASK_OID_OFFSET + p < ME_MAX_ORDER_IDS
  {
    forall q | q in bid
      ensures Oid(Sell, p) != Oid(Buy, q)
    {
      OidInjective(Sell, p, Buy, q);
    }
  }

  lemma NewBids(prev: Row, cur: Row, base: int)
    requires Uncrossed(prev) && InWindow(prev, base) && InWindow(cur, base) && Fits(prev) && Fits(cur)
    ensures NewFree(Buy, prev.bid, cur.bid, prev.ask) <==> SlotsApart(cur.bid, prev.ask)
  {
    forall p | p in cur.bid
      ensures FreeIn(p, cur.bid) && IdGood(Buy, p, prev.ask) && (FreeOf(p, prev.ask) <==> p !in prev.ask)
    {
      FreeInWindow(base, p, cur.bid);
      FreeInWindow(base, p, prev.ask);
      BidIdsGood(cur.bid, prev.ask, p);
    }
  }

  lemma NewAsks(prev: Row, cur: Row, base: int)
    requires Uncrossed(cur) && InWindow(cur, base) && Fits(cur) && AsksInTable(prev.ask)
    ensures NewFree(Sell, prev.ask, cur.ask, cur.bid) <==> AsksInTable(cur.ask)
  {
    forall p | p in cur.ask
      ensures FreeIn(p, cur.ask) && FreeOf(p, cur.bid) && (IdGood(Sell, p, cur.bid) <==> ASK_OID_OFFSET + p < ME_MAX_ORDER_IDS)
    {
      FreeInWindow(base, p, cur.ask);
      FreeInWindow(base, p, cur.bid);
      AskIdsGood(cur.bid, cur.ask, p);
    }
  }

  /** What a mirror shows is in its array of orders. */
  lemma ShownInTable(b: Book, row: Row)
    requires Reads(b, row) && DepthFits(Sell, row.ask)
    ensures AsksInTable(row.ask)
  {
    forall p | p in row.ask
      ensures ASK_OID_OFFSET + p < ME_MAX_ORDER_IDS
    {
      assert Rests(b.asks, p);
      var i :| 0 <= i < |b.asks| && b.asks[i].price == p;
      assert LevelOrder(Sell, b.asks[i], row.ask);
    }
  }

  /** Between uncrossed rows of one window, with prices in the range the ids are meant for, the replay keeps
      the real book intact exactly if no bid of the new row has the slot of an ask of the row before, and no
      ask is so high that its id is beyond the mirror's array. */
  lemma ReplayIff(b: Book, prev: Row, cur: Row, steps: Steps, base: int)
    requires Reads(b, prev) && Chosen(steps, prev, cur) && Fits(prev) && Fits(cur)
    requires Uncrossed(prev) && Uncrossed(cur) && InWindow(prev, base) && InWindow(cur, base)
    ensures var us := RowDiff(prev, cur, steps);
            && (ApplicableAll(b, us) <==> SlotsApart(cur.bid, prev.ask) && AsksInTable(cur.ask))
            && (ApplicableAll(b, us) ==> Reads(ApplyAll(b, us), cur))
  {
    DiffIff(b, prev, cur, steps);
    ShownInTable(b, prev);
    NewBids(prev, cur, base);
    NewAsks(prev, cur, base);
  }

  function Touch(bid: Price, ask: Price, qty: nat): Row {
    Row(map[bid := qty], map[ask := qty])
  }

  lemma TouchFits(bid: Price, ask: Price, qty: nat)
    requires 0 <= bid < ask && bid < ASK_OID_OFFSET
    ensures Fits(Touch(bid, ask, qty)) && Uncrossed(Touch(bid, ask, qty))
  {
  }

  /** Two uncrossed rows with the new bid where the ask was: not a free move. */
  lemma TouchedNotFree(bid: Price, ask: Price, next: Price, qty: nat)
    requires bid < ask < next
    ensures !FreeMove(Touch(bid, ask, qty), Touch(ask, next, qty))
  {
    var prev, cur := Touch(bid, ask, qty), Touch(ask, next, qty);
    assert ask in cur.bid && ask !in prev.bid && ask in prev.ask && SameSlot(ask, ask);
    assert !FreeOf(ask, prev.ask);
  }

  /** The market moves up one tick, 100 bid and 101 asked, then 101 bid and 102 asked: whatever the orders of
      iteration, the replay from nothing adds the bid while the old ask still holds its slot. */
  lemma TickUpBreaksReplay(qty: nat, all: seq<Steps>)
    requires ChosenAll(NO_ROW, [Touch(100, 101, qty), Touch(101, 102, qty)], all)
    ensures Uncrossed(Touch(100, 101, qty)) && Uncrossed(Touch(101, 102, qty))
    ensures !ApplicableAll(EMPTY, TapeOf(NO_ROW, [Touch(100, 101, qty), Touch(101, 102, qty)], all))
  {
    var rows := [Touch(100, 101, qty), Touch(101, 102, qty)];
    TouchFits(100, 101, qty);
    TouchFits(101, 102, qty);
    TouchedNotFree(100, 101, 102, qty);
    assert rows[1..][0] == Touch(101, 102, qty);
    ReadsNothing();
    TapeIff(EMPTY, NO_ROW, rows, all);
  }

  /** An ask at 5000 dollars: its id is beyond the mirror's array of orders, whatever the orders of
      iteration. */
  lemma HighAskBreaksReplay(qty: nat, all: seq<Steps>)
    requires ChosenAll(NO_ROW, [Row(map[], map[500_000 := qty])], all)
    ensures Fits(Row(map[], map[500_000 := qty])) && Uncrossed(Row(map[], map[500_000 := qty]))
    ensures !ApplicableAll(EMPTY, TapeOf(NO_ROW, [Row(map[], map[500_000 := qty])], all))
  {
    var row := Row(map[], map[500_000 := qty]);
    assert 500_000 in row.ask && Oid(Sell, 500_000) == 1_100_000;
    assert !Beside(Sell, 500_000, row.bid);
    ReadsNothing();
    TapeIff(EMPTY, NO_ROW, [row], all);
  }

  /** Such orders of iteration exist. */
  lemma TickUpHappens(qty: nat) returns (all: seq<Steps>)
    ensures ChosenAll(NO_ROW, [Touch(100, 101, qty), Touch(101, 102, qty)], all)
  {
    var first, second := Steps([], [100], [], [101], 1), Steps([100], [101], [101], [102], 3);
    var rows := [Touch(100, 101, qty), Touch(101, 102, qty)];
    all := [first, second];
    TouchFits(100, 101, qty);
    TouchFits(101, 102, qty);
    assert rows[1..] == [Touch(101, 102, qty)] && all[1..] == [second];
    assert rows[1..][1..] == [] && all[1..][1..] == [];
  }
}
