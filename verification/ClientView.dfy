/** What the exchange tells one client: its private responses, folded, are its live orders. This is what
    the asynchronous protocol of Exposure takes the exchange to do. */
module ClientView {
  import opened Types
  import opened PriceTime
  import opened Matching
  import opened Feed
  import opened Runs
  import opened Exposure

  /** The client's live orders as a map. */
  function Entry(m: map<nat, Resting>, coid: nat): Option<Resting> {
    if coid in m then Some(m[coid]) else None
  }

  function OnSide(side: Side, s: seq<Order>, client: nat, coid: nat): Option<Resting> {
    var k := IndexOfKey(s, client, coid);
    if k < 0 then None else Some(Resting(side, s[k].price, s[k].qty))
  }

  /** The order a client has in the book under its own order id. */
  function LiveIn(b: Book, client: nat, coid: nat): Option<Resting> {
    var e := OnSide(Buy, b.bids, client, coid);
    if e.Some? then e else OnSide(Sell, b.asks, client, coid)
  }

  ghost predicate LiveIs(b: Book, client: nat, m: map<nat, Resting>) {
    forall coid: nat :: Entry(m, coid) == LiveIn(b, client, coid)
  }

  // ---------------------------------------------------------------------- one response

  /** The response fits the live orders it is about: an acceptance is of a new id, a fill takes a positive
      part, a cancellation states what was left, a rejection names no side and no live order. */
  ghost predicate Right(m: map<nat, Resting>, r: Response) {
    match r.kind
    case Accepted => r.coid !in m && !r.side.NoSide?
    case Filled =>
      && r.coid in m && m[r.coid].side == r.side && 0 < r.execQty <= m[r.coid].leaves
      && r.leavesQty == m[r.coid].leaves - r.execQty
    case Canceled => r.coid in m && m[r.coid] == Resting(r.side, r.price, r.leavesQty)
    case CancelRejected => r.side.NoSide? && r.coid !in m
  }

  ghost function Hear(m: map<nat, Resting>, r: Response): map<nat, Resting> {
    match r.kind
    case Accepted => if r.leavesQty == 0 then m else m[r.coid := Resting(r.side, r.price, r.leavesQty)]
    case Filled =>
      if r.leavesQty == 0 || r.coid !in m then m - {r.coid} else m[r.coid := m[r.coid].(leaves := r.leavesQty)]
    case Canceled => m - {r.coid}
    case CancelRejected => m
  }

  ghost predicate RightAll(m: map<nat, Resting>, rs: seq<Response>, client: nat)
    decreases |rs|
  {
    if rs == [] then true
    else if rs[0].client != client then RightAll(m, rs[1..], client)
    else Right(m, rs[0]) && RightAll(Hear(m, rs[0]), rs[1..], client)
  }

  ghost function HearAll(m: map<nat, Resting>, rs: seq<Response>, client: nat): map<nat, Resting>
    decreases |rs|
  {
    if rs == [] then m
    else HearAll(if rs[0].client == client then Hear(m, rs[0]) else m, rs[1..], client)
  }

  lemma {:induction false} HearConcat(m: map<nat, Resting>, rs: seq<Response>, ts: seq<Response>, client: nat)
    ensures HearAll(m, rs + ts, client) == HearAll(HearAll(m, rs, client), ts, client)
    ensures RightAll(m, rs + ts, client) <==> RightAll(m, rs, client) && RightAll(HearAll(m, rs, client), ts, client)
    decreases |rs|
  {
    if rs == [] {
      assert rs + ts == ts;
    } else {
      assert (rs + ts)[1..] == rs[1..] + ts && (rs + ts)[0] == rs[0];
      HearConcat(if rs[0].client == client then Hear(m, rs[0]) else m, rs[1..], ts, client);
    }
  }

  lemma HearOne(m: map<nat, Resting>, r: Response, client: nat)
    ensures HearAll(m, [r], client) == if r.client == client then Hear(m, r) else m
    ensures RightAll(m, [r], client) <==> (r.client == client ==> Right(m, r))
  {
    assert [r][1..] == [];
  }

  /** These are the moves of the protocol's exchange. */
  lemma HearIsStep(s: System, id: nat, side: Side, price: int, qty: nat, exec: nat)
    ensures AcceptStep(s, id, side, price, qty).live == Hear(s.live, Reply(Accepted, id, side, 0, qty).(price := price))
    ensures id in s.live ==> CancelStep(s, id).live == Hear(s.live, Reply(Canceled, id, s.live[id].side, QTY_INVALID, s.live[id].leaves))
    ensures id !in s.live ==> CancelStep(s, id).live == Hear(s.live, Reply(CancelRejected, id, NoSide, QTY_INVALID, QTY_INVALID))
    ensures id in s.live && exec <= s.live[id].leaves ==>
              FillStep(s, id, exec).live == Hear(s.live, Reply(Filled, id, s.live[id].side, exec, s.live[id].leaves - exec))
  {
  }

  // ---------------------------------------------------------------------- the book by key

  lemma KeysDistinct(s: seq<Order>)
    requires NoClash(s)
    ensures forall i, j :: 0 <= i < |s| && 0 <= j < |s| && s[i].client == s[j].client && s[i].coid == s[j].coid ==> i == j
  {
    forall i, j | 0 <= i < j < |s|
      ensures !(s[i].client == s[j].client && s[i].coid == s[j].coid)
    {
      assert !Clash(s[i], s[j]);
    }
  }

  lemma KeyAt(s: seq<Order>, k: nat)
    requires NoClash(s) && k < |s|
    ensures IndexOfKey(s, s[k].client, s[k].coid) == k
  {
    KeysDistinct(s);
  }

  lemma OnSideFront(side: Side, s: seq<Order>, client: nat, coid: nat, qty: nat)
    requires NoClash(s) && s != []
    ensures var own := s[0].client == client && s[0].coid == coid;
            && (own ==> OnSide(side, s, client, coid) == Some(Resting(side, s[0].price, s[0].qty)))
            && OnSide(side, s[1..], client, coid) == (if own then None else OnSide(side, s, client, coid))
            && OnSide(side, s[0 := s[0].(qty := qty)], client, coid) ==
               if own then Some(Resting(side, s[0].price, qty)) else OnSide(side, s, client, coid)
  {
    KeysDistinct(s);
    assert s[0 := s[0].(qty := qty)][1..] == s[1..];
  }

  lemma OnSideInsert(side: Side, s: seq<Order>, o: Order, client: nat, coid: nat)
    requires NoClash(s) && NoKey(s, o.client, o.coid)
    ensures OnSide(side, Insert(side, s, o), client, coid) ==
            if client == o.client && coid == o.coid then Some(Resting(side, o.price, o.qty)) else OnSide(side, s, client, coid)
  {
    KeysDistinct(s);
    var r, p := Insert(side, s, o), InsertPos(side, s, o.price);
    var m := IndexOfKey(s, client, coid);
    assert forall i :: 0 <= i < |r| ==> r[i] == if i < p then s[i] else if i == p then o else s[i - 1];
    assert r[p] == o;
    assert m >= 0 ==> r[if m < p then m else m + 1] == s[m];
  }

  lemma OnSideRemove(side: Side, s: seq<Order>, k: nat, client: nat, coid: nat)
    requires NoClash(s) && k < |s|
    ensures OnSide(side, RemoveAt(s, k), client, coid) ==
            if client == s[k].client && coid == s[k].coid then None else OnSide(side, s, client, coid)
  {
    KeysDistinct(s);
    var r := RemoveAt(s, k);
    var m, n := IndexOfKey(s, client, coid), IndexOfKey(r, client, coid);
    assert n >= 0 ==> r[n] == s[if n < k then n else n + 1];
    assert m >= 0 && m != k ==> r[if m < k then m else m - 1] == s[m];
  }

  /** A key is on one side only. */
  lemma OneSideOnly(b: Book, side: Side, k: nat)
    requires BookOK(b) && !side.NoSide? && k < |b.On(side)|
    ensures IndexOfKey(b.On(Opposite(side)), b.On(side)[k].client, b.On(side)[k].coid) < 0
    ensures IndexOfKey(b.On(side), b.On(side)[k].client, b.On(side)[k].coid) == k
  {
    KeyAt(b.On(side), k);
    var t, o := b.On(Opposite(side)), b.On(side)[k];
    forall j | 0 <= j < |t|
      ensures !(t[j].client == o.client && t[j].coid == o.coid)
    {
      assert !Clash(b.bids[if side.Buy? then k else j], b.asks[if side.Buy? then j else k]);
    }
  }

  lemma LiveAfterFill(b: Book, opp: Side, fill: nat, client: nat, coid: nat)
    requires BookOK(b) && !opp.NoSide? && b.On(opp) != [] && fill <= b.On(opp)[0].qty
    ensures var o := b.On(opp)[0];
            LiveIn(b.With(opp, AfterFill(b.On(opp), fill)), client, coid) ==
            if o.client == client && o.coid == coid then (if fill == o.qty then None else Some(Resting(opp, o.price, o.qty - fill)))
            else LiveIn(b, client, coid)
    ensures LiveIn(b, b.On(opp)[0].client, b.On(opp)[0].coid) == Some(Resting(opp, b.On(opp)[0].price, b.On(opp)[0].qty))
  {
    OneSideOnly(b, opp, 0);
    OnSideFront(opp, b.On(opp), client, coid, b.On(opp)[0].qty - fill);
  }

  lemma LiveAfterInsert(b: Book, o: Order, client: nat, coid: nat)
    requires BookOK(b) && !o.side.NoSide? && NoKey(b.bids, o.client, o.coid) && NoKey(b.asks, o.client, o.coid)
    ensures LiveIn(b.With(o.side, Insert(o.side, b.On(o.side), o)), client, coid) ==
            if o.client == client && o.coid == coid then Some(Resting(o.side, o.price, o.qty)) else LiveIn(b, client, coid)
  {
    OnSideInsert(o.side, b.On(o.side), o, client, coid);
  }

  lemma LiveAfterRemove(b: Book, side: Side, k: nat, client: nat, coid: nat)
    requires BookOK(b) && !side.NoSide? && k < |b.On(side)|
    ensures var o := b.On(side)[k];
            && LiveIn(b, o.client, o.coid) == Some(Resting(side, o.price, o.qty))
            && LiveIn(b.With(side, RemoveAt(b.On(side), k)), client, coid) ==
               if o.client == client && o.coid == coid then None else LiveIn(b, client, coid)
  {
    OneSideOnly(b, side, k);
    OnSideRemove(side, b.On(side), k, client, coid);
  }

  lemma NotLive(b: Book, client: nat, coid: nat)
    requires NoKey(b.bids, client, coid) && NoKey(b.asks, client, coid)
    ensures LiveIn(b, client, coid) == None
  {
  }

  // ---------------------------------------------------------------------- a sweep, as its clients hear it

  /** The book, and besides it what the aggressor has left, which does not rest yet. */
  function MidIn(b: Book, agg: Aggressor, leaves: nat, client: nat, coid: nat): Option<Resting> {
    if agg.client == client && agg.coid == coid then (if leaves > 0 then Some(Resting(agg.side, agg.price, leaves)) else None)
    else LiveIn(b, client, coid)
  }

  ghost predicate MidIs(b: Book, agg: Aggressor, leaves: nat, client: nat, m: map<nat, Resting>) {
    forall coid: nat :: Entry(m, coid) == MidIn(b, agg, leaves, client, coid)
  }

  ghost predicate Unused(b: Book, agg: Aggressor) {
    NoKey(b.bids, agg.client, agg.coid) && NoKey(b.asks, agg.client, agg.coid)
  }

  /** The aggressor hears of its fill. */
  lemma AggressorHears(b: Book, agg: Aggressor, leaves: nat, fill: nat, client: nat, m: map<nat, Resting>, r: Response)
    requires 0 < fill <= leaves && MidIs(b, agg, leaves, client, m)
    requires r.kind.Filled? && r.client == agg.client && r.coid == agg.coid && r.side == agg.side
    requires r.execQty == fill && r.leavesQty == leaves - fill
    ensures RightAll(m, [r], client) && MidIs(b, agg, leaves - fill, client, HearAll(m, [r], client))
  {
    HearOne(m, r, client);
    assert Entry(m, agg.coid) == MidIn(b, agg, leaves, client, agg.coid);
    forall coid: nat
      ensures Entry(HearAll(m, [r], client), coid) == MidIn(b, agg, leaves - fill, client, coid)
    {
      assert Entry(m, coid) == MidIn(b, agg, leaves, client, coid);
    }
  }

  /** The resting order's client hears of it too. */
  lemma RestingHears(b: Book, agg: Aggressor, leaves: nat, fill: nat, client: nat, m: map<nat, Resting>, r: Response)
    requires BookOK(b) && !agg.side.NoSide? && Unused(b, agg) && MidIs(b, agg, leaves, client, m)
    requires var s := b.On(Opposite(agg.side)); s != [] && 0 < fill <= s[0].qty
    requires var o := b.On(Opposite(agg.side))[0];
             && r.kind.Filled? && r.client == o.client && r.coid == o.coid && r.side == o.side
             && r.execQty == fill && r.leavesQty == o.qty - fill
    ensures RightAll(m, [r], client)
    ensures var opp := Opposite(agg.side);
            MidIs(b.With(opp, AfterFill(b.On(opp), fill)), agg, leaves, client, HearAll(m, [r], client))
  {
    var opp := Opposite(agg.side);
    var o := b.On(opp)[0];
    assert o.side == opp;
    HearOne(m, r, client);
    LiveAfterFill(b, opp, fill, o.client, o.coid);
    assert Entry(m, o.coid) == MidIn(b, agg, leaves, client, o.coid);
    forall coid: nat
      ensures Entry(HearAll(m, [r], client), coid) == MidIn(b.With(opp, AfterFill(b.On(opp), fill)), agg, leaves, client, coid)
    {
      LiveAfterFill(b, opp, fill, client, coid);
      assert Entry(m, coid) == MidIn(b, agg, leaves, client, coid);
    }
  }

  lemma FillHeard(b: Book, agg: Aggressor, leaves: nat, client: nat, m: map<nat, Resting>)
    requires BookOK(b) && !agg.side.NoSide? && Unused(b, agg) && leaves > 0 && MidIs(b, agg, leaves, client, m)
    requires b.On(Opposite(agg.side)) != []
    ensures var opp := Opposite(agg.side);
            var o := b.On(opp)[0];
            var fill := Min(leaves, o.qty);
            var rs := FillResponses(agg, o, fill, leaves - fill);
            && RightAll(m, rs, client)
            && MidIs(b.With(opp, AfterFill(b.On(opp), fill)), agg, leaves - fill, client, HearAll(m, rs, client))
  {
    var o := b.On(Opposite(agg.side))[0];
    var fill := Min(leaves, o.qty);
    assert fill > 0;
    var rs := FillResponses(agg, o, fill, leaves - fill);
    AggressorHears(b, agg, leaves, fill, client, m, rs[0]);
    RestingHears(b, agg, leaves - fill, fill, client, HearAll(m, [rs[0]], client), rs[1]);
    assert rs == [rs[0]] + [rs[1]];
    HearConcat(m, [rs[0]], [rs[1]], client);
  }

  lemma UnusedAfterFill(b: Book, agg: Aggressor, fill: nat)
    requires Unused(b, agg) && b.On(Opposite(agg.side)) != [] && fill <= b.On(Opposite(agg.side))[0].qty
    ensures Unused(b.With(Opposite(agg.side), AfterFill(b.On(Opposite(agg.side)), fill)), agg)
  {
  }

  lemma {:induction false} SweepHeard(b: Book, ticker: nat, agg: Aggressor, qty: nat, client: nat, m: map<nat, Resting>)
    requires BookOK(b) && !agg.side.NoSide? && Unused(b, agg) && MidIs(b, agg, qty, client, m)
    ensures var opp := Opposite(agg.side);
            var r := Sweep(ticker, agg, b.On(opp), qty);
            && RightAll(m, r.responses, client)
            && MidIs(b.With(opp, r.rest), agg, r.leaves, client, HearAll(m, r.responses, client))
    decreases |b.On(Opposite(agg.side))|
  {
    var opp := Opposite(agg.side);
    var s := b.On(opp);
    if qty == 0 || s == [] || !Crosses(agg.side, agg.price, s[0].price) {
      assert b.With(opp, s) == b;
    } else {
      var fill := Min(qty, s[0].qty);
      var b' := b.With(opp, AfterFill(s, fill));
      var rs := FillResponses(agg, s[0], fill, qty - fill);
      var next := Sweep(ticker, agg, AfterFill(s, fill), qty - fill);
      SweepTurn(ticker, agg, s, qty);
      FillHeard(b, agg, qty, client, m);
      HearConcat(m, rs, next.responses, client);
      assert b'.On(opp) == AfterFill(s, fill) && b'.With(opp, next.rest) == b.With(opp, next.rest);
      if fill == s[0].qty {
        assert BookOK(b') by {
          FillPublished(b, ticker, agg, fill);
        }
        UnusedAfterFill(b, agg, fill);
        SweepHeard(b', ticker, agg, qty - fill, client, HearAll(m, rs, client));
      } else {
        assert next == SweepResult(AfterFill(s, fill), 0, [], []);
      }
    }
  }

  // ---------------------------------------------------------------------- requests

  lemma FreeKey(b: Book, client: nat, coid: nat)
    requires Find(b, client, coid).0.NoSide?
    ensures NoKey(b.bids, client, coid) && NoKey(b.asks, client, coid)
  {
  }

  lemma AcceptHeard(x: Exchange, req: Request, client: nat, m: map<nat, Resting>, accepted: Response)
    requires req.New? && Admissible(x, req) && LiveIs(x.book, client, m)
    requires accepted == Response(Accepted, req.client, req.coid, x.nextId, req.side, req.price, 0, req.qty)
    ensures RightAll(m, [accepted], client)
    ensures MidIs(x.book, AggressorOf(x, req), req.qty, client, HearAll(m, [accepted], client))
  {
    FreeKey(x.book, req.client, req.coid);
    NotLive(x.book, req.client, req.coid);
    HearOne(m, accepted, client);
    assert Entry(m, req.coid) == LiveIn(x.book, client, req.coid);
    var m1 := HearAll(m, [accepted], client);
    forall coid: nat
      ensures Entry(m1, coid) == MidIn(x.book, AggressorOf(x, req), req.qty, client, coid)
    {
      assert Entry(m, coid) == LiveIn(x.book, client, coid);
    }
  }

  lemma RestHeard(x: Exchange, ticker: nat, req: Request, client: nat, m: map<nat, Resting>)
    requires ExchangeOK(x) && Admissible(x, req) && req.New?
    requires MidIs(SweptBook(x, ticker, req), AggressorOf(x, req), SweepOf(x, ticker, req).leaves, client, m)
    ensures LiveIs(AddOutcome(x, ticker, req).after.book, client, m)
  {
    var b, r, o := SweptBook(x, ticker, req), SweepOf(x, ticker, req), Residual(x, ticker, req);
    SweptBookOK(x, ticker, req);
    AddOutcomeIs(x, ticker, req);
    var after := AddOutcome(x, ticker, req).after.book;
    forall coid: nat
      ensures Entry(m, coid) == LiveIn(after, client, coid)
    {
      assert Entry(m, coid) == MidIn(b, AggressorOf(x, req), r.leaves, client, coid);
      NotLive(b, req.client, req.coid);
      if r.leaves > 0 {
        LiveAfterInsert(b, o, client, coid);
      }
    }
  }

  lemma AddHeard(x: Exchange, ticker: nat, req: Request, client: nat, m: map<nat, Resting>)
    requires ExchangeOK(x) && Admissible(x, req) && req.New? && LiveIs(x.book, client, m)
    ensures var out := AddOutcome(x, ticker, req);
            RightAll(m, out.responses, client) && LiveIs(out.after.book, client, HearAll(m, out.responses, client))
  {
    var accepted := Response(Accepted, req.client, req.coid, x.nextId, req.side, req.price, 0, req.qty);
    var r := SweepOf(x, ticker, req);
    AcceptHeard(x, req, client, m, accepted);
    FreeKey(x.book, req.client, req.coid);
    SweepHeard(x.book, ticker, AggressorOf(x, req), req.qty, client, HearAll(m, [accepted], client));
    HearConcat(m, [accepted], r.responses, client);
    AddOutcomeIs(x, ticker, req);
    RestHeard(x, ticker, req, client, HearAll(m, [accepted] + r.responses, client));
  }

  /** A cancel of an order id that is not live is rejected; so is every cancel from a client id beyond the
      exchange's table, which therefore must not have orders. */
  lemma CancelHeard(x: Exchange, ticker: nat, req: Request, client: nat, m: map<nat, Resting>)
    requires ExchangeOK(x) && req.Cancel? && LiveIs(x.book, client, m) && client < ME_MAX_NUM_CLIENTS
    ensures var out := CancelOutcome(x, ticker, req);
            RightAll(m, out.responses, client) && LiveIs(out.after.book, client, HearAll(m, out.responses, client))
  {
    var out := CancelOutcome(x, ticker, req);
    var (side, k) := Find(x.book, req.client, req.coid);
    assert out.responses == [out.responses[0]];
    HearOne(m, out.responses[0], client);
    assert Entry(m, req.coid) == LiveIn(x.book, client, req.coid);
    if req.client >= ME_MAX_NUM_CLIENTS || side.NoSide? {
    } else {
      LiveAfterRemove(x.book, side, k, req.client, req.coid);
      forall coid: nat
        ensures Entry(HearAll(m, out.responses, client), coid) == LiveIn(out.after.book, client, coid)
      {
        LiveAfterRemove(x.book, side, k, client, coid);
        assert Entry(m, coid) == LiveIn(x.book, client, coid);
      }
    }
  }

  /** Over every run, for every client: each response it receives is right about its live orders at that
      point, and all of them together say exactly which orders it has in the book, and for how much. */
  lemma {:induction false} ResponsesTellLive(ticker: nat, reqs: seq<Request>, client: nat)
    requires AdmissibleRun(ticker, reqs) && client < ME_MAX_NUM_CLIENTS
    ensures var run := Run(ticker, reqs);
            RightAll(map[], run.responses, client) && LiveIs(run.after.book, client, HearAll(map[], run.responses, client))
    decreases |reqs|
  {
    if reqs != [] {
      var front, req := reqs[..|reqs| - 1], reqs[|reqs| - 1];
      var before := Run(ticker, front);
      RunStep(ticker, reqs);
      FeedRebuildsBook(ticker, front);
      ResponsesTellLive(ticker, front, client);
      var m, out := HearAll(map[], before.responses, client), Process(before.after, ticker, req);
      if req.New? {
        AddHeard(before.after, ticker, req, client, m);
      } else {
        CancelHeard(before.after, ticker, req, client, m);
      }
      HearConcat(map[], before.responses, out.responses, client);
    }
  }
}
