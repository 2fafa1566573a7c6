/** The client's order manager against the real matcher: every run in which its requests, among anybody
    else's, go through Matching.Process is a run of the asynchronous protocol of Exposure, so the exposure
    bound holds of the exchange as it is. */
module LiveExposure {
  import opened Types
  import opened OrderSlots
  import opened PriceTime
  import opened Matching
  import opened Feed
  import opened Runs
  import opened Exposure
  import opened ClientView

  /** One client, its messages in flight, what has been executed for it, and the exchange. */
  datatype World = World(client: Client, requests: multiset<Request>, responses: seq<Response>, executed: int, x: Exchange)

  const OPENING: World := World(IDLE.client, multiset{}, [], 0, INITIAL)

  datatype Happening =
    /** The client quotes, spends an order id elsewhere, or hears a response. */
    | Own(e: Event)
    /** One of the client's requests in flight reaches the exchange. */
    | Arrive(req: Request)
    /** Somebody else's request does. */
    | Others(req: Request)

  /** The request as the exchange gets it: from client `me`. */
  function From(me: nat, req: Request): Request {
    match req
    case New(_, coid, side, price, qty) => New(me, coid, side, price, qty)
    case Cancel(_, coid) => Cancel(me, coid)
  }

  /** What the exchange tells client `me`, as far as its order manager looks at it. */
  function ToldTo(me: nat, rs: seq<Response>): seq<Response> {
    if rs == [] then []
    else (if rs[0].client == me then [Reply(rs[0].kind, rs[0].coid, rs[0].side, rs[0].execQty, rs[0].leavesQty)] else [])
         + ToldTo(me, rs[1..])
  }

  /** What it has executed for client `me`, bought less sold. */
  function NetOf(me: nat, rs: seq<Response>): int {
    if rs == [] then 0
    else (if rs[0].client == me && rs[0].kind.Filled? then SideValue(rs[0].side) * rs[0].execQty else 0) + NetOf(me, rs[1..])
  }

  predicate ClientsOwn(e: Event) {
    e.Quote? || e.Elsewhere? || e.Respond?
  }

  /** The client and its messages, with these orders resting. */
  function Seen(w: World, live: map<nat, Resting>): System {
    System(w.client, w.requests, live, w.responses, w.executed)
  }

  ghost predicate CanHappen(w: World, me: nat, h: Happening) {
    match h
    case Own(e) => ClientsOwn(e) && Possible(Seen(w, map[]), e)
    case Arrive(req) => req in w.requests
    case Others(req) => req.client != me && Admissible(w.x, req)
  }

  /** The world after the exchange has processed a request: the client will hear what concerns it. */
  function With(w: World, me: nat, out: Outcome): World {
    w.(responses := w.responses + ToldTo(me, out.responses), executed := w.executed + NetOf(me, out.responses), x := out.after)
  }

  function After(w: World, lim: Limits, ticker: nat, me: nat, h: Happening): World
    requires h.Own? ==> Possible(Seen(w, map[]), h.e)
  {
    match h
    case Own(e) =>
      var s := Step(Seen(w, map[]), lim, e);
      World(s.client, s.requests, s.responses, s.executed, w.x)
    case Arrive(req) => With(w.(requests := w.requests - multiset{req}), me, Process(w.x, ticker, From(me, req)))
    case Others(req) => With(w, me, Process(w.x, ticker, req))
  }

  ghost predicate CanHappenAll(w: World, lim: Limits, ticker: nat, me: nat, hs: seq<Happening>)
    decreases |hs|
  {
    hs == [] || (CanHappen(w, me, hs[0]) && CanHappenAll(After(w, lim, ticker, me, hs[0]), lim, ticker, me, hs[1..]))
  }

  ghost function AfterAll(w: World, lim: Limits, ticker: nat, me: nat, hs: seq<Happening>): World
    requires CanHappenAll(w, lim, ticker, me, hs)
    decreases |hs|
  {
    if hs == [] then w else AfterAll(After(w, lim, ticker, me, hs[0]), lim, ticker, me, hs[1..])
  }

  // ---------------------------------------------------------------------- the protocol's state

  /** A state of the protocol that is this world: its live orders are those in the exchange's book. */
  ghost predicate Agrees(s: System, w: World, me: nat) {
    s == Seen(w, s.live) && ExchangeOK(w.x) && LiveIs(w.x.book, me, s.live)
  }

  /** The protocol's state once it has followed these responses about fills. */
  ghost predicate Followed(s: System, t: System, me: nat, rs: seq<Response>) {
    && t.client == s.client && t.requests == s.requests && t.live == HearAll(s.live, rs, me)
    && t.responses == s.responses + ToldTo(me, rs) && t.executed == s.executed + NetOf(me, rs)
  }

  ghost predicate OnlyFills(rs: seq<Response>, me: nat) {
    forall i :: 0 <= i < |rs| && rs[i].client == me ==> rs[i].kind.Filled?
  }

  lemma FillFollows(s: System, r: Response, me: nat)
    requires r.client == me && r.kind.Filled? && Right(s.live, r)
    ensures Possible(s, Fill(r.coid, r.execQty))
    ensures FillStep(s, r.coid, r.execQty) ==
            System(s.client, s.requests, Hear(s.live, r),
                   s.responses + [Reply(Filled, r.coid, r.side, r.execQty, r.leavesQty)], s.executed + SideValue(r.side) * r.execQty)
  {
  }

  lemma StepThenRun(s: System, lim: Limits, e: Event, es: seq<Event>)
    requires Possible(s, e) && PossibleAll(Step(s, lim, e), lim, es)
    ensures PossibleAll(s, lim, [e] + es) && StepAll(s, lim, [e] + es) == StepAll(Step(s, lim, e), lim, es)
  {
    assert ([e] + es)[1..] == es;
  }

  lemma OneMoreFollowed(s: System, t: System, u: System, me: nat, rs: seq<Response>)
    requires rs != [] && rs[0].client == me && rs[0].kind.Filled? && Followed(t, u, me, rs[1..])
    requires var r := rs[0];
             t == System(s.client, s.requests, Hear(s.live, r),
                         s.responses + [Reply(Filled, r.coid, r.side, r.execQty, r.leavesQty)], s.executed + SideValue(r.side) * r.execQty)
    ensures Followed(s, u, me, rs)
  {
    Rejoined(s.responses, t.responses[|s.responses|], ToldTo(me, rs[1..]));
  }

  /** Fills that are right are fills of the protocol. */
  lemma {:induction false} FillsFollow(s: System, lim: Limits, rs: seq<Response>, me: nat) returns (es: seq<Event>)
    requires RightAll(s.live, rs, me) && OnlyFills(rs, me)
    ensures PossibleAll(s, lim, es) && Followed(s, StepAll(s, lim, es), me, rs)
    decreases |rs|
  {
    if rs == [] {
      es := [];
    } else if rs[0].client != me {
      es := FillsFollow(s, lim, rs[1..], me);
    } else {
      var r := rs[0];
      FillFollows(s, r, me);
      es := FillsFollow(FillStep(s, r.coid, r.execQty), lim, rs[1..], me);
      StepThenRun(s, lim, Fill(r.coid, r.execQty), es);
      OneMoreFollowed(s, FillStep(s, r.coid, r.execQty), StepAll(FillStep(s, r.coid, r.execQty), lim, es), me, rs);
      es := [Fill(r.coid, r.execQty)] + es;
    }
  }

  ghost predicate AllFills(rs: seq<Response>) {
    forall i :: 0 <= i < |rs| ==> rs[i].kind.Filled?
  }

  lemma {:induction false} SweepFills(ticker: nat, agg: Aggressor, opp: seq<Order>, leaves: nat)
    ensures AllFills(Sweep(ticker, agg, opp, leaves).responses)
    decreases |opp|
  {
    if !(leaves == 0 || opp == [] || !Crosses(agg.side, agg.price, opp[0].price)) {
      var fill := Min(leaves, opp[0].qty);
      assert AllFills(FillResponses(agg, opp[0], fill, leaves - fill));
      if fill == opp[0].qty {
        SweepFills(ticker, agg, opp[1..], leaves - fill);
      }
    }
  }

  // ---------------------------------------------------------------------- one request

  /** A response that is not a fill. */
  lemma ToldFirst(me: nat, r: Response, rs: seq<Response>)
    requires !r.kind.Filled?
    ensures ToldTo(me, [r] + rs) ==
            (if r.client == me then [Reply(r.kind, r.coid, r.side, r.execQty, r.leavesQty)] else []) + ToldTo(me, rs)
    ensures NetOf(me, [r] + rs) == NetOf(me, rs)
  {
    assert ([r] + rs)[1..] == rs;
  }

  /** What the client's own NEW is answered with: an acceptance, then fills. */
  lemma NewAnswer(x: Exchange, ticker: nat, me: nat, req: Request, live: map<nat, Resting>) returns (r: Response, fills: seq<Response>)
    requires ExchangeOK(x) && LiveIs(x.book, me, live) && req.New? && req.client == me && Admissible(x, req)
    ensures var out := AddOutcome(x, ticker, req);
            && out.responses == [r] + fills && r.client == me && r.kind.Accepted? && r.price == req.price
            && Reply(r.kind, r.coid, r.side, r.execQty, r.leavesQty) == Reply(Accepted, req.coid, req.side, 0, req.qty)
            && RightAll(Hear(live, r), fills, me) && OnlyFills(fills, me)
            && ExchangeOK(out.after) && LiveIs(out.after.book, me, HearAll(Hear(live, r), fills, me))
  {
    r := Response(Accepted, req.client, req.coid, x.nextId, req.side, req.price, 0, req.qty);
    fills := SweepOf(x, ticker, req).responses;
    AddHeard(x, ticker, req, me, live);
    AddKeepsOK(x, ticker, req);
    AddOutcomeIs(x, ticker, req);
    HearConcat(live, [r], fills, me);
    HearOne(live, r, me);
    SweepFills(ticker, AggressorOf(x, req), x.book.On(Opposite(req.side)), req.qty);
  }

  lemma AcceptLive(s: System, req: Request, r: Response)
    requires req.New? && r.kind.Accepted? && r.price == req.price
    requires Reply(r.kind, r.coid, r.side, r.execQty, r.leavesQty) == Reply(Accepted, req.coid, req.side, 0, req.qty)
    ensures AcceptStep(s, req.coid, req.side, req.price, req.qty) ==
            System(s.client, s.requests - multiset{NewRequest(req.coid, req.side, req.price, req.qty)}, Hear(s.live, r),
                   s.responses + [Reply(r.kind, r.coid, r.side, r.execQty, r.leavesQty)], s.executed)
  {
  }

  /** The acceptance of the client's own order, and what it sweeps. */
  lemma NewFollows(s: System, lim: Limits, w: World, ticker: nat, me: nat, req: Request) returns (es: seq<Event>)
    requires Agrees(s, w, me) && req in s.requests && req.New? && req == NewRequest(req.coid, req.side, req.price, req.qty)
    requires Admissible(w.x, From(me, req)) && me < ME_MAX_NUM_CLIENTS
    ensures PossibleAll(s, lim, es) && Agrees(StepAll(s, lim, es), After(w, lim, ticker, me, Arrive(req)), me)
  {
    var r, fills := NewAnswer(w.x, ticker, me, From(me, req), s.live);
    var t := AcceptStep(s, req.coid, req.side, req.price, req.qty);
    AcceptLive(s, req, r);
    es := FillsFollow(t, lim, fills, me);
    StepThenRun(s, lim, TakeNew(req.coid, req.side, req.price, req.qty), es);
    ToldFirst(me, r, fills);
    Rejoined(s.responses, Reply(r.kind, r.coid, r.side, r.execQty, r.leavesQty), ToldTo(me, fills));
    es := [TakeNew(req.coid, req.side, req.price, req.qty)] + es;
  }

  lemma Rejoined(rs: seq<Response>, r: Response, ts: seq<Response>)
    ensures rs + ([r] + ts) == rs + [r] + ts
  {
  }

  /** What a cancel is answered with. */
  lemma CancelAnswer(x: Exchange, ticker: nat, me: nat, coid: nat, live: map<nat, Resting>) returns (r: Response)
    requires ExchangeOK(x) && LiveIs(x.book, me, live) && me < ME_MAX_NUM_CLIENTS
    ensures var out := CancelOutcome(x, ticker, Cancel(me, coid));
            && out.responses == [r] && r.client == me && !r.kind.Filled? && ExchangeOK(out.after)
            && LiveIs(out.after.book, me, Hear(live, r))
            && Reply(r.kind, r.coid, r.side, r.execQty, r.leavesQty) ==
               (if coid in live then Reply(Canceled, coid, live[coid].side, QTY_INVALID, live[coid].leaves)
                else Reply(CancelRejected, coid, NoSide, QTY_INVALID, QTY_INVALID))
  {
    var out := CancelOutcome(x, ticker, Cancel(me, coid));
    r := out.responses[0];
    CancelHeard(x, ticker, Cancel(me, coid), me, live);
    CancelKeepsOK(x, ticker, Cancel(me, coid));
    HearOne(live, r, me);
    assert Entry(live, coid) == LiveIn(x.book, me, coid);
  }

  lemma CancelLive(s: System, coid: nat, r: Response)
    requires Reply(r.kind, r.coid, r.side, r.execQty, r.leavesQty) ==
             (if coid in s.live then Reply(Canceled, coid, s.live[coid].side, QTY_INVALID, s.live[coid].leaves)
              else Reply(CancelRejected, coid, NoSide, QTY_INVALID, QTY_INVALID))
    ensures CancelStep(s, coid) ==
            System(s.client, s.requests - multiset{CancelRequest(coid)}, Hear(s.live, r),
                   s.responses + [Reply(r.kind, r.coid, r.side, r.execQty, r.leavesQty)], s.executed)
  {
  }

  /** The cancellation or rejection the client has asked for. */
  lemma CancelFollows(s: System, lim: Limits, w: World, ticker: nat, me: nat, req: Request)
    requires Agrees(s, w, me) && req in s.requests && req == CancelRequest(req.coid) && me < ME_MAX_NUM_CLIENTS
    ensures Agrees(Step(s, lim, TakeCancel(req.coid)), After(w, lim, ticker, me, Arrive(req)), me)
  {
    var r := CancelAnswer(w.x, ticker, me, req.coid, s.live);
    CancelLive(s, req.coid, r);
    ToldFirst(me, r, []);
    assert [r] + [] == [r];
    assert ToldTo(me, [r]) == [Reply(r.kind, r.coid, r.side, r.execQty, r.leavesQty)] && NetOf(me, [r]) == 0;
  }

  lemma OthersAccepted(rs: seq<Response>, fills: seq<Response>, me: nat)
    requires rs != [] && rs[0].client != me && rs == [rs[0]] + fills && AllFills(fills)
    ensures OnlyFills(rs, me)
  {
    forall i | 0 <= i < |rs| && rs[i].client == me
      ensures rs[i].kind.Filled?
    {
      assert rs[i] == fills[i - 1];
    }
  }

  /** What somebody else's request leads to is right about the client's orders and only fills them. */
  ghost predicate FillsAtMost(out: Outcome, me: nat, live: map<nat, Resting>) {
    && RightAll(live, out.responses, me) && OnlyFills(out.responses, me)
    && ExchangeOK(out.after) && LiveIs(out.after.book, me, HearAll(live, out.responses, me))
  }

  lemma OthersNew(x: Exchange, ticker: nat, me: nat, req: Request, live: map<nat, Resting>)
    requires ExchangeOK(x) && LiveIs(x.book, me, live) && req.client != me && Admissible(x, req) && req.New?
    ensures FillsAtMost(AddOutcome(x, ticker, req), me, live)
  {
    AddHeard(x, ticker, req, me, live);
    AddKeepsOK(x, ticker, req);
    var rs, fills := AddOutcome(x, ticker, req).responses, SweepOf(x, ticker, req).responses;
    assert rs != [] && rs[0].client != me && rs == [rs[0]] + fills by {
      AddOutcomeIs(x, ticker, req);
    }
    SweepFills(ticker, AggressorOf(x, req), x.book.On(Opposite(req.side)), req.qty);
    OthersAccepted(rs, fills, me);
  }

  lemma OthersCancel(x: Exchange, ticker: nat, me: nat, req: Request, live: map<nat, Resting>)
    requires ExchangeOK(x) && LiveIs(x.book, me, live) && req.client != me && req.Cancel? && me < ME_MAX_NUM_CLIENTS
    ensures FillsAtMost(CancelOutcome(x, ticker, req), me, live)
  {
    CancelHeard(x, ticker, req, me, live);
    CancelKeepsOK(x, ticker, req);
  }

  /** Somebody else's request can only fill the client's orders. */
  lemma OthersFollow(s: System, lim: Limits, w: World, ticker: nat, me: nat, req: Request, out: Outcome) returns (es: seq<Event>)
    requires Agrees(s, w, me) && req.client != me && Admissible(w.x, req) && me < ME_MAX_NUM_CLIENTS
    requires out == Process(w.x, ticker, req)
    ensures PossibleAll(s, lim, es) && Agrees(StepAll(s, lim, es), With(w, me, out), me)
  {
    assert FillsAtMost(out, me, s.live) by {
      if req.New? {
        OthersNew(w.x, ticker, me, req, s.live);
      } else {
        OthersCancel(w.x, ticker, me, req, s.live);
      }
    }
    es := FillsFollow(s, lim, out.responses, me);
  }

  /** A NEW on its way is for an order id that is not in the book. */
  lemma OwnRequestAdmissible(s: System, lim: Limits, w: World, me: nat, req: Request)
    requires Agrees(s, w, me) && Inv(s, lim) && req in s.requests && req.New? && req == NewRequest(req.coid, req.side, req.price, req.qty)
    ensures Admissible(w.x, From(me, req))
  {
    AskedFor(s, req.coid, req.side, req.price, req.qty);
    assert Entry(s.live, req.coid) == LiveIn(w.x.book, me, req.coid);
  }

  // ---------------------------------------------------------------------- every run

  /** The client's own moves do not look at what rests. */
  lemma OwnFollows(s: System, lim: Limits, w: World, ticker: nat, me: nat, e: Event)
    requires Agrees(s, w, me) && ClientsOwn(e) && Possible(Seen(w, map[]), e)
    ensures Possible(s, e) && Agrees(Step(s, lim, e), After(w, lim, ticker, me, Own(e)), me)
  {
  }

  /** All requests in flight are of the two forms the order manager sends. */
  ghost predicate Manager(s: System) {
    forall r :: r in s.requests ==>
      r == (if r.New? then NewRequest(r.coid, r.side, r.price, r.qty) else CancelRequest(r.coid))
  }

  lemma ManagerKeeps(s: System, lim: Limits, e: Event)
    requires Manager(s) && Possible(s, e)
    ensures Manager(Step(s, lim, e))
  {
  }

  lemma {:induction false} ManagerAlways(s: System, lim: Limits, es: seq<Event>)
    requires Manager(s) && PossibleAll(s, lim, es)
    ensures Manager(StepAll(s, lim, es))
    decreases |es|
  {
    if es != [] {
      ManagerKeeps(s, lim, es[0]);
      ManagerAlways(Step(s, lim, es[0]), lim, es[1..]);
    }
  }

  lemma OneEvent(s: System, lim: Limits, e: Event)
    requires Possible(s, e)
    ensures PossibleAll(s, lim, [e]) && StepAll(s, lim, [e]) == Step(s, lim, e)
  {
    assert [e][1..] == [];
  }

  /** Whatever happens is a run of the protocol. */
  lemma HappeningFollows(s: System, lim: Limits, w: World, ticker: nat, me: nat, h: Happening) returns (es: seq<Event>)
    requires Agrees(s, w, me) && Inv(s, lim) && Manager(s) && CanHappen(w, me, h) && me < ME_MAX_NUM_CLIENTS
    ensures PossibleAll(s, lim, es) && Agrees(StepAll(s, lim, es), After(w, lim, ticker, me, h), me)
  {
    match h
    case Own(e) =>
      OwnFollows(s, lim, w, ticker, me, e);
      OneEvent(s, lim, e);
      es := [e];
    case Arrive(req) =>
      if req.New? {
        OwnRequestAdmissible(s, lim, w, me, req);
        es := NewFollows(s, lim, w, ticker, me, req);
      } else {
        CancelFollows(s, lim, w, ticker, me, req);
        OneEvent(s, lim, TakeCancel(req.coid));
        es := [TakeCancel(req.coid)];
      }
    case Others(req) =>
      es := OthersFollow(s, lim, w, ticker, me, req, Process(w.x, ticker, req));
  }

  lemma HeadFirst(es: seq<Event>, fs: seq<Event>)
    requires es != []
    ensures es + fs == [es[0]] + (es[1..] + fs)
  {
  }

  lemma {:induction false} RunConcat(s: System, lim: Limits, es: seq<Event>, fs: seq<Event>)
    requires PossibleAll(s, lim, es) && PossibleAll(StepAll(s, lim, es), lim, fs)
    ensures PossibleAll(s, lim, es + fs) && StepAll(s, lim, es + fs) == StepAll(StepAll(s, lim, es), lim, fs)
    decreases |es|
  {
    if es == [] {
      assert es + fs == fs;
    } else {
      RunConcat(Step(s, lim, es[0]), lim, es[1..], fs);
      StepThenRun(s, lim, es[0], es[1..] + fs);
      HeadFirst(es, fs);
    }
  }

  lemma {:induction false} RunFollows(s: System, lim: Limits, w: World, ticker: nat, me: nat, hs: seq<Happening>) returns (es: seq<Event>)
    requires Agrees(s, w, me) && Inv(s, lim) && Current(s) && Manager(s) && LimitsHold(lim) && me < ME_MAX_NUM_CLIENTS
    requires CanHappenAll(w, lim, ticker, me, hs)
    ensures PossibleAll(s, lim, es) && Agrees(StepAll(s, lim, es), AfterAll(w, lim, ticker, me, hs), me)
    decreases |hs|
  {
    if hs == [] {
      es := [];
    } else {
      var first := HappeningFollows(s, lim, w, ticker, me, hs[0]);
      RunKeeps(s, lim, first);
      ManagerAlways(s, lim, first);
      var rest := RunFollows(StepAll(s, lim, first), lim, After(w, lim, ticker, me, hs[0]), ticker, me, hs[1..]);
      RunConcat(s, lim, first, rest);
      es := first + rest;
    }
  }

  lemma OpeningAgrees(me: nat)
    ensures Agrees(IDLE, OPENING, me) && Manager(IDLE) && Current(IDLE)
  {
    EmptyOK();
  }

  /** Every run of the client against the real matcher, whatever the others send, is a run of the
      protocol. */
  lemma MatcherIsProtocol(lim: Limits, ticker: nat, me: nat, hs: seq<Happening>) returns (es: seq<Event>)
    requires LimitsHold(lim) && me < ME_MAX_NUM_CLIENTS && CanHappenAll(OPENING, lim, ticker, me, hs)
    ensures PossibleAll(IDLE, lim, es) && Agrees(StepAll(IDLE, lim, es), AfterAll(OPENING, lim, ticker, me, hs), me)
  {
    OpeningAgrees(me);
    assert Inv(IDLE, lim);
    es := RunFollows(IDLE, lim, OPENING, ticker, me, hs);
  }

  /** Client `me` has orders under both ids, on the same side. */
  predicate SameSideLive(b: Book, me: nat, i: nat, j: nat) {
    var a, c := LiveIn(b, me, i), LiveIn(b, me, j);
    a.Some? && c.Some? && a.value.side == c.value.side
  }

  ghost predicate OnePerSide(b: Book, me: nat) {
    forall i: nat, j: nat :: SameSideLive(b, me, i, j) ==> i == j
  }

  /** So, against the real matcher: the client's position and what has been executed for it stay within the
      limit, and it never has two orders on one side of the book. */
  lemma LiveExposureBounded(lim: Limits, ticker: nat, me: nat, hs: seq<Happening>)
    requires LimitsHold(lim) && me < ME_MAX_NUM_CLIENTS && CanHappenAll(OPENING, lim, ticker, me, hs)
    ensures var w := AfterAll(OPENING, lim, ticker, me, hs);
            && WithinPosition(lim, w.client.position) && WithinPosition(lim, w.executed)
            && OnePerSide(w.x.book, me)
  {
    var es := MatcherIsProtocol(lim, ticker, me, hs);
    ExposureBounded(lim, es);
    var s, w := StepAll(IDLE, lim, es), AfterAll(OPENING, lim, ticker, me, hs);
    forall i: nat, j: nat | SameSideLive(w.x.book, me, i, j)
      ensures i == j
    {
      assert Entry(s.live, i) == LiveIn(w.x.book, me, i) && Entry(s.live, j) == LiveIn(w.x.book, me, j);
    }
  }
}
