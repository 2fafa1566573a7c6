/** The top-of-book replay: one synthetic order per side, cancelled and added anew when its quote changes
    (backtest/backtest_engine.cpp:153-201, backtest/backtest_engine.h:70-82). Cancels go out for both sides
    before any add, because MarketOrderBook's price index ignores sides. */
module TopOfBook {
  import opened Types
  import opened PriceTime
  import opened Matching
  import opened Feed
  import opened BookIndex
  import opened MarketOrderBook

  const FIRST_SYNTH_OID: nat := 500_000
  const END_SYNTH_OID: nat := 900_000

  /** The last quote of a side and the synthetic order that stands for it. */
  datatype Resting = Resting(price: int, qty: nat, oid: Option<nat>)

  datatype Tops = Tops(bid: Resting, ask: Resting, next: nat)

  datatype BookTop = BookTop(bidPrice: int, bidQty: nat, askPrice: int, askQty: nat)

  const UNQUOTED: Resting := Resting(PRICE_INVALID, 0, None)

  const NO_TOPS: Tops := Tops(UNQUOTED, UNQUOTED, FIRST_SYNTH_OID)

  /** nextSynthOid: ids are handed out in a circle. */
  function NextOid(oid: nat): nat {
    if oid + 1 >= END_SYNTH_OID then FIRST_SYNTH_OID else oid + 1
  }

  predicate Changed(r: Resting, price: int, qty: nat) {
    price != r.price || qty != r.qty
  }

  /** A changed side asks for an id unless the new quote is empty. */
  predicate TakesId(r: Resting, price: int, qty: nat) {
    Changed(r, price, qty) && price != PRICE_INVALID
  }

  function Cancelled(side: Side, r: Resting, price: int, qty: nat): seq<Update> {
    if Changed(r, price, qty) && r.oid.Some? then [Update(CancelOrder, r.oid.value, 0, side, r.price, r.qty, 0)] else []
  }

  function Added(side: Side, r: Resting, price: int, qty: nat, oid: nat): seq<Update> {
    if TakesId(r, price, qty) then [Update(Add, oid, 0, side, price, qty, 0)] else []
  }

  function Settled(r: Resting, price: int, qty: nat, oid: nat): Resting {
    if !Changed(r, price, qty) then r
    else Resting(price, qty, if price != PRICE_INVALID then Some(oid) else None)
  }

  function OidAfterBid(t: Tops, ev: BookTop): nat {
    if TakesId(t.bid, ev.bidPrice, ev.bidQty) then NextOid(t.next) else t.next
  }

  function OidAfterAsk(t: Tops, ev: BookTop): nat {
    if TakesId(t.ask, ev.askPrice, ev.askQty) then NextOid(OidAfterBid(t, ev)) else OidAfterBid(t, ev)
  }

  function CancelsFor(t: Tops, ev: BookTop): seq<Update> {
    Cancelled(Buy, t.bid, ev.bidPrice, ev.bidQty) + Cancelled(Sell, t.ask, ev.askPrice, ev.askQty)
  }

  function AddsFor(t: Tops, ev: BookTop): seq<Update> {
    Added(Buy, t.bid, ev.bidPrice, ev.bidQty, t.next) + Added(Sell, t.ask, ev.askPrice, ev.askQty, OidAfterBid(t, ev))
  }

  function SentFor(t: Tops, ev: BookTop): seq<Update> {
    CancelsFor(t, ev) + AddsFor(t, ev)
  }

  function After(t: Tops, ev: BookTop): Tops {
    Tops(Settled(t.bid, ev.bidPrice, ev.bidQty, t.next), Settled(t.ask, ev.askPrice, ev.askQty, OidAfterBid(t, ev)),
         OidAfterAsk(t, ev))
  }

  // ---------------------------------------------------------------------- the mirror under the replay

  /** What the mirror holds of a side. */
  function SideOf(side: Side, r: Resting): seq<Order> {
    if r.oid.None? then [] else [Order(0, r.oid.value, r.oid.value, side, r.price, r.qty, 0)]
  }

  function BookOf(t: Tops): Book {
    Book(SideOf(Buy, t.bid), SideOf(Sell, t.ask))
  }

  /** The two orders, if both are there, use different slots of the price index and different ids. */
  predicate Apart(bid: Resting, ask: Resting) {
    bid.oid.Some? && ask.oid.Some? ==> PriceToIndex(bid.price) != PriceToIndex(ask.price) && bid.oid != ask.oid
  }

  predicate Clean(t: Tops) {
    Apart(t.bid, t.ask)
  }

  /** A side once its cancel, if any, has gone out. */
  function Emptied(r: Resting, price: int, qty: nat): Resting {
    if Changed(r, price, qty) then r.(oid := None) else r
  }

  lemma OneOrder(side: Side, o: Order, id: nat)
    ensures IndexOfId([o], id) == (if o.moid == id then 0 else -1) && RemoveAt([o], 0) == [] && Insert(side, [], o) == [o]
  {
    assert [o][1..] == [];
  }

  /** A cancel of the order of a side, beside another one with another id, empties that side. */
  lemma CancelOne(b: Book, side: Side, o: Order, u: Update, c: Book)
    requires !side.NoSide? && b.On(side) == [o] && c == b.With(side, [])
    requires b.On(Opposite(side)) == [] || (|b.On(Opposite(side))| == 1 && b.On(Opposite(side))[0].moid != o.moid)
    requires u.kind.CancelOrder? && u.side == side && u.orderId == o.moid && u.price == o.price
    ensures ApplicableAll(b, [u]) && ApplyAll(b, [u]) == c
  {
    OneOrder(side, o, o.moid);
    var t := b.On(Opposite(side));
    if t != [] {
      assert t == [t[0]];
      OneOrder(side, t[0], o.moid);
    }
    ApplicableSnoc(b, [], u);
    ApplyOne(b, u);
    assert [] + [u] == [u];
  }

  lemma CancelBid(t: Tops, ev: BookTop)
    requires Clean(t)
    ensures var b, us := BookOf(t), Cancelled(Buy, t.bid, ev.bidPrice, ev.bidQty);
            ApplicableAll(b, us) && ApplyAll(b, us) == BookOf(t.(bid := Emptied(t.bid, ev.bidPrice, ev.bidQty)))
  {
    var b, us := BookOf(t), Cancelled(Buy, t.bid, ev.bidPrice, ev.bidQty);
    if us != [] {
      CancelOne(b, Buy, b.bids[0], us[0], Book([], b.asks));
      assert us == [us[0]];
    }
  }

  lemma CancelAsk(t: Tops, ev: BookTop)
    requires Clean(t)
    ensures var b, us := BookOf(t), Cancelled(Sell, t.ask, ev.askPrice, ev.askQty);
            ApplicableAll(b, us) && ApplyAll(b, us) == BookOf(t.(ask := Emptied(t.ask, ev.askPrice, ev.askQty)))
  {
    var b, us := BookOf(t), Cancelled(Sell, t.ask, ev.askPrice, ev.askQty);
    if us != [] {
      CancelOne(b, Sell, b.asks[0], us[0], Book(b.bids, []));
      assert us == [us[0]];
    }
  }

  /** A newcomer to an empty side is applicable exactly if the other side's order is apart from it. */
  lemma AddIff(b: Book, side: Side, u: Update, other: Resting)
    requires !side.NoSide? && b.On(side) == [] && b.On(Opposite(side)) == SideOf(Opposite(side), other)
    requires u.kind.Add? && u.side == side && u.priority == 0 && u.orderId < ME_MAX_ORDER_IDS
    ensures var r := Resting(u.price, u.qty, Some(u.orderId));
            && (ApplicableAll(b, [u]) <==> Apart(r, other))
            && ApplyAll(b, [u]) == b.With(side, SideOf(side, r))
  {
    OneOrder(side, OrderOf(u), u.orderId);
    if other.oid.Some? {
      OneOrder(Opposite(side), b.On(Opposite(side))[0], u.orderId);
    }
    ApplicableSnoc(b, [], u);
    assert [] + [u] == [u];
  }

  lemma AddBid(t: Tops, ev: BookTop, bid: Resting)
    requires t.next < ME_MAX_ORDER_IDS && bid == Emptied(t.bid, ev.bidPrice, ev.bidQty)
    ensures var b, us := BookOf(t.(bid := bid)), Added(Buy, t.bid, ev.bidPrice, ev.bidQty, t.next);
            var next := Settled(t.bid, ev.bidPrice, ev.bidQty, t.next);
            && (ApplicableAll(b, us) <==> (us != [] ==> Apart(next, t.ask)))
            && ApplyAll(b, us) == BookOf(t.(bid := next))
  {
    var b, us := BookOf(t.(bid := bid)), Added(Buy, t.bid, ev.bidPrice, ev.bidQty, t.next);
    if us != [] {
      AddIff(b, Buy, us[0], t.ask);
      assert us == [us[0]];
    }
  }

  lemma AddAsk(t: Tops, ev: BookTop, ask: Resting, oid: nat)
    requires oid < ME_MAX_ORDER_IDS && ask == Emptied(t.ask, ev.askPrice, ev.askQty)
    ensures var b, us := BookOf(t.(ask := ask)), Added(Sell, t.ask, ev.askPrice, ev.askQty, oid);
            var next := Settled(t.ask, ev.askPrice, ev.askQty, oid);
            && (ApplicableAll(b, us) <==> (us != [] ==> Apart(next, t.bid)))
            && ApplyAll(b, us) == BookOf(t.(ask := next))
  {
    var b, us := BookOf(t.(ask := ask)), Added(Sell, t.ask, ev.askPrice, ev.askQty, oid);
    if us != [] {
      AddIff(b, Sell, us[0], t.bid);
      assert us == [us[0]];
    }
  }

  // ---------------------------------------------------------------------- one event

  /** Whatever the event, the cancels are applicable. */
  lemma CancelsApply(t: Tops, ev: BookTop)
    requires Clean(t)
    ensures ApplicableAll(BookOf(t), CancelsFor(t, ev))
    ensures ApplyAll(BookOf(t), CancelsFor(t, ev)) ==
            BookOf(t.(bid := Emptied(t.bid, ev.bidPrice, ev.bidQty), ask := Emptied(t.ask, ev.askPrice, ev.askQty)))
  {
    var mid := t.(bid := Emptied(t.bid, ev.bidPrice, ev.bidQty));
    CancelBid(t, ev);
    CancelAsk(mid, ev);
    var us, vs := Cancelled(Buy, t.bid, ev.bidPrice, ev.bidQty), Cancelled(Sell, t.ask, ev.askPrice, ev.askQty);
    ApplicableConcat(BookOf(t), us, vs);
    ApplyAllConcat(BookOf(t), us, vs);
  }

  /** A side is quoted exactly while it has an order, and the next id is in the circle. */
  predicate Quoted(t: Tops) {
    && FIRST_SYNTH_OID <= t.next < END_SYNTH_OID
    && (t.bid.oid.Some? <==> t.bid.price != PRICE_INVALID)
    && (t.ask.oid.Some? <==> t.ask.price != PRICE_INVALID)
  }

  /** The adds, on what the cancels leave: the ask's turn comes when the new bid is there. */
  lemma AddsIff(t: Tops, ev: BookTop)
    requires Clean(t) && Quoted(t)
    ensures var b := BookOf(t.(bid := Emptied(t.bid, ev.bidPrice, ev.bidQty), ask := Emptied(t.ask, ev.askPrice, ev.askQty)));
            && (ApplicableAll(b, AddsFor(t, ev)) <==> Clean(After(t, ev)))
            && ApplyAll(b, AddsFor(t, ev)) == BookOf(After(t, ev))
  {
    var bid, ask := Emptied(t.bid, ev.bidPrice, ev.bidQty), Emptied(t.ask, ev.askPrice, ev.askQty);
    var us, vs := Added(Buy, t.bid, ev.bidPrice, ev.bidQty, t.next), Added(Sell, t.ask, ev.askPrice, ev.askQty, OidAfterBid(t, ev));
    var next := Settled(t.bid, ev.bidPrice, ev.bidQty, t.next);
    AddBid(t.(ask := ask), ev, bid);
    AddAsk(t.(bid := next), ev, ask, OidAfterBid(t, ev));
    ApplicableConcat(BookOf(t.(bid := bid, ask := ask)), us, vs);
    ApplyAllConcat(BookOf(t.(bid := bid, ask := ask)), us, vs);
  }

  /** Everything an event sends is applicable exactly if the new bid and ask use different slots and ids;
      the mirror then holds just these two. */
  lemma EventIff(t: Tops, ev: BookTop)
    requires Clean(t) && Quoted(t)
    ensures ApplicableAll(BookOf(t), SentFor(t, ev)) <==> Clean(After(t, ev))
    ensures ApplyAll(BookOf(t), SentFor(t, ev)) == BookOf(After(t, ev)) && Quoted(After(t, ev))
  {
    CancelsApply(t, ev);
    AddsIff(t, ev);
    ApplicableConcat(BookOf(t), CancelsFor(t, ev), AddsFor(t, ev));
    ApplyAllConcat(BookOf(t), CancelsFor(t, ev), AddsFor(t, ev));
  }

  // ---------------------------------------------------------------------- every run

  function AfterAll(t: Tops, evs: seq<BookTop>): Tops
    decreases |evs|
  {
    if evs == [] then t else AfterAll(After(t, evs[0]), evs[1..])
  }

  function SentAll(t: Tops, evs: seq<BookTop>): seq<Update>
    decreases |evs|
  {
    if evs == [] then [] else SentFor(t, evs[0]) + SentAll(After(t, evs[0]), evs[1..])
  }

  predicate CleanAll(t: Tops, evs: seq<BookTop>)
    decreases |evs|
  {
    Clean(t) && (evs == [] || CleanAll(After(t, evs[0]), evs[1..]))
  }

  lemma {:induction false} RunFromIff(t: Tops, evs: seq<BookTop>)
    requires Clean(t) && Quoted(t)
    ensures ApplicableAll(BookOf(t), SentAll(t, evs)) <==> CleanAll(t, evs)
    ensures CleanAll(t, evs) ==> ApplyAll(BookOf(t), SentAll(t, evs)) == BookOf(AfterAll(t, evs))
    decreases |evs|
  {
    if evs != [] {
      var us, rest := SentFor(t, evs[0]), SentAll(After(t, evs[0]), evs[1..]);
      EventIff(t, evs[0]);
      ApplicableConcat(BookOf(t), us, rest);
      ApplyAllConcat(BookOf(t), us, rest);
      if Clean(After(t, evs[0])) {
        RunFromIff(After(t, evs[0]), evs[1..]);
      }
    }
  }

  /** Over every tape: all that is sent is applicable to the mirror exactly if after each event the two
      orders are apart. */
  lemma RunIff(evs: seq<BookTop>)
    ensures ApplicableAll(EMPTY, SentAll(NO_TOPS, evs)) <==> CleanAll(NO_TOPS, evs)
    ensures CleanAll(NO_TOPS, evs) ==> ApplyAll(EMPTY, SentAll(NO_TOPS, evs)) == BookOf(AfterAll(NO_TOPS, evs))
  {
    RunFromIff(NO_TOPS, evs);
  }

  /** A side shows one order at this price for this quantity, or none if there is no price. */
  predicate ShowsQuote(s: seq<Order>, price: int, qty: nat) {
    if price == PRICE_INVALID then s == [] else |s| == 1 && s[0].price == price && s[0].qty == qty
  }

  /** What the fields hold of a side is this quote, with an order for it exactly if there is a price. */
  predicate Stands(r: Resting, price: int, qty: nat) {
    r.price == price && r.qty == qty && (r.oid.Some? <==> price != PRICE_INVALID)
  }

  lemma {:induction false} LastStands(t: Tops, evs: seq<BookTop>, bid: Resting, ask: Resting)
    requires Stands(t.bid, t.bid.price, t.bid.qty) && Stands(t.ask, t.ask.price, t.ask.qty)
    requires evs != [] && bid == AfterAll(t, evs).bid && ask == AfterAll(t, evs).ask
    ensures var ev := evs[|evs| - 1]; Stands(bid, ev.bidPrice, ev.bidQty) && Stands(ask, ev.askPrice, ev.askQty)
    decreases |evs|
  {
    if |evs| > 1 {
      LastStands(After(t, evs[0]), evs[1..], bid, ask);
    } else {
      assert evs[1..] == [];
    }
  }

  /** Over every applicable tape the mirror holds the last event's bid and ask, prices and quantities, and
      nothing else; hearing the same event again sends nothing. */
  lemma TapeIsShown(evs: seq<BookTop>)
    requires evs != [] && ApplicableAll(EMPTY, SentAll(NO_TOPS, evs))
    ensures var b, ev := ApplyAll(EMPTY, SentAll(NO_TOPS, evs)), evs[|evs| - 1];
            ShowsQuote(b.bids, ev.bidPrice, ev.bidQty) && ShowsQuote(b.asks, ev.askPrice, ev.askQty)
    ensures SentFor(AfterAll(NO_TOPS, evs), evs[|evs| - 1]) == []
  {
    RunIff(evs);
    LastStands(NO_TOPS, evs, AfterAll(NO_TOPS, evs).bid, AfterAll(NO_TOPS, evs).ask);
  }

  // ---------------------------------------------------------------------- ids in a circle

  predicate SlotsApart(t: Tops) {
    t.bid.oid.Some? && t.ask.oid.Some? ==> PriceToIndex(t.bid.price) != PriceToIndex(t.ask.price)
  }

  predicate SlotsApartAll(t: Tops, evs: seq<BookTop>)
    decreases |evs|
  {
    SlotsApart(t) && (evs == [] || SlotsApartAll(After(t, evs[0]), evs[1..]))
  }

  /** The circle has not closed: n ids are out and the two in use are different ones of them. */
  predicate Issued(t: Tops, n: nat) {
    && t.next == FIRST_SYNTH_OID + n < END_SYNTH_OID
    && (t.bid.oid.Some? ==> FIRST_SYNTH_OID <= t.bid.oid.value < t.next)
    && (t.ask.oid.Some? ==> FIRST_SYNTH_OID <= t.ask.oid.value < t.next)
    && (t.bid.oid.Some? && t.ask.oid.Some? ==> t.bid.oid != t.ask.oid)
  }

  lemma IssuesAtMostTwo(t: Tops, ev: BookTop, n: nat)
    requires Issued(t, n) && FIRST_SYNTH_OID + n + 2 < END_SYNTH_OID
    ensures Issued(After(t, ev), After(t, ev).next - FIRST_SYNTH_OID) && n <= After(t, ev).next - FIRST_SYNTH_OID <= n + 2
  {
  }

  lemma {:induction false} SlotsDecideFrom(t: Tops, evs: seq<BookTop>, n: nat)
    requires Issued(t, n) && FIRST_SYNTH_OID + n + 2 * |evs| < END_SYNTH_OID
    ensures CleanAll(t, evs) <==> SlotsApartAll(t, evs)
    decreases |evs|
  {
    if evs != [] {
      IssuesAtMostTwo(t, evs[0], n);
      SlotsDecideFrom(After(t, evs[0]), evs[1..], After(t, evs[0]).next - FIRST_SYNTH_OID);
    }
  }

  /** Until the ids have gone round once, a tape is applicable exactly if after each event the new bid and ask
      do not share a price slot. */
  lemma SlotsDecide(evs: seq<BookTop>)
    requires 2 * |evs| < END_SYNTH_OID - FIRST_SYNTH_OID
    ensures ApplicableAll(EMPTY, SentAll(NO_TOPS, evs)) <==> SlotsApartAll(NO_TOPS, evs)
  {
    RunIff(evs);
    SlotsDecideFrom(NO_TOPS, evs, 0);
  }

  /** A bid that rests unchanged while the ask changes k times. */
  function AskMoves(k: nat): Tops {
    if k == 0 then NO_TOPS else After(AskMoves(k - 1), BookTop(100, 1, 200, k))
  }

  lemma {:induction false} AskMovesIs(k: nat)
    requires 1 <= k < END_SYNTH_OID - FIRST_SYNTH_OID
    ensures AskMoves(k) == Tops(Resting(100, 1, Some(FIRST_SYNTH_OID)), Resting(200, k, Some(FIRST_SYNTH_OID + k)),
                                NextOid(FIRST_SYNTH_OID + k))
    decreases k
  {
    if k > 1 {
      AskMovesIs(k - 1);
    } else {
      assert AskMoves(0) == NO_TOPS;
    }
  }

  /** Once round the circle the ask is given the id of the bid that still rests. */
  lemma WrappedIdClashes(k: nat)
    requires k == END_SYNTH_OID - FIRST_SYNTH_OID
    ensures Clean(AskMoves(k - 1)) && !Clean(AskMoves(k))
    ensures !ApplicableAll(BookOf(AskMoves(k - 1)), SentFor(AskMoves(k - 1), BookTop(100, 1, 200, k)))
  {
    AskMovesIs(k - 1);
    EventIff(AskMoves(k - 1), BookTop(100, 1, 200, k));
  }

  // ---------------------------------------------------------------------- the engine's fields

  class TopReplay {
    var bid: Resting
    var ask: Resting
    var nextSynthOid: nat
    ghost var sent: seq<Update>

    function State(): Tops
      reads `bid, `ask, `nextSynthOid
    {
      Tops(bid, ask, nextSynthOid)
    }

    constructor ()
      ensures State() == NO_TOPS && sent == []
    {
      bid, ask, nextSynthOid, sent := UNQUOTED, UNQUOTED, FIRST_SYNTH_OID, [];
    }

    method TakeOid() returns (oid: nat)
      modifies `nextSynthOid
      ensures oid == old(nextSynthOid) && nextSynthOid == NextOid(oid)
    {
      oid, nextSynthOid := nextSynthOid, nextSynthOid + 1;
      if nextSynthOid >= END_SYNTH_OID {
        nextSynthOid := FIRST_SYNTH_OID;
      }
    }

    method Publish(u: Update)
      modifies `sent
      ensures sent == old(sent) + [u]
    {
      sent := sent + [u];
    }

    /** Lines 160-173. */
    method CancelChanged(ev: BookTop)
      modifies `sent
      ensures sent == old(sent) + CancelsFor(State(), ev)
    {
      if Changed(bid, ev.bidPrice, ev.bidQty) && bid.oid.Some? {
        Publish(Update(CancelOrder, bid.oid.value, 0, Buy, bid.price, bid.qty, 0));
      }
      if Changed(ask, ev.askPrice, ev.askQty) && ask.oid.Some? {
        Publish(Update(CancelOrder, ask.oid.value, 0, Sell, ask.price, ask.qty, 0));
      }
    }

    /** One side of lines 176-201. */
    method AddSide(side: Side, r: Resting, price: int, qty: nat) returns (next: Resting)
      modifies `sent, `nextSynthOid
      ensures next == Settled(r, price, qty, old(nextSynthOid)) && sent == old(sent) + Added(side, r, price, qty, old(nextSynthOid))
      ensures nextSynthOid == if TakesId(r, price, qty) then NextOid(old(nextSynthOid)) else old(nextSynthOid)
    {
      next := r;
      if Changed(r, price, qty) {
        next := Resting(price, qty, None);
        if price != PRICE_INVALID {
          var oid := TakeOid();
          next := Resting(price, qty, Some(oid));
          Publish(Update(Add, oid, 0, side, price, qty, 0));
        }
      }
    }

    /** applyBookEvent up to the matching (lines 153-201). */
    method ApplyBookEvent(ev: BookTop)
      modifies this
      ensures State() == After(old(State()), ev) && sent == old(sent) + SentFor(old(State()), ev)
    {
      CancelChanged(ev);
      bid := AddSide(Buy, bid, ev.bidPrice, ev.bidQty);
      ask := AddSide(Sell, ask, ev.askPrice, ev.askQty);
    }
  }
}
