/** The public feed: what folding market updates into a book means, which updates are legal, and
    the theorem that the feed of any run of requests rebuilds the exchange's own book. */
module Feed {
  import opened Types
  import opened PriceTime
  import opened Matching

  // ---------------------------------------------------------------------- folding updates

  function OrderOf(u: Update): Order {
    Order(0, u.orderId, u.orderId, u.side, u.price, u.qty, u.priority)
  }

  /** trading/strategy/market_order_book.cpp:43-102, on the two sides as sequences. */
  function Apply(b: Book, u: Update): Book {
    match u.kind
    case Add => b.With(u.side, Insert(u.side, b.On(u.side), OrderOf(u)))
    case Modify => Book(SetQty(b.bids, u.orderId, u.qty), SetQty(b.asks, u.orderId, u.qty))
    case CancelOrder => Book(RemoveId(b.bids, u.orderId), RemoveId(b.asks, u.orderId))
    case Clear => EMPTY
    case _ => b
  }

  function ApplyAll(b: Book, us: seq<Update>): Book
    decreases |us|
  {
    if us == [] then b else ApplyAll(Apply(b, us[0]), us[1..])
  }

  lemma {:induction false} ApplyAllConcat(b: Book, us: seq<Update>, vs: seq<Update>)
    ensures ApplyAll(b, us + vs) == ApplyAll(ApplyAll(b, us), vs)
    decreases |us|
  {
    if us == [] {
      assert us + vs == vs;
    } else {
      assert (us + vs)[1..] == us[1..] + vs;
      ApplyAllConcat(Apply(b, us[0]), us[1..], vs);
    }
  }

  lemma ApplyOne(b: Book, u: Update)
    ensures ApplyAll(b, [u]) == Apply(b, u)
    ensures LegalAll(b, [u]) <==> Legal(b, u)
  {
    assert [u][1..] == [];
  }

  // ---------------------------------------------------------------------- well-formed books

  ghost predicate Uncrossed(b: Book) {
    b.bids != [] && b.asks != [] ==> b.bids[0].price < b.asks[0].price
  }

  ghost predicate BookOK(b: Book) {
    && SideOK(Buy, b.bids) && SideOK(Sell, b.asks)
    && NoClashBetween(b.bids, b.asks)
    && Uncrossed(b)
  }

  /** Every order of the book has an id, and a (client, order id), of its own. */
  ghost predicate Unambiguous(b: Book) {
    NoClash(b.bids) && NoClash(b.asks) && NoClashBetween(b.bids, b.asks)
  }

  // ---------------------------------------------------------------------- legal updates

  /** The order an update names rests on the side and at the price the update states. */
  predicate Names(b: Book, u: Update) {
    && !u.side.NoSide?
    && var k := IndexOfId(b.On(u.side), u.orderId);
    && k >= 0 && b.On(u.side)[k].price == u.price
  }

  ghost predicate IdAbove(s: seq<Order>, id: nat) {
    forall i :: 0 <= i < |s| ==> s[i].moid < id
  }

  ghost predicate NoKey(s: seq<Order>, client: nat, coid: nat) {
    forall i :: 0 <= i < |s| ==> !(s[i].client == client && s[i].coid == coid)
  }

  ghost predicate Joins(b: Book, u: Update) {
    && !u.side.NoSide? && u.qty > 0 && u.orderId > 0
    && IdAbove(b.bids, u.orderId) && IdAbove(b.asks, u.orderId)
    && (forall i :: 0 <= i < |b.On(u.side)| && b.On(u.side)[i].price == u.price ==>
          b.On(u.side)[i].priority < u.priority)
    && (b.On(Opposite(u.side)) != [] ==> !Crosses(u.side, u.price, b.On(Opposite(u.side))[0].price))
  }

  ghost predicate Legal(b: Book, u: Update) {
    match u.kind
    case Add => Joins(b, u)
    case Modify => Names(b, u) && u.qty > 0
    case CancelOrder => Names(b, u)
    case Trade => true
    case _ => false
  }

  ghost predicate LegalAll(b: Book, us: seq<Update>)
    decreases |us|
  {
    us == [] || (Legal(b, us[0]) && LegalAll(Apply(b, us[0]), us[1..]))
  }

  lemma {:induction false} LegalAllConcat(b: Book, us: seq<Update>, vs: seq<Update>)
    requires LegalAll(b, us) && LegalAll(ApplyAll(b, us), vs)
    ensures LegalAll(b, us + vs)
    decreases |us|
  {
    if us == [] {
      assert us + vs == vs;
    } else {
      assert (us + vs)[1..] == us[1..] + vs;
      LegalAllConcat(Apply(b, us[0]), us[1..], vs);
    }
  }

  /** A legal update keeps the book sorted, uncrossed and unambiguous. */
  lemma LegalKeepsBook(b: Book, u: Update)
    requires BookOK(b) && Legal(b, u)
    requires Mirrored(b)
    ensures BookOK(Apply(b, u)) && Mirrored(Apply(b, u))
  {
    match u.kind
    case Add => AddKeepsBook(b, u);
    case Modify => ModifyKeepsBook(b, u);
    case CancelOrder => CancelKeepsBook(b, u);
    case Trade =>
  }

  /** Orders hold public fields only, so an order is known by its market order id alone. */
  ghost predicate Mirrored(b: Book) {
    && (forall i :: 0 <= i < |b.bids| ==> b.bids[i] == Public(b.bids[i]))
    && (forall i :: 0 <= i < |b.asks| ==> b.asks[i] == Public(b.asks[i]))
  }

  /** A newcomer that clashes with nobody, has the largest id, the largest priority of its level and
      does not cross, keeps a book well formed. */
  ghost predicate MayJoin(b: Book, o: Order) {
    && !o.side.NoSide? && o.qty > 0 && o.moid > 0
    && IdAbove(b.bids, o.moid) && IdAbove(b.asks, o.moid)
    && NoClashBetween(b.bids, [o]) && NoClashBetween(b.asks, [o])
    && (forall i :: 0 <= i < |b.On(o.side)| && b.On(o.side)[i].price == o.price ==>
          b.On(o.side)[i].priority < o.priority)
    && (b.On(Opposite(o.side)) != [] ==> !Crosses(o.side, o.price, b.On(Opposite(o.side))[0].price))
  }

  lemma InsertKeepsBook(b: Book, o: Order)
    requires BookOK(b) && MayJoin(b, o)
    ensures BookOK(b.With(o.side, Insert(o.side, b.On(o.side), o)))
  {
    var s, t := b.On(o.side), b.On(Opposite(o.side));
    assert forall i :: 0 <= i < |s| ==> !Clash(s[i], [o][0]);
    InsertKeepsSide(o.side, s, o);
    var r := Insert(o.side, s, o);
    InsertMembers(o.side, s, o);
    forall i, j | 0 <= i < |r| && 0 <= j < |t|
      ensures !Clash(r[i], t[j]) && !Clash(t[j], r[i])
    {
      assert !Clash(t[j], [o][0]);
      if r[i] != o {
        var m :| 0 <= m < |s| && s[m] == r[i];
        assert !Clash(b.bids[if o.side.Buy? then m else j], b.asks[if o.side.Buy? then j else m]);
      }
    }
    assert r[0] == if InsertPos(o.side, s, o.price) == 0 then o else s[0];
  }

  lemma InsertMembers(side: Side, s: seq<Order>, o: Order)
    ensures forall i :: 0 <= i < |Insert(side, s, o)| ==>
              Insert(side, s, o)[i] == o || exists m :: 0 <= m < |s| && s[m] == Insert(side, s, o)[i]
  {
    var k := InsertPos(side, s, o.price);
    forall i | 0 <= i < |s| + 1
      ensures Insert(side, s, o)[i] == o || exists m :: 0 <= m < |s| && s[m] == Insert(side, s, o)[i]
    {
      if i < k {
        assert Insert(side, s, o)[i] == s[i];
      } else if i > k {
        assert Insert(side, s, o)[i] == s[i - 1];
      }
    }
  }

  lemma AddKeepsBook(b: Book, u: Update)
    requires BookOK(b) && Mirrored(b) && u.kind.Add? && Joins(b, u)
    ensures BookOK(Apply(b, u)) && Mirrored(Apply(b, u))
  {
    assert MayJoin(b, OrderOf(u));
    InsertKeepsBook(b, OrderOf(u));
    InsertMembers(u.side, b.On(u.side), OrderOf(u));
  }

  lemma ModifyKeepsBook(b: Book, u: Update)
    requires BookOK(b) && Mirrored(b) && u.kind.Modify? && Names(b, u) && u.qty > 0
    ensures BookOK(Apply(b, u)) && Mirrored(Apply(b, u))
  {
    var k := IndexOfId(b.On(u.side), u.orderId);
    OnlyOnItsSide(b, u.side, k);
    SetQtyKeepsSide(u.side, b.On(u.side), k, u.qty);
  }

  lemma CancelKeepsBook(b: Book, u: Update)
    requires BookOK(b) && Mirrored(b) && u.kind.CancelOrder? && Names(b, u)
    ensures BookOK(Apply(b, u)) && Mirrored(Apply(b, u))
  {
    var k := IndexOfId(b.On(u.side), u.orderId);
    OnlyOnItsSide(b, u.side, k);
    assert Apply(b, u) == b.With(u.side, RemoveAt(b.On(u.side), k));
    RemoveKeepsBook(b, u.side, k);
  }

  lemma RemoveKeepsBook(b: Book, side: Side, k: nat)
    requires BookOK(b) && !side.NoSide? && k < |b.On(side)|
    ensures BookOK(b.With(side, RemoveAt(b.On(side), k)))
  {
    RemoveKeepsSide(side, b.On(side), k);
    var s := RemoveAt(b.On(side), k);
    if s != [] {
      assert s[0] == b.On(side)[if k == 0 then 1 else 0];
      assert k > 0 || Before(side, b.On(side)[0], b.On(side)[1]);
    }
  }

  lemma OnlyOnItsSide(b: Book, side: Side, k: nat)
    requires Unambiguous(b) && !side.NoSide? && k < |b.On(side)|
    ensures IndexOfId(b.On(side), b.On(side)[k].moid) == k
    ensures IndexOfId(b.On(Opposite(side)), b.On(side)[k].moid) == -1
  {
    var s, id := b.On(side), b.On(side)[k].moid;
    IdsDistinct(s);
    var t := b.On(Opposite(side));
    forall j | 0 <= j < |t|
      ensures t[j].moid != id
    {
      assert !Clash(b.bids[if side.Buy? then k else j], b.asks[if side.Buy? then j else k]);
    }
  }

  // ---------------------------------------------------------------------- the exchange's book, seen publicly

  function PublicSide(s: seq<Order>): (r: seq<Order>)
    ensures |r| == |s|
    ensures forall i :: 0 <= i < |s| ==> r[i] == Public(s[i])
  {
    seq(|s|, i requires 0 <= i < |s| => Public(s[i]))
  }

  function PublicBook(b: Book): Book {
    Book(PublicSide(b.bids), PublicSide(b.asks))
  }

  ghost predicate ExchangeOK(x: Exchange) {
    && BookOK(x.book) && x.nextId > 0
    && IdAbove(x.book.bids, x.nextId) && IdAbove(x.book.asks, x.nextId)
  }

  /** What the exchange asks of its clients: a side, and no reuse of a live (client, order id). */
  ghost predicate Admissible(x: Exchange, req: Request) {
    req.New? ==> !req.side.NoSide? && Find(x.book, req.client, req.coid).0.NoSide?
  }

  lemma {:induction false} PublicInsertPos(side: Side, s: seq<Order>, p: int)
    ensures InsertPos(side, PublicSide(s), p) == InsertPos(side, s, p)
    decreases |s|
  {
    if s != [] {
      assert PublicSide(s)[1..] == PublicSide(s[1..]);
      PublicInsertPos(side, s[1..], p);
    }
  }

  lemma {:induction false} PublicIndexOfId(s: seq<Order>, id: nat)
    ensures IndexOfId(PublicSide(s), id) == IndexOfId(s, id)
    decreases |s|
  {
    if s != [] {
      assert PublicSide(s)[1..] == PublicSide(s[1..]);
      PublicIndexOfId(s[1..], id);
    }
  }

  /** Publishing a deletion of the k-th order of a side deletes exactly that order from the mirror. */
  lemma CancelPublished(b: Book, side: Side, k: nat, u: Update)
    requires BookOK(b) && !side.NoSide? && k < |b.On(side)|
    requires u.kind.CancelOrder? && u.orderId == b.On(side)[k].moid && u.side == side && u.price == b.On(side)[k].price
    ensures Legal(PublicBook(b), u)
    ensures Apply(PublicBook(b), u) == PublicBook(b.With(side, RemoveAt(b.On(side), k)))
  {
    OnlyOnItsSide(b, side, k);
    PublicIndexOfId(b.bids, u.orderId);
    PublicIndexOfId(b.asks, u.orderId);
    assert PublicSide(RemoveAt(b.On(side), k)) == RemoveAt(PublicSide(b.On(side)), k);
  }

  lemma ModifyPublished(b: Book, side: Side, k: nat, qty: nat, u: Update)
    requires BookOK(b) && !side.NoSide? && k < |b.On(side)| && qty > 0
    requires u.kind.Modify? && u.orderId == b.On(side)[k].moid && u.side == side && u.price == b.On(side)[k].price
    requires u.qty == qty
    ensures Legal(PublicBook(b), u)
    ensures Apply(PublicBook(b), u) == PublicBook(b.With(side, b.On(side)[k := b.On(side)[k].(qty := qty)]))
  {
    OnlyOnItsSide(b, side, k);
    PublicIndexOfId(b.bids, u.orderId);
    PublicIndexOfId(b.asks, u.orderId);
    var s := b.On(side);
    assert PublicSide(s[k := s[k].(qty := qty)]) == PublicSide(s)[k := PublicSide(s)[k].(qty := qty)];
  }

  lemma AddPublished(b: Book, o: Order, u: Update)
    requires BookOK(b) && !o.side.NoSide? && o.qty > 0 && o.moid > 0
    requires IdAbove(b.bids, o.moid) && IdAbove(b.asks, o.moid)
    requires forall i :: 0 <= i < |b.On(o.side)| && b.On(o.side)[i].price == o.price ==> b.On(o.side)[i].priority < o.priority
    requires b.On(Opposite(o.side)) != [] ==> !Crosses(o.side, o.price, b.On(Opposite(o.side))[0].price)
    requires u.kind.Add? && OrderOf(u) == Public(o)
    ensures Legal(PublicBook(b), u)
    ensures Apply(PublicBook(b), u) == PublicBook(b.With(o.side, Insert(o.side, b.On(o.side), o)))
  {
    PublicInsertPos(o.side, b.On(o.side), o.price);
    assert PublicSide(Insert(o.side, b.On(o.side), o)) == Insert(o.side, PublicSide(b.On(o.side)), Public(o));
  }
}
