/** One side of a book as a single sequence in price-time priority, and the insertions and
    deletions that a price-time book is meant to perform on it. */
module PriceTime {
  import opened Types

  /** `p` is a strictly better price than `q` for an order resting on `side`. */
  predicate Better(side: Side, p: int, q: int) {
    if side.Buy? then p > q else p < q
  }

  /** Price first, then arrival; ids and priorities both record arrival. */
  predicate Before(side: Side, a: Order, b: Order) {
    Better(side, a.price, b.price) || (a.price == b.price && a.moid < b.moid && a.priority < b.priority)
  }

  ghost predicate Sorted(side: Side, s: seq<Order>) {
    forall i, j :: 0 <= i < j < |s| ==> Before(side, s[i], s[j])
  }

  /** Two orders that an id or a (client, order id) lookup could confuse. */
  predicate Clash(a: Order, b: Order) {
    a.moid == b.moid || (a.client == b.client && a.coid == b.coid)
  }

  ghost predicate NoClash(s: seq<Order>) {
    forall i, j :: 0 <= i < j < |s| ==> !Clash(s[i], s[j])
  }

  ghost predicate NoClashBetween(s: seq<Order>, t: seq<Order>) {
    forall i, j :: 0 <= i < |s| && 0 <= j < |t| ==> !Clash(s[i], t[j])
  }

  ghost predicate AllOn(side: Side, s: seq<Order>) {
    forall i :: 0 <= i < |s| ==> s[i].side == side && s[i].qty > 0
  }

  /** Everything that holds of one side of a book. */
  ghost predicate SideOK(side: Side, s: seq<Order>) {
    Sorted(side, s) && NoClash(s) && AllOn(side, s)
  }

  lemma IdsDistinct(s: seq<Order>)
    requires NoClash(s)
    ensures forall i, j :: 0 <= i < |s| && 0 <= j < |s| && s[i].moid == s[j].moid ==> i == j
  {
    forall i, j | 0 <= i < j < |s|
      ensures s[i].moid != s[j].moid
    {
      assert !Clash(s[i], s[j]);
    }
  }

  // ---------------------------------------------------------------------- insertion

  /** Where an order at price `p` joins: behind every order at an equal or better price. */
  function InsertPos(side: Side, s: seq<Order>, p: int): (k: nat)
    ensures k <= |s|
    ensures forall i :: 0 <= i < k ==> !Better(side, p, s[i].price)
    ensures k < |s| ==> Better(side, p, s[k].price)
  {
    if s == [] || Better(side, p, s[0].price) then 0 else 1 + InsertPos(side, s[1..], p)
  }

  function Insert(side: Side, s: seq<Order>, o: Order): (r: seq<Order>)
    ensures |r| == |s| + 1
  {
    var k := InsertPos(side, s, o.price);
    s[..k] + [o] + s[k..]
  }

  /** The last order queued at exactly price `p`, if there is one, is just before the joining point. */
  predicate HasPrice(side: Side, s: seq<Order>, p: int) {
    var k := InsertPos(side, s, p);
    k > 0 && s[k - 1].price == p
  }

  function NextPriority(side: Side, s: seq<Order>, p: int): nat {
    var k := InsertPos(side, s, p);
    if HasPrice(side, s, p) then s[k - 1].priority + 1 else 1
  }

  /** Everything behind the joining point has a strictly worse price. */
  lemma BehindInsertPos(side: Side, s: seq<Order>, p: int)
    requires Sorted(side, s)
    ensures forall i :: InsertPos(side, s, p) <= i < |s| ==> Better(side, p, s[i].price)
  {
    var k := InsertPos(side, s, p);
    forall i | k <= i < |s|
      ensures Better(side, p, s[i].price)
    {
      assert i == k || Before(side, s[k], s[i]);
    }
  }

  lemma HasPriceIff(side: Side, s: seq<Order>, p: int)
    requires Sorted(side, s)
    ensures HasPrice(side, s, p) <==> exists i :: 0 <= i < |s| && s[i].price == p
  {
    BehindInsertPos(side, s, p);
    var k := InsertPos(side, s, p);
    if i :| 0 <= i < |s| && s[i].price == p {
      assert i == k - 1 || Before(side, s[i], s[k - 1]);
    }
  }

  /** What is where after an insertion. */
  lemma InsertAt(side: Side, s: seq<Order>, o: Order, i: nat)
    requires i <= |s|
    ensures var k := InsertPos(side, s, o.price);
            Insert(side, s, o)[i] == if i < k then s[i] else if i == k then o else s[i - 1]
  {
  }

  /** The newcomer is behind everything before the joining point and before everything behind it. */
  lemma NewcomerInOrder(side: Side, s: seq<Order>, o: Order, i: nat)
    requires Sorted(side, s) && i < |s| && s[i].moid < o.moid && (s[i].price == o.price ==> s[i].priority < o.priority)
    ensures if i < InsertPos(side, s, o.price) then Before(side, s[i], o) else Before(side, o, s[i])
  {
    BehindInsertPos(side, s, o.price);
  }

  lemma InsertPair(side: Side, s: seq<Order>, o: Order, r: seq<Order>, i: nat, j: nat)
    requires SideOK(side, s) && r == Insert(side, s, o) && i < j < |r|
    requires forall m :: 0 <= m < |s| ==> s[m].moid < o.moid && !Clash(s[m], o)
    requires forall m :: 0 <= m < |s| && s[m].price == o.price ==> s[m].priority < o.priority
    ensures Before(side, r[i], r[j]) && !Clash(r[i], r[j])
  {
    var k := InsertPos(side, s, o.price);
    InsertAt(side, s, o, i);
    InsertAt(side, s, o, j);
    if j == k {
      NewcomerInOrder(side, s, o, i);
    } else if i == k {
      NewcomerInOrder(side, s, o, j - 1);
    } else {
      var i', j' := if i < k then i else i - 1, if j < k then j else j - 1;
      assert r[i] == s[i'] && r[j] == s[j'] && i' < j';
      assert Before(side, s[i'], s[j']);
    }
  }

  /** A newcomer with a fresh, larger id and the next priority of its level keeps the side in order. */
  lemma InsertKeepsSide(side: Side, s: seq<Order>, o: Order)
    requires SideOK(side, s)
    requires o.side == side && o.qty > 0
    requires forall i :: 0 <= i < |s| ==> s[i].moid < o.moid && !Clash(s[i], o)
    requires forall i :: 0 <= i < |s| && s[i].price == o.price ==> s[i].priority < o.priority
    ensures SideOK(side, Insert(side, s, o))
  {
    var r := Insert(side, s, o);
    forall i, j | 0 <= i < j < |r|
      ensures Before(side, r[i], r[j]) && !Clash(r[i], r[j])
    {
      InsertPair(side, s, o, r, i, j);
    }
    forall i | 0 <= i < |r|
      ensures r[i].side == side && r[i].qty > 0
    {
      InsertAt(side, s, o, i);
    }
  }

  lemma NextPriorityIsLargest(side: Side, s: seq<Order>, p: int)
    requires Sorted(side, s)
    ensures forall i :: 0 <= i < |s| && s[i].price == p ==> s[i].priority < NextPriority(side, s, p)
  {
    HasPriceIff(side, s, p);
    BehindInsertPos(side, s, p);
    var k := InsertPos(side, s, p);
    forall i | 0 <= i < |s| && s[i].price == p
      ensures s[i].priority < NextPriority(side, s, p)
    {
      assert i == k - 1 || Before(side, s[i], s[k - 1]);
    }
  }

  /** The priority of a newcomer: one if nothing rests at its price, or one more than that of the last order there,
      found without looking for a joining point. */
  lemma NextPriorityIs(side: Side, s: seq<Order>, p: int, k: nat)
    requires Sorted(side, s) && k <= |s|
    requires k < |s| ==> s[k].price == p && forall i :: k < i < |s| ==> s[i].price != p
    requires k == |s| ==> forall i :: 0 <= i < |s| ==> s[i].price != p
    ensures NextPriority(side, s, p) == if k == |s| then 1 else s[k].priority + 1
  {
    HasPriceIff(side, s, p);
    BehindInsertPos(side, s, p);
    var j := InsertPos(side, s, p);
    if k < |s| {
      assert k < j;
    }
  }

  // ---------------------------------------------------------------------- lookup and deletion

  function IndexOfId(s: seq<Order>, id: nat): (r: int)
    ensures -1 <= r < |s|
    ensures r >= 0 ==> s[r].moid == id
    ensures r < 0 ==> forall i :: 0 <= i < |s| ==> s[i].moid != id
  {
    if s == [] then -1
    else if s[0].moid == id then 0
    else var r := IndexOfId(s[1..], id); if r < 0 then -1 else r + 1
  }

  function IndexOfKey(s: seq<Order>, client: nat, coid: nat): (r: int)
    ensures -1 <= r < |s|
    ensures r >= 0 ==> s[r].client == client && s[r].coid == coid
    ensures r < 0 ==> forall i :: 0 <= i < |s| ==> !(s[i].client == client && s[i].coid == coid)
  {
    if s == [] then -1
    else if s[0].client == client && s[0].coid == coid then 0
    else var r := IndexOfKey(s[1..], client, coid); if r < 0 then -1 else r + 1
  }

  function RemoveAt(s: seq<Order>, k: nat): (r: seq<Order>)
    requires k < |s|
    ensures |r| == |s| - 1
    ensures forall i :: 0 <= i < |r| ==> r[i] == s[if i < k then i else i + 1]
  {
    s[..k] + s[k + 1..]
  }

  function RemoveId(s: seq<Order>, id: nat): seq<Order> {
    var k := IndexOfId(s, id);
    if k < 0 then s else RemoveAt(s, k)
  }

  /** Another quantity on the k-th order, which keeps its place. */
  function Amend(s: seq<Order>, k: nat, qty: nat): seq<Order>
    requires k < |s|
  {
    s[k := s[k].(qty := qty)]
  }

  function SetQty(s: seq<Order>, id: nat, qty: nat): seq<Order> {
    var k := IndexOfId(s, id);
    if k < 0 then s else s[k := s[k].(qty := qty)]
  }

  lemma RemoveKeepsSide(side: Side, s: seq<Order>, k: nat)
    requires SideOK(side, s) && k < |s|
    ensures SideOK(side, RemoveAt(s, k))
  {
    var r := RemoveAt(s, k);
    forall i, j | 0 <= i < j < |r|
      ensures Before(side, r[i], r[j]) && !Clash(r[i], r[j])
    {
      var i', j' := if i < k then i else i + 1, if j < k then j else j + 1;
      assert r[i] == s[i'] && r[j] == s[j'];
      assert Before(side, s[i'], s[j']);
    }
  }

  lemma SetQtyKeepsSide(side: Side, s: seq<Order>, k: nat, qty: nat)
    requires SideOK(side, s) && k < |s| && qty > 0
    ensures SideOK(side, s[k := s[k].(qty := qty)])
  {
    var r := s[k := s[k].(qty := qty)];
    forall i, j | 0 <= i < j < |r|
      ensures Before(side, r[i], r[j]) && !Clash(r[i], r[j])
    {
      assert Before(side, s[i], s[j]);
    }
  }
}
