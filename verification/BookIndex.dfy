/** The two flat indices of a book as values: one finds a level by its price slot, the other an order
    by (client, order id). Both must hold exactly what is live. */
module BookIndex {
  import opened Types
  import opened PriceTime
  import opened Matching
  import opened Rings
  import opened Flatten

  /** The source reduces a signed price modulo an unsigned power of two, which is the Euclidean
      remainder. */
  function PriceToIndex(price: int): int {
    price % ME_MAX_PRICE_LEVELS
  }

  function KeyOf(o: Order): (nat, nat) {
    (o.client, o.coid)
  }

  function Slot(v: seq<Order>): int
    requires v != []
  {
    PriceToIndex(v[0].price)
  }

  ghost predicate NonEmpty(vs: seq<seq<Order>>) {
    forall i :: 0 <= i < |vs| ==> vs[i] != []
  }

  // ---------------------------------------------------------------------- the index by price

  /** The index finds every level of a side. */
  ghost predicate LevelsIndexed(la: map<int, LevelNode>, lv: seq<LevelNode>, vs: seq<seq<Order>>) {
    && |lv| == |vs| && NonEmpty(vs)
    && forall i :: 0 <= i < |vs| ==> Slot(vs[i]) in la && la[Slot(vs[i])] == lv[i]
  }

  ghost predicate HasSlot(vs: seq<seq<Order>>, k: int) {
    exists i :: 0 <= i < |vs| && vs[i] != [] && Slot(vs[i]) == k
  }

  /** The index holds nothing but the levels of the two sides. */
  ghost predicate LevelsOnly(la: map<int, LevelNode>, vs: seq<seq<Order>>, ws: seq<seq<Order>>) {
    forall k {:trigger HasSlot(vs, k)} :: k in la ==> HasSlot(vs, k) || HasSlot(ws, k)
  }

  lemma NewLevelIndexed(la: map<int, LevelNode>, lv: seq<LevelNode>, vs: seq<seq<Order>>, ws: seq<seq<Order>>,
                        tv: seq<LevelNode>, k: nat, level: LevelNode, o: Order)
    requires LevelsIndexed(la, lv, vs) && LevelsIndexed(la, tv, ws) && LevelsOnly(la, vs, ws)
    requires k <= |vs| && PriceToIndex(o.price) !in la
    ensures var la' := la[PriceToIndex(o.price) := level];
            var lv', vs' := lv[..k] + [level] + lv[k..], vs[..k] + [[o]] + vs[k..];
            LevelsIndexed(la', lv', vs') && LevelsIndexed(la', tv, ws) && LevelsOnly(la', vs', ws)
  {
    var la' := la[PriceToIndex(o.price) := level];
    var lv' := lv[..k] + [level] + lv[k..];
    var vs': seq<seq<Order>> := vs[..k] + [[o]] + vs[k..];
    forall i | 0 <= i < |vs'|
      ensures vs'[i] != [] && Slot(vs'[i]) in la' && la'[Slot(vs'[i])] == lv'[i]
    {
      if i != k {
        var i' := if i < k then i else i - 1;
        assert vs'[i] == vs[i'] && lv'[i] == lv[i'];
      }
    }
    forall j | j in la'
      ensures HasSlot(vs', j) || HasSlot(ws, j)
    {
      if j == PriceToIndex(o.price) {
        assert vs'[k] == [o];
      } else if HasSlot(vs, j) {
        var i :| 0 <= i < |vs| && vs[i] != [] && Slot(vs[i]) == j;
        assert vs'[if i < k then i else i + 1] == vs[i];
      }
    }
  }

  lemma LevelGoneIndexed(la: map<int, LevelNode>, lv: seq<LevelNode>, vs: seq<seq<Order>>, ws: seq<seq<Order>>,
                         tv: seq<LevelNode>, k: nat)
    requires LevelsIndexed(la, lv, vs) && LevelsIndexed(la, tv, ws) && LevelsOnly(la, vs, ws)
    requires k < |vs| && Distinct(lv) && (forall l :: l in tv ==> l != lv[k])
    ensures var la' := la - {Slot(vs[k])};
            var lv', vs' := lv[..k] + lv[k + 1..], vs[..k] + vs[k + 1..];
            LevelsIndexed(la', lv', vs') && LevelsIndexed(la', tv, ws) && LevelsOnly(la', vs', ws)
  {
    var la' := la - {Slot(vs[k])};
    var lv', vs' := lv[..k] + lv[k + 1..], vs[..k] + vs[k + 1..];
    forall i | 0 <= i < |vs'|
      ensures vs'[i] != [] && Slot(vs'[i]) in la' && la'[Slot(vs'[i])] == lv'[i]
    {
      var i' := if i < k then i else i + 1;
      assert vs'[i] == vs[i'] && lv'[i] == lv[i'];
      assert lv[i'] != lv[k];
    }
    forall i | 0 <= i < |ws|
      ensures Slot(ws[i]) in la' && la'[Slot(ws[i])] == tv[i]
    {
      assert tv[i] in tv;
    }
    forall j | j in la'
      ensures HasSlot(vs', j) || HasSlot(ws, j)
    {
      if HasSlot(vs, j) {
        var i :| 0 <= i < |vs| && vs[i] != [] && Slot(vs[i]) == j;
        assert vs'[if i < k then i else i - 1] == vs[i];
      }
    }
  }

  /** Changing the orders of a level, not its price, leaves the index right. */
  lemma SameLevelsIndexed(la: map<int, LevelNode>, lv: seq<LevelNode>, vs: seq<seq<Order>>, ws: seq<seq<Order>>,
                          k: nat, v: seq<Order>)
    requires LevelsIndexed(la, lv, vs) && LevelsOnly(la, vs, ws)
    requires k < |vs| && v != [] && v[0].price == vs[k][0].price
    ensures LevelsIndexed(la, lv, vs[k := v]) && LevelsOnly(la, vs[k := v], ws)
  {
    forall j | j in la
      ensures HasSlot(vs[k := v], j) || HasSlot(ws, j)
    {
      if HasSlot(vs, j) {
        var i :| 0 <= i < |vs| && vs[i] != [] && Slot(vs[i]) == j;
        assert Slot(vs[k := v][i]) == j;
      }
    }
  }

  // ---------------------------------------------------------------------- the index by order

  ghost predicate OrdersIndexed(oa: map<(nat, nat), OrderNode>, q: seq<seq<OrderNode>>, vs: seq<seq<Order>>) {
    && |q| == |vs| && (forall i :: 0 <= i < |vs| ==> |q[i]| == |vs[i]|)
    && forall i, j :: 0 <= i < |vs| && 0 <= j < |vs[i]| ==> KeyOf(vs[i][j]) in oa && oa[KeyOf(vs[i][j])] == q[i][j]
  }

  /** A new key does not disturb a side that does not use it. */
  lemma FreshKeyIndexed(oa: map<(nat, nat), OrderNode>, q: seq<seq<OrderNode>>, vs: seq<seq<Order>>, key: (nat, nat), n: OrderNode)
    requires OrdersIndexed(oa, q, vs) && key !in oa
    ensures OrdersIndexed(oa[key := n], q, vs)
  {
  }

  lemma NewLevelKeyed(oa: map<(nat, nat), OrderNode>, q: seq<seq<OrderNode>>, vs: seq<seq<Order>>, k: nat, n: OrderNode, o: Order)
    requires OrdersIndexed(oa, q, vs) && k <= |vs| && KeyOf(o) !in oa
    ensures OrdersIndexed(oa[KeyOf(o) := n], q[..k] + [[n]] + q[k..], vs[..k] + [[o]] + vs[k..])
  {
    var oa' := oa[KeyOf(o) := n];
    var q': seq<seq<OrderNode>> := q[..k] + [[n]] + q[k..];
    var vs': seq<seq<Order>> := vs[..k] + [[o]] + vs[k..];
    forall i | 0 <= i < |vs'|
      ensures |q'[i]| == |vs'[i]|
      ensures forall j :: 0 <= j < |vs'[i]| ==> KeyOf(vs'[i][j]) in oa' && oa'[KeyOf(vs'[i][j])] == q'[i][j]
    {
      if i != k {
        var i' := if i < k then i else i - 1;
        assert q'[i] == q[i'] && vs'[i] == vs[i'];
      }
    }
  }

  lemma AppendKeyed(oa: map<(nat, nat), OrderNode>, q: seq<seq<OrderNode>>, vs: seq<seq<Order>>, k: nat, n: OrderNode, o: Order)
    requires OrdersIndexed(oa, q, vs) && k < |vs| && KeyOf(o) !in oa
    ensures OrdersIndexed(oa[KeyOf(o) := n], q[k := q[k] + [n]], vs[k := vs[k] + [o]])
  {
  }

  /** The nodes once the j-th of level i is gone; an emptied level goes with it. */
  function NodesWithout(q: seq<seq<OrderNode>>, i: nat, j: nat): seq<seq<OrderNode>>
    requires i < |q| && j < |q[i]|
  {
    if |q[i]| == 1 then q[..i] + q[i + 1..] else q[i := q[i][..j] + q[i][j + 1..]]
  }

  ghost predicate OnlyAt(q: seq<seq<OrderNode>>, n: OrderNode, i: nat, j: nat) {
    forall a, b :: 0 <= a < |q| && 0 <= b < |q[a]| && q[a][b] == n ==> a == i && b == j
  }

  ghost predicate Nowhere(q: seq<seq<OrderNode>>, n: OrderNode) {
    forall a, b :: 0 <= a < |q| && 0 <= b < |q[a]| ==> q[a][b] != n
  }

  lemma GoneElsewhere(oa: map<(nat, nat), OrderNode>, q: seq<seq<OrderNode>>, vs: seq<seq<Order>>, key: (nat, nat))
    requires OrdersIndexed(oa, q, vs) && key in oa && Nowhere(q, oa[key])
    ensures OrdersIndexed(oa - {key}, q, vs)
  {
  }

  lemma GoneKeyed(oa: map<(nat, nat), OrderNode>, q: seq<seq<OrderNode>>, vs: seq<seq<Order>>, i: nat, j: nat)
    requires OrdersIndexed(oa, q, vs) && i < |vs| && j < |vs[i]| && OnlyAt(q, q[i][j], i, j)
    ensures OrdersIndexed(oa - {KeyOf(vs[i][j])}, NodesWithout(q, i, j), Without(vs, i, j))
  {
    var oa', q', vs' := oa - {KeyOf(vs[i][j])}, NodesWithout(q, i, j), Without(vs, i, j);
    forall a | 0 <= a < |vs'|
      ensures |q'[a]| == |vs'[a]|
      ensures forall b :: 0 <= b < |vs'[a]| ==> KeyOf(vs'[a][b]) in oa' && oa'[KeyOf(vs'[a][b])] == q'[a][b]
    {
      if |vs[i]| == 1 {
        var a' := if a < i then a else a + 1;
        assert q'[a] == q[a'] && vs'[a] == vs[a'];
      } else if a == i {
        assert forall b :: 0 <= b < |vs'[a]| ==>
          q'[a][b] == q[a][if b < j then b else b + 1] && vs'[a][b] == vs[a][if b < j then b else b + 1];
      }
    }
  }

  lemma ChangeKeyed(oa: map<(nat, nat), OrderNode>, q: seq<seq<OrderNode>>, vs: seq<seq<Order>>, i: nat, j: nat, o: Order)
    requires OrdersIndexed(oa, q, vs) && i < |vs| && j < |vs[i]| && KeyOf(o) == KeyOf(vs[i][j])
    ensures OrdersIndexed(oa, q, vs[i := vs[i][j := o]])
  {
  }

  ghost predicate SideHasKey(s: seq<Order>, key: (nat, nat)) {
    exists k :: 0 <= k < |s| && KeyOf(s[k]) == key
  }

  ghost predicate HasKey(b: Book, key: (nat, nat)) {
    SideHasKey(b.bids, key) || SideHasKey(b.asks, key)
  }

  /** The index holds no order but those of the book. */
  ghost predicate OrdersOnly(oa: map<(nat, nat), OrderNode>, b: Book) {
    forall key {:trigger HasKey(b, key)} :: key in oa ==> HasKey(b, key)
  }

  lemma FindIffKey(b: Book, key: (nat, nat))
    ensures HasKey(b, key) <==> !Find(b, key.0, key.1).0.NoSide?
  {
    var (side, k) := Find(b, key.0, key.1);
    if !side.NoSide? {
      assert KeyOf(b.On(side)[k]) == key;
    }
  }

  /** The orders' index keeps to what a changed side still holds. */
  lemma OnlyAfter(oa: map<(nat, nat), OrderNode>, oa': map<(nat, nat), OrderNode>, b: Book, side: Side, r: seq<Order>)
    requires OrdersOnly(oa, b) && !side.NoSide?
    requires forall key :: key in oa' ==> SideHasKey(r, key) || (key in oa && !(SideHasKey(b.On(side), key) && !SideHasKey(r, key)))
    ensures OrdersOnly(oa', b.With(side, r))
  {
    forall key | key in oa'
      ensures HasKey(b.With(side, r), key)
    {
      assert key in oa ==> HasKey(b, key);
    }
  }

  lemma AddedOrderOnly(oa: map<(nat, nat), OrderNode>, b: Book, o: Order, n: OrderNode)
    requires OrdersOnly(oa, b) && !o.side.NoSide?
    ensures OrdersOnly(oa[KeyOf(o) := n], b.With(o.side, Insert(o.side, b.On(o.side), o)))
  {
    forall key | key in oa[KeyOf(o) := n]
      ensures key == KeyOf(o) || SideHasKey(b.On(o.side), key) ==> SideHasKey(Insert(o.side, b.On(o.side), o), key)
    {
      InsertHasKey(o.side, b.On(o.side), o, key);
    }
    OnlyAfter(oa, oa[KeyOf(o) := n], b, o.side, Insert(o.side, b.On(o.side), o));
  }

  lemma InsertHasKey(side: Side, s: seq<Order>, o: Order, key: (nat, nat))
    ensures key == KeyOf(o) || SideHasKey(s, key) ==> SideHasKey(Insert(side, s, o), key)
  {
    var p, r := InsertPos(side, s, o.price), Insert(side, s, o);
    if key == KeyOf(o) {
      assert r[p] == o;
    } else if SideHasKey(s, key) {
      var k :| 0 <= k < |s| && KeyOf(s[k]) == key;
      assert r[if k < p then k else k + 1] == s[k];
    }
  }

  lemma RemovedOrderOnly(oa: map<(nat, nat), OrderNode>, b: Book, side: Side, k: nat)
    requires OrdersOnly(oa, b) && !side.NoSide? && k < |b.On(side)|
    ensures OrdersOnly(oa - {KeyOf(b.On(side)[k])}, b.With(side, RemoveAt(b.On(side), k)))
  {
    var s, r := b.On(side), RemoveAt(b.On(side), k);
    forall key | key in oa && key != KeyOf(s[k]) && SideHasKey(s, key)
      ensures SideHasKey(r, key)
    {
      var m :| 0 <= m < |s| && KeyOf(s[m]) == key;
      assert r[if m < k then m else m - 1] == s[m];
    }
    OnlyAfter(oa, oa - {KeyOf(s[k])}, b, side, r);
  }

  lemma ChangedOrderOnly(oa: map<(nat, nat), OrderNode>, b: Book, side: Side, k: nat, o: Order)
    requires OrdersOnly(oa, b) && !side.NoSide? && k < |b.On(side)| && KeyOf(o) == KeyOf(b.On(side)[k])
    ensures OrdersOnly(oa, b.With(side, b.On(side)[k := o]))
  {
    var s, r := b.On(side), b.On(side)[k := o];
    forall key | key in oa && SideHasKey(s, key)
      ensures SideHasKey(r, key)
    {
      var m :| 0 <= m < |s| && KeyOf(s[m]) == key;
      assert KeyOf(r[m]) == key;
    }
    OnlyAfter(oa, oa, b, side, r);
  }

  /** Removing the j-th order of level i, seen by the flattened side and by the order index. */
  lemma RemovalSeen(oa: map<(nat, nat), OrderNode>, b: Book, side: Side, vs: seq<seq<Order>>, i: nat, j: nat)
    requires OrdersOnly(oa, b) && !side.NoSide? && Layered(side, vs) && b.On(side) == Flat(vs)
    requires i < |vs| && j < |vs[i]|
    ensures var k := |Flat(vs[..i])| + j;
            && k < |b.On(side)| && b.On(side)[k] == vs[i][j]
            && Flat(Without(vs, i, j)) == RemoveAt(b.On(side), k)
            && OrdersOnly(oa - {KeyOf(vs[i][j])}, b.With(side, RemoveAt(b.On(side), k)))
  {
    FlatAt(vs, i, j);
    RemovalRemoves(side, vs, i, j);
    RemovedOrderOnly(oa, b, side, |Flat(vs[..i])| + j);
  }

  lemma ChangeSeen(oa: map<(nat, nat), OrderNode>, b: Book, side: Side, vs: seq<seq<Order>>, i: nat, j: nat, qty: nat)
    requires OrdersOnly(oa, b) && !side.NoSide? && Layered(side, vs) && b.On(side) == Flat(vs)
    requires i < |vs| && j < |vs[i]|
    ensures var k := |Flat(vs[..i])| + j;
            && k < |b.On(side)| && b.On(side)[k] == vs[i][j]
            && Flat(Requantify(vs, i, j, qty)) == Amend(b.On(side), k, qty)
            && OrdersOnly(oa, b.With(side, Amend(b.On(side), k, qty)))
  {
    ChangeChanges(side, vs, i, j, vs[i][j].(qty := qty));
    ChangedOrderOnly(oa, b, side, |Flat(vs[..i])| + j, vs[i][j].(qty := qty));
  }

  // ---------------------------------------------------------------------- both indices, both sides

  /** Both indices find everything on two sides, and the index by price nothing more. */
  ghost predicate AllIndexed(la: map<int, LevelNode>, oa: map<(nat, nat), OrderNode>,
                             lv: seq<LevelNode>, q: seq<seq<OrderNode>>, vs: seq<seq<Order>>,
                             tl: seq<LevelNode>, tq: seq<seq<OrderNode>>, ws: seq<seq<Order>>) {
    && LevelsIndexed(la, lv, vs) && LevelsIndexed(la, tl, ws) && LevelsOnly(la, vs, ws)
    && OrdersIndexed(oa, q, vs) && OrdersIndexed(oa, tq, ws)
  }

  lemma AloneGone(la: map<int, LevelNode>, oa: map<(nat, nat), OrderNode>,
                  lv: seq<LevelNode>, q: seq<seq<OrderNode>>, vs: seq<seq<Order>>,
                  tl: seq<LevelNode>, tq: seq<seq<OrderNode>>, ws: seq<seq<Order>>, i: nat)
    requires AllIndexed(la, oa, lv, q, vs, tl, tq, ws)
    requires i < |vs| && |vs[i]| == 1 && OnlyAt(q, q[i][0], i, 0) && Nowhere(tq, q[i][0])
    requires Distinct(lv) && forall l :: l in tl ==> l != lv[i]
    ensures AllIndexed(la - {Slot(vs[i])}, oa - {KeyOf(vs[i][0])},
                       lv[..i] + lv[i + 1..], q[..i] + q[i + 1..], vs[..i] + vs[i + 1..], tl, tq, ws)
  {
    GoneKeyed(oa, q, vs, i, 0);
    GoneElsewhere(oa, tq, ws, KeyOf(vs[i][0]));
    LevelGoneIndexed(la, lv, vs, ws, tl, i);
  }

  lemma OneGone(la: map<int, LevelNode>, oa: map<(nat, nat), OrderNode>,
                lv: seq<LevelNode>, q: seq<seq<OrderNode>>, vs: seq<seq<Order>>,
                tl: seq<LevelNode>, tq: seq<seq<OrderNode>>, ws: seq<seq<Order>>, i: nat, j: nat)
    requires AllIndexed(la, oa, lv, q, vs, tl, tq, ws)
    requires i < |vs| && j < |vs[i]| && |vs[i]| > 1 && UniformLevel(vs[i])
    requires OnlyAt(q, q[i][j], i, j) && Nowhere(tq, q[i][j])
    ensures AllIndexed(la, oa - {KeyOf(vs[i][j])}, lv, NodesWithout(q, i, j), Without(vs, i, j), tl, tq, ws)
  {
    GoneKeyed(oa, q, vs, i, j);
    GoneElsewhere(oa, tq, ws, KeyOf(vs[i][j]));
    SameLevelsIndexed(la, lv, vs, ws, i, RemoveAt(vs[i], j));
  }
}
