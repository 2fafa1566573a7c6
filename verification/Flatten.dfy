/** A side as a sequence of price levels, read as one sequence. */
module Flatten {
  import opened Types
  import opened PriceTime

  function Flat(vs: seq<seq<Order>>): seq<Order> {
    if vs == [] then [] else vs[0] + Flat(vs[1..])
  }

  lemma {:induction false} FlatConcat(us: seq<seq<Order>>, vs: seq<seq<Order>>)
    ensures Flat(us + vs) == Flat(us) + Flat(vs)
    decreases |us|
  {
    if us == [] {
      assert us + vs == vs;
    } else {
      assert (us + vs)[1..] == us[1..] + vs;
      FlatConcat(us[1..], vs);
    }
  }

  lemma FlatEmpty(vs: seq<seq<Order>>)
    requires Flat(vs) == [] && forall i :: 0 <= i < |vs| ==> vs[i] != []
    ensures vs == []
  {
  }

  /** Level i sits between the levels before it and the levels after it. */
  lemma FlatSplit(vs: seq<seq<Order>>, i: nat)
    requires i < |vs|
    ensures Flat(vs) == Flat(vs[..i]) + vs[i] + Flat(vs[i + 1..])
  {
    assert vs == vs[..i] + vs[i..];
    FlatConcat(vs[..i], vs[i..]);
    assert vs[i..][1..] == vs[i + 1..];
  }

  lemma FlatUpdate(vs: seq<seq<Order>>, i: nat, v: seq<Order>)
    requires i < |vs|
    ensures Flat(vs[i := v]) == Flat(vs[..i]) + v + Flat(vs[i + 1..])
  {
    FlatSplit(vs[i := v], i);
    assert vs[i := v][..i] == vs[..i] && vs[i := v][i + 1..] == vs[i + 1..];
  }

  lemma FlatInsert(vs: seq<seq<Order>>, i: nat, v: seq<Order>)
    requires i <= |vs|
    ensures Flat(vs[..i] + [v] + vs[i..]) == Flat(vs[..i]) + v + Flat(vs[i..])
  {
    var us := vs[..i] + [v] + vs[i..];
    FlatSplit(us, i);
    assert us[..i] == vs[..i] && us[i + 1..] == vs[i..];
  }

  lemma FlatRemove(vs: seq<seq<Order>>, i: nat)
    requires i < |vs|
    ensures Flat(vs[..i] + vs[i + 1..]) == Flat(vs[..i]) + Flat(vs[i + 1..])
  {
    FlatConcat(vs[..i], vs[i + 1..]);
  }

  /** Every element of a flattened sequence comes from some level. */
  lemma {:induction false} FlatIndex(vs: seq<seq<Order>>, k: nat) returns (i: nat, j: nat)
    requires k < |Flat(vs)|
    ensures i < |vs| && j < |vs[i]| && vs[i][j] == Flat(vs)[k] && k == |Flat(vs[..i])| + j
    decreases |vs|
  {
    if k < |vs[0]| {
      i, j := 0, k;
      assert vs[..0] == [];
    } else {
      var i', j' := FlatIndex(vs[1..], k - |vs[0]|);
      i, j := i' + 1, j';
      assert vs[..i][1..] == vs[1..][..i'];
    }
  }

  lemma FlatAt(vs: seq<seq<Order>>, i: nat, j: nat)
    requires i < |vs| && j < |vs[i]|
    ensures |Flat(vs[..i])| + j < |Flat(vs)| && Flat(vs)[|Flat(vs[..i])| + j] == vs[i][j]
  {
    FlatSplit(vs, i);
  }

  // ---------------------------------------------------------------------- levels in price order

  /** Non-empty levels, each at one price, strictly best price first. */
  ghost predicate Layered(side: Side, vs: seq<seq<Order>>) {
    && (forall i :: 0 <= i < |vs| ==> UniformLevel(vs[i]))
    && (forall i, j :: 0 <= i < j < |vs| ==> Better(side, vs[i][0].price, vs[j][0].price))
  }

  ghost predicate UniformLevel(v: seq<Order>) {
    v != [] && forall j :: 0 <= j < |v| ==> v[j].price == v[0].price
  }

  /** Where an order at price `p` joins the flattened side: just behind level i-1. */
  lemma JoinPosition(side: Side, vs: seq<seq<Order>>, p: int, i: nat)
    requires Layered(side, vs) && i <= |vs|
    requires forall a :: 0 <= a < i ==> !Better(side, p, vs[a][0].price)
    requires i < |vs| ==> Better(side, p, vs[i][0].price)
    ensures InsertPos(side, Flat(vs), p) == |Flat(vs[..i])|
  {
    var s, k := Flat(vs), |Flat(vs[..i])|;
    SplitAt(vs, i);
    forall m | 0 <= m < k
      ensures !Better(side, p, s[m].price)
    {
      var a, b := FlatIndex(vs[..i], m);
      assert vs[..i][a] == vs[a];
    }
    if k < |s| {
      assert vs[i..][0] == vs[i];
      assert s[k] == vs[i][0];
    }
    FirstBetter(side, s, p, k);
  }

  lemma {:induction false} FirstBetter(side: Side, s: seq<Order>, p: int, k: nat)
    requires k <= |s|
    requires forall m :: 0 <= m < k ==> !Better(side, p, s[m].price)
    requires k < |s| ==> Better(side, p, s[k].price)
    ensures InsertPos(side, s, p) == k
    decreases k
  {
    if k > 0 {
      FirstBetter(side, s[1..], p, k - 1);
    }
  }

  lemma SplitAt(vs: seq<seq<Order>>, i: nat)
    requires i <= |vs|
    ensures Flat(vs) == Flat(vs[..i]) + Flat(vs[i..])
  {
    assert vs == vs[..i] + vs[i..];
    FlatConcat(vs[..i], vs[i..]);
  }

  lemma InsertBetween(pre: seq<Order>, post: seq<Order>, o: Order)
    ensures (pre + post)[..|pre|] + [o] + (pre + post)[|pre|..] == pre + [o] + post
  {
  }

  lemma RemoveBetween(pre: seq<Order>, v: seq<Order>, post: seq<Order>, j: nat)
    requires j < |v|
    ensures RemoveAt(pre + v + post, |pre| + j) == pre + RemoveAt(v, j) + post
  {
  }

  /** A new level between levels i-1 and i is an insertion into the flattened side. */
  lemma NewLevelInserts(side: Side, vs: seq<seq<Order>>, o: Order, i: nat)
    requires Layered(side, vs) && i <= |vs|
    requires forall a :: 0 <= a < i ==> Better(side, vs[a][0].price, o.price)
    requires i < |vs| ==> Better(side, o.price, vs[i][0].price)
    ensures Flat(vs[..i] + [[o]] + vs[i..]) == Insert(side, Flat(vs), o)
    ensures Layered(side, vs[..i] + [[o]] + vs[i..])
  {
    assert Flat(vs[..i] + [[o]] + vs[i..]) == Insert(side, Flat(vs), o) by {
      JoinPosition(side, vs, o.price, i);
      FlatInsert(vs, i, [o]);
      SplitAt(vs, i);
      InsertBetween(Flat(vs[..i]), Flat(vs[i..]), o);
    }
    LayeredInsert(side, vs, o, i);
  }

  lemma LayeredInsert(side: Side, vs: seq<seq<Order>>, o: Order, i: nat)
    requires Layered(side, vs) && i <= |vs|
    requires forall a :: 0 <= a < i ==> Better(side, vs[a][0].price, o.price)
    requires i < |vs| ==> Better(side, o.price, vs[i][0].price)
    ensures Layered(side, vs[..i] + [[o]] + vs[i..])
  {
    var us: seq<seq<Order>> := vs[..i] + [[o]] + vs[i..];
    assert forall a :: 0 <= a < |us| ==> us[a] == if a < i then vs[a] else if a == i then [o] else vs[a - 1];
    forall a, b | 0 <= a < b < |us|
      ensures Better(side, us[a][0].price, us[b][0].price)
    {
      if a == i {
        assert b - 1 == i || Better(side, vs[i][0].price, vs[b - 1][0].price);
      } else if b != i {
        var a', b' := if a < i then a else a - 1, if b < i then b else b - 1;
        assert Better(side, vs[a'][0].price, vs[b'][0].price);
      }
    }
  }

  lemma LayeredRemove(side: Side, vs: seq<seq<Order>>, i: nat)
    requires Layered(side, vs) && i < |vs|
    ensures Layered(side, vs[..i] + vs[i + 1..])
  {
    var us := vs[..i] + vs[i + 1..];
    assert forall a :: 0 <= a < |us| ==> us[a] == vs[if a < i then a else a + 1];
    forall a, b | 0 <= a < b < |us|
      ensures Better(side, us[a][0].price, us[b][0].price)
    {
      var a', b' := if a < i then a else a + 1, if b < i then b else b + 1;
      assert Better(side, vs[a'][0].price, vs[b'][0].price);
    }
  }

  /** An order joining the back of level i is an insertion into the flattened side. */
  lemma AppendInserts(side: Side, vs: seq<seq<Order>>, o: Order, i: nat)
    requires Layered(side, vs) && i < |vs| && o.price == vs[i][0].price
    ensures Flat(vs[i := vs[i] + [o]]) == Insert(side, Flat(vs), o)
    ensures Layered(side, vs[i := vs[i] + [o]])
  {
    assert InsertPos(side, Flat(vs), o.price) == |Flat(vs[..i]) + vs[i]| by {
      forall a | 0 <= a < i + 1
        ensures !Better(side, o.price, vs[a][0].price)
      {
        assert a == i || Better(side, vs[a][0].price, vs[i][0].price);
      }
      JoinPosition(side, vs, o.price, i + 1);
      FlatSnoc(vs, i);
    }
    AppendBetween(vs, i, o);
    LayeredUpdate(side, vs, i, vs[i] + [o]);
  }

  lemma FlatSnoc(vs: seq<seq<Order>>, i: nat)
    requires i < |vs|
    ensures Flat(vs[..i + 1]) == Flat(vs[..i]) + vs[i]
  {
    assert vs[..i + 1] == vs[..i] + [vs[i]];
    FlatConcat(vs[..i], [vs[i]]);
    assert [vs[i]][1..] == [];
  }

  lemma AppendBetween(vs: seq<seq<Order>>, i: nat, o: Order)
    requires i < |vs|
    ensures var k := |Flat(vs[..i]) + vs[i]|;
            k <= |Flat(vs)| && Flat(vs[i := vs[i] + [o]]) == Flat(vs)[..k] + [o] + Flat(vs)[k..]
  {
    FlatSplit(vs, i);
    FlatUpdate(vs, i, vs[i] + [o]);
    InsertBetween(Flat(vs[..i]) + vs[i], Flat(vs[i + 1..]), o);
  }

  lemma LayeredUpdate(side: Side, vs: seq<seq<Order>>, i: nat, v: seq<Order>)
    requires Layered(side, vs) && i < |vs| && UniformLevel(v) && v[0].price == vs[i][0].price
    ensures Layered(side, vs[i := v])
  {
  }

  /** The levels once the j-th order of level i is gone; an emptied level goes with it. */
  function Without(vs: seq<seq<Order>>, i: nat, j: nat): seq<seq<Order>>
    requires i < |vs| && j < |vs[i]|
  {
    if |vs[i]| == 1 then vs[..i] + vs[i + 1..] else vs[i := RemoveAt(vs[i], j)]
  }

  /** Removing the j-th order of level i removes one position of the flattened side. */
  lemma RemovalRemoves(side: Side, vs: seq<seq<Order>>, i: nat, j: nat)
    requires Layered(side, vs) && i < |vs| && j < |vs[i]|
    ensures |Flat(vs[..i])| + j < |Flat(vs)|
    ensures Flat(vs)[|Flat(vs[..i])| + j] == vs[i][j]
    ensures Flat(Without(vs, i, j)) == RemoveAt(Flat(vs), |Flat(vs[..i])| + j)
    ensures Layered(side, Without(vs, i, j))
  {
    FlatAt(vs, i, j);
    FlatSplit(vs, i);
    RemoveBetween(Flat(vs[..i]), vs[i], Flat(vs[i + 1..]), j);
    if |vs[i]| == 1 {
      assert RemoveAt(vs[i], j) == [];
      FlatRemove(vs, i);
      LayeredRemove(side, vs, i);
    } else {
      FlatUpdate(vs, i, RemoveAt(vs[i], j));
      assert UniformLevel(RemoveAt(vs[i], j));
      LayeredUpdate(side, vs, i, RemoveAt(vs[i], j));
    }
  }

  /** Another quantity on the j-th order of level i. */
  function Requantify(vs: seq<seq<Order>>, i: nat, j: nat, qty: nat): seq<seq<Order>>
    requires i < |vs| && j < |vs[i]|
  {
    vs[i := vs[i][j := vs[i][j].(qty := qty)]]
  }

  lemma ChangeChanges(side: Side, vs: seq<seq<Order>>, i: nat, j: nat, o: Order)
    requires Layered(side, vs) && i < |vs| && j < |vs[i]| && o.price == vs[i][j].price
    ensures |Flat(vs[..i])| + j < |Flat(vs)|
    ensures var k := |Flat(vs[..i])| + j;
            var r := vs[i := vs[i][j := o]];
            Flat(vs)[k] == vs[i][j] && Flat(r) == Flat(vs)[k := o] && Layered(side, r)
  {
    FlatAt(vs, i, j);
    FlatSplit(vs, i);
    FlatUpdate(vs, i, vs[i][j := o]);
    LayeredUpdate(side, vs, i, vs[i][j := o]);
  }
}
