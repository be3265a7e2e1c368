/** How the queue operations look position by position and price by price. */
module PriceTimeFacts {
  import opened Types
  import opened OrderNodes
  import opened PriceTime

  // ----- Nodes -----

  /** The nodes of a queue are those at its positions. */
  lemma {:induction false} NodesOfMembers(q: seq<Order>)
    ensures forall i :: 0 <= i < |q| ==> q[i].node in NodesOf(q)
    ensures forall n :: n in NodesOf(q) ==> exists i :: 0 <= i < |q| && q[i].node == n
  {
    if q != [] {
      var rest := q[1..];
      NodesOfMembers(rest);
      assert forall i :: 0 < i < |q| ==> q[i] == rest[i - 1];
      forall n | n in NodesOf(rest) ensures exists i :: 0 <= i < |q| && q[i].node == n {
        var i :| 0 <= i < |rest| && rest[i].node == n;
        assert q[i + 1].node == n;
      }
    }
  }

  lemma {:induction false} NodesOfAppend(a: seq<Order>, b: seq<Order>)
    ensures NodesOf(a + b) == NodesOf(a) + NodesOf(b)
  {
    if a == [] {
      assert a + b == b;
    } else {
      assert (a + b)[1..] == a[1..] + b;
      NodesOfAppend(a[1..], b);
    }
  }

  // ----- One price at a time -----

  lemma {:induction false} AtPriceAppend(a: seq<Order>, b: seq<Order>, p: Price)
    ensures AtPrice(a + b, p) == AtPrice(a, p) + AtPrice(b, p)
  {
    if a == [] {
      assert a + b == b;
    } else {
      assert (a + b)[1..] == a[1..] + b;
      AtPriceAppend(a[1..], b, p);
    }
  }

  lemma {:induction false} AtPriceMembers(q: seq<Order>, p: Price)
    ensures forall k :: 0 <= k < |AtPrice(q, p)| ==> AtPrice(q, p)[k] in q && AtPrice(q, p)[k].price == p
    ensures forall i :: 0 <= i < |q| && q[i].price == p ==> q[i] in AtPrice(q, p)
  {
    if q != [] {
      var rest := q[1..];
      AtPriceMembers(rest, p);
      assert forall x :: x in rest ==> x in q;
      assert forall i :: 0 < i < |q| ==> q[i] == rest[i - 1];
    }
  }

  lemma {:induction false} DistinctAtPrice(q: seq<Order>, p: Price)
    requires DistinctNodes(q)
    ensures DistinctNodes(AtPrice(q, p))
  {
    if q != [] {
      var rest, at := q[1..], AtPrice(q[1..], p);
      DistinctAtPrice(rest, p);
      AtPriceMembers(rest, p);
      forall k | 0 <= k < |at| ensures at[k].node != q[0].node {
        var i :| 0 <= i < |rest| && rest[i] == at[k];
        assert q[i + 1] == at[k];
      }
    }
  }

  lemma {:induction false} AtPriceAll(q: seq<Order>, p: Price)
    requires forall i :: 0 <= i < |q| ==> q[i].price == p
    ensures AtPrice(q, p) == q
  {
    if q != [] {
      AtPriceAll(q[1..], p);
    }
  }

  lemma {:induction false} AtPriceNone(q: seq<Order>, p: Price)
    requires forall i :: 0 <= i < |q| ==> q[i].price != p
    ensures AtPrice(q, p) == []
  {
    if q != [] {
      AtPriceNone(q[1..], p);
    }
  }

  /** The best price's orders are a prefix of a sorted queue. */
  lemma {:induction false} BestPrefix(side: Side, q: seq<Order>)
    requires Sorted(side, q) && q != []
    ensures var p := q[0].price;
            var n := |AtPrice(q, p)|;
            && 0 < n <= |q| && q[..n] == AtPrice(q, p) && AtPrice(q[n..], p) == []
            && forall i :: n <= i < |q| ==> q[i].price != p
  {
    var p := q[0].price;
    var n := 1;
    while n < |q| && q[n].price == p
      invariant 1 <= n <= |q|
      invariant forall i :: 0 <= i < n ==> q[i].price == p
    {
      n := n + 1;
    }
    forall i | n <= i < |q| ensures q[i].price != p {
      assert !Better(side, q[i].price, q[n].price) && !Better(side, q[n].price, p);
    }
    assert q == q[..n] + q[n..];
    AtPriceAppend(q[..n], q[n..], p);
    AtPriceAll(q[..n], p);
    AtPriceNone(q[n..], p);
  }

  /** A sorted queue is determined by what it holds at each price: the levels say it all. */
  lemma {:induction false} LevelsDetermineQueue(side: Side, q: seq<Order>, q': seq<Order>)
    requires Sorted(side, q) && Sorted(side, q')
    requires forall p :: AtPrice(q, p) == AtPrice(q', p)
    ensures q == q'
    decreases q
  {
    if q == [] {
      if q' != [] {
        SameFirst(side, q', q);
      }
    } else {
      var p := q[0].price;
      SameFirst(side, q, q');
      var a, a' := q[1..], q'[1..];
      forall p' ensures AtPrice(a, p') == AtPrice(a', p') {
        assert AtPrice(q, p') == AtPrice(q', p');
        if p == p' {
          assert AtPrice(q, p)[1..] == AtPrice(a, p) && AtPrice(q', p)[1..] == AtPrice(a', p);
        }
      }
      LevelsDetermineQueue(side, a, a');
    }
  }

  lemma SameFirst(side: Side, q: seq<Order>, q': seq<Order>)
    requires Sorted(side, q) && Sorted(side, q') && q != []
    requires forall p :: AtPrice(q, p) == AtPrice(q', p)
    ensures q' != [] && q'[0] == q[0]
  {
    assert AtPrice(q, q[0].price) == AtPrice(q', q[0].price);
    AtPriceMembers(q', q[0].price);
    assert AtPrice(q', q[0].price)[0] in q';
    assert AtPrice(q, q'[0].price) == AtPrice(q', q'[0].price);
    AtPriceMembers(q, q'[0].price);
    assert AtPrice(q, q'[0].price)[0] in q;
  }

  // ----- Volume -----

  lemma {:induction false} VolumeAppend(a: seq<Order>, b: seq<Order>)
    ensures Volume(a + b) == Volume(a) + Volume(b)
  {
    if a == [] {
      assert a + b == b;
    } else {
      assert (a + b)[1..] == a[1..] + b;
      VolumeAppend(a[1..], b);
    }
  }

  lemma VolumeWithout(q: seq<Order>, k: nat)
    requires k < |q|
    ensures Volume(q[..k] + q[k + 1..]) == Volume(q) - q[k].qty
  {
    assert q == q[..k] + q[k..] && q[k..] == [q[k]] + q[k + 1..];
    VolumeAppend(q[..k], q[k..]);
    VolumeAppend(q[..k], q[k + 1..]);
  }

  lemma VolumeUpdate(q: seq<Order>, k: nat, qty: Quantity)
    requires k < |q|
    ensures Volume(q[k := q[k].(qty := qty)]) == Volume(q) - q[k].qty + qty
  {
    var r := q[k := q[k].(qty := qty)];
    VolumeWithout(q, k);
    VolumeWithout(r, k);
    assert r[..k] == q[..k] && r[k + 1..] == q[k + 1..];
  }

  // ----- Insert -----

  lemma {:induction false} InsertShape(side: Side, q: seq<Order>, o: Order) returns (k: nat)
    requires Sorted(side, q) && o.side == side
    ensures k <= |q| && Insert(q, o) == q[..k] + [o] + q[k..]
    ensures forall i :: 0 <= i < k ==> !Better(side, o.price, q[i].price)
    ensures forall i :: k <= i < |q| ==> Better(side, o.price, q[i].price)
  {
    if q == [] {
      k := 0;
    } else if Better(side, o.price, q[0].price) {
      k := 0;
    } else {
      var j := InsertShape(side, q[1..], o);
      k := j + 1;
      assert q[..k] == [q[0]] + q[1..][..j];
      assert q[k..] == q[1..][j..];
    }
  }

  lemma {:induction false} InsertMembers(q: seq<Order>, o: Order)
    ensures forall k :: 0 <= k < |Insert(q, o)| ==> Insert(q, o)[k] == o || Insert(q, o)[k] in q
  {
    if q != [] && !Better(o.side, o.price, q[0].price) {
      InsertMembers(q[1..], o);
      assert forall x :: x in q[1..] ==> x in q;
    }
  }

  lemma InsertSorted(side: Side, q: seq<Order>, o: Order)
    requires Sorted(side, q) && o.side == side
    ensures Sorted(side, Insert(q, o))
  {
    var k := InsertShape(side, q, o);
    var r := Insert(q, o);
    forall i, j | 0 <= i < j < |r| ensures !Better(side, r[j].price, r[i].price) {
      assert i < k ==> r[i] == q[i];
      assert i > k ==> r[i] == q[i - 1];
      assert j < k ==> r[j] == q[j];
      assert j > k ==> r[j] == q[j - 1];
    }
  }

  lemma InsertNodes(side: Side, q: seq<Order>, o: Order)
    requires Sorted(side, q) && o.side == side
    ensures NodesOf(Insert(q, o)) == NodesOf(q) + {o.node}
  {
    var k := InsertShape(side, q, o);
    NodesOfAppend(q[..k] + [o], q[k..]);
    NodesOfAppend(q[..k], [o]);
    NodesOfAppend(q[..k], q[k..]);
    assert q[..k] + q[k..] == q;
  }

  lemma InsertKeepsQueue(side: Side, q: seq<Order>, o: Order)
    requires Queue(side, q) && o.side == side && o.node !in NodesOf(q)
    ensures Queue(side, Insert(q, o))
    ensures NodesOf(Insert(q, o)) == NodesOf(q) + {o.node}
  {
    InsertSorted(side, q, o);
    InsertNodes(side, q, o);
    var k := InsertShape(side, q, o);
    DistinctInsert(q, k, o);
  }

  lemma DistinctInsert(q: seq<Order>, k: nat, o: Order)
    requires DistinctNodes(q) && k <= |q| && o.node !in NodesOf(q)
    ensures DistinctNodes(q[..k] + [o] + q[k..])
  {
    NodesOfMembers(q);
    assert forall i :: 0 <= i < |q| ==> q[i].node != o.node;
  }

  lemma InsertAtPrice(side: Side, q: seq<Order>, o: Order, p: Price)
    requires Sorted(side, q) && o.side == side
    ensures AtPrice(Insert(q, o), p) == AtPrice(q, p) + (if o.price == p then [o] else [])
  {
    var k := InsertShape(side, q, o);
    AtPriceAppend(q[..k] + [o], q[k..], p);
    AtPriceAppend(q[..k], [o], p);
    AtPriceAppend(q[..k], q[k..], p);
    assert q[..k] + q[k..] == q;
    if o.price == p {
      AtPriceNone(q[k..], p);
    }
  }

  // ----- Without -----

  lemma {:induction false} WithoutAtPrice(q: seq<Order>, node: OrderNode, p: Price)
    ensures AtPrice(Without(q, node), p) == Without(AtPrice(q, p), node)
  {
    if q != [] {
      WithoutAtPrice(q[1..], node, p);
    }
  }

  lemma {:induction false} WithoutAbsent(q: seq<Order>, node: OrderNode)
    requires node !in NodesOf(q)
    ensures Without(q, node) == q
  {
    if q != [] {
      WithoutAbsent(q[1..], node);
    }
  }

  lemma {:induction false} WithoutShape(q: seq<Order>, k: nat)
    requires k < |q| && DistinctNodes(q)
    ensures Without(q, q[k].node) == q[..k] + q[k + 1..]
  {
    if k == 0 {
      forall i | 0 <= i < |q[1..]| ensures q[1..][i].node != q[0].node {
        assert q[1..][i] == q[i + 1];
      }
      NodesOfMembers(q[1..]);
      WithoutAbsent(q[1..], q[0].node);
    } else {
      WithoutShape(q[1..], k - 1);
      assert q[..k] == [q[0]] + q[1..][..k - 1];
      assert q[k + 1..] == q[1..][k..];
    }
  }

  lemma WithoutNodes(q: seq<Order>, k: nat)
    requires k < |q| && DistinctNodes(q)
    ensures NodesOf(q[..k] + q[k + 1..]) == NodesOf(q) - {q[k].node}
  {
    var a, b := q[..k], q[k + 1..];
    NodesOfAppend(a, b);
    NodesOfAppend(a, q[k..]);
    assert a + q[k..] == q && q[k..][1..] == b;
    NodesOfMembers(a);
    NodesOfMembers(b);
  }

  lemma DropKeepsQueue(side: Side, q: seq<Order>, k: nat)
    requires Queue(side, q) && k < |q|
    ensures Queue(side, q[..k] + q[k + 1..])
  {
    var r := q[..k] + q[k + 1..];
    assert forall i :: 0 <= i < |r| ==> r[i] == q[if i < k then i else i + 1];
  }

  lemma WithoutKeepsQueue(side: Side, q: seq<Order>, node: OrderNode)
    requires Queue(side, q)
    ensures Queue(side, Without(q, node))
    ensures NodesOf(Without(q, node)) == NodesOf(q) - {node}
  {
    NodesOfMembers(q);
    if node in NodesOf(q) {
      var k :| 0 <= k < |q| && q[k].node == node;
      WithoutShape(q, k);
      WithoutNodes(q, k);
      DropKeepsQueue(side, q, k);
    } else {
      WithoutAbsent(q, node);
    }
  }

  lemma {:induction false} WithoutMembers(q: seq<Order>, node: OrderNode)
    ensures forall k :: 0 <= k < |Without(q, node)| ==> Without(q, node)[k] in q
  {
    if q != [] {
      var rest := q[1..];
      WithoutMembers(rest, node);
      assert forall x :: x in rest ==> x in q;
    }
  }

  /** Distinct nodes: the name of an order at one price does not occur at another. */
  lemma NotAtOtherPrice(q: seq<Order>, o: Order, p: Price)
    requires DistinctNodes(q) && o in q && p != o.price
    ensures o.node !in NodesOf(AtPrice(q, p))
  {
    AtPriceMembers(q, p);
    NodesOfMembers(AtPrice(q, p));
    var i :| 0 <= i < |q| && q[i] == o;
    var r := AtPrice(q, p);
    forall k | 0 <= k < |r| ensures r[k].node != o.node {
      var j :| 0 <= j < |q| && q[j] == r[k];
    }
  }

  lemma WithoutElsewhere(q: seq<Order>, o: Order, p: Price)
    requires DistinctNodes(q) && o in q && p != o.price
    ensures AtPrice(Without(q, o.node), p) == AtPrice(q, p)
  {
    WithoutAtPrice(q, o.node, p);
    NotAtOtherPrice(q, o, p);
    WithoutAbsent(AtPrice(q, p), o.node);
  }

  // ----- ExceptAt -----

  lemma {:induction false} ExceptAtPrice(q: seq<Order>, p: Price, p': Price)
    ensures AtPrice(ExceptAt(q, p), p') == if p' == p then [] else AtPrice(q, p')
  {
    if q != [] {
      ExceptAtPrice(q[1..], p, p');
    }
  }

  lemma {:induction false} ExceptAtMembers(q: seq<Order>, p: Price)
    ensures forall k :: 0 <= k < |ExceptAt(q, p)| ==> ExceptAt(q, p)[k] in q && ExceptAt(q, p)[k].price != p
  {
    if q != [] {
      var rest := q[1..];
      ExceptAtMembers(rest, p);
      assert forall x :: x in rest ==> x in q;
    }
  }

  lemma {:induction false} ExceptAtKeepsQueue(side: Side, q: seq<Order>, p: Price)
    requires Queue(side, q)
    ensures Queue(side, ExceptAt(q, p))
  {
    if q != [] {
      var rest := q[1..];
      assert forall i :: 0 <= i < |rest| ==> rest[i] == q[i + 1];
      ExceptAtKeepsQueue(side, rest, p);
      ExceptAtMembers(rest, p);
      if q[0].price != p {
        ConsKeepsQueue(side, q[0], ExceptAt(rest, p));
      }
    }
  }

  lemma ConsKeepsQueue(side: Side, x: Order, q: seq<Order>)
    requires Queue(side, q) && x.side == side
    requires forall i :: 0 <= i < |q| ==> !Better(side, q[i].price, x.price) && q[i].node != x.node
    ensures Queue(side, [x] + q)
  {
  }

  /** Leaving out a price changes nothing exactly when nothing is queued at it. */
  lemma {:induction false} ExceptNothingIff(q: seq<Order>, p: Price)
    ensures ExceptAt(q, p) == q <==> AtPrice(q, p) == []
  {
    ExceptAtPrice(q, p, p);
    if q != [] && q[0].price != p {
      ExceptNothingIff(q[1..], p);
      assert ExceptAt(q, p)[1..] == ExceptAt(q[1..], p);
    }
  }

  /** Two orders rest at 100, and the first is cancelled twice: the second cancellation finds a node that
      no longer rests, and the other order is lost. */
  lemma SecondCancelLosesOrders(n1: OrderNode, n2: OrderNode)
    requires n1 != n2
    ensures var q := [Order(n1, 1, 100, 5, Buy), Order(n2, 2, 100, 7, Buy)];
            Without(q, n1) == [q[1]] && Without(Without(q, n1), n1) == [q[1]] && ExceptAt(Without(q, n1), 100) == []
  {
    var a, b := Order(n1, 1, 100, 5, Buy), Order(n2, 2, 100, 7, Buy);
    assert [a, b][1..] == [b] && [b][1..] == [];
    assert Without([b], n1) == [b] && ExceptAt([b], 100) == [];
  }

  // ----- Reduced -----

  lemma {:induction false} ReducedAtPrice(q: seq<Order>, node: OrderNode, newQty: Quantity, p: Price)
    ensures AtPrice(Reduced(q, node, newQty), p) == Reduced(AtPrice(q, p), node, newQty)
  {
    if q != [] {
      ReducedAtPrice(q[1..], node, newQty, p);
    }
  }

  lemma {:induction false} ReducedShape(q: seq<Order>, node: OrderNode, newQty: Quantity)
    ensures |Reduced(q, node, newQty)| == |q|
    ensures forall i :: 0 <= i < |q| ==>
      Reduced(q, node, newQty)[i] == if q[i].node == node then q[i].(qty := Min(q[i].qty, newQty)) else q[i]
  {
    if q != [] {
      ReducedShape(q[1..], node, newQty);
    }
  }

  lemma ReducedPrices(q: seq<Order>, node: OrderNode, newQty: Quantity)
    ensures forall r :: r in Reduced(q, node, newQty) ==> exists o :: o in q && o.price == r.price
  {
    ReducedShape(q, node, newQty);
  }

  lemma ReducedAt(q: seq<Order>, k: nat, newQty: Quantity)
    requires DistinctNodes(q) && k < |q| && newQty <= q[k].qty
    ensures Reduced(q, q[k].node, newQty) == q[k := q[k].(qty := newQty)]
  {
    ReducedShape(q, q[k].node, newQty);
  }

  lemma ReducedElsewhere(q: seq<Order>, o: Order, newQty: Quantity, p: Price)
    requires DistinctNodes(q) && o in q && p != o.price
    ensures AtPrice(Reduced(q, o.node, newQty), p) == AtPrice(q, p)
  {
    var r := AtPrice(q, p);
    ReducedAtPrice(q, o.node, newQty, p);
    NotAtOtherPrice(q, o, p);
    ReducedShape(r, o.node, newQty);
    NodesOfMembers(r);
  }

  lemma ReducedKeepsQueue(side: Side, q: seq<Order>, node: OrderNode, newQty: Quantity)
    requires Queue(side, q)
    ensures Queue(side, Reduced(q, node, newQty))
    ensures NodesOf(Reduced(q, node, newQty)) == NodesOf(q)
  {
    ReducedShape(q, node, newQty);
    SameNodes(q, Reduced(q, node, newQty));
  }

  lemma SameNodes(q: seq<Order>, r: seq<Order>)
    requires |r| == |q| && forall i :: 0 <= i < |q| ==> r[i].node == q[i].node
    ensures NodesOf(r) == NodesOf(q)
  {
    NodesOfMembers(q);
    NodesOfMembers(r);
  }

  lemma {:induction false} ReducedNothing(q: seq<Order>, node: OrderNode, newQty: Quantity)
    requires forall i :: 0 <= i < |q| && q[i].node == node ==> q[i].qty <= newQty
    ensures Reduced(q, node, newQty) == q
  {
    if q != [] {
      ReducedNothing(q[1..], node, newQty);
    }
  }

  lemma ReducedAbsent(q: seq<Order>, node: OrderNode, newQty: Quantity)
    requires node !in NodesOf(q)
    ensures Reduced(q, node, newQty) == q
  {
    NodesOfMembers(q);
    ReducedNothing(q, node, newQty);
  }

  lemma CancelOnSide(b: Book, side: Side, node: OrderNode)
    requires node !in NodesOf(b.On(side.Opposite()))
    ensures Cancel(b, node) == b.With(side, Without(b.On(side), node))
  {
    WithoutAbsent(b.On(side.Opposite()), node);
  }

  lemma ReduceOnSide(b: Book, side: Side, node: OrderNode, newQty: Quantity)
    requires node !in NodesOf(b.On(side.Opposite()))
    ensures Reduce(b, node, newQty) == b.With(side, Reduced(b.On(side), node, newQty))
  {
    ReducedAbsent(b.On(side.Opposite()), node, newQty);
  }

  // ----- Match -----

  ghost predicate SameButQty(a: Order, b: Order) {
    a == b.(qty := a.qty)
  }

  /** Matching consumes a prefix of `k` makers and may shrink the next one; nothing behind that changes. */
  lemma {:induction false} MatchShape(taker: Order, makers: seq<Order>) returns (k: nat)
    ensures var r := Match(taker, makers);
            && k <= |makers| && |r.rest| == |makers| - k
            && (forall i :: 1 <= i < |r.rest| ==> r.rest[i] == makers[k + i])
            && (r.rest != [] ==> SameButQty(r.rest[0], makers[k]) && r.rest[0].qty <= makers[k].qty)
    decreases makers
  {
    if taker.qty == 0 || makers == [] || !Crosses(taker.side, taker.price, makers[0].price) {
      k := 0;
    } else if Min(taker.qty, makers[0].qty) < makers[0].qty {
      k := 0;
    } else {
      var j := MatchShape(taker.(qty := taker.qty - makers[0].qty), makers[1..]);
      k := j + 1;
    }
  }

  /** Said evenly: what is left is a suffix of the makers, up to quantities. */
  lemma MatchSuffix(taker: Order, makers: seq<Order>) returns (k: nat)
    ensures var rest := Match(taker, makers).rest;
            k + |rest| == |makers| && forall i :: 0 <= i < |rest| ==> SameButQty(rest[i], makers[k + i])
  {
    k := MatchShape(taker, makers);
    var rest := Match(taker, makers).rest;
    forall i | 0 <= i < |rest| ensures SameButQty(rest[i], makers[k + i]) {
      if i > 0 {
        assert rest[i] == makers[k + i];
      }
    }
  }

  lemma MatchKeepsQueue(side: Side, taker: Order, makers: seq<Order>)
    requires Queue(side, makers)
    ensures Queue(side, Match(taker, makers).rest)
    ensures NodesOf(Match(taker, makers).rest) <= NodesOf(makers)
  {
    var k := MatchSuffix(taker, makers);
    var rest := Match(taker, makers).rest;
    SuffixKeepsQueue(side, makers, k, rest);
    SuffixNodes(makers, k, rest);
  }

  lemma SuffixNodes(q: seq<Order>, k: nat, q': seq<Order>)
    requires |q'| + k == |q| && forall i :: 0 <= i < |q'| ==> SameButQty(q'[i], q[k + i])
    ensures NodesOf(q') <= NodesOf(q)
  {
    NodesOfMembers(q);
    NodesOfMembers(q');
  }

  /** Matching two queues one after the other is matching their concatenation. */
  lemma {:induction false} MatchAppend(taker: Order, a: seq<Order>, b: seq<Order>)
    requires forall i :: 0 <= i < |a| ==> Crosses(taker.side, taker.price, a[i].price)
    ensures var r := Match(taker, a);
            && Match(taker, a + b) ==
               (if r.rest == [] then Match(taker.(qty := r.left), b).After(r.trades)
                else Outcome(r.trades, r.rest + b, r.left))
            && (r.rest != [] ==> r.left == 0)
    decreases a
  {
    if a == [] {
      assert a + b == b;
      assert taker.(qty := taker.qty) == taker;
    } else if taker.qty > 0 {
      assert (a + b)[0] == a[0] && (a + b)[1..] == a[1..] + b;
      var t := Min(taker.qty, a[0].qty);
      if t < a[0].qty {
        assert [a[0].(qty := a[0].qty - t)] + a[1..] + b == [a[0].(qty := a[0].qty - t)] + (a[1..] + b);
      } else {
        var rest := taker.(qty := taker.qty - t);
        var trade := Trade(a[0].id, taker.id, a[0].price, t);
        MatchAppend(rest, a[1..], b);
        AfterTwice(Match(rest.(qty := Match(rest, a[1..]).left), b), [trade], Match(rest, a[1..]).trades);
      }
    }
  }

  lemma AfterTwice(r: Outcome, a: seq<Trade>, b: seq<Trade>)
    ensures r.After(b).After(a) == r.After(a + b)
  {
    assert a + (b + r.trades) == a + b + r.trades;
  }

  /** The queue after quantity `t` of its first order has been traded. */
  ghost function Served(q: seq<Order>, t: Quantity): seq<Order>
    requires q != [] && t <= q[0].qty
  {
    if t < q[0].qty then [q[0].(qty := q[0].qty - t)] + q[1..] else q[1..]
  }

  /** What one trade against the head of the queue leaves to be matched. */
  lemma MatchStep(o: Order, q: seq<Order>, t: Quantity, trade: Trade, o': Order, q': seq<Order>)
    requires o.qty > 0 && q != [] && Crosses(o.side, o.price, q[0].price) && t == Min(o.qty, q[0].qty)
    requires trade == Trade(q[0].id, o.id, q[0].price, t) && o' == o.(qty := o.qty - t) && q' == Served(q, t)
    ensures Match(o, q) == Match(o', q').After([trade])
    ensures |q'| < |q| || (|q'| == |q| && o'.qty < o.qty)
  {
    if t < q[0].qty {
      ServedIs(q, t, q'[0]);
      NothingMore(o', q', [trade]);
    }
  }

  lemma ServedIs(q: seq<Order>, t: Quantity, x: Order)
    requires q != [] && t < q[0].qty && x == q[0].(qty := q[0].qty - t)
    ensures Served(q, t) == [x] + q[1..]
  {
  }

  lemma ServedNodes(q: seq<Order>, t: Quantity)
    requires q != [] && t <= q[0].qty
    ensures NodesOf(Served(q, t)) + (if t < q[0].qty then {} else {q[0].node}) == NodesOf(q)
  {
    if t < q[0].qty {
      SameNodes(q, Served(q, t));
    }
  }

  /** The queue after the best price alone has been swept. */
  ghost function Swept(o: Order, q: seq<Order>): seq<Order>
    requires q != []
  {
    var a := AtPrice(q, q[0].price);
    if |a| <= |q| then Match(o, a).rest + q[|a|..] else q
  }

  /** Dropping a prefix and changing quantities keeps a queue in order. */
  lemma SuffixKeepsQueue(side: Side, q: seq<Order>, k: nat, q': seq<Order>)
    requires Queue(side, q) && |q'| + k == |q|
    requires forall i :: 0 <= i < |q'| ==> SameButQty(q'[i], q[k + i])
    ensures Queue(side, q')
  {
  }

  lemma SweptKeepsQueue(side: Side, o: Order, q: seq<Order>)
    requires Queue(side, q) && q != []
    ensures Queue(side, Swept(o, q))
    ensures forall i :: 0 <= i < |Swept(o, q)| ==> exists j :: 0 <= j < |q| && q[j].price == Swept(o, q)[i].price
  {
    BestPrefix(side, q);
    var a := AtPrice(q, q[0].price);
    var k := MatchShape(o, a);
    var q' := Swept(o, q);
    var rest := Match(o, a).rest;
    forall i | 0 <= i < |q'| ensures SameButQty(q'[i], q[k + i]) {
      if i < |rest| {
        assert q'[i] == rest[i] && a[k + i] == q[k + i];
      } else {
        assert q'[i] == q[|a|..][i - |rest|];
      }
    }
    SuffixKeepsQueue(side, q, k, q');
  }

  lemma SweptAtPrice(side: Side, o: Order, q: seq<Order>, p: Price)
    requires Sorted(side, q) && q != []
    ensures AtPrice(Swept(o, q), p) == if p == q[0].price then Match(o, AtPrice(q, p)).rest else AtPrice(q, p)
  {
    BestPrefix(side, q);
    var best := q[0].price;
    var a := AtPrice(q, best);
    var r := Match(o, a).rest;
    assert q == a + q[|a|..];
    AtPriceMembers(q, best);
    var k := MatchSuffix(o, a);
    assert forall i :: 0 <= i < |r| ==> SameButQty(r[i], a[k + i]) && r[i].price == best;
    AtPriceAppend(a, q[|a|..], p);
    AtPriceAppend(r, q[|a|..], p);
    if p == best {
      AtPriceAll(r, p);
    } else {
      AtPriceNone(r, p);
      AtPriceNone(a, p);
    }
  }

  /** After a prefix the taker accepts has been matched, the rest of the match is still to come. */
  lemma MatchPrefix(o: Order, a: seq<Order>, b: seq<Order>)
    requires a != [] && forall i :: 0 <= i < |a| ==> Crosses(o.side, o.price, a[i].price)
    ensures var r := Match(o, a);
            && Match(o, a + b) == Match(o.(qty := r.left), r.rest + b).After(r.trades)
            && (r.left > 0 ==> r.rest == []) && |r.rest| <= |a|
  {
    var r := Match(o, a);
    var k := MatchSuffix(o, a);
    MatchAppend(o, a, b);
    if r.rest == [] {
      assert r.rest + b == b;
    } else {
      NothingMore(o.(qty := 0), r.rest + b, r.trades);
    }
  }

  lemma NothingMore(o: Order, q: seq<Order>, trades: seq<Trade>)
    requires o.qty == 0 || q == [] || !Crosses(o.side, o.price, q[0].price)
    ensures Match(o, q).After(trades) == Outcome(trades, q, o.qty)
  {
    assert trades + [] == trades;
  }

  /** Sweeping the best price first loses nothing: the rest of the match is still to come. */
  lemma SweptMatch(side: Side, o: Order, q: seq<Order>)
    requires Sorted(side, q) && q != [] && o.qty > 0 && Crosses(o.side, o.price, q[0].price)
    ensures var r := Match(o, AtPrice(q, q[0].price));
            && Match(o, q) == Match(o.(qty := r.left), Swept(o, q)).After(r.trades)
            && (r.left > 0 ==> r.rest == [] && |Swept(o, q)| < |q|) && |Swept(o, q)| <= |q|
  {
    BestPrefix(side, q);
    AtPriceMembers(q, q[0].price);
    var a := AtPrice(q, q[0].price);
    assert q == a + q[|a|..];
    MatchPrefix(o, a, q[|a|..]);
  }

  lemma SweptNodes(side: Side, o: Order, q: seq<Order>)
    requires Sorted(side, q) && q != []
    ensures var a := AtPrice(q, q[0].price);
            NodesOf(q) <= (NodesOf(a) - NodesOf(Match(o, a).rest)) + NodesOf(Swept(o, q))
  {
    BestPrefix(side, q);
    var a := AtPrice(q, q[0].price);
    assert q == a + q[|a|..];
    NodesOfAppend(a, q[|a|..]);
    NodesOfAppend(Match(o, a).rest, q[|a|..]);
  }
}
