/** What one sweep of the reference matcher does, said without its recursion. */
module MatchLaws {
  import opened Types
  import opened OrderNodes
  import opened PriceTime
  import opened PriceTimeFacts

  // ----- The closed form -----

  /** Makers ahead of the first one whose price the taker does not accept. */
  ghost function Reach(taker: Order, makers: seq<Order>): nat {
    if makers == [] || !Crosses(taker.side, taker.price, makers[0].price) then 0
    else 1 + Reach(taker, makers[1..])
  }

  /** What maker `i` gets of a taker quantity that first passes everything ahead of it. */
  ghost function Share(qty: Quantity, makers: seq<Order>, i: nat): int
    requires i < |makers|
  {
    Min(makers[i].qty, qty - Volume(makers[..i]))
  }

  /** How many makers the sweep trades with: those within reach with less than `qty` ahead of them. */
  ghost predicate TradesWith(taker: Order, makers: seq<Order>, n: nat) {
    && n <= Reach(taker, makers) <= |makers|
    && (forall i :: 0 <= i < n ==> Volume(makers[..i]) < taker.qty)
    && (n < Reach(taker, makers) ==> Volume(makers[..n]) >= taker.qty)
  }

  lemma {:induction false} ReachBound(taker: Order, makers: seq<Order>)
    ensures Reach(taker, makers) <= |makers|
    ensures forall i :: 0 <= i < Reach(taker, makers) ==> Crosses(taker.side, taker.price, makers[i].price)
    ensures Reach(taker, makers) < |makers| ==> !Crosses(taker.side, taker.price, makers[Reach(taker, makers)].price)
  {
    if makers != [] && Crosses(taker.side, taker.price, makers[0].price) {
      ReachBound(taker, makers[1..]);
    }
  }

  lemma VolumeTail(makers: seq<Order>, i: nat)
    requires 0 < i <= |makers|
    ensures Volume(makers[..i]) == makers[0].qty + Volume(makers[1..][..i - 1])
  {
    assert makers[..i][1..] == makers[1..][..i - 1];
  }

  ghost predicate TradesAre(taker: Order, makers: seq<Order>, trades: seq<Trade>)
    requires |trades| <= |makers| && forall i :: 0 <= i < |trades| ==> Volume(makers[..i]) < taker.qty
  {
    forall i :: 0 <= i < |trades| ==>
      trades[i] == Trade(makers[i].id, taker.id, makers[i].price, Share(taker.qty, makers, i))
  }

  ghost function LeftAfter(taker: Order, makers: seq<Order>, n: nat): Quantity
    requires n <= |makers|
  {
    if Volume(makers[..n]) < taker.qty then taker.qty - Volume(makers[..n]) else 0
  }

  /** The makers from the `n`-th on, preceded by the `n`-th from the front if it kept some quantity. */
  ghost function RestAfter(taker: Order, makers: seq<Order>, n: nat): seq<Order>
    requires n <= |makers| && (n > 0 ==> Volume(makers[..n - 1]) < taker.qty)
  {
    if n > 0 && Share(taker.qty, makers, n - 1) < makers[n - 1].qty then
      [makers[n - 1].(qty := makers[n - 1].qty - Share(taker.qty, makers, n - 1))] + makers[n..]
    else makers[n..]
  }

  ghost predicate ClosedForm(taker: Order, makers: seq<Order>) {
    var r := Match(taker, makers);
    var n := |r.trades|;
    && TradesWith(taker, makers, n)
    && TradesAre(taker, makers, r.trades)
    && r.left == LeftAfter(taker, makers, n)
    && r.rest == RestAfter(taker, makers, n)
  }

  /** The sweep trades once with each of the first `n` makers, in queue order, at the maker's
      price, each for its share of the cumulative volume; what is left is what no maker took. */
  lemma {:induction false} MatchClosedForm(taker: Order, makers: seq<Order>)
    ensures ClosedForm(taker, makers)
    decreases makers
  {
    if taker.qty == 0 || makers == [] || !Crosses(taker.side, taker.price, makers[0].price) {
      ReachBound(taker, makers);
      assert makers[..0] == [];
    } else if taker.qty < makers[0].qty {
      EndsInFirst(taker, makers);
    } else {
      MatchClosedForm(taker.(qty := taker.qty - makers[0].qty), makers[1..]);
      GoesOn(taker, makers);
    }
  }

  /** The closed form for a taker that ends inside the first maker. */
  lemma EndsInFirst(taker: Order, makers: seq<Order>)
    requires makers != [] && 0 < taker.qty < makers[0].qty && Crosses(taker.side, taker.price, makers[0].price)
    ensures ClosedForm(taker, makers)
  {
    ReachBound(taker, makers);
    assert makers[..0] == [] && makers[..1] == [makers[0]];
  }

  lemma GoesOn(taker: Order, makers: seq<Order>)
    requires makers != [] && taker.qty > 0 && taker.qty >= makers[0].qty && Crosses(taker.side, taker.price, makers[0].price)
    requires ClosedForm(taker.(qty := taker.qty - makers[0].qty), makers[1..])
    ensures ClosedForm(taker, makers)
  {
    var trades' := Match(taker.(qty := taker.qty - makers[0].qty), makers[1..]).trades;
    assert makers[..0] == [];
    TradesWithStep(taker, makers, |trades'|);
    TradesAreStep(taker, makers, Match(taker, makers).trades, trades');
    RestStep(taker, makers, |trades'|);
  }

  lemma VolumesTail(makers: seq<Order>)
    requires makers != []
    ensures makers[..0] == []
    ensures forall i :: 0 < i <= |makers| ==> Volume(makers[..i]) == makers[0].qty + Volume(makers[1..][..i - 1])
  {
    forall i | 0 < i <= |makers| ensures Volume(makers[..i]) == makers[0].qty + Volume(makers[1..][..i - 1]) {
      VolumeTail(makers, i);
    }
  }

  /** The three parts of the closed form, for a taker that consumes the first maker whole. */
  lemma TradesWithStep(taker: Order, makers: seq<Order>, m: nat)
    requires makers != [] && taker.qty > 0 && taker.qty >= makers[0].qty && Crosses(taker.side, taker.price, makers[0].price)
    requires TradesWith(taker.(qty := taker.qty - makers[0].qty), makers[1..], m)
    ensures TradesWith(taker, makers, m + 1)
  {
    VolumesTail(makers);
    ReachTail(taker, makers[1..], taker.qty - makers[0].qty);
  }

  lemma TradesAreStep(taker: Order, makers: seq<Order>, trades: seq<Trade>, trades': seq<Trade>)
    requires makers != [] && taker.qty > 0 && taker.qty >= makers[0].qty
    requires |trades'| < |makers| && forall i :: 0 <= i < |trades'| ==> Volume(makers[1..][..i]) < taker.qty - makers[0].qty
    requires TradesAre(taker.(qty := taker.qty - makers[0].qty), makers[1..], trades')
    requires trades == [Trade(makers[0].id, taker.id, makers[0].price, makers[0].qty)] + trades'
    ensures forall i :: 0 <= i < |trades| ==> Volume(makers[..i]) < taker.qty
    ensures TradesAre(taker, makers, trades)
  {
    VolumesTail(makers);
    forall i | 0 < i < |trades|
        ensures trades[i] == Trade(makers[i].id, taker.id, makers[i].price, Share(taker.qty, makers, i)) {
      assert trades[i] == trades'[i - 1] && makers[i] == makers[1..][i - 1];
    }
  }

  lemma RestStep(taker: Order, makers: seq<Order>, m: nat)
    requires makers != [] && taker.qty >= makers[0].qty && m < |makers|
    requires m > 0 ==> Volume(makers[1..][..m - 1]) < taker.qty - makers[0].qty
    requires Volume(makers[..0]) < taker.qty
    ensures Volume(makers[..m]) < taker.qty
    ensures RestAfter(taker, makers, m + 1) == RestAfter(taker.(qty := taker.qty - makers[0].qty), makers[1..], m)
    ensures LeftAfter(taker, makers, m + 1) == LeftAfter(taker.(qty := taker.qty - makers[0].qty), makers[1..], m)
  {
    VolumesTail(makers);
    assert makers[m + 1..] == makers[1..][m..];
  }

  lemma {:induction false} ReachTail(taker: Order, makers: seq<Order>, qty: Quantity)
    ensures Reach(taker.(qty := qty), makers) == Reach(taker, makers)
    decreases makers
  {
    if makers != [] {
      ReachTail(taker, makers[1..], qty);
    }
  }

  // ----- Priority -----

  lemma VolumeSnoc(q: seq<Order>, n: nat)
    requires n < |q|
    ensures Volume(q[..n + 1]) == Volume(q[..n]) + q[n].qty
  {
    assert q[..n + 1] == q[..n] + [q[n]];
    VolumeAppend(q[..n], [q[n]]);
  }

  /** A sweep stops early only at a maker it may not trade with. */
  lemma SweepIsExhaustive(taker: Order, makers: seq<Order>)
    ensures var r := Match(taker, makers);
            r.left > 0 && r.rest != [] ==> !Crosses(taker.side, taker.price, r.rest[0].price)
    ensures forall i :: 0 <= i < |Match(taker, makers).trades| ==>
      Crosses(taker.side, taker.price, Match(taker, makers).trades[i].price)
  {
    MatchClosedForm(taker, makers);
    ReachBound(taker, makers);
    var r := Match(taker, makers);
    var n := |r.trades|;
    if r.left > 0 && n > 0 {
      VolumeSnoc(makers, n - 1);
    }
  }

  /** Prices only get worse for the taker from one trade to the next. */
  lemma SweepIsMonotone(taker: Order, makers: seq<Order>)
    requires Sorted(taker.side.Opposite(), makers)
    ensures var trades := Match(taker, makers).trades;
            forall i, j :: 0 <= j < i < |trades| ==> !Better(taker.side.Opposite(), trades[i].price, trades[j].price)
  {
    MatchClosedForm(taker, makers);
  }

  /** Nothing trades while an order ahead of it is still resting: all makers that traded before the
      last one have left the queue. So there are as many trades as departures, or one more. */
  lemma NothingTradesOutOfTurn(taker: Order, makers: seq<Order>)
    requires DistinctNodes(makers)
    ensures var r := Match(taker, makers);
            var n := |r.trades|;
            && |makers| - |r.rest| <= n <= |makers| - |r.rest| + 1
            && forall j :: 0 <= j < n - 1 ==> makers[j].node !in NodesOf(r.rest)
  {
    MatchClosedForm(taker, makers);
    var r := Match(taker, makers);
    var n := |r.trades|;
    forall j | 0 <= j < n - 1 ensures makers[j].node !in NodesOf(r.rest) {
      NotInSuffix(makers, j, r.rest);
    }
  }

  lemma NotInSuffix(q: seq<Order>, j: nat, rest: seq<Order>)
    requires DistinctNodes(q) && j + |rest| < |q|
    requires forall i :: 0 <= i < |rest| ==> rest[i].node == q[|q| - |rest| + i].node
    ensures q[j].node !in NodesOf(rest)
  {
  }

  // ----- Trades of quantity zero -----

  /** A sweep reports a trade of quantity zero exactly when it reaches a resting order of quantity
      zero: within the limit price, and with less than the taker's quantity ahead of it. */
  lemma ZeroTradeIff(taker: Order, makers: seq<Order>)
    ensures (exists k :: 0 <= k < |Match(taker, makers).trades| && Match(taker, makers).trades[k].qty == 0)
       <==> (exists i :: 0 <= i < |makers| && i < Reach(taker, makers) &&
                         Volume(makers[..i]) < taker.qty && makers[i].qty == 0)
  {
    MatchClosedForm(taker, makers);
    var trades := Match(taker, makers).trades;
    if i :| 0 <= i < |makers| && i < Reach(taker, makers) && Volume(makers[..i]) < taker.qty && makers[i].qty == 0 {
      if i >= |trades| {
        VolumePrefix(makers, |trades|, i);
        assert false;
      }
      assert Match(taker, makers).trades[i].qty == 0;
    }
    if k :| 0 <= k < |Match(taker, makers).trades| && Match(taker, makers).trades[k].qty == 0 {
      assert trades[k] == Trade(makers[k].id, taker.id, makers[k].price, Share(taker.qty, makers, k));
      assert Volume(makers[..k]) < taker.qty;
      assert makers[k].qty == 0 && k < Reach(taker, makers);
    }
  }

  lemma VolumePrefix(q: seq<Order>, i: nat, j: nat)
    requires i <= j <= |q|
    ensures Volume(q[..i]) <= Volume(q[..j])
  {
    assert q[..j] == q[..i] + q[i..j];
    VolumeAppend(q[..i], q[i..j]);
  }

  // ----- Splitting an order -----

  /** What `trades` gave to or took from the maker with this id. */
  function MakerFill(trades: seq<Trade>, id: OrderId): nat {
    if trades == [] then 0
    else (if trades[0].maker == id then trades[0].qty else 0) + MakerFill(trades[1..], id)
  }

  lemma {:induction false} MakerFillAppend(a: seq<Trade>, b: seq<Trade>, id: OrderId)
    ensures MakerFill(a + b, id) == MakerFill(a, id) + MakerFill(b, id)
  {
    if a == [] {
      assert a + b == b;
    } else {
      assert (a + b)[1..] == a[1..] + b;
      MakerFillAppend(a[1..], b, id);
    }
  }

  /** What one trade leaves to be matched, with trades summed per maker. */
  lemma FillStep(o: Order, q: seq<Order>, t: Quantity, id: OrderId)
    requires o.qty > 0 && q != [] && Crosses(o.side, o.price, q[0].price) && t == Min(o.qty, q[0].qty)
    ensures StepAgrees(o, q, t, id) && (|Served(q, t)| < |q| || (|Served(q, t)| == |q| && t > 0))
  {
    var trade := Trade(q[0].id, o.id, q[0].price, t);
    MatchStep(o, q, t, trade, o.(qty := o.qty - t), Served(q, t));
    MakerFillAppend([trade], Match(o.(qty := o.qty - t), Served(q, t)).trades, id);
  }

  /** Trading `t` with the first maker and then going on is the whole match, summed per maker. */
  ghost predicate StepAgrees(o: Order, q: seq<Order>, t: Quantity, id: OrderId)
    requires q != [] && t <= o.qty && t <= q[0].qty
  {
    var r, r' := Match(o, q), Match(o.(qty := o.qty - t), Served(q, t));
    && r.rest == r'.rest && r.left == r'.left
    && MakerFill(r.trades, id) == (if q[0].id == id then t else 0) + MakerFill(r'.trades, id)
  }

  /** The same holds for a part of what the first maker gives. */
  lemma FillPart(o: Order, q: seq<Order>, t: Quantity, id: OrderId)
    requires o.qty > 0 && q != [] && Crosses(o.side, o.price, q[0].price) && t <= o.qty && t <= q[0].qty
    requires t > 0 || t == q[0].qty
    ensures StepAgrees(o, q, t, id)
  {
    var all := Min(o.qty, q[0].qty);
    FillStep(o, q, all, id);
    if t < all {
      var q' := Served(q, t);
      ServedIs(q, t, q'[0]);
      FillStep(o.(qty := o.qty - t), q', all - t, id);
      ServedTwice(q, t, all - t);
    }
  }

  lemma ServedTwice(q: seq<Order>, t: Quantity, u: Quantity)
    requires q != [] && u > 0 && t + u <= q[0].qty
    ensures Served(q, t) != [] && u <= Served(q, t)[0].qty && Served(Served(q, t), u) == Served(q, t + u)
  {
  }

  ghost predicate SplitsInto(o: Order, o1: Order, o2: Order) {
    && o1.side == o2.side == o.side && o1.price == o2.price == o.price
    && o1.qty + o2.qty == o.qty
  }

  /** One after the other, `o1` and `o2` leave what `o` leaves and give maker `id` what `o` gives it. */
  ghost predicate SplitAgrees(o: Order, o1: Order, o2: Order, makers: seq<Order>, id: OrderId) {
    var r1 := Match(o1, makers);
    var r2 := Match(o2, r1.rest);
    var r := Match(o, makers);
    && r2.rest == r.rest && r1.left + r2.left == r.left
    && MakerFill(r1.trades, id) + MakerFill(r2.trades, id) == MakerFill(r.trades, id)
  }

  /** Two orders at one limit, one after the other, do to the makers what their sum does. */
  lemma {:induction false} SplitMatch(o: Order, o1: Order, o2: Order, makers: seq<Order>, id: OrderId)
    requires SplitsInto(o, o1, o2)
    ensures SplitAgrees(o, o1, o2, makers, id)
    decreases |makers|, o1.qty
  {
    if makers == [] || !Crosses(o.side, o.price, makers[0].price) || o1.qty == 0 {
      SplitNothing(o, o1, o2, makers, id);
    } else {
      var t := Min(o1.qty, makers[0].qty);
      FillStep(o1, makers, t, id);
      FillPart(o, makers, t, id);
      SplitMatch(o.(qty := o.qty - t), o1.(qty := o1.qty - t), o2, Served(makers, t), id);
    }
  }

  lemma SplitNothing(o: Order, o1: Order, o2: Order, makers: seq<Order>, id: OrderId)
    requires SplitsInto(o, o1, o2)
    requires makers == [] || !Crosses(o.side, o.price, makers[0].price) || o1.qty == 0
    ensures SplitAgrees(o, o1, o2, makers, id)
  {
    assert Match(o1, makers) == Outcome([], makers, o1.qty);
    if o1.qty == 0 {
      OnlyIdDiffers(o, o2, makers, id);
    }
  }

  lemma {:induction false} OnlyIdDiffers(o: Order, o': Order, makers: seq<Order>, id: OrderId)
    requires o.side == o'.side && o.price == o'.price && o.qty == o'.qty
    ensures var r, r' := Match(o, makers), Match(o', makers);
            r.rest == r'.rest && r.left == r'.left && MakerFill(r.trades, id) == MakerFill(r'.trades, id)
    decreases |makers|, o.qty
  {
    if o.qty > 0 && makers != [] && Crosses(o.side, o.price, makers[0].price) {
      var t := Min(o.qty, makers[0].qty);
      FillStep(o, makers, t, id);
      FillStep(o', makers, t, id);
      OnlyIdDiffers(o.(qty := o.qty - t), o'.(qty := o'.qty - t), Served(makers, t), id);
    }
  }

  /** The other side of the book cannot tell an order from its two parts, and the order's own
      side ends with the same volume at every price. */
  lemma SplitUnobservable(b: Book, o: Order, o1: Order, o2: Order, id: OrderId, p: Price)
    requires WellFormed(b) && SplitsInto(o, o1, o2)
    ensures var (b1, trades1) := Submit(b, o1);
            var (b2, trades2) := Submit(b1, o2);
            var (b', trades) := Submit(b, o);
            && b2.On(o.side.Opposite()) == b'.On(o.side.Opposite())
            && MakerFill(trades1 + trades2, id) == MakerFill(trades, id)
            && Volume(AtPrice(b2.On(o.side), p)) == Volume(AtPrice(b'.On(o.side), p))
  {
    var opposite := o.side.Opposite();
    var makers := b.On(opposite);
    SplitMatch(o, o1, o2, makers, id);
    var r1 := Match(o1, makers);
    var b1 := Submit(b, o1).0;
    SubmitEffect(b, o1, p);
    SubmitEffect(b1, o2, p);
    SubmitEffect(b, o, p);
    MakerFillAppend(r1.trades, Match(o2, r1.rest).trades, id);
  }

  /** What a submission does to either side, price by price. */
  lemma SubmitEffect(b: Book, o: Order, p: Price)
    requires Sorted(o.side, b.On(o.side))
    ensures var r, (b', trades) := Match(o, b.On(o.side.Opposite())), Submit(b, o);
            && trades == r.trades && b'.On(o.side.Opposite()) == r.rest && Sorted(o.side, b'.On(o.side))
            && Volume(AtPrice(b'.On(o.side), p)) == Volume(AtPrice(b.On(o.side), p)) + if o.price == p then r.left else 0
  {
    var r := Match(o, b.On(o.side.Opposite()));
    RestEffect(b.With(o.side.Opposite(), r.rest), o.(qty := r.left), p);
  }

  lemma RestEffect(b: Book, o: Order, p: Price)
    requires Sorted(o.side, b.On(o.side))
    ensures Rest(b, o).On(o.side.Opposite()) == b.On(o.side.Opposite()) && Sorted(o.side, Rest(b, o).On(o.side))
    ensures Volume(AtPrice(Rest(b, o).On(o.side), p)) == Volume(AtPrice(b.On(o.side), p)) + if o.price == p then o.qty else 0
  {
    var own := b.On(o.side);
    InsertSorted(o.side, own, o);
    InsertAtPrice(o.side, own, o, p);
    VolumeAppend(AtPrice(own, p), [o]);
    assert Volume([o]) == o.qty;
    assert AtPrice(own, p) + [] == AtPrice(own, p);
  }
}
