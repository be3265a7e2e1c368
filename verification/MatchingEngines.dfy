/** The matching engine: sweep the opposite side level by level, then rest the remainder. */
module MatchingEngines {
  import opened Types
  import opened OrderNodes
  import opened PriceTime
  import opened PriceTimeFacts
  import opened OrderBooks

  /** Fully filled and unlinked: the caller may give the node's memory back. */
  ghost predicate Released(n: OrderNode)
    reads n
  {
    n.qty == 0 && Unlinked(n)
  }

  /** Released, and no longer among the objects of the book. */
  ghost predicate Gone(n: OrderNode, before: set<object>, after: set<object>)
    reads n
  {
    Released(n) && n in before && n !in after
  }

  /** Every node of `q` that is not in `q'` is gone. */
  ghost predicate AllGone(q: seq<Order>, q': seq<Order>, before: set<object>, after: set<object>)
    reads NodesOf(q)
  {
    forall n :: n in NodesOf(q) && n !in NodesOf(q') ==> Gone(n, before, after)
  }

  /** One step of the inner loop: trade against the head of a level. */
  method FillHead(level: PriceLevel, taker: OrderNode) returns (trade: Trade, next: OrderNode?)
    requires level.Valid() && level.Queue != [] && taker !in level.Repr && taker.qty > 0
    modifies level.Repr, taker`qty
    ensures level.Valid() && level.Repr <= old(level.Repr)
    ensures var maker := old(level.Queue)[0];
            var t := Min(old(taker.qty), maker.qty);
            && trade == Trade(maker.id, taker.id, maker.price, t) && taker.qty == old(taker.qty) - t
            && level.Queue == Served(old(level.Queue), t)
            && (t == maker.qty ==> next == level.orders.head && Gone(maker.node, old(level.Repr), level.Repr))
  {
    var resting := level.orders.head;
    var tradeQty := Min(taker.qty, resting.qty);
    assert level as object !in {resting, taker} && level.orders as object !in {resting, taker};
    trade := Trade(resting.id, taker.id, level.price, tradeQty);
    taker.qty := taker.qty - tradeQty;
    level.Lower(resting, resting.qty - tradeQty, 0);
    next := resting.next;
    if resting.qty == 0 {
      level.Drop(resting, 0);
    }
  }

  /** `gone` and the nodes still queued in `q` are all of `nodes`, and `gone` are gone. */
  ghost predicate Tally(nodes: set<OrderNode>, gone: set<OrderNode>, q: seq<Order>, before: set<object>, after: set<object>)
    reads gone
  {
    nodes <= gone + NodesOf(q) && forall n :: n in gone ==> Gone(n, before, after)
  }

  lemma TallySets(nodes: set<OrderNode>, gone: set<OrderNode>, left: set<OrderNode>,
                  queued: set<OrderNode>, queued': set<OrderNode>)
    requires nodes <= gone + queued && queued <= left + queued'
    ensures nodes <= (gone + left) + queued'
  {
  }

  /** One turn of the inner loop. The ghost parameters keep the tally of the nodes that have left
      since the level owned `before`. */
  method FillNext(level: PriceLevel, taker: OrderNode,
                  ghost nodes: set<OrderNode>, ghost gone: set<OrderNode>, ghost before: set<object>)
    returns (trade: Trade, next: OrderNode?, ghost gone': set<OrderNode>)
    requires level.Valid() && level.Queue != [] && Crosses(taker.side, taker.price, level.price)
    requires taker !in before && taker.qty > 0 && level.Repr <= before && Tally(nodes, gone, level.Queue, before, level.Repr)
    modifies level.Repr, taker`qty
    ensures level.Valid() && level.Repr <= old(level.Repr)
    ensures taker.qty > 0 ==> next == level.orders.head
    ensures old(Match(Snapshot(taker), level.Queue)) == Match(Snapshot(taker), level.Queue).After([trade])
    ensures Tally(nodes, gone', level.Queue, before, level.Repr)
    ensures |level.Queue| < |old(level.Queue)| || (|level.Queue| == |old(level.Queue)| && taker.qty < old(taker.qty))
  {
    ghost var o, q := Snapshot(taker), level.Queue;
    ghost var t: Quantity := Min(o.qty, q[0].qty);
    trade, next := FillHead(level, taker);
    MatchStep(o, q, t, trade, Snapshot(taker), level.Queue);
    ServedNodes(q, t);
    gone' := gone + if t < q[0].qty then {} else {q[0].node};
    TallySets(nodes, gone, gone', NodesOf(q), NodesOf(level.Queue));
  }

  /** The inner loop: fill the taker from one level, oldest order first. */
  method SweepLevel(level: PriceLevel, taker: OrderNode) returns (trades: seq<Trade>)
    requires level.Valid() && taker !in level.Repr && Crosses(taker.side, taker.price, level.price)
    modifies level.Repr, taker`qty
    ensures level.Valid() && level.Repr <= old(level.Repr)
    ensures Outcome(trades, level.Queue, taker.qty) == old(Match(Snapshot(taker), level.Queue))
    ensures AllGone(old(level.Queue), level.Queue, old(level.Repr), level.Repr)
  {
    trades := [];
    ghost var nodes, gone: set<OrderNode> := NodesOf(level.Queue), {};
    var resting := level.orders.head;
    while resting != null && taker.qty > 0
      invariant level.Valid() && level.Repr <= old(level.Repr)
      invariant taker.qty > 0 ==> resting == level.orders.head
      invariant old(Match(Snapshot(taker), level.Queue)) == Match(Snapshot(taker), level.Queue).After(trades)
      invariant Tally(nodes, gone, level.Queue, old(level.Repr), level.Repr)
      decreases |level.Queue|, taker.qty
    {
      var trade;
      trade, resting, gone := FillNext(level, taker, nodes, gone, old(level.Repr));
      AfterTwice(Match(Snapshot(taker), level.Queue), trades, [trade]);
      trades := trades + [trade];
    }
    NothingMore(Snapshot(taker), level.Queue, trades);
  }

  /** One round of the outer loop: sweep the best level of `side`, and erase it if it ran empty.
      The ghost parameters keep the tally of the nodes that have left since `side` owned `before`. */
  method SweepBest(side: LevelMap, level: PriceLevel, taker: OrderNode,
                   ghost nodes: set<OrderNode>, ghost gone: set<OrderNode>, ghost before: set<object>)
    returns (trades: seq<Trade>, ghost gone': set<OrderNode>)
    requires side.Valid() && OrderBook.Best(side, level)
    requires taker !in before && taker.qty > 0 && Crosses(taker.side, taker.price, level.price)
    requires side.Repr <= before && side !in before && Tally(nodes, gone, side.Queue, before, side.Repr)
    modifies side, side.Repr, taker`qty
    ensures side.Valid() && side.Repr <= old(side.Repr)
    ensures old(Match(Snapshot(taker), side.Queue)) == Match(Snapshot(taker), side.Queue).After(trades)
    ensures |side.Queue| <= |old(side.Queue)| && (taker.qty > 0 ==> |side.Queue| < |old(side.Queue)|)
    ensures Tally(nodes, gone', side.Queue, before, side.Repr)
  {
    ghost var q', repr;
    trades, q', repr, gone' := SweepAndTally(side, level, taker, nodes, gone, before);
    assert side as object != taker && forall n :: n in gone' ==> n != side as object;
    side.Settle(level, q', repr);
  }

  /** The same before it is noted that the side now stands for `q'` and owns `repr`. */
  method SweepAndTally(side: LevelMap, level: PriceLevel, taker: OrderNode,
                       ghost nodes: set<OrderNode>, ghost gone: set<OrderNode>, ghost before: set<object>)
    returns (trades: seq<Trade>, ghost q': seq<Order>, ghost repr: set<object>, ghost gone': set<OrderNode>)
    requires side.Valid() && OrderBook.Best(side, level)
    requires taker !in before && taker.qty > 0 && Crosses(taker.side, taker.price, level.price)
    requires side.Repr <= before && side !in before && Tally(nodes, gone, side.Queue, before, side.Repr)
    modifies level.Repr, taker`qty
    ensures side.HoldsBut(level, q', repr) && repr <= old(side.Repr)
    ensures old(Match(Snapshot(taker), side.Queue)) == Match(Snapshot(taker), q').After(trades)
    ensures |q'| <= |old(side.Queue)| && (taker.qty > 0 ==> |q'| < |old(side.Queue)|)
    ensures Tally(nodes, gone', q', before, repr)
  {
    ghost var left;
    trades, q', repr, left := SweepOut(side, level, taker);
    gone' := gone + left;
    TallySets(nodes, gone, left, old(NodesOf(side.Queue)), NodesOf(q'));
  }

  /** One sweep on its own: `left` are the nodes that left. */
  method SweepOut(side: LevelMap, level: PriceLevel, taker: OrderNode)
    returns (trades: seq<Trade>, ghost q': seq<Order>, ghost repr: set<object>, ghost left: set<OrderNode>)
    requires side.Valid() && OrderBook.Best(side, level)
    requires taker !in side.Repr && taker.qty > 0 && Crosses(taker.side, taker.price, level.price)
    modifies level.Repr, taker`qty
    ensures side.HoldsBut(level, q', repr) && repr <= old(side.Repr)
    ensures old(Match(Snapshot(taker), side.Queue)) == Match(Snapshot(taker), q').After(trades)
    ensures |q'| <= |old(side.Queue)| && (taker.qty > 0 ==> |q'| < |old(side.Queue)|)
    ensures NodesOf(old(side.Queue)) <= left + NodesOf(q')
    ensures forall n :: n in left ==> Gone(n, old(side.Repr), repr)
  {
    ghost var o, at, owned := Snapshot(taker), level.Queue, level.Repr;
    q' := Swept(o, side.Queue);
    assert side as object !in {level, taker};
    SweptMatch(side.side, o, side.Queue);
    SweptNodes(side.side, o, side.Queue);
    trades := SweepFrom(side, level, taker);
    left := NodesOf(at) - NodesOf(level.Queue);
    repr := side.Repr - (owned - level.Repr);
    GoneFrom(at, level.Queue, owned, level.Repr, side.Repr);
  }

  /** What has left a level has left everything around it. */
  lemma GoneFrom(q: seq<Order>, q': seq<Order>, owned: set<object>, kept: set<object>, before: set<object>)
    requires AllGone(q, q', owned, kept) && owned <= before
    ensures forall n :: n in NodesOf(q) - NodesOf(q') ==> Gone(n, before, before - (owned - kept))
  {
  }

  method SweepFrom(side: LevelMap, level: PriceLevel, taker: OrderNode) returns (trades: seq<Trade>)
    requires side.Valid() && OrderBook.Best(side, level)
    requires taker !in side.Repr && taker.qty > 0 && Crosses(taker.side, taker.price, level.price)
    modifies level.Repr, taker`qty
    ensures level.Repr <= old(level.Repr)
    ensures Outcome(trades, level.Queue, taker.qty) == old(Match(Snapshot(taker), level.Queue))
    ensures AllGone(old(level.Queue), level.Queue, old(level.Repr), level.Repr)
    ensures side.HoldsBut(level, old(Swept(Snapshot(taker), side.Queue)), side.Repr - (old(level.Repr) - level.Repr))
  {
    ghost var q' := Swept(Snapshot(taker), side.Queue);
    SweptChanges(side, Snapshot(taker));
    trades := SweepLevel(level, taker);
    side.LevelChangedBut(level, q', side.Repr - (old(level.Repr) - level.Repr));
  }

  lemma SweptChanges(side: LevelMap, o: Order)
    requires side.Valid() && side.Queue != [] && o.qty > 0 && Crosses(o.side, o.price, side.Queue[0].price)
    ensures var q, p := side.Queue, side.Queue[0].price;
            var q' := Swept(o, q);
            && LevelMap.ChangesOnly(side.side, side.levels, p, q, q')
            && AtPrice(q', p) == Match(o, AtPrice(q, p)).rest
  {
    var q, p := side.Queue, side.Queue[0].price;
    SweptKeepsQueue(side.side, o, q);
    forall p' ensures AtPrice(Swept(o, q), p') == if p' == p then Match(o, AtPrice(q, p)).rest else AtPrice(q, p') {
      SweptAtPrice(side.side, o, q, p');
    }
  }

  ghost predicate NothingCrosses(taker: OrderNode, side: LevelMap)
    reads taker, side
  {
    side.Queue == [] || !Crosses(taker.side, taker.price, side.Queue[0].price)
  }

  class MatchingEngine {
    const book: OrderBook

    ghost predicate Valid()
      reads book.bids, book.asks, book.bids.Repr, book.asks.Repr
    {
      book.Valid()
    }

    constructor ()
      ensures Valid() && book.State() == EMPTY_BOOK && fresh(book.Repr())
    {
      book := new OrderBook();
    }

    /** Submit an order: trade what crosses, rest what is left.
        Every maker that leaves the book is filled, unlinked and no longer part of the engine. */
    method ProcessLimitOrder(incoming: OrderNode) returns (trades: seq<Trade>)
      requires Valid() && incoming !in book.Repr()
      modifies book.Repr(), incoming`qty, incoming`prev, incoming`next
      ensures Valid() && forall o :: o in book.Repr() ==> o in old(book.Repr()) || o == incoming || fresh(o)
      ensures (book.State(), trades) == old(Submit(book.State(), Snapshot(incoming)))
      ensures incoming.qty == old(Match(Snapshot(incoming), book.State().On(incoming.side.Opposite()))).left
      ensures incoming in book.Repr() <==> incoming.qty > 0
      ensures Snapshot(incoming).(qty := 0) == old(Snapshot(incoming).(qty := 0))
      ensures incoming.qty == 0 ==> incoming.prev == old(incoming.prev) && incoming.next == old(incoming.next)
      ensures AllGone(old(book.State().On(incoming.side.Opposite())), book.State().On(incoming.side.Opposite()),
                      old(book.Repr()), book.Repr())
    {
      trades := MatchOrder(incoming);
      SubmitIs(old(book.State()), old(Snapshot(incoming)), book.State(), trades, Snapshot(incoming));
      RestRemainder(incoming);
    }

    /** A submission is a match and then a rest. */
    lemma SubmitIs(b: Book, o: Order, matched: Book, trades: seq<Trade>, o': Order)
      requires Outcome(trades, matched.On(o.side.Opposite()), o'.qty) == Match(o, b.On(o.side.Opposite()))
      requires matched.On(o.side) == b.On(o.side) && o' == o.(qty := o'.qty)
      ensures Submit(b, o) == (Rest(matched, o'), trades)
      ensures Rest(matched, o').On(o.side.Opposite()) == matched.On(o.side.Opposite())
    {
    }

    method RestRemainder(incoming: OrderNode)
      requires Valid() && incoming !in book.Repr()
      modifies book.Repr(), incoming`prev, incoming`next
      ensures Valid() && forall o :: o in book.Repr() ==> o in old(book.Repr()) || o == incoming || fresh(o)
      ensures book.Repr() >= old(book.Repr()) && (incoming in book.Repr() <==> incoming.qty > 0)
      ensures Snapshot(incoming) == old(Snapshot(incoming)) && (incoming.qty == 0 ==> unchanged(incoming))
      ensures book.State() == old(Rest(book.State(), Snapshot(incoming)))
    {
      if incoming.qty > 0 {
        book.InsertOrder(incoming);
      }
    }

    method MatchOrder(incoming: OrderNode) returns (trades: seq<Trade>)
      requires Valid() && incoming !in book.Repr()
      modifies book.Repr(), incoming`qty
      ensures Valid() && book.Repr() <= old(book.Repr())
      ensures var opposite := incoming.side.Opposite();
              && Outcome(trades, book.State().On(opposite), incoming.qty)
                  == old(Match(Snapshot(incoming), book.State().On(opposite)))
              && book.State().On(incoming.side) == old(book.State().On(incoming.side))
              && AllGone(old(book.State().On(opposite)), book.State().On(opposite), old(book.Repr()), book.Repr())
    {
      if incoming.side.Buy? {
        trades := MatchBuyOrder(incoming);
      } else {
        trades := MatchSellOrder(incoming);
      }
    }

    /** Sweep the asks from the lowest price up to the buyer's limit. */
    method MatchBuyOrder(incoming: OrderNode) returns (trades: seq<Trade>)
      requires book.asks.Valid() && incoming !in book.asks.Repr && incoming.side.Buy?
      modifies book.asks, book.asks.Repr, incoming`qty
      ensures book.asks.Valid() && book.asks.Repr <= old(book.asks.Repr)
      ensures Outcome(trades, book.asks.Queue, incoming.qty) == old(Match(Snapshot(incoming), book.asks.Queue))
      ensures AllGone(old(book.asks.Queue), book.asks.Queue, old(book.asks.Repr), book.asks.Repr)
    {
      trades := [];
      ghost var nodes, gone: set<OrderNode> := NodesOf(book.asks.Queue), {};
      var more := true;
      while incoming.qty > 0 && more
        invariant book.asks.Valid() && book.asks.Repr <= old(book.asks.Repr)
        invariant old(Match(Snapshot(incoming), book.asks.Queue)) == Match(Snapshot(incoming), book.asks.Queue).After(trades)
        invariant Tally(nodes, gone, book.asks.Queue, old(book.asks.Repr), book.asks.Repr)
        invariant more || NothingCrosses(incoming, book.asks)
        decreases |book.asks.Queue|, incoming.qty, more
      {
        more, trades, gone := BuyRound(incoming, trades, nodes, gone, old(book.asks.Repr));
      }
      NothingMore(Snapshot(incoming), book.asks.Queue, trades);
    }

    method BuyRound(incoming: OrderNode, earlier: seq<Trade>,
                    ghost nodes: set<OrderNode>, ghost gone: set<OrderNode>, ghost before: set<object>)
      returns (more: bool, trades: seq<Trade>, ghost gone': set<OrderNode>)
      requires book.asks.Valid() && book.asks.Repr <= before && book.asks !in before && incoming !in before
      requires incoming.side.Buy? && incoming.qty > 0 && Tally(nodes, gone, book.asks.Queue, before, book.asks.Repr)
      modifies book.asks, book.asks.Repr, incoming`qty
      ensures book.asks.Valid() && book.asks.Repr <= old(book.asks.Repr)
      ensures old(Match(Snapshot(incoming), book.asks.Queue)).After(earlier)
          == Match(Snapshot(incoming), book.asks.Queue).After(trades)
      ensures Tally(nodes, gone', book.asks.Queue, before, book.asks.Repr)
      ensures if more
          then |book.asks.Queue| <= |old(book.asks.Queue)| && (incoming.qty > 0 ==> |book.asks.Queue| < |old(book.asks.Queue)|)
          else NothingCrosses(incoming, book.asks) && book.asks.Queue == old(book.asks.Queue) && incoming.qty == old(incoming.qty)
    {
      trades, gone' := earlier, gone;
      var bestAsk := book.GetBestAsk();
      more := bestAsk != null && bestAsk.price <= incoming.price;
      if more {
        var round;
        round, gone' := SweepBest(book.asks, bestAsk, incoming, nodes, gone, before);
        AfterTwice(Match(Snapshot(incoming), book.asks.Queue), earlier, round);
        trades := earlier + round;
      }
    }

    /** Sweep the bids from the highest price down to the seller's limit. */
    method MatchSellOrder(incoming: OrderNode) returns (trades: seq<Trade>)
      requires book.bids.Valid() && incoming !in book.bids.Repr && incoming.side.Sell?
      modifies book.bids, book.bids.Repr, incoming`qty
      ensures book.bids.Valid() && book.bids.Repr <= old(book.bids.Repr)
      ensures Outcome(trades, book.bids.Queue, incoming.qty) == old(Match(Snapshot(incoming), book.bids.Queue))
      ensures AllGone(old(book.bids.Queue), book.bids.Queue, old(book.bids.Repr), book.bids.Repr)
    {
      trades := [];
      ghost var nodes, gone: set<OrderNode> := NodesOf(book.bids.Queue), {};
      var more := true;
      while incoming.qty > 0 && more
        invariant book.bids.Valid() && book.bids.Repr <= old(book.bids.Repr)
        invariant old(Match(Snapshot(incoming), book.bids.Queue)) == Match(Snapshot(incoming), book.bids.Queue).After(trades)
        invariant Tally(nodes, gone, book.bids.Queue, old(book.bids.Repr), book.bids.Repr)
        invariant more || NothingCrosses(incoming, book.bids)
        decreases |book.bids.Queue|, incoming.qty, more
      {
        more, trades, gone := SellRound(incoming, trades, nodes, gone, old(book.bids.Repr));
      }
      NothingMore(Snapshot(incoming), book.bids.Queue, trades);
    }

    method SellRound(incoming: OrderNode, earlier: seq<Trade>,
                     ghost nodes: set<OrderNode>, ghost gone: set<OrderNode>, ghost before: set<object>)
      returns (more: bool, trades: seq<Trade>, ghost gone': set<OrderNode>)
      requires book.bids.Valid() && book.bids.Repr <= before && book.bids !in before && incoming !in before
      requires incoming.side.Sell? && incoming.qty > 0 && Tally(nodes, gone, book.bids.Queue, before, book.bids.Repr)
      modifies book.bids, book.bids.Repr, incoming`qty
      ensures book.bids.Valid() && book.bids.Repr <= old(book.bids.Repr)
      ensures old(Match(Snapshot(incoming), book.bids.Queue)).After(earlier)
          == Match(Snapshot(incoming), book.bids.Queue).After(trades)
      ensures Tally(nodes, gone', book.bids.Queue, before, book.bids.Repr)
      ensures if more
          then |book.bids.Queue| <= |old(book.bids.Queue)| && (incoming.qty > 0 ==> |book.bids.Queue| < |old(book.bids.Queue)|)
          else NothingCrosses(incoming, book.bids) && book.bids.Queue == old(book.bids.Queue) && incoming.qty == old(incoming.qty)
    {
      trades, gone' := earlier, gone;
      var bestBid := book.GetBestBid();
      more := bestBid != null && bestBid.price >= incoming.price;
      if more {
        var round;
        round, gone' := SweepBest(book.bids, bestBid, incoming, nodes, gone, before);
        AfterTwice(Match(Snapshot(incoming), book.bids.Queue), earlier, round);
        trades := earlier + round;
      }
    }

    method CancelOrder(node: OrderNode)
      requires Valid() && (book.Rests(node) || book.Stale(node) || !book.HasLevel(node.side, node.price))
      modifies book.Repr(), node`prev, node`next
      ensures Valid() && book.State() == old(book.Cancelled(node)) && book.Repr() <= old(book.Repr())
      ensures old(book.Rests(node) || !book.HasLevel(node.side, node.price))
          ==> book.State() == old(Cancel(book.State(), node))
      ensures old(book.Rests(node)) ==> node !in book.Repr() && Unlinked(node)
      ensures Snapshot(node) == old(Snapshot(node))
    {
      book.CancelOrder(node);
    }
  }
}
