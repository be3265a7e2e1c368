/** The buy sweep and the sell sweep are one algorithm: reflecting prices and
    swapping sides turns any run into a run with the same fills. */
module Mirror {
  import opened Types
  import opened OrderNodes
  import opened PriceTime
  import opened PriceTimeFacts
  import opened BookRuns

  function Reflect(p: Price): (r: Price)
    ensures MAX_PRICE - r == p
  {
    MAX_PRICE - p
  }

  function MirrorOrder(o: Order): Order {
    o.(price := Reflect(o.price), side := o.side.Opposite())
  }

  function MirrorQueue(q: seq<Order>): (r: seq<Order>)
    ensures |r| == |q|
  {
    if q == [] then [] else [MirrorOrder(q[0])] + MirrorQueue(q[1..])
  }

  function MirrorTrades(trades: seq<Trade>): (r: seq<Trade>)
    ensures |r| == |trades|
  {
    if trades == [] then []
    else [trades[0].(price := Reflect(trades[0].price))] + MirrorTrades(trades[1..])
  }

  function MirrorBook(b: Book): Book {
    Book(MirrorQueue(b.asks), MirrorQueue(b.bids))
  }

  function MirrorEvent(e: Event): Event {
    if e.Submission? then Submission(MirrorOrder(e.order)) else e
  }

  function MirrorEvents(es: seq<Event>): (r: seq<Event>)
    ensures |r| == |es|
  {
    if es == [] then [] else MirrorEvents(es[..|es| - 1]) + [MirrorEvent(es[|es| - 1])]
  }

  // ----- Reflecting twice changes nothing -----

  lemma {:induction false} MirrorQueueTwice(q: seq<Order>)
    ensures MirrorQueue(MirrorQueue(q)) == q
  {
    if q != [] {
      assert MirrorQueue(q)[1..] == MirrorQueue(q[1..]);
      MirrorQueueTwice(q[1..]);
    }
  }

  lemma {:induction false} MirrorTradesTwice(trades: seq<Trade>)
    ensures MirrorTrades(MirrorTrades(trades)) == trades
  {
    if trades != [] {
      assert MirrorTrades(trades)[1..] == MirrorTrades(trades[1..]);
      MirrorTradesTwice(trades[1..]);
    }
  }

  // ----- Reflection and the operations -----

  lemma {:induction false} MirrorTradesAppend(a: seq<Trade>, b: seq<Trade>)
    ensures MirrorTrades(a + b) == MirrorTrades(a) + MirrorTrades(b)
  {
    if a == [] {
      assert a + b == b;
    } else {
      assert (a + b)[1..] == a[1..] + b;
      MirrorTradesAppend(a[1..], b);
    }
  }

  lemma {:induction false} MirrorMatch(o: Order, makers: seq<Order>)
    ensures var r, m := Match(o, makers), Match(MirrorOrder(o), MirrorQueue(makers));
            m.trades == MirrorTrades(r.trades) && m.rest == MirrorQueue(r.rest) && m.left == r.left
    decreases |makers|, o.qty
  {
    if o.qty > 0 && makers != [] && Crosses(o.side, o.price, makers[0].price) {
      var t := Min(o.qty, makers[0].qty);
      var o', makers' := o.(qty := o.qty - t), Served(makers, t);
      var trade := Trade(makers[0].id, o.id, makers[0].price, t);
      MatchStep(o, makers, t, trade, o', makers');
      MirrorServed(makers, t);
      MatchStep(MirrorOrder(o), MirrorQueue(makers), t, trade.(price := Reflect(trade.price)),
                MirrorOrder(o'), MirrorQueue(makers'));
      MirrorMatch(o', makers');
      MirrorTradesAppend([trade], Match(o', makers').trades);
    }
  }

  lemma MirrorServed(q: seq<Order>, t: Quantity)
    requires q != [] && t <= q[0].qty
    ensures MirrorQueue(Served(q, t)) == Served(MirrorQueue(q), t)
  {
    var m := MirrorQueue(q);
    assert m[0] == MirrorOrder(q[0]) && m[1..] == MirrorQueue(q[1..]);
    if t < q[0].qty {
      var x := q[0].(qty := q[0].qty - t);
      ServedIs(q, t, x);
      ServedIs(m, t, MirrorOrder(x));
      MirrorCons(x, q[1..]);
    }
  }

  lemma MirrorCons(x: Order, q: seq<Order>)
    ensures MirrorQueue([x] + q) == [MirrorOrder(x)] + MirrorQueue(q)
  {
    assert ([x] + q)[1..] == q;
  }

  lemma {:induction false} MirrorInsert(q: seq<Order>, o: Order)
    ensures MirrorQueue(Insert(q, o)) == Insert(MirrorQueue(q), MirrorOrder(o))
  {
    if q == [] {
    } else {
      assert MirrorQueue(q)[1..] == MirrorQueue(q[1..]);
      if Better(o.side, o.price, q[0].price) {
        assert ([o] + q)[1..] == q;
      } else {
        MirrorInsert(q[1..], o);
        assert ([q[0]] + Insert(q[1..], o))[1..] == Insert(q[1..], o);
      }
    }
  }

  lemma {:induction false} MirrorWithout(q: seq<Order>, node: OrderNode)
    ensures MirrorQueue(Without(q, node)) == Without(MirrorQueue(q), node)
  {
    if q != [] {
      assert MirrorQueue(q)[1..] == MirrorQueue(q[1..]);
      MirrorWithout(q[1..], node);
    }
  }

  lemma {:induction false} MirrorReduced(q: seq<Order>, node: OrderNode, newQty: Quantity)
    ensures MirrorQueue(Reduced(q, node, newQty)) == Reduced(MirrorQueue(q), node, newQty)
  {
    if q != [] {
      assert MirrorQueue(q)[1..] == MirrorQueue(q[1..]);
      MirrorReduced(q[1..], node, newQty);
      assert Reduced(q, node, newQty)[1..] == Reduced(q[1..], node, newQty);
    }
  }

  lemma MirrorStep(b: Book, e: Event)
    ensures var (b', trades) := Step(b, e);
            Step(MirrorBook(b), MirrorEvent(e)) == (MirrorBook(b'), MirrorTrades(trades))
  {
    match e
    case Submission(o) =>
      var r := Match(o, b.On(o.side.Opposite()));
      MirrorMatch(o, b.On(o.side.Opposite()));
      MirrorInsert(b.On(o.side), o.(qty := r.left));
    case Cancellation(node) =>
      MirrorWithout(b.bids, node);
      MirrorWithout(b.asks, node);
    case Reduction(node, newQty) =>
      MirrorReduced(b.bids, node, newQty);
      MirrorReduced(b.asks, node, newQty);
  }

  /** The mirrored run ends in the mirrored book, with the mirrored tape. */
  lemma {:induction false} MirrorRun(es: seq<Event>)
    ensures var (b, tape) := Run(es);
            Run(MirrorEvents(es)) == (MirrorBook(b), MirrorTrades(tape))
  {
    if es != [] {
      var before, e := es[..|es| - 1], es[|es| - 1];
      MirrorRun(before);
      MirrorStep(After(before), e);
      MirrorTradesAppend(Run(before).1, Step(After(before), e).1);
      var ms := MirrorEvents(es);
      assert ms[..|ms| - 1] == MirrorEvents(before) && ms[|ms| - 1] == MirrorEvent(e);
    }
  }

  /** Two runs mirror each other or not: the mirrored run ends with the mirrored book and tape exactly
      when the run itself ends with the book and tape. */
  lemma MirrorRunIff(es: seq<Event>, b: Book, tape: seq<Trade>)
    ensures Run(es) == (b, tape) <==> Run(MirrorEvents(es)) == (MirrorBook(b), MirrorTrades(tape))
  {
    MirrorRun(es);
    var (b', tape') := Run(es);
    MirrorTradesTwice(tape);
    MirrorTradesTwice(tape');
    MirrorQueueTwice(b.bids);
    MirrorQueueTwice(b.asks);
    MirrorQueueTwice(b'.bids);
    MirrorQueueTwice(b'.asks);
  }

  lemma {:induction false} MirrorNodes(q: seq<Order>)
    ensures NodesOf(MirrorQueue(q)) == NodesOf(q)
  {
    if q != [] {
      assert MirrorQueue(q)[1..] == MirrorQueue(q[1..]);
      MirrorNodes(q[1..]);
    }
  }

  /** And what a client may do to one book it may do, mirrored, to the other. */
  lemma {:induction false} MirrorLegalIff(es: seq<Event>)
    ensures Legal(MirrorEvents(es)) <==> Legal(es)
  {
    if es != [] {
      var before, e := es[..|es| - 1], es[|es| - 1];
      MirrorLegalIff(before);
      MirrorRun(before);
      MirrorNodes(After(before).bids);
      MirrorNodes(After(before).asks);
      var ms := MirrorEvents(es);
      assert ms[..|ms| - 1] == MirrorEvents(before) && ms[|ms| - 1] == MirrorEvent(e);
    }
  }
}
