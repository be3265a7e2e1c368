/** Whole runs of the reference book: submissions, cancellations and reductions from empty. */
module BookRuns {
  import opened Types
  import opened OrderNodes
  import opened PriceTime
  import opened PriceTimeFacts
  import opened MatchLaws

  datatype Event =
    | Submission(order: Order)
    | Cancellation(node: OrderNode)
    | Reduction(node: OrderNode, newQty: Quantity)

  function Step(b: Book, e: Event): (Book, seq<Trade>) {
    match e
    case Submission(o) => Submit(b, o)
    case Cancellation(node) => (Cancel(b, node), [])
    case Reduction(node, newQty) => (Reduce(b, node, newQty), [])
  }

  /** The book and the tape of trades after the events `es`. */
  function Run(es: seq<Event>): (Book, seq<Trade>) {
    if es == [] then (EMPTY_BOOK, [])
    else
      var (b, tape) := Run(es[..|es| - 1]);
      var (b', trades) := Step(b, es[|es| - 1]);
      (b', tape + trades)
  }

  function After(es: seq<Event>): Book {
    Run(es).0
  }

  /** The caller's one duty: never submit a node that is resting. */
  ghost predicate Allowed(b: Book, e: Event) {
    e.Submission? ==> e.order.node !in NodesOf(b.bids) && e.order.node !in NodesOf(b.asks)
  }

  ghost predicate Legal(es: seq<Event>) {
    es == [] || (Legal(es[..|es| - 1]) && Allowed(After(es[..|es| - 1]), es[|es| - 1]))
  }

  // ----- Structure -----

  /** One submission, in full: the other side is what the sweep leaves; what is left of the order stands on
      its own side behind every order at its price or a better one and ahead of all others. */
  lemma SubmitShape(b: Book, o: Order) returns (k: nat)
    requires WellFormed(b)
    ensures var r, q, (b', trades) := Match(o, b.On(o.side.Opposite())), b.On(o.side), Submit(b, o);
            && trades == r.trades && b'.On(o.side.Opposite()) == r.rest
            && k <= |q| && b'.On(o.side) == (if r.left == 0 then q else q[..k] + [o.(qty := r.left)] + q[k..])
            && (forall i :: 0 <= i < k ==> if o.side.Buy? then q[i].price >= o.price else q[i].price <= o.price)
            && (forall i :: k <= i < |q| ==> if o.side.Buy? then q[i].price < o.price else q[i].price > o.price)
  {
    k := InsertShape(o.side, b.On(o.side), o.(qty := Match(o, b.On(o.side.Opposite())).left));
  }

  lemma SubmitKeepsWellFormed(b: Book, o: Order)
    requires WellFormed(b) && Allowed(b, Submission(o))
    ensures WellFormed(Submit(b, o).0)
  {
    var opposite := o.side.Opposite();
    var r := Match(o, b.On(opposite));
    MatchKeepsQueue(opposite, o, b.On(opposite));
    if r.left > 0 {
      InsertKeepsQueue(o.side, b.On(o.side), o.(qty := r.left));
    }
  }

  lemma StepKeepsWellFormed(b: Book, e: Event)
    requires WellFormed(b) && Allowed(b, e)
    ensures WellFormed(Step(b, e).0)
  {
    match e
    case Submission(o) =>
      SubmitKeepsWellFormed(b, o);
    case Cancellation(node) =>
      WithoutKeepsQueue(Buy, b.bids, node);
      WithoutKeepsQueue(Sell, b.asks, node);
    case Reduction(node, newQty) =>
      ReducedKeepsQueue(Buy, b.bids, node, newQty);
      ReducedKeepsQueue(Sell, b.asks, node, newQty);
  }

  lemma {:induction false} RunsAreWellFormed(es: seq<Event>)
    requires Legal(es)
    ensures WellFormed(After(es))
  {
    if es != [] {
      RunsAreWellFormed(es[..|es| - 1]);
      StepKeepsWellFormed(After(es[..|es| - 1]), es[|es| - 1]);
    }
  }

  // ----- The book is never crossed -----

  ghost predicate Uncrossed(b: Book) {
    forall i, j :: 0 <= i < |b.bids| && 0 <= j < |b.asks| ==> b.bids[i].price < b.asks[j].price
  }

  /** No order of `q`, resting on the side opposite to `side`, is acceptable at `limit`. */
  ghost predicate NoneCrosses(side: Side, limit: Price, q: seq<Order>) {
    forall i :: 0 <= i < |q| ==> !Crosses(side, limit, q[i].price)
  }

  /** Uncrossed, seen from either side. */
  lemma UncrossedFrom(side: Side, b: Book)
    ensures Uncrossed(b) <==> NoneCrossesAny(b.On(side), side, b.On(side.Opposite()))
  {
    var own, other := b.On(side), b.On(side.Opposite());
    if Uncrossed(b) {
      forall i, j | 0 <= i < |own| && 0 <= j < |other| ensures !Crosses(side, own[i].price, other[j].price) {
        assert if side.Buy? then own[i] == b.bids[i] && other[j] == b.asks[j]
            else own[i] == b.asks[i] && other[j] == b.bids[j];
      }
    } else {
      var i, j :| 0 <= i < |b.bids| && 0 <= j < |b.asks| && b.bids[i].price >= b.asks[j].price;
      assert !NoneCrosses(Buy, b.bids[i].price, b.asks) by {
        assert Crosses(Buy, b.bids[i].price, b.asks[j].price);
      }
      assert !NoneCrosses(Sell, b.asks[j].price, b.bids) by {
        assert Crosses(Sell, b.asks[j].price, b.bids[i].price);
      }
    }
  }

  /** Resting an order directly leaves the book uncrossed exactly when it was and the order crosses nothing. */
  lemma InsertUncrossedIff(b: Book, o: Order)
    requires Sorted(o.side, b.On(o.side))
    ensures Uncrossed(b.With(o.side, Insert(b.On(o.side), o)))
       <==> Uncrossed(b) && NoneCrosses(o.side, o.price, b.On(o.side.Opposite()))
  {
    UncrossedFrom(o.side, b);
    UncrossedFrom(o.side, b.With(o.side, Insert(b.On(o.side), o)));
    InsertForAll(b.On(o.side), o, b.On(o.side.Opposite()));
  }

  /** So resting an order without matching it first can cross the book: a bid at 101 over an ask at 100. */
  lemma RawInsertCrosses(n1: OrderNode, n2: OrderNode)
    ensures var b := Book(Insert([], Order(n1, 1, 101, 1, Buy)), []);
            Uncrossed(b) && !Uncrossed(b.With(Sell, Insert(b.On(Sell), Order(n2, 2, 100, 1, Sell))))
  {
    var b := Book(Insert([], Order(n1, 1, 101, 1, Buy)), []);
    InsertUncrossedIff(b, Order(n2, 2, 100, 1, Sell));
    assert Crosses(Sell, 100, b.bids[0].price);
  }

  ghost predicate NoneCrossesAny(q: seq<Order>, side: Side, others: seq<Order>) {
    forall i :: 0 <= i < |q| ==> NoneCrosses(side, q[i].price, others)
  }

  lemma InsertForAll(q: seq<Order>, o: Order, others: seq<Order>)
    requires Sorted(o.side, q)
    ensures NoneCrossesAny(Insert(q, o), o.side, others)
        <==> NoneCrossesAny(q, o.side, others) && NoneCrosses(o.side, o.price, others)
  {
    var k := InsertShape(o.side, q, o);
    var q' := Insert(q, o);
    if NoneCrossesAny(q', o.side, others) {
      forall i | 0 <= i < |q| ensures NoneCrosses(o.side, q[i].price, others) {
        assert q[i] == q'[if i < k then i else i + 1];
      }
      assert q'[k] == o;
    } else {
      var i :| 0 <= i < |q'| && !NoneCrosses(o.side, q'[i].price, others);
      assert i != k ==> q'[i] == q[if i < k then i else i - 1];
    }
  }

  /** What a sweep with quantity to spare leaves behind is beyond the taker's limit. */
  lemma LeftoverCrossesNothing(o: Order, makers: seq<Order>)
    requires Queue(o.side.Opposite(), makers) && Match(o, makers).left > 0
    ensures NoneCrosses(o.side, o.price, Match(o, makers).rest)
  {
    SweepIsExhaustive(o, makers);
    MatchKeepsQueue(o.side.Opposite(), o, makers);
    var rest := Match(o, makers).rest;
    forall i | 0 <= i < |rest| ensures !Crosses(o.side, o.price, rest[i].price) {
      assert i > 0 ==> !Better(o.side.Opposite(), rest[i].price, rest[0].price);
    }
  }

  lemma SuffixKeepsUncrossed(b: Book, side: Side, k: nat, q: seq<Order>)
    requires Uncrossed(b) && k + |q| == |b.On(side)|
    requires forall i :: 0 <= i < |q| ==> SameButQty(q[i], b.On(side)[k + i])
    ensures Uncrossed(b.With(side, q))
  {
  }

  lemma SubmitKeepsUncrossed(b: Book, o: Order)
    requires WellFormed(b) && Allowed(b, Submission(o)) && Uncrossed(b)
    ensures Uncrossed(Submit(b, o).0)
  {
    var opposite := o.side.Opposite();
    var makers := b.On(opposite);
    var r := Match(o, makers);
    var k := MatchSuffix(o, makers);
    var matched := b.With(opposite, r.rest);
    SuffixKeepsUncrossed(b, opposite, k, r.rest);
    if r.left > 0 {
      LeftoverCrossesNothing(o, makers);
      InsertUncrossedIff(matched, o.(qty := r.left));
    }
  }

  lemma StepKeepsUncrossed(b: Book, e: Event)
    requires WellFormed(b) && Allowed(b, e) && Uncrossed(b)
    ensures Uncrossed(Step(b, e).0)
  {
    match e
    case Submission(o) =>
      SubmitKeepsUncrossed(b, o);
    case Cancellation(node) =>
      WithoutMembers(b.bids, node);
      WithoutMembers(b.asks, node);
    case Reduction(node, newQty) =>
      ReducedShape(b.bids, node, newQty);
      ReducedShape(b.asks, node, newQty);
  }

  /** In every reachable book each bid is strictly below each ask. */
  lemma {:induction false} NeverCrossed(es: seq<Event>)
    requires Legal(es)
    ensures Uncrossed(After(es))
  {
    if es != [] {
      var before := es[..|es| - 1];
      RunsAreWellFormed(before);
      NeverCrossed(before);
      StepKeepsUncrossed(After(before), es[|es| - 1]);
    }
  }

  // ----- Positive quantities -----

  ghost predicate AllPositive(q: seq<Order>) {
    forall i :: 0 <= i < |q| ==> q[i].qty > 0
  }

  ghost predicate BookPositive(b: Book) {
    AllPositive(b.bids) && AllPositive(b.asks)
  }

  ghost predicate NoZeroReduction(es: seq<Event>) {
    forall i :: 0 <= i < |es| && es[i].Reduction? ==> es[i].newQty > 0
  }

  lemma {:induction false} MatchKeepsPositive(o: Order, makers: seq<Order>)
    requires AllPositive(makers)
    ensures AllPositive(Match(o, makers).rest)
    ensures forall k :: 0 <= k < |Match(o, makers).trades| ==> Match(o, makers).trades[k].qty > 0
    decreases makers
  {
    if o.qty > 0 && makers != [] && Crosses(o.side, o.price, makers[0].price) && o.qty >= makers[0].qty {
      MatchKeepsPositive(o.(qty := o.qty - makers[0].qty), makers[1..]);
    }
  }

  lemma InsertKeepsPositive(q: seq<Order>, o: Order)
    requires AllPositive(q) && o.qty > 0
    ensures AllPositive(Insert(q, o))
  {
    InsertMembers(q, o);
  }

  lemma StepKeepsPositive(b: Book, e: Event)
    requires WellFormed(b) && BookPositive(b) && (e.Reduction? ==> e.newQty > 0)
    ensures BookPositive(Step(b, e).0)
    ensures forall k :: 0 <= k < |Step(b, e).1| ==> Step(b, e).1[k].qty > 0
  {
    match e
    case Submission(o) =>
      MatchKeepsPositive(o, b.On(o.side.Opposite()));
      var r := Match(o, b.On(o.side.Opposite()));
      if r.left > 0 {
        InsertKeepsPositive(b.On(o.side), o.(qty := r.left));
      }
    case Cancellation(node) =>
      WithoutMembers(b.bids, node);
      WithoutMembers(b.asks, node);
    case Reduction(node, newQty) =>
      ReducedShape(b.bids, node, newQty);
      ReducedShape(b.asks, node, newQty);
  }

  /** If nothing is ever reduced to zero, no resting order is ever empty and no trade is. */
  lemma {:induction false} RunsStayPositive(es: seq<Event>)
    requires Legal(es) && NoZeroReduction(es)
    ensures BookPositive(After(es))
    ensures forall k :: 0 <= k < |Run(es).1| ==> Run(es).1[k].qty > 0
  {
    if es != [] {
      var before := es[..|es| - 1];
      RunsStayPositive(before);
      RunsAreWellFormed(before);
      StepKeepsPositive(After(before), es[|es| - 1]);
    }
  }

  /** A reduction to zero really does lead to an empty trade: sell 1, reduce it to 0, buy 1. */
  lemma ZeroReductionTrades(n1: OrderNode, n2: OrderNode)
    requires n1 != n2
    ensures var es := [Submission(Order(n1, 1, 100, 1, Sell)), Reduction(n1, 0), Submission(Order(n2, 2, 100, 1, Buy))];
            Legal(es) && Run(es).1 == [Trade(1, 2, 100, 0)] && After(es).bids == [Order(n2, 2, 100, 1, Buy)]
  {
    var s, r, t := Submission(Order(n1, 1, 100, 1, Sell)), Reduction(n1, 0), Submission(Order(n2, 2, 100, 1, Buy));
    RunSnoc([], s);
    RunSnoc([s], r);
    RunSnoc([s, r], t);
    assert [] + [s] == [s] && [s] + [r] == [s, r] && [s, r] + [t] == [s, r, t];
    var o := s.order;
    assert Submit(EMPTY_BOOK, o) == (Book([], [o]), []);
    assert Reduced([o], n1, 0) == [o.(qty := 0)];
    assert Match(t.order, [o.(qty := 0)]) == Outcome([Trade(1, 2, 100, 0)], [], 1);
  }

  lemma RunSnoc(es: seq<Event>, e: Event)
    ensures Run(es + [e]) == (Step(After(es), e).0, Run(es).1 + Step(After(es), e).1)
    ensures Legal(es + [e]) <==> Legal(es) && Allowed(After(es), e)
  {
    assert (es + [e])[..|es|] == es;
  }
}
