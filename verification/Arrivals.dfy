/** Time priority over whole runs: at one price, orders stay in the order they arrived. */
module Arrivals {
  import opened Types
  import opened OrderNodes
  import opened PriceTime
  import opened PriceTimeFacts
  import opened BookRuns
  import opened MatchLaws

  /** When `node` was last submitted: the index of that event, or -1. */
  ghost function Arrived(es: seq<Event>, node: OrderNode): int {
    if es == [] then -1
    else if es[|es| - 1].Submission? && es[|es| - 1].order.node == node then |es| - 1
    else Arrived(es[..|es| - 1], node)
  }

  lemma {:induction false} ArrivedBound(es: seq<Event>, node: OrderNode)
    ensures -1 <= Arrived(es, node) < |es|
  {
    if es != [] {
      ArrivedBound(es[..|es| - 1], node);
    }
  }

  /** Every order of `q` has been submitted; among equal prices the earlier submission is ahead. */
  ghost predicate InArrivalOrder(es: seq<Event>, q: seq<Order>) {
    && (forall i :: 0 <= i < |q| ==> Arrived(es, q[i].node) >= 0)
    && (forall i, j :: 0 <= i < j < |q| && q[i].price == q[j].price ==> Arrived(es, q[i].node) < Arrived(es, q[j].node))
  }

  lemma SuffixKeepsOrder(es: seq<Event>, q: seq<Order>, k: nat, r: seq<Order>)
    requires InArrivalOrder(es, q) && k + |r| == |q|
    requires forall i :: 0 <= i < |r| ==> SameButQty(r[i], q[k + i])
    ensures InArrivalOrder(es, r)
  {
  }

  lemma ConsInOrder(es: seq<Event>, x: Order, q: seq<Order>)
    requires InArrivalOrder(es, q) && Arrived(es, x.node) >= 0
    requires forall j :: 0 <= j < |q| && q[j].price == x.price ==> Arrived(es, x.node) < Arrived(es, q[j].node)
    ensures InArrivalOrder(es, [x] + q)
  {
    var r := [x] + q;
    assert forall j :: 0 < j < |r| ==> r[j] == q[j - 1];
  }

  lemma TailInOrder(es: seq<Event>, q: seq<Order>)
    requires InArrivalOrder(es, q) && q != []
    ensures InArrivalOrder(es, q[1..]) && Arrived(es, q[0].node) >= 0
    ensures forall j :: 0 <= j < |q[1..]| && q[1..][j].price == q[0].price ==>
        Arrived(es, q[0].node) < Arrived(es, q[1..][j].node)
  {
    assert forall j :: 0 <= j < |q[1..]| ==> q[1..][j] == q[j + 1];
  }

  lemma {:induction false} WithoutInOrder(es: seq<Event>, q: seq<Order>, node: OrderNode)
    requires InArrivalOrder(es, q)
    ensures InArrivalOrder(es, Without(q, node))
  {
    if q != [] {
      TailInOrder(es, q);
      WithoutInOrder(es, q[1..], node);
      WithoutMembers(q[1..], node);
      if q[0].node != node {
        ConsInOrder(es, q[0], Without(q[1..], node));
      }
    }
  }

  lemma ReducedInOrder(es: seq<Event>, q: seq<Order>, node: OrderNode, newQty: Quantity)
    requires InArrivalOrder(es, q)
    ensures InArrivalOrder(es, Reduced(q, node, newQty))
  {
    ReducedShape(q, node, newQty);
    SuffixKeepsOrder(es, q, 0, Reduced(q, node, newQty));
  }

  /** An event other than the submission of the node itself does not change when it arrived. */
  lemma StillInOrder(es: seq<Event>, e: Event, q: seq<Order>)
    requires InArrivalOrder(es, q)
    requires e.Submission? ==> e.order.node !in NodesOf(q)
    ensures InArrivalOrder(es + [e], q)
  {
    assert (es + [e])[..|es|] == es;
    NodesOfMembers(q);
    assert forall i :: 0 <= i < |q| ==> Arrived(es + [e], q[i].node) == Arrived(es, q[i].node);
  }

  /** The newcomer goes behind all orders at its price. */
  lemma {:induction false} InsertInOrder(es: seq<Event>, q: seq<Order>, o: Order)
    requires InArrivalOrder(es, q) && Sorted(o.side, q)
    requires forall i :: 0 <= i < |q| ==> Arrived(es, q[i].node) < Arrived(es, o.node)
    requires Arrived(es, o.node) >= 0
    ensures InArrivalOrder(es, Insert(q, o))
  {
    if q == [] {
    } else if Better(o.side, o.price, q[0].price) {
      assert forall j :: 0 < j < |q| ==> !Better(o.side, q[j].price, q[0].price);
      ConsInOrder(es, o, q);
    } else {
      TailInOrder(es, q);
      InsertInOrder(es, q[1..], o);
      InsertMembers(q[1..], o);
      ConsInOrder(es, q[0], Insert(q[1..], o));
    }
  }

  lemma Earlier(es: seq<Event>, e: Event, q: seq<Order>)
    requires InArrivalOrder(es, q)
    requires e.Submission? ==> e.order.node !in NodesOf(q)
    ensures forall i :: 0 <= i < |q| ==> Arrived(es + [e], q[i].node) < |es|
  {
    assert (es + [e])[..|es|] == es;
    NodesOfMembers(q);
    forall i | 0 <= i < |q| ensures Arrived(es + [e], q[i].node) < |es| {
      ArrivedBound(es, q[i].node);
    }
  }

  ghost predicate BookInOrder(es: seq<Event>, b: Book) {
    InArrivalOrder(es, b.bids) && InArrivalOrder(es, b.asks)
  }

  lemma MatchInOrder(es: seq<Event>, o: Order, makers: seq<Order>)
    requires Queue(o.side.Opposite(), makers) && o.node !in NodesOf(makers) && InArrivalOrder(es, makers)
    ensures InArrivalOrder(es + [Submission(o)], Match(o, makers).rest)
  {
    var k := MatchSuffix(o, makers);
    SuffixKeepsOrder(es, makers, k, Match(o, makers).rest);
    MatchKeepsQueue(o.side.Opposite(), o, makers);
    StillInOrder(es, Submission(o), Match(o, makers).rest);
  }

  lemma InsertedInOrder(es: seq<Event>, own: seq<Order>, o: Order, left: Quantity)
    requires InArrivalOrder(es, own) && Sorted(o.side, own) && o.node !in NodesOf(own)
    ensures InArrivalOrder(es + [Submission(o)], own)
    ensures InArrivalOrder(es + [Submission(o)], Insert(own, o.(qty := left)))
  {
    StillInOrder(es, Submission(o), own);
    Earlier(es, Submission(o), own);
    assert Arrived(es + [Submission(o)], o.node) == |es|;
    InsertInOrder(es + [Submission(o)], own, o.(qty := left));
  }

  lemma SubmitInOrder(es: seq<Event>, b: Book, o: Order)
    requires WellFormed(b) && Allowed(b, Submission(o)) && BookInOrder(es, b)
    ensures BookInOrder(es + [Submission(o)], Submit(b, o).0)
  {
    MatchInOrder(es, o, b.On(o.side.Opposite()));
    InsertedInOrder(es, b.On(o.side), o, Match(o, b.On(o.side.Opposite())).left);
  }

  lemma StepInOrder(es: seq<Event>, b: Book, e: Event)
    requires WellFormed(b) && Allowed(b, e) && BookInOrder(es, b)
    ensures BookInOrder(es + [e], Step(b, e).0)
  {
    match e
    case Submission(o) =>
      SubmitInOrder(es, b, o);
    case Cancellation(node) =>
      WithoutInOrder(es, b.bids, node);
      WithoutInOrder(es, b.asks, node);
      StillInOrder(es, e, Without(b.bids, node));
      StillInOrder(es, e, Without(b.asks, node));
    case Reduction(node, newQty) =>
      ReducedInOrder(es, b.bids, node, newQty);
      ReducedInOrder(es, b.asks, node, newQty);
      StillInOrder(es, e, Reduced(b.bids, node, newQty));
      StillInOrder(es, e, Reduced(b.asks, node, newQty));
  }

  /** In every reachable book the queues are in price-time order. */
  lemma {:induction false} AlwaysPriceTime(es: seq<Event>)
    requires Legal(es)
    ensures WellFormed(After(es)) && BookInOrder(es, After(es))
  {
    RunsAreWellFormed(es);
    if es != [] {
      var before, e := es[..|es| - 1], es[|es| - 1];
      AlwaysPriceTime(before);
      StepInOrder(before, After(before), e);
      assert before + [e] == es;
    }
  }

  // ----- Both halves of the priority together -----

  /** `a` goes first among the resting orders of `side`: a better price, or the same and an earlier arrival. */
  ghost predicate Ahead(es: seq<Event>, side: Side, a: Order, b: Order) {
    Better(side, a.price, b.price) || (a.price == b.price && Arrived(es, a.node) < Arrived(es, b.node))
  }

  lemma AheadIsEarlier(es: seq<Event>, side: Side, q: seq<Order>, i: nat, k: nat)
    requires Sorted(side, q) && InArrivalOrder(es, q) && i < |q| && k < |q| && Ahead(es, side, q[i], q[k])
    ensures i < k
  {
  }

  /** A maker that trades before the last one rests nowhere after the submission. */
  lemma RestsNoMore(b: Book, o: Order, i: nat)
    requires WellFormed(b) && Allowed(b, Submission(o)) && i + 1 < |Match(o, b.On(o.side.Opposite())).trades|
    ensures i < |b.On(o.side.Opposite())|
    ensures var node, b' := b.On(o.side.Opposite())[i].node, Submit(b, o).0;
            node !in NodesOf(b'.bids) && node !in NodesOf(b'.asks)
  {
    var makers, own := b.On(o.side.Opposite()), b.On(o.side);
    MatchClosedForm(o, makers);
    NothingTradesOutOfTurn(o, makers);
    NodesOfMembers(makers);
    InsertNodes(o.side, own, o.(qty := Match(o, makers).left));
  }

  /** In every run: the trades of a submission are with the first makers in turn, and when it trades
      with its `k`-th maker, no order that goes before that maker rests any more once it is done. */
  lemma TradesInTurn(es: seq<Event>, o: Order)
    requires Legal(es + [Submission(o)])
    ensures var side, makers := o.side.Opposite(), After(es).On(o.side.Opposite());
            var trades, b := Match(o, makers).trades, After(es + [Submission(o)]);
            && |trades| <= |makers| && Run(es + [Submission(o)]).1 == Run(es).1 + trades
            && (forall k :: 0 <= k < |trades| ==> trades[k].maker == makers[k].id)
            && forall k, i :: 0 <= k < |trades| && 0 <= i < |makers| && Ahead(es, side, makers[i], makers[k]) ==>
                 i < k && makers[i].node !in NodesOf(b.bids) && makers[i].node !in NodesOf(b.asks)
  {
    RunSnoc(es, Submission(o));
    AlwaysPriceTime(es);
    var side, makers := o.side.Opposite(), After(es).On(o.side.Opposite());
    MatchClosedForm(o, makers);
    var trades, b := Match(o, makers).trades, After(es + [Submission(o)]);
    forall k, i | 0 <= k < |trades| && 0 <= i < |makers| && Ahead(es, side, makers[i], makers[k])
      ensures i < k && makers[i].node !in NodesOf(b.bids) && makers[i].node !in NodesOf(b.asks)
    {
      AheadIsEarlier(es, side, makers, i, k);
      RestsNoMore(After(es), o, i);
    }
  }
}
