/** The engine over time: whatever a client does, the heap stays in step with the reference run. */
module Sessions {
  import opened Types
  import opened OrderNodes
  import opened PriceTime
  import opened PriceTimeFacts
  import opened OrderBooks
  import opened MatchingEngines
  import opened BookRuns
  import Arrivals

  /** What a client asks for. To place an order it writes it into a node first. */
  datatype Command =
    | Place(order: Order)
    | Withdraw(resting: OrderNode)
    | Lower(resting: OrderNode, newQty: Quantity)
  {
    function Node(): OrderNode {
      if Place? then order.node else resting
    }

    function AsEvent(): Event {
      match this
      case Place(o) => Submission(o)
      case Withdraw(node) => Cancellation(node)
      case Lower(node, newQty) => Reduction(node, newQty)
    }
  }

  // ----- What a command does, order by order -----

  /** `q'` is `q` without the order of `node`, if it is there. */
  ghost predicate TakenOut(q: seq<Order>, node: OrderNode, q': seq<Order>) {
    && (forall k :: 0 <= k < |q| && q[k].node == node ==> q' == q[..k] + q[k + 1..])
    && ((forall k :: 0 <= k < |q| ==> q[k].node != node) ==> q' == q)
  }

  /** `q'` is `q` with the order of `node` at the lesser of its quantity and `newQty`, every order in its place. */
  ghost predicate LoweredTo(q: seq<Order>, node: OrderNode, newQty: Quantity, q': seq<Order>) {
    && |q'| == |q|
    && forall k :: 0 <= k < |q| ==>
        q'[k] == if q[k].node == node && newQty < q[k].qty then q[k].(qty := newQty) else q[k]
  }

  /** `c` takes the book `b` to `b'` and reports `trades`. */
  ghost predicate Does(b: Book, c: Command, b': Book, trades: seq<Trade>) {
    match c
    case Place(o) => (b', trades) == Submit(b, o)
    case Withdraw(node) => TakenOut(b.bids, node, b'.bids) && TakenOut(b.asks, node, b'.asks) && trades == []
    case Lower(node, newQty) =>
      LoweredTo(b.bids, node, newQty, b'.bids) && LoweredTo(b.asks, node, newQty, b'.asks) && trades == []
  }

  /** The event a command stands for does just that. */
  lemma CommandDoes(b: Book, c: Command)
    requires WellFormed(b)
    ensures Does(b, c, Step(b, c.AsEvent()).0, Step(b, c.AsEvent()).1)
  {
    match c
    case Place(_) =>
    case Withdraw(node) =>
      WithoutTakesOut(b.bids, node);
      WithoutTakesOut(b.asks, node);
    case Lower(node, newQty) =>
      ReducedShape(b.bids, node, newQty);
      ReducedShape(b.asks, node, newQty);
  }

  lemma WithoutTakesOut(q: seq<Order>, node: OrderNode)
    requires DistinctNodes(q)
    ensures TakenOut(q, node, Without(q, node))
  {
    NodesOfMembers(q);
    forall k | 0 <= k < |q| && q[k].node == node ensures Without(q, node) == q[..k] + q[k + 1..] {
      WithoutShape(q, k);
    }
    if node !in NodesOf(q) {
      WithoutAbsent(q, node);
    }
  }

  /** Lowering an order that rests: in its queue it has the lesser quantity, and nothing else changes. */
  lemma LowerMeans(b: Book, side: Side, k: nat, newQty: Quantity)
    requires WellFormed(b) && k < |b.On(side)|
    ensures var q := b.On(side);
            Step(b, Lower(q[k].node, newQty).AsEvent())
            == (b.With(side, q[k := q[k].(qty := if newQty < q[k].qty then newQty else q[k].qty)]), [])
  {
    var q := b.On(side);
    var node := q[k].node;
    CommandDoes(b, Lower(node, newQty));
    ReducedElsewhereInBook(b, side, k, newQty);
    assert Reduced(q, node, newQty) == q[k := q[k].(qty := Min(q[k].qty, newQty))] by {
      ReducedShape(q, node, newQty);
    }
  }

  lemma ReducedElsewhereInBook(b: Book, side: Side, k: nat, newQty: Quantity)
    requires WellFormed(b) && k < |b.On(side)|
    ensures Reduced(b.On(side.Opposite()), b.On(side)[k].node, newQty) == b.On(side.Opposite())
  {
    NodesOfMembers(b.On(side));
    ReducedAbsent(b.On(side.Opposite()), b.On(side)[k].node, newQty);
  }

  /** Withdrawing an order that rests: its queue without it, and nothing else changes. */
  lemma WithdrawMeans(b: Book, side: Side, k: nat)
    requires WellFormed(b) && k < |b.On(side)|
    ensures var q := b.On(side);
            Step(b, Withdraw(q[k].node).AsEvent()) == (b.With(side, q[..k] + q[k + 1..]), [])
  {
    var q := b.On(side);
    NodesOfMembers(q);
    WithoutShape(q, k);
    WithoutAbsent(b.On(side.Opposite()), q[k].node);
  }

  // ----- One call -----

  /** What the engine leaves to its clients: place only nodes it does not own; withdraw and lower
      only nodes that rest, or whose price has no level. */
  ghost predicate Permitted(engine: MatchingEngine, c: Command)
    reads engine.book.bids, engine.book.asks, c.Node()
  {
    var owned := c.Node() in engine.book.Repr();
    match c
    case Place(_) => !owned
    case Withdraw(node) => engine.book.Rests(node) || !engine.book.HasLevel(node.side, node.price)
    case Lower(node, newQty) =>
      newQty < node.qty ==> engine.book.Rests(node) || (!owned && !engine.book.HasLevel(node.side, node.price))
  }

  /** The heap stands where the reference run of `es` stands. */
  ghost predicate Follows(engine: MatchingEngine, es: seq<Event>)
    reads engine.book.bids, engine.book.asks, engine.book.bids.Repr, engine.book.asks.Repr
  {
    engine.Valid() && Legal(es) && engine.book.State() == After(es)
  }

  ghost function Resting(b: Book): set<OrderNode> {
    NodesOf(b.bids) + NodesOf(b.asks)
  }

  /** Neither owned by the engine nor linked to anything: free to be used again. */
  ghost predicate Free(engine: MatchingEngine, n: OrderNode)
    reads engine.book.bids, engine.book.asks, n
  {
    engine.book.Stale(n)
  }

  /** Any permitted call takes the engine one step along the reference run; whatever stops resting is free. */
  method Perform(engine: MatchingEngine, c: Command, ghost es: seq<Event>) returns (trades: seq<Trade>)
    requires Follows(engine, es) && Permitted(engine, c)
    modifies engine.book.Repr(), c.Node()
    ensures Follows(engine, es + [c.AsEvent()])
    ensures Run(es + [c.AsEvent()]).1 == Run(es).1 + trades
    ensures Does(old(engine.book.State()), c, engine.book.State(), trades)
    ensures c.Lower? ==> c.resting.qty == if c.newQty < old(c.Node().qty) then c.newQty else old(c.Node().qty)
    ensures forall o :: o in engine.book.Repr() ==> o in old(engine.book.Repr()) || o == c.Node() || fresh(o)
    ensures forall n :: n in Resting(After(es)) && n !in Resting(engine.book.State()) ==> Free(engine, n)
    ensures c.Place? && c.Node() !in Resting(engine.book.State()) ==> Free(engine, c.Node())
  {
    engine.book.StateIsWellFormed();
    CommandDoes(engine.book.State(), c);
    trades := Advance(engine, c, es);
  }

  /** The call itself: the book and the trades are those of the event. */
  method Advance(engine: MatchingEngine, c: Command, ghost es: seq<Event>) returns (trades: seq<Trade>)
    requires Follows(engine, es) && Permitted(engine, c)
    modifies engine.book.Repr(), c.Node()
    ensures Follows(engine, es + [c.AsEvent()])
    ensures Run(es + [c.AsEvent()]).1 == Run(es).1 + trades
    ensures Step(old(engine.book.State()), c.AsEvent()) == (engine.book.State(), trades)
    ensures c.Lower? ==> c.resting.qty == if c.newQty < old(c.Node().qty) then c.newQty else old(c.Node().qty)
    ensures forall o :: o in engine.book.Repr() ==> o in old(engine.book.Repr()) || o == c.Node() || fresh(o)
    ensures forall n :: n in Resting(After(es)) && n !in Resting(engine.book.State()) ==> Free(engine, n)
    ensures c.Place? && c.Node() !in Resting(engine.book.State()) ==> Free(engine, c.Node())
  {
    RunSnoc(es, c.AsEvent());
    trades := [];
    match c
    case Place(o) => trades := PerformPlace(engine, o, es);
    case Withdraw(node) => PerformWithdraw(engine, node);
    case Lower(node, newQty) => PerformLower(engine, node, newQty);
  }

  method PerformPlace(engine: MatchingEngine, o: Order, ghost es: seq<Event>) returns (trades: seq<Trade>)
    requires Follows(engine, es) && o.node !in engine.book.Repr()
    modifies engine.book.Repr(), o.node
    ensures engine.Valid() && Allowed(After(es), Submission(o)) && (engine.book.State(), trades) == Submit(After(es), o)
    ensures forall x :: x in engine.book.Repr() ==> x in old(engine.book.Repr()) || x == o.node || fresh(x)
    ensures forall n :: n in Resting(After(es)) && n !in Resting(engine.book.State()) ==> Free(engine, n)
    ensures o.node !in Resting(engine.book.State()) ==> Free(engine, o.node)
  {
    engine.book.StateIsWellFormed();
    o.node.Write(o.id, o.price, o.qty, o.side);
    trades := engine.ProcessLimitOrder(o.node);
    SubmitNodes(After(es), o);
  }

  /** A submission keeps its own side's nodes, and adds its node exactly if quantity is left. */
  lemma SubmitNodes(b: Book, o: Order)
    requires WellFormed(b)
    ensures NodesOf(b.On(o.side)) <= NodesOf(Submit(b, o).0.On(o.side))
    ensures Match(o, b.On(o.side.Opposite())).left > 0 ==> o.node in NodesOf(Submit(b, o).0.On(o.side))
  {
    var r := Match(o, b.On(o.side.Opposite()));
    if r.left > 0 {
      InsertNodes(o.side, b.On(o.side), o.(qty := r.left));
    }
  }

  method PerformWithdraw(engine: MatchingEngine, node: OrderNode)
    requires engine.Valid() && (engine.book.Rests(node) || !engine.book.HasLevel(node.side, node.price))
    modifies engine.book.Repr(), node
    ensures engine.Valid() && engine.book.State() == old(Cancel(engine.book.State(), node))
    ensures engine.book.Repr() <= old(engine.book.Repr())
    ensures forall n :: n in old(Resting(engine.book.State())) && n !in Resting(engine.book.State()) ==> Free(engine, n)
  {
    engine.book.StateIsWellFormed();
    engine.book.NotOnOtherSide(node);
    WithoutKeepsQueue(Buy, engine.book.State().bids, node);
    WithoutKeepsQueue(Sell, engine.book.State().asks, node);
    engine.CancelOrder(node);
  }

  method PerformLower(engine: MatchingEngine, node: OrderNode, newQty: Quantity)
    requires engine.Valid() && Permitted(engine, Lower(node, newQty))
    modifies engine.book.Repr(), node
    ensures engine.Valid() && engine.book.State() == old(Reduce(engine.book.State(), node, newQty))
    ensures engine.book.Repr() == old(engine.book.Repr())
    ensures Resting(engine.book.State()) == old(Resting(engine.book.State()))
    ensures node.qty == if newQty < old(node.qty) then newQty else old(node.qty)
  {
    engine.book.StateIsWellFormed();
    ReducedKeepsQueue(Buy, engine.book.State().bids, node, newQty);
    ReducedKeepsQueue(Sell, engine.book.State().asks, node, newQty);
    engine.book.ReduceOrder(node, newQty);
  }

  /** So at every moment the book on the heap is in price-time order and not crossed. */
  lemma FollowersKeepTheLaws(engine: MatchingEngine, es: seq<Event>)
    requires Follows(engine, es)
    ensures WellFormed(engine.book.State()) && Arrivals.BookInOrder(es, engine.book.State())
    ensures Uncrossed(engine.book.State())
  {
    NeverCrossed(es);
    Arrivals.AlwaysPriceTime(es);
  }

  // ----- Whole sessions -----

  function Events(cs: seq<Command>): (es: seq<Event>)
    ensures |es| == |cs|
  {
    if cs == [] then [] else Events(cs[..|cs| - 1]) + [cs[|cs| - 1].AsEvent()]
  }

  /** After the events `es`: place a node that does not rest, withdraw or lower one that does. */
  ghost predicate InOrder(es: seq<Event>, c: Command) {
    c.Node() in Resting(After(es)) <==> !c.Place?
  }

  /** Every command is in order when its turn comes. */
  ghost predicate Playable(cs: seq<Command>) {
    cs == [] || (Playable(cs[..|cs| - 1]) && InOrder(Events(cs[..|cs| - 1]), cs[|cs| - 1]))
  }

  ghost function NodesIn(cs: seq<Command>): set<OrderNode> {
    if cs == [] then {} else NodesIn(cs[..|cs| - 1]) + {cs[|cs| - 1].Node()}
  }

  /** Of `nodes` the engine owns exactly those that rest. */
  ghost predicate OwnsResting(engine: MatchingEngine, nodes: set<OrderNode>)
    reads engine.book.bids, engine.book.asks
  {
    forall n :: n in nodes ==> (n in engine.book.Repr() <==> n in Resting(engine.book.State()))
  }

  /** Of `used` those that do not rest are free. */
  ghost predicate FreeUnlessResting(engine: MatchingEngine, used: set<OrderNode>)
    reads engine.book.bids, engine.book.asks, used
  {
    forall n :: n in used && n !in Resting(engine.book.State()) ==> Free(engine, n)
  }

  /** The commands `cs` have been carried out, with the trades `tape`: the heap stands where the reference
      run stands, the engine owns of `nodes` exactly those that rest, and those used and done with are free. */
  ghost predicate HasPlayed(engine: MatchingEngine, cs: seq<Command>, tape: seq<Trade>, nodes: set<OrderNode>)
    reads engine.book.bids, engine.book.asks, engine.book.bids.Repr, engine.book.asks.Repr, NodesIn(cs)
  {
    && Follows(engine, Events(cs)) && tape == Run(Events(cs)).1
    && OwnsResting(engine, nodes) && FreeUnlessResting(engine, NodesIn(cs))
  }

  /** From the empty book and tape, each command in turn does what it says; `books` and `tapes` list what
      there is after each. */
  ghost predicate Unfolds(cs: seq<Command>, books: seq<Book>, tapes: seq<seq<Trade>>) {
    && |books| == |tapes| == |cs| + 1
    && books[0] == Book([], []) && tapes[0] == []
    && forall i :: 0 <= i < |cs| ==>
        tapes[i] <= tapes[i + 1] && Does(books[i], cs[i], books[i + 1], tapes[i + 1][|tapes[i]|..])
  }

  /** What the reference runs of a sequence of commands leave, one command after the other. */
  lemma {:induction false} RunsUnfold(cs: seq<Command>) returns (books: seq<Book>, tapes: seq<seq<Trade>>)
    requires Playable(cs)
    ensures Unfolds(cs, books, tapes)
    ensures (books[|cs|], tapes[|cs|]) == Run(Events(cs)) && Legal(Events(cs))
  {
    if cs == [] {
      books, tapes := [EMPTY_BOOK], [[]];
    } else {
      var before, c := cs[..|cs| - 1], cs[|cs| - 1];
      books, tapes := RunsUnfold(before);
      RunDoes(Events(before), c);
      var (b, trades) := Step(After(Events(before)), c.AsEvent());
      assert cs == before + [c] && Events(cs) == Events(before) + [c.AsEvent()];
      UnfoldsOn(before, books, tapes, c, b, trades);
      books, tapes := books + [b], tapes + [tapes[|before|] + trades];
    }
  }

  lemma RunDoes(es: seq<Event>, c: Command)
    requires Legal(es) && Allowed(After(es), c.AsEvent())
    ensures Legal(es + [c.AsEvent()])
    ensures var (b, trades) := Step(After(es), c.AsEvent());
            Does(After(es), c, b, trades) && Run(es + [c.AsEvent()]) == (b, Run(es).1 + trades)
  {
    RunSnoc(es, c.AsEvent());
    RunsAreWellFormed(es);
    CommandDoes(After(es), c);
  }

  lemma UnfoldsOn(cs: seq<Command>, books: seq<Book>, tapes: seq<seq<Trade>>, c: Command, b: Book, trades: seq<Trade>)
    requires Unfolds(cs, books, tapes) && Does(books[|cs|], c, b, trades)
    ensures Unfolds(cs + [c], books + [b], tapes + [tapes[|cs|] + trades])
  {
    assert (tapes[|cs|] + trades)[|tapes[|cs|]|..] == trades;
  }

  /** Any sequence of commands, each in order when its turn comes, nodes used again and again: the
      heap follows the reference run and reports its trades; and in the end the engine owns exactly
      the nodes that rest, every other node that was ever in use being unlinked and free. */
  method Operate(cs: seq<Command>)
    returns (engine: MatchingEngine, tape: seq<Trade>, ghost books: seq<Book>, ghost tapes: seq<seq<Trade>>)
    requires Playable(cs)
    modifies NodesIn(cs)
    ensures HasPlayed(engine, cs, tape, NodesIn(cs))
    ensures Unfolds(cs, books, tapes) && engine.book.State() == books[|cs|] && tape == tapes[|cs|]
  {
    ghost var nodes := NodesIn(cs);
    engine := Start(nodes);
    tape := [];
    var i := 0;
    while i < |cs|
      invariant 0 <= i <= |cs| && HasPlayed(engine, cs[..i], tape, nodes)
      invariant forall o :: o in engine.book.Repr() ==> fresh(o) || o in nodes
    {
      assert cs[i].Node() in nodes by {
        NextInOrder(cs, i);
      }
      tape := OperateAt(engine, cs, i, tape, nodes);
      i := i + 1;
    }
    assert cs[..i] == cs;
    books, tapes := RunsUnfold(cs);
  }

  method OperateAt(engine: MatchingEngine, cs: seq<Command>, i: nat, tape: seq<Trade>, ghost nodes: set<OrderNode>)
    returns (tape': seq<Trade>)
    requires Playable(cs) && i < |cs| && NodesIn(cs) <= nodes && HasPlayed(engine, cs[..i], tape, nodes)
    modifies engine.book.Repr(), cs[i].Node()
    ensures HasPlayed(engine, cs[..i + 1], tape', nodes)
    ensures forall o :: o in engine.book.Repr() ==> o in old(engine.book.Repr()) || o == cs[i].Node() || fresh(o)
  {
    NextInOrder(cs, i);
    var trades := OperateNext(engine, cs[i], Events(cs[..i]), nodes, NodesIn(cs[..i]));
    tape' := tape + trades;
  }

  method Start(ghost nodes: set<OrderNode>) returns (engine: MatchingEngine)
    ensures HasPlayed(engine, [], [], nodes) && fresh(engine.book.Repr())
  {
    engine := new MatchingEngine();
  }

  lemma NextInOrder(cs: seq<Command>, i: nat)
    requires Playable(cs) && i < |cs|
    ensures InOrder(Events(cs[..i]), cs[i]) && Events(cs[..i + 1]) == Events(cs[..i]) + [cs[i].AsEvent()]
    ensures NodesIn(cs[..i + 1]) == NodesIn(cs[..i]) + {cs[i].Node()} && NodesIn(cs[..i + 1]) <= NodesIn(cs)
  {
    PlayableSoFar(cs, i + 1);
    var next := cs[..i + 1];
    assert next[..|next| - 1] == cs[..i] && next[|next| - 1] == cs[i];
  }

  lemma {:induction false} PlayableSoFar(cs: seq<Command>, i: nat)
    requires Playable(cs) && i <= |cs|
    ensures Playable(cs[..i]) && NodesIn(cs[..i]) <= NodesIn(cs)
    decreases |cs|
  {
    if i == |cs| {
      assert cs[..i] == cs;
    } else {
      PlayableSoFar(cs[..|cs| - 1], i);
      assert cs[..|cs| - 1][..i] == cs[..i];
    }
  }

  method OperateNext(engine: MatchingEngine, c: Command, ghost es: seq<Event>,
                     ghost nodes: set<OrderNode>, ghost used: set<OrderNode>)
    returns (trades: seq<Trade>)
    requires Follows(engine, es) && InOrder(es, c) && c.Node() in nodes && used <= nodes
    requires OwnsResting(engine, nodes) && FreeUnlessResting(engine, used)
    modifies engine.book.Repr(), c.Node()
    ensures Follows(engine, es + [c.AsEvent()])
    ensures Run(es + [c.AsEvent()]).1 == Run(es).1 + trades
    ensures forall o :: o in engine.book.Repr() ==> o in old(engine.book.Repr()) || o == c.Node() || fresh(o)
    ensures OwnsResting(engine, nodes) && FreeUnlessResting(engine, used + {c.Node()})
  {
    InOrderIsPermitted(engine, c, es);
    trades := Advance(engine, c, es);
    engine.book.StateIsWellFormed();
    forall n | n in nodes && n in engine.book.Repr() ensures n in Resting(engine.book.State()) {
      assert n in old(engine.book.Repr()) || n == c.Node();
    }
    forall n | n in used + {c.Node()} && n !in Resting(engine.book.State()) ensures Free(engine, n) {
      if n !in Resting(After(es)) && n != c.Node() {
        assert old(Free(engine, n)) && unchanged(n);
      }
    }
  }

  lemma InOrderIsPermitted(engine: MatchingEngine, c: Command, es: seq<Event>)
    requires Follows(engine, es) && InOrder(es, c) && OwnsResting(engine, {c.Node()})
    ensures Permitted(engine, c)
  {
    if !c.Place? {
      var node := c.Node();
      engine.book.NotOnOtherSide(node);
    }
  }
}
