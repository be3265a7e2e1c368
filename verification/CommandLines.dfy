/** The program's command loop: orders typed in line by line, one node for each from a pool. */
module CommandLines {
  import opened Types
  import opened OrderNodes
  import opened PriceTime
  import opened MatchingEngines
  import opened BookRuns
  import opened Sessions

  /** A line of input after it has been split into words and numbers. */
  datatype Line =
    | Clear
    | Entry(side: Side, price: real, qty: int)
    | Unreadable

  /** What a line asks for, the price in the nearest whole number of cents. */
  datatype Request = Request(side: Side, price: int, qty: int) {
    /** The conversions to 64 bits are defined. */
    predicate Fits() {
      0 <= price < TWO_TO_THE_64 && 0 <= qty < TWO_TO_THE_64
    }
  }

  /** Orders must be positive; every other line but `Clear` is answered with an error. */
  predicate Accepted(line: Line) {
    line.Entry? && line.price > 0.0 && line.qty > 0
  }

  function RequestOf(line: Line): Request
    requires line.Entry?
  {
    Request(line.side, (line.price * 100.0 + 0.5).Floor, line.qty)
  }

  /** The price of a request is the nearest whole number of cents, the upper one of two. */
  lemma RequestIs(line: Line)
    requires line.Entry?
    ensures var r := RequestOf(line);
            && r.side == line.side && r.qty == line.qty
            && r.price as real - 0.5 <= 100.0 * line.price < r.price as real + 0.5
            && (line.price > 0.0 && line.qty > 0 ==>
                  (r.Fits() <==> 100.0 * line.price + 0.5 < TWO_TO_THE_64 as real && line.qty < TWO_TO_THE_64))
  {
  }

  /** One more order, if the pool of `size` nodes still has one for it. */
  function WhileStocked(orders: seq<Request>, r: Request, size: nat): seq<Request> {
    if |orders| < size then orders + [r] else orders
  }

  /** The orders that reach the engine: those accepted since the last `Clear`, while the pool lasts. */
  function Served(lines: seq<Line>, size: nat): seq<Request> {
    if lines == [] then [] else Next(Served(lines[..|lines| - 1], size), lines[|lines| - 1], size)
  }

  function Next(orders: seq<Request>, line: Line, size: nat): seq<Request> {
    if line == Clear then [] else if Accepted(line) then WhileStocked(orders, RequestOf(line), size) else orders
  }

  /** Where the lines since the last `Clear` begin. */
  ghost function Start(lines: seq<Line>): nat {
    if lines == [] then 0
    else if lines[|lines| - 1].Clear? then |lines|
    else Start(lines[..|lines| - 1])
  }

  lemma {:induction false} StartIs(lines: seq<Line>)
    ensures Start(lines) <= |lines| && (Start(lines) > 0 ==> lines[Start(lines) - 1].Clear?)
    ensures forall j :: Start(lines) <= j < |lines| ==> !lines[j].Clear?
  {
    if lines != [] {
      StartIs(lines[..|lines| - 1]);
    }
  }

  /** The positions of the lines that the orders served come from. */
  ghost function Taken(lines: seq<Line>, size: nat): seq<nat> {
    if lines == [] then []
    else
      var last := |lines| - 1;
      var before := Taken(lines[..last], size);
      if lines[last].Clear? then [] else if Accepted(lines[last]) && |before| < size then before + [last] else before
  }

  /** They are the first `size` since the last `Clear` with a positive price and quantity, in order. */
  lemma {:induction false} TakenIs(lines: seq<Line>, size: nat)
    ensures var start, at := Start(lines), Taken(lines, size);
            && |at| <= size
            && (forall i :: 0 <= i < |at| ==> start <= at[i] < |lines|)
            && (forall i :: 0 <= i < |at| ==> lines[at[i]].Entry? && lines[at[i]].price > 0.0 && lines[at[i]].qty > 0)
            && (forall i, j :: 0 <= i < j < |at| ==> at[i] < at[j])
            && (forall j :: start <= j < |lines| && lines[j].Entry? && lines[j].price > 0.0 && lines[j].qty > 0 ==>
                  j in at || (|at| == size && forall i :: 0 <= i < |at| ==> at[i] < j))
  {
    if lines != [] {
      StartIs(lines[..|lines| - 1]);
      TakenIs(lines[..|lines| - 1], size);
    }
  }

  /** Each order asks for what its line says. */
  lemma {:induction false} ServedIs(lines: seq<Line>, size: nat)
    ensures var at, orders := Taken(lines, size), Served(lines, size);
            && |orders| == |at|
            && (forall i :: 0 <= i < |at| ==> at[i] < |lines| && lines[at[i]].Entry?)
            && (forall i :: 0 <= i < |at| ==> orders[i] == RequestOf(lines[at[i]]))
  {
    if lines != [] {
      var last := |lines| - 1;
      var before := lines[..last];
      ServedIs(before, size);
      assert forall j :: 0 <= j < last ==> before[j] == lines[j];
      if Accepted(lines[last]) && |Taken(before, size)| < size {
        assert Served(lines, size) == Served(before, size) + [RequestOf(lines[last])];
      }
    }
  }

  lemma ServedNext(lines: seq<Line>, i: nat, size: nat)
    requires i < |lines|
    ensures Served(lines[..i + 1], size) == Next(Served(lines[..i], size), lines[i], size)
  {
    var next := lines[..i + 1];
    assert next[..|next| - 1] == lines[..i];
  }

  /** The id of the next order, in a 64-bit counter starting at 1. */
  function IdAfter(count: nat): OrderId {
    Wrap64(count + 1)
  }

  /** `o` is the order that `r` asks for, with the id after `count` others. */
  ghost predicate Answers(o: Order, r: Request, count: nat) {
    o.id == IdAfter(count) && o.side == r.side && o.price == r.price && o.qty == r.qty
  }

  ghost predicate SubmitsAll(es: seq<Event>, orders: seq<Request>) {
    |es| == |orders| && forall i :: 0 <= i < |es| ==> es[i].Submission? && Answers(es[i].order, orders[i], i)
  }

  lemma OneMore(es: seq<Event>, orders: seq<Request>, o: Order, r: Request)
    requires SubmitsAll(es, orders) && Answers(o, r, |es|)
    ensures SubmitsAll(es + [Place(o).AsEvent()], orders + [r])
    ensures Wrap64(o.id + 1) == IdAfter(|es| + 1)
  {
    WrapAdd(|es| + 1, 1);
  }

  /** The engine stands where the run of `orders` stands, and `tape` lists that run's trades. */
  ghost predicate InStep(engine: MatchingEngine, orders: seq<Request>, tape: seq<Trade>, es: seq<Event>)
    reads engine.book.bids, engine.book.asks, engine.book.bids.Repr, engine.book.asks.Repr
  {
    SubmitsAll(es, orders) && Follows(engine, es) && tape == Run(es).1
  }

  /** The command loop, with a pool of `size` nodes; the program uses a million. Of the pool only the count of
      the nodes in use is kept: as `MemoryPool.Allocate` states, it hands out a node exactly while
      fewer than `size` are live, and here none is ever given back. `tape` lists the trades since the
      last `Clear`. */
  method Serve(lines: seq<Line>, size: nat)
    returns (engine: MatchingEngine, taken: nat, tape: seq<Trade>,
             ghost es: seq<Event>, ghost start: nat, ghost at: seq<nat>)
    requires forall i :: 0 <= i < |lines| && lines[i].Entry? && lines[i].price > 0.0 && lines[i].qty > 0 ==>
               100.0 * lines[i].price + 0.5 < TWO_TO_THE_64 as real && lines[i].qty < TWO_TO_THE_64
    ensures InStep(engine, Served(lines, size), tape, es) && taken == |es|
    // every event comes from a line of its own since the last `Clear`, in the order of the lines
    ensures start <= |lines| && (start > 0 ==> lines[start - 1].Clear?)
    ensures forall j :: start <= j < |lines| ==> !lines[j].Clear?
    ensures |at| == |es| <= size && forall i :: 0 <= i < |at| ==> start <= at[i] < |lines| && lines[at[i]].Entry?
    ensures forall i, j :: 0 <= i < j < |at| ==> at[i] < at[j]
    // and is the order that line asks for, at the price in the nearest cents; the ids count from 1 in 64 bits
    ensures forall i :: 0 <= i < |at| ==> es[i].Submission? && es[i].order.id == (i + 1) % TWO_TO_THE_64
    ensures forall i :: 0 <= i < |at| ==>
              var o, line := es[i].order, lines[at[i]];
              o.side == line.side && o.qty == line.qty &&
              o.price as real - 0.5 <= 100.0 * line.price < o.price as real + 0.5
    // those with a positive price and quantity all reach the engine, until it has `size` of them, and no others
    ensures forall i :: 0 <= i < |at| ==> lines[at[i]].price > 0.0 && lines[at[i]].qty > 0
    ensures forall j :: start <= j < |lines| && lines[j].Entry? && lines[j].price > 0.0 && lines[j].qty > 0 ==>
              j in at || (|at| == size && forall i :: 0 <= i < |at| ==> at[i] < j)
  {
    forall i | 0 <= i < |lines| && Accepted(lines[i]) ensures RequestOf(lines[i]).Fits() {
      RequestIs(lines[i]);
    }
    engine, taken, tape, es := ServeAll(lines, size);
    start, at := Start(lines), Taken(lines, size);
    StartIs(lines);
    TakenIs(lines, size);
    ServedIs(lines, size);
    EachAsked(lines, at, Served(lines, size), es);
  }

  /** The loop by itself. */
  method ServeAll(lines: seq<Line>, size: nat)
    returns (engine: MatchingEngine, taken: nat, tape: seq<Trade>, ghost es: seq<Event>)
    requires forall i :: 0 <= i < |lines| && Accepted(lines[i]) ==> RequestOf(lines[i]).Fits()
    ensures InStep(engine, Served(lines, size), tape, es) && taken == |es|
  {
    engine := new MatchingEngine();
    taken, tape, es := 0, [], [];
    var nextId, i := 1, 0;
    while i < |lines|
      invariant 0 <= i <= |lines| && nextId == IdAfter(|es|) && taken == |es|
      invariant InStep(engine, Served(lines[..i], size), tape, es)
      invariant fresh(engine.book.Repr())
    {
      ServedNext(lines, i, size);
      engine, taken, tape, nextId, es :=
        ServeLine(engine, lines[i], size, taken, nextId, tape, Served(lines[..i], size), es);
      i := i + 1;
    }
    assert lines[..i] == lines;
  }

  lemma EachAsked(lines: seq<Line>, at: seq<nat>, orders: seq<Request>, es: seq<Event>)
    requires SubmitsAll(es, orders) && |orders| == |at|
    requires forall i :: 0 <= i < |at| ==> at[i] < |lines| && lines[at[i]].Entry? && orders[i] == RequestOf(lines[at[i]])
    ensures forall i :: 0 <= i < |at| ==> es[i].Submission? && es[i].order.id == (i + 1) % TWO_TO_THE_64
    ensures forall i :: 0 <= i < |at| ==>
              var o, line := es[i].order, lines[at[i]];
              o.side == line.side && o.qty == line.qty &&
              o.price as real - 0.5 <= 100.0 * line.price < o.price as real + 0.5
  {
    forall i | 0 <= i < |at|
      ensures var o, line := es[i].order, lines[at[i]];
              o.side == line.side && o.qty == line.qty &&
              o.price as real - 0.5 <= 100.0 * line.price < o.price as real + 0.5
    {
      RequestIs(lines[at[i]]);
    }
  }

  method ServeLine(engine: MatchingEngine, line: Line, size: nat, taken: nat, nextId: OrderId, tape: seq<Trade>,
                   ghost orders: seq<Request>, ghost es: seq<Event>)
    returns (engine': MatchingEngine, taken': nat, tape': seq<Trade>, nextId': OrderId, ghost es': seq<Event>)
    requires InStep(engine, orders, tape, es) && nextId == IdAfter(|es|) && taken == |es|
    requires Accepted(line) ==> RequestOf(line).Fits()
    modifies engine.book.Repr()
    ensures InStep(engine', Next(orders, line, size), tape', es') && nextId' == IdAfter(|es'|) && taken' == |es'|
    ensures forall o :: o in engine'.book.Repr() ==> o in old(engine.book.Repr()) || fresh(o)
  {
    engine', taken', tape', nextId', es' := engine, taken, tape, nextId, es;
    if line == Clear {
      engine' := new MatchingEngine();
      taken', tape', nextId', es' := 0, [], 1, [];
    } else if Accepted(line) && taken < size {
      tape', nextId', es' := ServeOrder(engine, RequestOf(line), nextId, tape, orders, es);
      taken' := taken + 1;
    }
  }

  /** One accepted order: a node from the pool with the next id is submitted. */
  method ServeOrder(engine: MatchingEngine, r: Request, nextId: OrderId, tape: seq<Trade>,
                    ghost orders: seq<Request>, ghost es: seq<Event>)
    returns (tape': seq<Trade>, nextId': OrderId, ghost es': seq<Event>)
    requires InStep(engine, orders, tape, es) && nextId == IdAfter(|es|) && r.Fits()
    modifies engine.book.Repr()
    ensures InStep(engine, orders + [r], tape', es') && |es'| == |es| + 1 && nextId' == IdAfter(|es'|)
    ensures forall o :: o in engine.book.Repr() ==> o in old(engine.book.Repr()) || fresh(o)
  {
    var node := new OrderNode(0, 0, 0, Buy);
    // a node is no level map
    assert node as object !in {engine.book.bids, engine.book.asks} && node !in engine.book.Repr();
    tape', nextId', es' := Enter(engine, Order(node, nextId, r.price, r.qty, r.side), r, tape, orders, es);
  }

  method Enter(engine: MatchingEngine, o: Order, r: Request, tape: seq<Trade>,
               ghost orders: seq<Request>, ghost es: seq<Event>)
    returns (tape': seq<Trade>, nextId': OrderId, ghost es': seq<Event>)
    requires InStep(engine, orders, tape, es) && Answers(o, r, |es|) && o.node !in engine.book.Repr()
    modifies engine.book.Repr(), o.node
    ensures InStep(engine, orders + [r], tape', es') && |es'| == |es| + 1 && nextId' == IdAfter(|es'|)
    ensures forall x :: x in engine.book.Repr() ==> x in old(engine.book.Repr()) || x == o.node || fresh(x)
  {
    var trades := Perform(engine, Place(o), es);
    OneMore(es, orders, o, r);
    tape', nextId', es' := tape + trades, Wrap64(o.id + 1), es + [Place(o).AsEvent()];
  }
}
