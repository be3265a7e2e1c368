/** Where every unit of submitted quantity went: it rests, was filled, or was withdrawn. */
module Accounts {
  import opened Types
  import opened OrderNodes
  import opened PriceTime
  import opened PriceTimeFacts
  import opened BookRuns

  /** Some of the orders, chosen by id: all of them, or one, or one client's. */
  type Ids = OrderId -> bool

  function If(c: bool, n: nat): nat {
    if c then n else 0
  }

  function Resting(q: seq<Order>, who: Ids): nat {
    if q == [] then 0 else If(who(q[0].id), q[0].qty) + Resting(q[1..], who)
  }

  /** Filled quantity, counted once for the maker and once for the taker. */
  function Filled(trades: seq<Trade>, who: Ids): nat {
    if trades == [] then 0
    else If(who(trades[0].maker), trades[0].qty) + If(who(trades[0].taker), trades[0].qty) + Filled(trades[1..], who)
  }

  function Traded(trades: seq<Trade>): nat {
    if trades == [] then 0 else trades[0].qty + Traded(trades[1..])
  }

  /** The quantity resting under `node` beyond `keep`: what reducing it to `keep` takes away. */
  function Excess(q: seq<Order>, node: OrderNode, keep: Quantity, who: Ids): nat {
    if q == [] then 0
    else If(q[0].node == node && who(q[0].id), q[0].qty - Min(q[0].qty, keep)) + Excess(q[1..], node, keep, who)
  }

  function Entered(e: Event, who: Ids): nat {
    if e.Submission? then If(who(e.order.id), e.order.qty) else 0
  }

  function Withdrawn(b: Book, e: Event, who: Ids): nat {
    match e
    case Submission(_) => 0
    case Cancellation(node) => Excess(b.bids, node, 0, who) + Excess(b.asks, node, 0, who)
    case Reduction(node, newQty) => Excess(b.bids, node, newQty, who) + Excess(b.asks, node, newQty, who)
  }

  function EnteredBy(es: seq<Event>, who: Ids): nat {
    if es == [] then 0 else EnteredBy(es[..|es| - 1], who) + Entered(es[|es| - 1], who)
  }

  function WithdrawnBy(es: seq<Event>, who: Ids): nat {
    if es == [] then 0 else WithdrawnBy(es[..|es| - 1], who) + Withdrawn(After(es[..|es| - 1]), es[|es| - 1], who)
  }

  function InBook(b: Book, who: Ids): nat {
    Resting(b.bids, who) + Resting(b.asks, who)
  }

  // ----- One operation -----

  lemma {:induction false} MatchAccount(o: Order, makers: seq<Order>, who: Ids)
    ensures var r := Match(o, makers);
            Resting(r.rest, who) + If(who(o.id), r.left) + Filled(r.trades, who)
            == Resting(makers, who) + If(who(o.id), o.qty)
    decreases makers
  {
    if o.qty > 0 && makers != [] && Crosses(o.side, o.price, makers[0].price) && o.qty >= makers[0].qty {
      var o' := o.(qty := o.qty - makers[0].qty);
      MatchAccount(o', makers[1..], who);
      var trade := Trade(makers[0].id, o.id, makers[0].price, makers[0].qty);
      assert ([trade] + Match(o', makers[1..]).trades)[1..] == Match(o', makers[1..]).trades;
    }
  }

  lemma {:induction false} InsertAccount(q: seq<Order>, o: Order, who: Ids)
    ensures Resting(Insert(q, o), who) == Resting(q, who) + If(who(o.id), o.qty)
  {
    if q == [] {
    } else if Better(o.side, o.price, q[0].price) {
      assert ([o] + q)[1..] == q;
    } else {
      InsertAccount(q[1..], o, who);
      assert ([q[0]] + Insert(q[1..], o))[1..] == Insert(q[1..], o);
    }
  }

  lemma {:induction false} WithoutAccount(q: seq<Order>, node: OrderNode, who: Ids)
    ensures Resting(Without(q, node), who) + Excess(q, node, 0, who) == Resting(q, who)
  {
    if q != [] {
      WithoutAccount(q[1..], node, who);
    }
  }

  lemma {:induction false} ReducedAccount(q: seq<Order>, node: OrderNode, newQty: Quantity, who: Ids)
    ensures Resting(Reduced(q, node, newQty), who) + Excess(q, node, newQty, who) == Resting(q, who)
  {
    if q != [] {
      ReducedAccount(q[1..], node, newQty, who);
    }
  }

  lemma StepAccount(b: Book, e: Event, who: Ids)
    ensures var (b', trades) := Step(b, e);
            InBook(b', who) + Filled(trades, who) + Withdrawn(b, e, who) == InBook(b, who) + Entered(e, who)
  {
    match e
    case Submission(o) =>
      var r := Match(o, b.On(o.side.Opposite()));
      MatchAccount(o, b.On(o.side.Opposite()), who);
      InsertAccount(b.On(o.side), o.(qty := r.left), who);
    case Cancellation(node) =>
      WithoutAccount(b.bids, node, who);
      WithoutAccount(b.asks, node, who);
    case Reduction(node, newQty) =>
      ReducedAccount(b.bids, node, newQty, who);
      ReducedAccount(b.asks, node, newQty, who);
  }

  // ----- Whole runs -----

  lemma {:induction false} FilledAppend(a: seq<Trade>, b: seq<Trade>, who: Ids)
    ensures Filled(a + b, who) == Filled(a, who) + Filled(b, who)
  {
    if a == [] {
      assert a + b == b;
    } else {
      assert (a + b)[1..] == a[1..] + b;
      FilledAppend(a[1..], b, who);
    }
  }

  /** For any choice of ids: what was submitted is what rests, was filled, or was withdrawn. */
  lemma {:induction false} RunAccount(es: seq<Event>, who: Ids)
    ensures var (b, tape) := Run(es);
            InBook(b, who) + Filled(tape, who) + WithdrawnBy(es, who) == EnteredBy(es, who)
  {
    if es != [] {
      var before := es[..|es| - 1];
      RunAccount(before, who);
      StepAccount(After(before), es[|es| - 1], who);
      FilledAppend(Run(before).1, Step(After(before), es[|es| - 1]).1, who);
    }
  }

  lemma {:induction false} FilledTwice(trades: seq<Trade>)
    ensures Filled(trades, _ => true) == 2 * Traded(trades)
  {
    if trades != [] {
      FilledTwice(trades[1..]);
    }
  }

  /** All orders together: each traded unit leaves two orders. */
  lemma RunTotals(es: seq<Event>)
    ensures var (b, tape) := Run(es);
            InBook(b, _ => true) + 2 * Traded(tape) + WithdrawnBy(es, _ => true) == EnteredBy(es, _ => true)
  {
    RunAccount(es, _ => true);
    FilledTwice(Run(es).1);
  }

  /** One order, submitted once and neither cancelled nor reduced: original = filled + remaining. */
  lemma OrderAccount(es: seq<Event>, id: OrderId)
    requires WithdrawnBy(es, i => i == id) == 0
    ensures var (b, tape) := Run(es);
            InBook(b, i => i == id) + Filled(tape, i => i == id) == EnteredBy(es, i => i == id)
  {
    RunAccount(es, i => i == id);
  }
}
