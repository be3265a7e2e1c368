/** The reference book: one queue of orders per side, best price first and, at
    one price, oldest first. Every operation is a few lines over a sequence. */
module PriceTime {
  import opened Types
  import opened OrderNodes

  /** A resting or incoming order by value. `node` is only a name for it: nothing here reads the heap. */
  datatype Order = Order(node: OrderNode, id: OrderId, price: Price, qty: Quantity, side: Side)

  datatype Trade = Trade(maker: OrderId, taker: OrderId, price: Price, qty: Quantity)

  datatype Book = Book(bids: seq<Order>, asks: seq<Order>) {
    function On(side: Side): seq<Order> {
      if side.Buy? then bids else asks
    }

    function With(side: Side, q: seq<Order>): Book {
      if side.Buy? then this.(bids := q) else this.(asks := q)
    }
  }

  const EMPTY_BOOK := Book([], [])

  // ----- Priority -----

  /** Among resting orders of `side`, does price `p` come strictly before price `q`? */
  predicate Better(side: Side, p: Price, q: Price) {
    if side.Buy? then p > q else p < q
  }

  /** May a taker of `side` with limit price `limit` trade at `makerPrice`? */
  predicate Crosses(side: Side, limit: Price, makerPrice: Price) {
    if side.Buy? then makerPrice <= limit else makerPrice >= limit
  }

  ghost predicate Sorted(side: Side, q: seq<Order>) {
    forall i, j :: 0 <= i < j < |q| ==> !Better(side, q[j].price, q[i].price)
  }

  ghost predicate DistinctNodes(q: seq<Order>) {
    forall i, j :: 0 <= i < j < |q| ==> q[i].node != q[j].node
  }

  ghost predicate Queue(side: Side, q: seq<Order>) {
    && Sorted(side, q)
    && DistinctNodes(q)
    && forall i :: 0 <= i < |q| ==> q[i].side == side
  }

  ghost function NodesOf(q: seq<Order>): set<OrderNode> {
    if q == [] then {} else {q[0].node} + NodesOf(q[1..])
  }

  ghost predicate WellFormed(b: Book) {
    && Queue(Buy, b.bids)
    && Queue(Sell, b.asks)
    && NodesOf(b.bids) !! NodesOf(b.asks)
  }

  function Volume(q: seq<Order>): nat {
    if q == [] then 0 else q[0].qty + Volume(q[1..])
  }

  /** The orders of `q` at price `p`, in queue order. */
  function AtPrice(q: seq<Order>, p: Price): seq<Order> {
    if q == [] then []
    else if q[0].price == p then [q[0]] + AtPrice(q[1..], p)
    else AtPrice(q[1..], p)
  }

  // ----- Operations -----

  datatype Outcome = Outcome(trades: seq<Trade>, rest: seq<Order>, left: Quantity) {
    function After(earlier: seq<Trade>): Outcome {
      this.(trades := earlier + trades)
    }
  }

  /** Fill `taker` from the front of `makers` as far as its limit allows. */
  function Match(taker: Order, makers: seq<Order>): Outcome
    decreases makers
  {
    if taker.qty == 0 || makers == [] || !Crosses(taker.side, taker.price, makers[0].price) then
      Outcome([], makers, taker.qty)
    else
      var maker := makers[0];
      var t := Min(taker.qty, maker.qty);
      var trade := Trade(maker.id, taker.id, maker.price, t);
      if t < maker.qty then
        Outcome([trade], [maker.(qty := maker.qty - t)] + makers[1..], taker.qty - t)
      else
        Match(taker.(qty := taker.qty - t), makers[1..]).After([trade])
  }

  /** Queue `o` behind every order that is at least as good. */
  function Insert(q: seq<Order>, o: Order): seq<Order> {
    if q == [] then [o]
    else if Better(o.side, o.price, q[0].price) then [o] + q
    else [q[0]] + Insert(q[1..], o)
  }

  function Without(q: seq<Order>, node: OrderNode): seq<Order> {
    if q == [] then []
    else if q[0].node == node then Without(q[1..], node)
    else [q[0]] + Without(q[1..], node)
  }

  /** The orders of `q` at any other price. */
  function ExceptAt(q: seq<Order>, p: Price): seq<Order> {
    if q == [] then []
    else if q[0].price == p then ExceptAt(q[1..], p)
    else [q[0]] + ExceptAt(q[1..], p)
  }

  /** Reductions only: a larger `newQty` changes nothing. */
  function Reduced(q: seq<Order>, node: OrderNode, newQty: Quantity): seq<Order> {
    if q == [] then []
    else [if q[0].node == node then q[0].(qty := Min(q[0].qty, newQty)) else q[0]] + Reduced(q[1..], node, newQty)
  }

  /** Queue what is left of `o` on its own side. */
  function Rest(b: Book, o: Order): Book {
    if o.qty > 0 then b.With(o.side, Insert(b.On(o.side), o)) else b
  }

  /** One submission: match against the other side, rest what is left. */
  function Submit(b: Book, o: Order): (Book, seq<Trade>) {
    var r := Match(o, b.On(o.side.Opposite()));
    (Rest(b.With(o.side.Opposite(), r.rest), o.(qty := r.left)), r.trades)
  }

  function Cancel(b: Book, node: OrderNode): Book {
    Book(Without(b.bids, node), Without(b.asks, node))
  }

  function Reduce(b: Book, node: OrderNode, newQty: Quantity): Book {
    Book(Reduced(b.bids, node, newQty), Reduced(b.asks, node, newQty))
  }
}
