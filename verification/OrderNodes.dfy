/** The intrusive order record: an order together with its own list links. */
module OrderNodes {
  import opened Types

  /** Not in any list, as far as its own links say. */
  ghost predicate Unlinked(n: OrderNode)
    reads n
  {
    n.prev == null && n.next == null
  }

  class OrderNode {
    var id: OrderId
    var price: Price
    var qty: Quantity
    var side: Side

    // Links inside the price level's list; null while the order is not resting.
    var prev: OrderNode?
    var next: OrderNode?

    constructor (id: OrderId, price: Price, qty: Quantity, side: Side)
      ensures this.id == id && this.price == price && this.qty == qty && this.side == side
      ensures prev == null && next == null
    {
      this.id, this.price, this.qty, this.side := id, price, qty, side;
      prev, next := null, null;
    }

    /** Overwrite the node with a new order. */
    method Write(id: OrderId, price: Price, qty: Quantity, side: Side)
      modifies this
      ensures this.id == id && this.price == price && this.qty == qty && this.side == side && Unlinked(this)
    {
      this.id, this.price, this.qty, this.side := id, price, qty, side;
      prev, next := null, null;
    }
  }
}
