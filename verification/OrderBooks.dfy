/** The limit order book on the heap: two ordered maps from price to level,
    each level a list of nodes with a cached volume. */
module OrderBooks {
  import opened Types
  import opened OrderNodes
  import opened IntrusiveLists
  import opened PriceTime
  import opened PriceTimeFacts

  /** A node's present field values, as an order. */
  ghost function Snapshot(n: OrderNode): Order
    reads n
  {
    Order(n, n.id, n.price, n.qty, n.side)
  }

  /** `q` is what the fields of `nodes` say, one by one. */
  ghost predicate Mirrors(nodes: seq<OrderNode>, q: seq<Order>)
    reads nodes
  {
    |q| == |nodes| && forall i :: 0 <= i < |q| ==> q[i] == Snapshot(nodes[i])
  }

  ghost predicate AllAt(q: seq<Order>, side: Side, price: Price) {
    forall i :: 0 <= i < |q| ==> q[i].price == price && q[i].side == side
  }

  lemma MirrorsAppend(nodes: seq<OrderNode>, q: seq<Order>, node: OrderNode)
    requires Mirrors(nodes, q)
    ensures Mirrors(nodes + [node], q + [Snapshot(node)])
  {
  }

  lemma MirrorsWithout(nodes: seq<OrderNode>, q: seq<Order>, k: nat)
    requires Mirrors(nodes, q) && k < |q|
    ensures Mirrors(nodes[..k] + nodes[k + 1..], q[..k] + q[k + 1..])
  {
  }

  class PriceLevel {
    const price: Price
    var totalVolume: Quantity
    const orders: IntrusiveList

    ghost const side: Side
    ghost var Queue: seq<Order>
    ghost var Repr: set<object>

    /** The list holds the orders `q`, and `repr` covers the list. */
    ghost predicate Holds(q: seq<Order>, repr: set<object>)
      reads this, repr
    {
      && this in repr && orders in repr
      && (forall i :: 0 <= i < |orders.Nodes| ==> orders.Nodes[i] in repr)
      && orders.Valid()
      && Mirrors(orders.Nodes, q)
      && AllAt(q, side, price)
      && totalVolume == Wrap64(Volume(q))
    }

    ghost predicate Valid()
      reads this, Repr
    {
      Holds(Queue, Repr)
    }

    /** Note the orders and footprint that the list now stands for. */
    ghost method Record(q: seq<Order>, repr: set<object>)
      requires Holds(q, repr)
      modifies this`Queue, this`Repr
      ensures Valid() && Queue == q && Repr == repr
    {
      Queue := q;
      Repr := repr;
    }

    constructor (price: Price, ghost side: Side)
      ensures this.price == price && this.side == side
      ensures Valid() && Queue == [] && fresh(Repr)
    {
      this.price := price;
      this.side := side;
      totalVolume := 0;
      var list := new IntrusiveList();
      orders := list;
      Queue := [];
      Repr := {this, list};
    }

    /** `push_back` at this level, with the cached volume kept in step. */
    method Append(node: OrderNode)
      requires Valid() && node !in Repr && node.price == price && node.side == side
      modifies Repr, node`prev, node`next
      ensures Valid() && Repr == old(Repr) + {node}
      ensures Queue == old(Queue + [Snapshot(node)])
    {
      orders.PushBack(node);
      totalVolume := Wrap64(totalVolume + node.qty);
      Lengthened(node);
      Record(Queue + [Snapshot(node)], Repr + {node});
    }

    /** The nodes carry the orders they carried before. */
    twostate predicate SameOrders(nodes: seq<OrderNode>)
      reads nodes
    {
      forall i :: 0 <= i < |nodes| ==> Snapshot(nodes[i]) == old(Snapshot(nodes[i]))
    }

    /** The list has gained `node`, the volume its quantity, and no order has changed. */
    twostate lemma Lengthened(node: OrderNode)
      requires old(Valid()) && Queue == old(Queue) && Repr == old(Repr)
      requires orders.Valid() && orders.Nodes == old(orders.Nodes + [node])
      requires SameOrders(old(orders.Nodes)) && node.price == price && node.side == side
      requires totalVolume == Wrap64(old(totalVolume) + node.qty)
      ensures Holds(Queue + [Snapshot(node)], Repr + {node})
    {
      VolumeAppend(Queue, [Snapshot(node)]);
      WrapAdd(Volume(Queue), node.qty);
      MirrorsAppend(old(orders.Nodes), Queue, node);
    }

    /** `remove` at this level, with the cached volume kept in step. A node that is in no list empties this one. */
    method Drop(node: OrderNode, ghost k: nat)
      requires Valid() && if k < |Queue| then Queue[k].node == node else Unlinked(node)
      modifies Repr, node`prev, node`next
      ensures if k < |old(Queue)| then
                Valid() && Repr == old(Repr) - {node} && Queue == old(Queue)[..k] + old(Queue)[k + 1..]
              else
                orders.head == null && Repr == old(Repr) && Queue == old(Queue)
      ensures Snapshot(node) == old(Snapshot(node)) && Unlinked(node)
    {
      Unlink(node, k);
      if k < |Queue| {
        Record(Queue[..k] + Queue[k + 1..], Repr - {node});
      }
    }

    /** The list without its `k`-th node, and the volume without its quantity. */
    method Unlink(node: OrderNode, ghost k: nat)
      requires Valid() && if k < |Queue| then Queue[k].node == node else Unlinked(node)
      modifies this`totalVolume, orders, orders.Nodes`prev, orders.Nodes`next, node`prev, node`next
      ensures Unlinked(node)
      ensures if k < |Queue| then Holds(Queue[..k] + Queue[k + 1..], Repr - {node}) else orders.head == null
    {
      assert node as object !in {this, orders};
      TakeOut(node, k);
      totalVolume := Wrap64(totalVolume - node.qty);
      if k < |Queue| {
        Shortened(k);
      }
    }

    method TakeOut(node: OrderNode, ghost k: nat)
      requires Valid() && if k < |Queue| then Queue[k].node == node else Unlinked(node)
      modifies orders, orders.Nodes`prev, orders.Nodes`next, node`prev, node`next
      ensures orders.Valid() && Unlinked(node)
      ensures orders.Nodes == if k < |Queue| then old(orders.Nodes[..k] + orders.Nodes[k + 1..]) else []
      ensures SameOrders(old(orders.Nodes))
    {
      orders.Remove(node, k);
    }

    /** The list has lost its `k`-th node, the volume that node's quantity, and no order has changed. */
    twostate lemma Shortened(k: nat)
      requires old(Valid()) && k < |Queue| && Queue == old(Queue) && Repr == old(Repr)
      requires orders.Valid() && orders.Nodes == old(orders.Nodes[..k] + orders.Nodes[k + 1..])
      requires SameOrders(old(orders.Nodes))
      requires totalVolume == Wrap64(old(totalVolume) - Queue[k].qty)
      ensures Holds(Queue[..k] + Queue[k + 1..], Repr - {Queue[k].node})
    {
      VolumeWithout(Queue, k);
      WrapSub(Volume(Queue), Queue[k].qty);
      MirrorsWithout(old(orders.Nodes), Queue, k);
    }

    /** Lower one resting order's quantity in place. */
    method Lower(node: OrderNode, newQty: Quantity, ghost k: nat)
      requires Valid() && k < |Queue| && Queue[k].node == node && newQty <= node.qty
      modifies this, node`qty
      ensures Valid() && Repr == old(Repr)
      ensures Queue == old(Queue)[k := old(Queue)[k].(qty := newQty)]
      ensures node.qty == newQty
    {
      var diff := node.qty - newQty;
      node.qty := newQty;
      totalVolume := Wrap64(totalVolume - diff);
      Lowered(k, newQty);
      Record(Queue[k := Queue[k].(qty := newQty)], Repr);
    }

    /** The `k`-th node's quantity has become `newQty`, the volume is lower by the difference, and
        nothing else has changed. */
    twostate lemma Lowered(k: nat, new newQty: Quantity)
      requires old(Valid()) && k < |Queue| && Queue == old(Queue) && Repr == old(Repr)
      requires unchanged(orders) && orders.Valid()
      requires forall i :: 0 <= i < |orders.Nodes| ==>
        Snapshot(orders.Nodes[i]) == if i == k then old(Snapshot(orders.Nodes[i])).(qty := newQty)
            else old(Snapshot(orders.Nodes[i]))
      requires totalVolume == Wrap64(old(totalVolume) - (Queue[k].qty - newQty))
      ensures Holds(Queue[k := Queue[k].(qty := newQty)], Repr)
    {
      VolumeUpdate(Queue, k, newQty);
      WrapSub(Volume(Queue), Queue[k].qty - newQty);
    }
  }

  /** An ordered map from price to level; `side` selects the comparator. */
  class LevelMap {
    const side: Side
    var levels: map<Price, PriceLevel>

    ghost var Queue: seq<Order>
    ghost var Repr: set<object>

    /** `level` holds exactly the orders of `q` at price `p`. */
    static ghost predicate LevelShape(side: Side, p: Price, level: PriceLevel, q: seq<Order>)
      reads level, level.Repr
    {
      level.price == p && level.side == side && level.Queue == AtPrice(q, p) && level.Valid()
    }

    /** The levels hold exactly `q`, each level its own orders, within the footprint `repr`. */
    static ghost predicate Holds(side: Side, levels: map<Price, PriceLevel>, q: seq<Order>, repr: set<object>)
      reads repr
    {
      && PriceTime.Queue(side, q)
      && (forall o :: o in q ==> o.price in levels)
      && (forall p :: p in levels ==>
            levels[p] in repr && levels[p].Repr <= repr && LevelShape(side, p, levels[p], q))
      && (forall p, p' :: p in levels && p' in levels && p != p' ==> levels[p].Repr !! levels[p'].Repr)
    }

    /** No level other than `level` is empty. */
    static ghost predicate NoEmptyLevelBut(level: PriceLevel?, levels: map<Price, PriceLevel>, repr: set<object>)
      reads repr
    {
      forall p :: p in levels && levels[p] != level ==> levels[p] in repr && levels[p].Queue != []
    }

    ghost predicate Shape()
      reads this, Repr
    {
      this !in Repr && Holds(side, levels, Queue, Repr)
    }

    ghost predicate NoEmptyBut(level: PriceLevel?)
      reads this, Repr
    {
      NoEmptyLevelBut(level, levels, Repr)
    }

    ghost predicate Valid()
      reads this, Repr
    {
      Shape() && NoEmptyBut(null)
    }

    constructor (side: Side)
      ensures Valid() && this.side == side && Queue == [] && fresh(Repr)
    {
      this.side := side;
      levels, Queue, Repr := map[], [], {};
    }

    /** The first entry in comparator order, or null when the map is empty. */
    method Begin() returns (level: PriceLevel?)
      requires Valid()
      ensures level == null <==> Queue == []
      ensures level != null ==> Queue[0].price in levels && level == levels[Queue[0].price] && level.price == Queue[0].price
    {
      if levels == map[] {
        NoLevelsNoOrders();
        return null;
      }
      ghost var best := LeastKey(side, levels.Keys);
      var p: Price :| p in levels && forall p' :: p' in levels ==> !Better(side, p', p);
      FirstIsBest(p);
      level := levels[p];
    }

    /** Find the level at `price`, or add an empty one. */
    method FindOrEmplace(price: Price) returns (level: PriceLevel)
      requires Valid()
      modifies this
      ensures Shape() && NoEmptyBut(level) && Queue == old(Queue)
      ensures price in levels && level == levels[price]
      ensures Repr >= old(Repr) && fresh(Repr - old(Repr))
    {
      if price !in levels {
        level := new PriceLevel(price, side);
        NoLevelNoOrders(price);
        HoldsMore(side, levels, level, Queue, Repr);
        AddLevel(level);
      }
      level := levels[price];
    }

    method AddLevel(level: PriceLevel)
      requires Holds(side, levels[level.price := level], Queue, Repr + level.Repr) && this !in Repr + level.Repr
      requires NoEmptyLevelBut(level, levels[level.price := level], Repr + level.Repr)
      modifies this`levels, this`Repr
      ensures Shape() && NoEmptyBut(level)
      ensures levels == old(levels)[level.price := level] && Repr == old(Repr) + level.Repr
    {
      levels := levels[level.price := level];
      Repr := Repr + level.Repr;
    }

    static lemma HoldsMore(side: Side, levels: map<Price, PriceLevel>, level: PriceLevel, q: seq<Order>, repr: set<object>)
      requires Holds(side, levels, q, repr) && NoEmptyLevelBut(null, levels, repr)
      requires level.price !in levels && AtPrice(q, level.price) == []
      requires level.Valid() && level.Queue == [] && level.side == side && level.Repr !! repr
      ensures Holds(side, levels[level.price := level], q, repr + level.Repr)
      ensures NoEmptyLevelBut(level, levels[level.price := level], repr + level.Repr)
    {
    }

    method Insert(node: OrderNode)
      requires Valid() && node !in Repr && node.side == side
      modifies this, Repr, node`prev, node`next
      ensures Valid() && Repr >= old(Repr) + {node} && fresh(Repr - old(Repr) - {node})
      ensures Queue == old(PriceTime.Insert(Queue, Snapshot(node)))
    {
      var level := FindOrEmplace(node.price);
      AppendTo(level, node);
    }

    method AppendTo(level: PriceLevel, node: OrderNode)
      requires Shape() && NoEmptyBut(level) && node !in Repr && node.side == side
      requires node.price in levels && levels[node.price] == level
      modifies this, level.Repr, node`prev, node`next
      ensures Valid() && Repr == old(Repr) + {node}
      ensures Queue == old(PriceTime.Insert(Queue, Snapshot(node)))
    {
      ghost var o := Snapshot(node);
      InsertGhost(o);
      level.Append(node);
      LevelChanged(level, PriceTime.Insert(Queue, o), Repr + {node});
      Record(level, PriceTime.Insert(Queue, o), Repr + {node});
    }

    /** Note the queue and footprint that the levels now stand for. */
    ghost method Record(level: PriceLevel?, q: seq<Order>, repr: set<object>)
      requires Holds(side, levels, q, repr) && this !in repr && NoEmptyLevelBut(level, levels, repr)
      modifies this`Queue, this`Repr
      ensures Shape() && NoEmptyBut(level) && Queue == q && Repr == repr
    {
      Queue := q;
      Repr := repr;
    }

    /** The levels without `level` if its list is empty. */
    ghost function Kept(level: PriceLevel): map<Price, PriceLevel>
      reads this, level.orders
    {
      if level.orders.head == null then levels - {level.price} else levels
    }

    /** The levels hold exactly `q`, and none is empty, once `level` is erased if its list is empty. */
    ghost predicate HoldsBut(level: PriceLevel, q: seq<Order>, repr: set<object>)
      reads this, repr, level.orders
    {
      && level.price in levels && levels[level.price] == level && this !in repr
      && Holds(side, Kept(level), q, repr) && NoEmptyLevelBut(null, Kept(level), repr)
    }

    ghost predicate ValidBut(level: PriceLevel)
      reads this, Repr, level.orders
    {
      HoldsBut(level, Queue, Repr)
    }

    ghost method RecordBut(level: PriceLevel, q: seq<Order>, repr: set<object>)
      requires HoldsBut(level, q, repr)
      modifies this`Queue, this`Repr
      ensures ValidBut(level) && Queue == q && Repr == repr
    {
      Queue := q;
      Repr := repr;
    }

    /** Erase `level` if its list has become empty. */
    method CheckRemoveLevel(level: PriceLevel)
      requires ValidBut(level)
      modifies this`levels
      ensures Valid() && levels == old(Kept(level))
    {
      if level.orders.Empty() {
        levels := levels - {level.price};
      }
    }

    method Settle(level: PriceLevel, ghost q: seq<Order>, ghost repr: set<object>)
      requires HoldsBut(level, q, repr)
      modifies this
      ensures Valid() && Queue == q && Repr == repr
    {
      RecordBut(level, q, repr);
      CheckRemoveLevel(level);
    }

    /** A level in order may be left to `CheckRemoveLevel`, empty or not. */
    lemma Erasable(level: PriceLevel, q: seq<Order>, repr: set<object>)
      requires Holds(side, levels, q, repr) && NoEmptyLevelBut(level, levels, repr) && this !in repr
      requires level.price in levels && levels[level.price] == level
      ensures HoldsBut(level, q, repr)
    {
      assert LevelShape(side, level.price, level, q);
      if level.orders.head == null {
        HoldsLess(side, levels, level, q, repr);
      }
    }

    static lemma HoldsLess(side: Side, levels: map<Price, PriceLevel>, level: PriceLevel, q: seq<Order>, repr: set<object>)
      requires Holds(side, levels, q, repr) && NoEmptyLevelBut(level, levels, repr)
      requires level.price in levels && levels[level.price] == level && level.Queue == []
      ensures Holds(side, levels - {level.price}, q, repr)
      ensures NoEmptyLevelBut(null, levels - {level.price}, repr)
    {
      AtPriceMembers(q, level.price);
    }

    /** What `Cancel` leaves of the queue. A node that does not rest takes all orders at its price along. */
    ghost function Cancelled(node: OrderNode): seq<Order>
      reads this, node
    {
      if node in NodesOf(Queue) then Without(Queue, node) else ExceptAt(Queue, node.price)
    }

    /** Take a resting order out. */
    method Cancel(node: OrderNode)
      requires Valid() && node.side == side
      requires node in NodesOf(Queue) || (node !in Repr && Unlinked(node)) || node.price !in levels
      modifies this, Repr, node`prev, node`next
      ensures Valid() && Queue == old(Cancelled(node)) && Repr <= old(Repr)
      ensures if old(node in NodesOf(Queue)) then Repr == old(Repr) - {node} && Unlinked(node) else unchanged(node)
      ensures Snapshot(node) == old(Snapshot(node))
    {
      if node.price in levels {
        var level := levels[node.price];
        ghost var q, repr := Cancelled(node), Repr - if node in NodesOf(Queue) then {node} else level.Repr;
        DropFrom(level, node);
        Settle(level, q, repr);
      } else {
        CancelNothing(node);
      }
    }

    lemma CancelNothing(node: OrderNode)
      requires Shape() && node.price !in levels
      ensures node !in NodesOf(Queue) && Cancelled(node) == Queue
    {
      NoLevelNoNode(node);
      NoLevelNoOrders(node.price);
      ExceptNothingIff(Queue, node.price);
    }

    method DropFrom(level: PriceLevel, node: OrderNode)
      requires Valid() && node.price in levels && levels[node.price] == level
      requires node in NodesOf(Queue) || (node !in Repr && Unlinked(node))
      modifies level.Repr, node`prev, node`next
      ensures HoldsBut(level, old(Cancelled(node)), Repr - if node in NodesOf(Queue) then {node} else old(level.Repr))
      ensures Snapshot(node) == old(Snapshot(node)) && Unlinked(node)
    {
      ghost var k := PlaceOf(level, node);
      assert node as object !in {this, level, level.orders};  // a node is neither a map nor a level nor a list
      level.Drop(node, k);
      if node in NodesOf(Queue) {
        LevelChangedBut(level, Without(Queue, node), Repr - {node});
      } else {
        LevelEmptied(level);
      }
    }

    /** Where `node` is in the list, and what its departure changes; the end of the list if it does not rest. */
    lemma PlaceOf(level: PriceLevel, node: OrderNode) returns (k: nat)
      requires Shape() && node.price in levels && levels[node.price] == level
      ensures if node in NodesOf(Queue) then
                && k < |level.Queue| && level.Queue[k].node == node && node in level.Repr
                && ChangesOnly(side, levels, node.price, Queue, Without(Queue, node))
                && AtPrice(Without(Queue, node), node.price) == level.Queue[..k] + level.Queue[k + 1..]
              else k == |level.Queue|
    {
      k := |level.Queue|;
      if node in NodesOf(Queue) {
        k := Locate(node);
        WithoutChanges(side, levels, Queue, node.price, k);
      }
    }

    /** Lower a resting order's quantity; it keeps its place. */
    method Reduce(node: OrderNode, newQty: Quantity)
      requires Valid() && node.side == side && newQty < node.qty
      requires node in NodesOf(Queue)
      modifies this, Repr
      ensures Valid() && Queue == old(Reduced(Queue, node, newQty)) && Repr == old(Repr)
      ensures Snapshot(node) == old(Snapshot(node)).(qty := newQty)
    {
      ghost var k := Locate(node);
      LowerAt(levels[node.price], node, newQty, k);
      Record(null, Reduced(Queue, node, newQty), Repr);
    }

    method LowerAt(level: PriceLevel, node: OrderNode, newQty: Quantity, ghost k: nat)
      requires Valid() && newQty < node.qty && node.price in levels && level == levels[node.price]
      requires k < |level.Queue| && level.Queue[k] == Snapshot(node) && node in level.Repr
      modifies level, node`qty
      ensures Holds(side, levels, Reduced(Queue, node, newQty), Repr) && NoEmptyBut(null)
      ensures Snapshot(node) == old(Snapshot(node)).(qty := newQty)
    {
      ReducedGhost(node, newQty, k);
      assert node as object !in {this, level};
      level.Lower(node, newQty, k);
      LevelChanged(level, Reduced(Queue, node, newQty), Repr);
    }

    /** The position of a resting node in its level. */
    lemma Locate(node: OrderNode) returns (k: nat)
      requires Shape() && node in NodesOf(Queue)
      ensures node.price in levels && node.side == side && node in Repr
      ensures var level := levels[node.price];
        k < |level.Queue| && level.Queue[k].node == node && level.Queue[k] == Snapshot(node) && node in level.Repr
    {
      NodesOfMembers(Queue);
      var i :| 0 <= i < |Queue| && Queue[i].node == node;
      k := NodeOwned(Queue[i]);
    }

    lemma NoLevelNoNode(node: OrderNode)
      requires Shape() && node.price !in levels
      ensures node !in NodesOf(Queue)
    {
      if node in NodesOf(Queue) {
        var k := Locate(node);
      }
    }

    /** What leaving, changing or joining does to a queue, price by price. Nothing here reads the heap. */
    static ghost predicate Covers(side: Side, levels: map<Price, PriceLevel>, q: seq<Order>) {
      PriceTime.Queue(side, q) && forall o :: o in q ==> o.price in levels
    }

    static lemma WithoutChanges(side: Side, levels: map<Price, PriceLevel>, q: seq<Order>, p: Price, k: nat)
      requires Covers(side, levels, q) && k < |AtPrice(q, p)|
      ensures var at, node := AtPrice(q, p), AtPrice(q, p)[k].node;
        ChangesOnly(side, levels, p, q, Without(q, node)) && AtPrice(Without(q, node), p) == at[..k] + at[k + 1..]
    {
      var o := AtPrice(q, p)[k];
      AtPriceMembers(q, p);
      WithoutKeepsQueue(side, q, o.node);
      WithoutMembers(q, o.node);
      DistinctAtPrice(q, p);
      WithoutAtPrice(q, o.node, p);
      WithoutShape(AtPrice(q, p), k);
      forall p' | p' != p ensures AtPrice(Without(q, o.node), p') == AtPrice(q, p') {
        WithoutElsewhere(q, o, p');
      }
    }

    static lemma ReducedChanges(side: Side, levels: map<Price, PriceLevel>, q: seq<Order>,
                                p: Price, k: nat, newQty: Quantity)
      requires Covers(side, levels, q) && k < |AtPrice(q, p)| && newQty <= AtPrice(q, p)[k].qty
      ensures var at, o := AtPrice(q, p), AtPrice(q, p)[k];
        && ChangesOnly(side, levels, p, q, Reduced(q, o.node, newQty))
        && AtPrice(Reduced(q, o.node, newQty), p) == at[k := o.(qty := newQty)]
    {
      var o := AtPrice(q, p)[k];
      AtPriceMembers(q, p);
      ReducedKeepsQueue(side, q, o.node, newQty);
      ReducedPrices(q, o.node, newQty);
      DistinctAtPrice(q, p);
      ReducedAtPrice(q, o.node, newQty, p);
      ReducedAt(AtPrice(q, p), k, newQty);
      forall p' | p' != p ensures AtPrice(Reduced(q, o.node, newQty), p') == AtPrice(q, p') {
        ReducedElsewhere(q, o, newQty, p');
      }
    }

    static lemma InsertChanges(side: Side, levels: map<Price, PriceLevel>, q: seq<Order>, o: Order)
      requires Covers(side, levels, q) && o.side == side && o.node !in NodesOf(q) && o.price in levels
      ensures ChangesOnly(side, levels, o.price, q, PriceTime.Insert(q, o))
      ensures AtPrice(PriceTime.Insert(q, o), o.price) == AtPrice(q, o.price) + [o]
    {
      InsertKeepsQueue(side, q, o);
      var k := InsertShape(side, q, o);
      forall p ensures AtPrice(PriceTime.Insert(q, o), p) == AtPrice(q, p) + (if o.price == p then [o] else []) {
        InsertAtPrice(side, q, o, p);
      }
    }

    lemma InsertGhost(o: Order)
      requires Shape() && o.side == side && o.node !in Repr && o.price in levels
      ensures ChangesOnly(side, levels, o.price, Queue, PriceTime.Insert(Queue, o))
      ensures AtPrice(PriceTime.Insert(Queue, o), o.price) == levels[o.price].Queue + [o]
    {
      NodesOwned();
      InsertChanges(side, levels, Queue, o);
    }

    lemma ReducedGhost(node: OrderNode, newQty: Quantity, k: nat)
      requires Shape() && node.price in levels && newQty < node.qty
      requires k < |levels[node.price].Queue| && levels[node.price].Queue[k] == Snapshot(node)
      ensures ChangesOnly(side, levels, node.price, Queue, Reduced(Queue, node, newQty))
      ensures var q := levels[node.price].Queue;
        AtPrice(Reduced(Queue, node, newQty), node.price) == q[k := q[k].(qty := newQty)]
    {
      ReducedChanges(side, levels, Queue, node.price, k, newQty);
    }

    twostate predicate Untouched(level: PriceLevel)
      reads level, level.Repr
    {
      unchanged(level) && forall o :: o in level.Repr ==> unchanged(o)
    }

    /** Replacing the queue `q` by `q'` touches the orders at price `p` only. */
    static ghost predicate ChangesOnly(side: Side, levels: map<Price, PriceLevel>, p: Price, q: seq<Order>, q': seq<Order>)
    {
      && PriceTime.Queue(side, q')
      && (forall o :: o in q' ==> o.price in levels)
      && (forall p' :: p' in levels && p' != p ==> AtPrice(q', p') == AtPrice(q, p'))
    }

    /** A change confined to one level leaves every other level as it was. */
    twostate lemma OthersKept(level: PriceLevel)
      requires old(Shape()) && levels == old(levels) && Queue == old(Queue) && Repr == old(Repr)
      requires level.price in levels && levels[level.price] == level
      requires forall o :: o in Repr && o !in old(level.Repr) ==> unchanged(o)
      ensures forall p :: p in levels && p != level.price ==>
        && LevelShape(side, p, levels[p], Queue)
        && levels[p].Repr == old(levels[p].Repr) && levels[p].Queue == old(levels[p].Queue)
    {
      forall p | p in levels && p != level.price ensures Untouched(levels[p]) {
        assert old(levels[p].Repr) !! old(level.Repr) && old(levels[p].Repr) <= Repr;
        assert levels[p] in old(levels[p].Repr);
      }
    }

    /** What a changed level now owns is not owned by any other level. */
    twostate lemma OthersApart(level: PriceLevel, new repr: set<object>)
      requires old(Shape()) && levels == old(levels) && Repr == old(Repr)
      requires level.price in levels && levels[level.price] == level
      requires forall p :: p in levels && p != level.price ==> levels[p].Repr == old(levels[p].Repr)
      requires level.Repr <= repr && forall o :: o in Repr && o !in old(level.Repr) ==> o in repr
      requires forall o :: o in level.Repr ==> o in old(level.Repr) || o !in Repr
      ensures forall p :: p in levels && p != level.price ==>
        levels[p] in repr && levels[p].Repr <= repr && levels[p].Repr !! level.Repr
    {
      forall p | p in levels && p != level.price
        ensures levels[p] in repr && levels[p].Repr <= repr && levels[p].Repr !! level.Repr
      {
        assert old(levels[p].Repr) !! old(level.Repr) && old(levels[p].Repr) <= Repr;
        assert levels[p] in old(levels[p].Repr);
      }
    }

    /** After a change confined to `level`, the levels hold the queue with that price's orders replaced. */
    twostate lemma LevelChanged(level: PriceLevel, new q: seq<Order>, new repr: set<object>)
      requires levels == old(levels) && Queue == old(Queue) && Repr == old(Repr)
      requires old(Shape()) && old(NoEmptyBut(level))
      requires level.price in levels && levels[level.price] == level
      requires forall o :: o in Repr && o !in old(level.Repr) ==> unchanged(o)
      requires ChangesOnly(side, levels, level.price, Queue, q) && LevelShape(side, level.price, level, q)
      requires level.Repr <= repr && forall o :: o in Repr && o !in old(level.Repr) ==> o in repr
      requires forall o :: o in level.Repr ==> o in old(level.Repr) || o !in Repr
      ensures Holds(side, levels, q, repr) && NoEmptyLevelBut(level, levels, repr)
    {
      OthersKept(level);
      OthersApart(level, repr);
    }

    /** The same for a level that may have run empty. */
    twostate lemma LevelChangedBut(level: PriceLevel, new q: seq<Order>, new repr: set<object>)
      requires levels == old(levels) && Queue == old(Queue) && Repr == old(Repr)
      requires old(Shape()) && old(NoEmptyBut(level)) && this !in Repr
      requires level.price in levels && levels[level.price] == level
      requires forall o :: o in Repr && o !in old(level.Repr) ==> unchanged(o)
      requires ChangesOnly(side, levels, level.price, Queue, q) && LevelShape(side, level.price, level, q)
      requires level.Repr <= old(level.Repr) && repr == Repr - (old(level.Repr) - level.Repr)
      ensures HoldsBut(level, q, repr)
    {
      LevelChanged(level, q, repr);
      Erasable(level, q, repr);
    }

    /** Once `level`'s list has been lost, the other levels hold the queue without that price. */
    twostate lemma LevelEmptied(level: PriceLevel)
      requires levels == old(levels) && Queue == old(Queue) && Repr == old(Repr) && level.Repr == old(level.Repr)
      requires old(Valid()) && this !in Repr
      requires level.price in levels && levels[level.price] == level && level.orders.head == null
      requires forall o :: o in Repr && o !in old(level.Repr) ==> unchanged(o)
      ensures HoldsBut(level, ExceptAt(Queue, level.price), Repr - level.Repr)
    {
      OthersKept(level);
      ExceptGhost(side, levels, Queue, level.price);
      OthersRemain(level);
    }

    static lemma ExceptGhost(side: Side, levels: map<Price, PriceLevel>, q: seq<Order>, price: Price)
      requires PriceTime.Queue(side, q) && forall o :: o in q ==> o.price in levels
      ensures ChangesOnly(side, levels - {price}, price, q, ExceptAt(q, price))
    {
      ExceptAtKeepsQueue(side, q, price);
      ExceptAtMembers(q, price);
      forall p | p != price ensures AtPrice(ExceptAt(q, price), p) == AtPrice(q, p) {
        ExceptAtPrice(q, price, p);
      }
    }

    /** The other levels' footprint does not overlap what `level` owned. */
    twostate lemma OthersRemain(level: PriceLevel)
      requires old(Shape()) && levels == old(levels) && Repr == old(Repr) && level.Repr == old(level.Repr)
      requires level.price in levels && levels[level.price] == level
      requires forall p :: p in levels && p != level.price ==> levels[p].Repr == old(levels[p].Repr)
      ensures forall p :: p in levels && p != level.price ==>
        levels[p] in Repr - level.Repr && levels[p].Repr <= Repr - level.Repr
      ensures forall p, p' :: p in levels - {level.price} && p' in levels - {level.price} && p != p' ==>
          levels[p].Repr !! levels[p'].Repr
    {
      forall p | p in levels && p != level.price
        ensures levels[p] in Repr - level.Repr && levels[p].Repr <= Repr - level.Repr
      {
        assert old(levels[p].Repr) !! old(level.Repr) && old(levels[p].Repr) <= Repr;
        assert levels[p] in old(levels[p].Repr);
      }
    }

    lemma NodesOwned()
      requires Shape()
      ensures forall n :: n in NodesOf(Queue) ==> n in Repr
    {
      NodesOfMembers(Queue);
      forall i | 0 <= i < |Queue| ensures Queue[i].node in Repr {
        var k := NodeOwned(Queue[i]);
      }
    }

    /** The queue records a resting node with the quantity it has. */
    lemma RestingQty(node: OrderNode)
      requires Shape()
      ensures forall i :: 0 <= i < |Queue| && Queue[i].node == node ==> Queue[i].qty == node.qty
    {
      forall i | 0 <= i < |Queue| && Queue[i].node == node ensures Queue[i].qty == node.qty {
        var k := NodeOwned(Queue[i]);
      }
    }

    /** A resting order sits in the level of its price. */
    lemma NodeOwned(o: Order) returns (k: nat)
      requires Shape() && o in Queue
      ensures o.price in levels && levels[o.price] in Repr && levels[o.price].Repr <= Repr
      ensures var level := levels[o.price];
        k < |level.Queue| && level.Queue[k] == o == Snapshot(o.node) && o.node in level.Repr
      ensures o.side == side
    {
      AtPriceMembers(Queue, o.price);
      var level := levels[o.price];
      k :| 0 <= k < |level.Queue| && level.Queue[k] == o;
      assert level.orders.Nodes[k] == o.node;
    }

    lemma NoLevelNoOrders(p: Price)
      requires Shape() && p !in levels
      ensures AtPrice(Queue, p) == []
    {
      forall i | 0 <= i < |Queue| ensures Queue[i].price != p {
        assert Queue[i] in Queue;
      }
      AtPriceNone(Queue, p);
    }

    lemma NoLevelsNoOrders()
      requires Shape() && levels == map[]
      ensures Queue == []
    {
      if Queue != [] {
        NoLevelNoOrders(Queue[0].price);
      }
    }

    /** The depth shown is the depth there is: a level exists at a price exactly when an order rests
        there; it lists exactly those orders, oldest first; and its cached volume is their sum. */
    lemma DepthAgrees(p: Price)
      requires Valid()
      ensures p in levels <==> AtPrice(Queue, p) != []
      ensures p in levels ==>
                var level, queue := levels[p], AtPrice(Queue, p);
                && level.price == p && Mirrors(level.orders.Nodes, queue) && level.orders.Valid()
                && level.totalVolume == Wrap64(Volume(queue))
                && (Volume(queue) < TWO_TO_THE_64 ==> level.totalVolume == Volume(queue))
    {
      if p !in levels {
        NoLevelNoOrders(p);
      } else {
        WrapSmall(Volume(AtPrice(Queue, p)));
      }
    }

    /** In a valid map the best key carries the first order of the queue. */
    lemma FirstIsBest(p: Price)
      requires Valid()
      requires p in levels && forall p' :: p' in levels ==> !Better(side, p', p)
      ensures Queue != [] && Queue[0].price == p
    {
      AtPriceMembers(Queue, p);
      assert AtPrice(Queue, p)[0] in Queue;
      assert Queue[0] in Queue;
      var i :| 0 <= i < |Queue| && Queue[i].price == p;
      assert !Better(side, p, Queue[0].price);
    }
  }

  class OrderBook {
    const bids: LevelMap
    const asks: LevelMap

    ghost function State(): Book
      reads bids, asks
    {
      Book(bids.Queue, asks.Queue)
    }

    /** Everything the book owns, the resting nodes included. */
    ghost function Repr(): set<object>
      reads bids, asks
    {
      {bids, asks} + bids.Repr + asks.Repr
    }

    ghost predicate Valid()
      reads bids, asks, bids.Repr, asks.Repr
    {
      && bids != asks && bids !in asks.Repr && asks !in bids.Repr && bids.Repr !! asks.Repr
      && bids.Valid() && bids.side == Buy
      && asks.Valid() && asks.side == Sell
    }

    ghost predicate Rests(node: OrderNode)
      reads bids, asks, node
    {
      node in NodesOf(State().On(node.side))
    }

    ghost predicate HasLevel(side: Side, price: Price)
      reads bids, asks
    {
      price in if side.Buy? then bids.levels else asks.levels
    }

    constructor ()
      ensures Valid() && State() == EMPTY_BOOK && fresh(Repr())
    {
      bids := new LevelMap(Buy);
      asks := new LevelMap(Sell);
    }

    method GetBestBid() returns (level: PriceLevel?)
      requires bids.Valid()
      ensures level == null <==> State().bids == []
      ensures level != null ==> Best(bids, level)
    {
      level := bids.Begin();
    }

    method GetBestAsk() returns (level: PriceLevel?)
      requires asks.Valid()
      ensures level == null <==> State().asks == []
      ensures level != null ==> Best(asks, level)
    {
      level := asks.Begin();
    }

    /** `level` carries the first order of that side, and so everything at that price. */
    static ghost predicate Best(map_: LevelMap, level: PriceLevel)
      reads map_
    {
      && map_.Queue != [] && map_.Queue[0].price in map_.levels && map_.levels[map_.Queue[0].price] == level
      && level.price == map_.Queue[0].price
    }

    method InsertOrder(node: OrderNode)
      requires Valid() && node !in Repr()
      modifies Repr(), node`prev, node`next
      ensures Valid() && node in Repr() && Repr() >= old(Repr()) && fresh(Repr() - old(Repr()) - {node})
      ensures State() == old(State().With(node.side, Insert(State().On(node.side), Snapshot(node))))
    {
      if node.side.Buy? {
        bids.Insert(node);
        OneSideChanged(bids);
      } else {
        asks.Insert(node);
        OneSideChanged(asks);
      }
    }

    /** A node that has left the book, or never was in it. */
    ghost predicate Stale(node: OrderNode)
      reads bids, asks, node
    {
      node !in Repr() && Unlinked(node)
    }

    /** What `CancelOrder` leaves. It is `Cancel` for an order that rests; any other node takes
        along all orders at its price. */
    ghost function Cancelled(node: OrderNode): Book
      reads bids, asks, node
    {
      if node.side.Buy? then State().(bids := bids.Cancelled(node)) else State().(asks := asks.Cancelled(node))
    }

    method CancelOrder(node: OrderNode)
      requires Valid() && (Rests(node) || Stale(node) || !HasLevel(node.side, node.price))
      modifies Repr(), node`prev, node`next
      ensures Valid() && State() == old(Cancelled(node)) && Repr() <= old(Repr())
      ensures old(Rests(node) || !HasLevel(node.side, node.price)) ==> State() == old(Cancel(State(), node))
      ensures old(Rests(node)) ==> node !in Repr() && Unlinked(node)
      ensures Snapshot(node) == old(Snapshot(node))
    {
      NotOnOtherSide(node);
      CancelIff(node);
      if node.side.Buy? {
        bids.Cancel(node);
        OneSideChanged(bids);
      } else {
        asks.Cancel(node);
        OneSideChanged(asks);
      }
    }

    /** One side has changed, and has taken nothing from the other, which has not. */
    twostate lemma OneSideChanged(changed: LevelMap)
      requires old(Valid()) && changed.Valid() && (changed == bids || changed == asks)
      requires var other := if changed == bids then asks else bids;
        && unchanged(other) && (forall o :: o in other.Repr ==> unchanged(o))
        && other !in changed.Repr && changed.Repr !! other.Repr
      ensures Valid()
    {
    }

    /** `CancelOrder` takes out the node and nothing else exactly when the node rests here or its
        price has no level. */
    lemma CancelIff(node: OrderNode)
      requires Valid()
      ensures Cancelled(node) == Cancel(State(), node) <==> Rests(node) || !HasLevel(node.side, node.price)
    {
      NotOnOtherSide(node);
      CancelOnSide(State(), node.side, node);
      var map_ := if node.side.Buy? then bids else asks;
      map_.DepthAgrees(node.price);
      if !Rests(node) {
        WithoutAbsent(map_.Queue, node);
        ExceptNothingIff(map_.Queue, node.price);
      }
    }

    /** For a node that does not rest it leaves nothing at its side and price, and everything else. */
    lemma StaleCancelLeaves(node: OrderNode, p: Price)
      requires Valid() && !Rests(node)
      ensures var before, after := State(), Cancelled(node);
              && after.On(node.side.Opposite()) == before.On(node.side.Opposite())
              && Sorted(node.side, after.On(node.side))
              && AtPrice(after.On(node.side), p) == if p == node.price then [] else AtPrice(before.On(node.side), p)
    {
      StateIsWellFormed();
      ExceptAtPrice(State().On(node.side), node.price, p);
      ExceptAtKeepsQueue(node.side, State().On(node.side), node.price);
    }

    /** Reductions keep time priority; anything else is ignored. Reducing needs an order that rests
        here, or one the book does not own, at a price that has no level. */
    method ReduceOrder(node: OrderNode, newQty: Quantity)
      requires Valid()
      requires newQty < node.qty ==> Rests(node) || (node !in Repr() && !HasLevel(node.side, node.price))
      modifies Repr(), node`qty
      ensures Valid() && Repr() == old(Repr())
      ensures State() == old(Reduce(State(), node, newQty))
      ensures Snapshot(node) == old(Snapshot(node).(qty := Min(node.qty, newQty)))
    {
      if newQty >= node.qty {
        ReducedNothingHere(node, newQty);
        return;
      }
      var map_ := if node.side.Buy? then bids else asks;
      if node.price in map_.levels {
        ReduceResting(node, newQty);
      } else {
        map_.NoLevelNoNode(node);
        ReduceElsewhere(node, newQty);
      }
    }

    method ReduceElsewhere(node: OrderNode, newQty: Quantity)
      requires Valid() && !Rests(node) && node !in Repr() && newQty < node.qty
      modifies node`qty
      ensures Valid() && Repr() == old(Repr())
      ensures State() == old(Reduce(State(), node, newQty))
      ensures Snapshot(node) == old(Snapshot(node).(qty := newQty))
    {
      ReducedNothingHere(node, newQty);
      node.qty := newQty;
    }

    method ReduceResting(node: OrderNode, newQty: Quantity)
      requires Valid() && Rests(node) && newQty < node.qty
      modifies Repr()
      ensures Valid() && Repr() == old(Repr())
      ensures State() == old(Reduce(State(), node, newQty))
      ensures Snapshot(node) == old(Snapshot(node).(qty := newQty))
    {
      ReduceOneSided(node, newQty);
      assert node as object !in {bids, asks};
      if node.side.Buy? {
        bids.Reduce(node, newQty);
        OneSideChanged(bids);
      } else {
        asks.Reduce(node, newQty);
        OneSideChanged(asks);
      }
    }

    /** The two queues of a valid book form a well-formed reference book, owned by the book. */
    lemma StateIsWellFormed()
      requires Valid()
      ensures WellFormed(State())
      ensures forall n :: n in NodesOf(State().bids) || n in NodesOf(State().asks) ==> n in Repr()
    {
      bids.NodesOwned();
      asks.NodesOwned();
    }

    /** Reducing a node concerns its own side only. */
    lemma ReduceOneSided(node: OrderNode, newQty: Quantity)
      requires Valid()
      ensures Reduce(State(), node, newQty) ==
              if node.side.Buy? then State().(bids := Reduced(bids.Queue, node, newQty))
              else State().(asks := Reduced(asks.Queue, node, newQty))
    {
      NotOnOtherSide(node);
      ReduceOnSide(State(), node.side, node, newQty);
    }

    lemma NotOnOtherSide(node: OrderNode)
      requires Valid()
      ensures node !in NodesOf(State().On(node.side.Opposite()))
      ensures Rests(node) ==> node in if node.side.Buy? then bids.Repr else asks.Repr
    {
      if node in NodesOf(bids.Queue) {
        var k := bids.Locate(node);
      }
      if node in NodesOf(asks.Queue) {
        var k := asks.Locate(node);
      }
    }

    lemma ReducedNothingHere(node: OrderNode, newQty: Quantity)
      requires Valid() && (newQty >= node.qty || !Rests(node))
      ensures Reduce(State(), node, newQty) == State()
    {
      NotOnOtherSide(node);
      ReduceOnSide(State(), node.side, node, newQty);
      var map_ := if node.side.Buy? then bids else asks;
      if Rests(node) {
        map_.RestingQty(node);
        ReducedNothing(map_.Queue, node, newQty);
      } else {
        ReducedAbsent(map_.Queue, node, newQty);
      }
    }
  }

  lemma {:induction false} LeastKey(side: Side, ps: set<Price>) returns (m: Price)
    requires ps != {}
    ensures m in ps && forall p :: p in ps ==> !Better(side, p, m)
  {
    var p :| p in ps;
    var rest := ps - {p};
    assert forall p' :: p' in ps ==> p' == p || p' in rest;
    if rest == {} {
      m := p;
    } else {
      var m' := LeastKey(side, rest);
      m := if Better(side, m', p) then m' else p;
    }
  }
}
