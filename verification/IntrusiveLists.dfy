/** The doubly linked list threaded through the order records. */
module IntrusiveLists {
  import opened OrderNodes

  ghost function Only(n: OrderNode?): set<OrderNode> {
    if n == null then {} else {n}
  }

  class IntrusiveList {
    var head: OrderNode?
    var tail: OrderNode?

    ghost var Nodes: seq<OrderNode>

    /** `Nodes` is the chain from `head` to `tail`, links in both directions, nothing twice. */
    ghost predicate Valid()
      reads this, Nodes
    {
      && (Nodes == [] ==> head == null && tail == null)
      && (Nodes != [] ==>
            && head == Nodes[0] && tail == Nodes[|Nodes| - 1]
            && Nodes[0].prev == null && Nodes[|Nodes| - 1].next == null)
      && (forall i {:trigger Nodes[i].next} :: 0 <= i < |Nodes| - 1 ==> Nodes[i].next == Nodes[i + 1])
      && (forall i {:trigger Nodes[i].prev} :: 1 <= i < |Nodes| ==> Nodes[i].prev == Nodes[i - 1])
      && (forall i, j :: 0 <= i < j < |Nodes| ==> Nodes[i] != Nodes[j])
    }

    constructor ()
      ensures Valid() && Nodes == []
    {
      head, tail := null, null;
      Nodes := [];
    }

    predicate Empty()
      reads this
    {
      head == null
    }

    method PushBack(node: OrderNode)
      requires Valid() && node !in Nodes
      modifies this, node`prev, node`next, Only(tail)`next
      ensures Valid() && Nodes == old(Nodes) + [node]
    {
      if head == null {
        head, tail := node, node;
        node.prev, node.next := null, null;
      } else {
        tail.next := node;
        node.prev := tail;
        node.next := null;
        tail := node;
      }
      Nodes := Nodes + [node];
    }

    /** Take out the `k`-th node. Given a node that is in no list, the source drops the whole chain instead:
        null links mean `head` and `tail`. */
    method Remove(node: OrderNode, ghost k: nat)
      requires Valid() && if k < |Nodes| then Nodes[k] == node else Unlinked(node)
      modifies this, node`prev, node`next, Only(node.prev)`next, Only(node.next)`prev
      ensures Valid() && Unlinked(node)
      ensures Nodes == if k < |old(Nodes)| then old(Nodes)[..k] + old(Nodes)[k + 1..] else []
    {
      assert 0 < k < |Nodes| ==> node.prev == Nodes[k - 1];
      assert k < |Nodes| - 1 ==> node.next == Nodes[k + 1];
      if node.prev != null {
        node.prev.next := node.next;
      } else {
        head := node.next;
      }
      if node.next != null {
        node.next.prev := node.prev;
      } else {
        tail := node.prev;
      }
      node.prev := null;
      node.next := null;
      Nodes := if k < |Nodes| then Nodes[..k] + Nodes[k + 1..] else [];
    }
  }
}
