/** A fixed set of slots handed out last-in first-out: what both freelist allocators implement. */
module Freelists {

  datatype Pool = Pool(capacity: nat, free: seq<nat>, live: set<nat>)

  datatype Taken = None | Slot(index: nat)

  /** Free and live slots partition `0 .. capacity`, and no slot is free twice. */
  ghost predicate Partition(p: Pool) {
    && (forall k :: 0 <= k < |p.free| ==> p.free[k] < p.capacity && p.free[k] !in p.live)
    && (forall j, k :: 0 <= j < k < |p.free| ==> p.free[j] != p.free[k])
    && (forall i :: i in p.live ==> i < p.capacity)
    && (forall i :: 0 <= i < p.capacity ==> i in p.free || i in p.live)
  }

  function Ascending(from: nat, to: nat): (s: seq<nat>)
    requires from <= to
    ensures |s| == to - from && forall k :: 0 <= k < |s| ==> s[k] == from + k
  {
    seq(to - from, k requires 0 <= k => from + k)
  }

  lemma AscendingCons(from: nat, to: nat)
    requires from < to
    ensures Ascending(from, to) == [from] + Ascending(from + 1, to) && from !in Ascending(from + 1, to)
  {
  }

  function Fresh(capacity: nat): Pool {
    Pool(capacity, Ascending(0, capacity), {})
  }

  function Take(p: Pool): (Pool, Taken) {
    if p.free == [] then (p, None)
    else (p.(free := p.free[1..], live := p.live + {p.free[0]}), Slot(p.free[0]))
  }

  function Give(p: Pool, i: nat): Pool {
    p.(free := [i] + p.free, live := p.live - {i})
  }

  lemma FreshPartition(capacity: nat)
    ensures Partition(Fresh(capacity))
  {
    forall i | 0 <= i < capacity ensures i in Fresh(capacity).free {
      assert Fresh(capacity).free[i] == i;
    }
  }

  /** A taken slot was not live before, and the partition stays one. */
  lemma TakeKeepsPartition(p: Pool)
    requires Partition(p)
    ensures Partition(Take(p).0)
    ensures Take(p).1.Slot? ==> Take(p).1.index !in p.live && Take(p).1.index < p.capacity
  {
    if p.free != [] {
      var q := Take(p).0;
      assert forall k :: 0 <= k < |q.free| ==> q.free[k] == p.free[k + 1];
      forall i | 0 <= i < p.capacity ensures i in q.free || i in q.live {
        if i in p.free && i != p.free[0] {
          var k :| 0 <= k < |p.free| && p.free[k] == i;
          assert q.free[k - 1] == i;
        }
      }
    }
  }

  lemma GiveKeepsPartition(p: Pool, i: nat)
    requires Partition(p) && i in p.live
    ensures Partition(Give(p, i))
  {
    var q := Give(p, i);
    forall j | 0 <= j < p.capacity ensures j in q.free || j in q.live {
      if j == i {
        assert q.free[0] == i;
      } else if j in p.free {
        var k :| 0 <= k < |p.free| && p.free[k] == j;
        assert q.free[k + 1] == j;
      }
    }
  }

  lemma {:induction false} Counting(free: seq<nat>, live: set<nat>, capacity: nat)
    requires Partition(Pool(capacity, free, live))
    ensures |free| + |live| == capacity
    decreases |free|
  {
    if free == [] {
      forall i ensures i in live <==> 0 <= i < capacity {
        assert i !in free;
      }
      RangeSize(live, capacity);
    } else {
      TakeKeepsPartition(Pool(capacity, free, live));
      Counting(free[1..], live + {free[0]}, capacity);
    }
  }

  lemma {:induction false} RangeSize(s: set<nat>, n: nat)
    requires forall i :: i in s <==> 0 <= i < n
    ensures |s| == n
  {
    if n == 0 {
      assert s == {};
    } else {
      RangeSize(s - {n - 1}, n - 1);
    }
  }

  /** Nothing is handed out exactly when every slot is live. */
  lemma NoneIffAllLive(p: Pool)
    requires Partition(p)
    ensures Take(p).1.None? <==> |p.live| == p.capacity
  {
    Counting(p.free, p.live, p.capacity);
  }

  /** The slot given back last is the next one handed out, and the pool is as it was before. */
  lemma GiveThenTake(p: Pool, i: nat)
    requires Partition(p) && i in p.live
    ensures Take(Give(p, i)) == (p, Slot(i))
  {
    assert ([i] + p.free)[1..] == p.free;
    assert p.live - {i} + {i} == p.live;
  }

  // ----- Runs -----

  datatype Op = TakeOp | GiveOp(index: nat)

  function Apply(p: Pool, op: Op): Pool {
    if op.TakeOp? then Take(p).0 else Give(p, op.index)
  }

  function After(capacity: nat, ops: seq<Op>): Pool {
    if ops == [] then Fresh(capacity) else Apply(After(capacity, ops[..|ops| - 1]), ops[|ops| - 1])
  }

  /** Only live slots are given back. */
  ghost predicate Legal(capacity: nat, ops: seq<Op>) {
    ops == [] ||
    (Legal(capacity, ops[..|ops| - 1]) &&
     (ops[|ops| - 1].GiveOp? ==> ops[|ops| - 1].index in After(capacity, ops[..|ops| - 1]).live))
  }

  lemma {:induction false} RunsKeepPartition(capacity: nat, ops: seq<Op>)
    requires Legal(capacity, ops)
    ensures Partition(After(capacity, ops)) && After(capacity, ops).capacity == capacity
  {
    if ops == [] {
      FreshPartition(capacity);
    } else {
      var before, op := After(capacity, ops[..|ops| - 1]), ops[|ops| - 1];
      RunsKeepPartition(capacity, ops[..|ops| - 1]);
      if op.TakeOp? {
        TakeKeepsPartition(before);
      } else {
        GiveKeepsPartition(before, op.index);
      }
    }
  }

  function Takes(n: nat): seq<Op> {
    seq(n, _ => TakeOp)
  }

  /** A fresh pool hands out slots 0, 1, 2, ... in order, and then nothing. */
  lemma {:induction false} FreshInOrder(capacity: nat, n: nat)
    requires n <= capacity
    ensures After(capacity, Takes(n)).free == Ascending(n, capacity)
    ensures Take(After(capacity, Takes(n))).1 == if n < capacity then Slot(n) else None
  {
    if n > 0 {
      FreshInOrder(capacity, n - 1);
      assert Takes(n)[..n - 1] == Takes(n - 1);
    }
  }
}
