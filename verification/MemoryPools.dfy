/** The slab pool: the freelist lives inside the free slots themselves. */
module MemoryPools {
  import opened Freelists

  /** A pointer of the slab's element type: null, or an element offset from the slab's start.
      Offsets outside the slab stand for pointers from elsewhere. */
  datatype Ptr = Null | At(offset: int)

  /** What the raw bytes of one slot hold. */
  datatype Memory<T> = Uninitialised | FreeNode(next: Ptr) | Object(value: T)

  class MemoryPool<T> {
    const capacity: nat
    const slab: array<Memory<T>>
    var freelistHead: Ptr
    var allocatedCount: nat

    ghost var State: Pool

    ghost predicate Valid()
      reads this, slab
    {
      && slab.Length == capacity == State.capacity
      && Partition(State)
      && Linked(freelistHead, State.free, slab[..])
      && (forall i :: i in State.live ==> i < capacity && slab[i].Object?)
      && allocatedCount == |State.live|
    }

    /** Following the in-slot pointers from `head` visits exactly `free`, in order, and ends. */
    static ghost predicate Linked(head: Ptr, free: seq<nat>, mem: seq<Memory<T>>) {
      && head == First(free)
      && forall k :: 0 <= k < |free| ==> free[k] < |mem| && mem[free[k]] == FreeNode(First(free[k + 1..]))
    }

    static ghost function First(free: seq<nat>): Ptr {
      if free == [] then Null else At(free[0])
    }

    constructor (capacity: nat)
      ensures Valid() && State == Fresh(capacity) && this.capacity == capacity && fresh(slab)
    {
      this.capacity := capacity;
      slab := new Memory<T>[capacity](_ => Uninitialised);
      freelistHead := Null;
      allocatedCount := 0;
      State := Fresh(capacity);
      new;
      var i := capacity;
      while i > 0
        invariant 0 <= i <= capacity
        invariant Linked(freelistHead, Ascending(i, capacity), slab[..])
        invariant allocatedCount == 0 && State == Fresh(capacity)
      {
        i := i - 1;
        AscendingCons(i, capacity);
        PushFree(i, Ascending(i + 1, capacity));
      }
      FreshPartition(capacity);
    }

    method PushFree(slot: nat, ghost free: seq<nat>)
      requires slot < slab.Length && slot !in free && Linked(freelistHead, free, slab[..])
      modifies slab, this`freelistHead
      ensures Linked(freelistHead, [slot] + free, slab[..])
      ensures slab[..] == old(slab[..])[slot := FreeNode(old(freelistHead))]
    {
      slab[slot] := FreeNode(freelistHead);
      freelistHead := At(slot);
      ghost var list := [slot] + free;
      forall k | 0 <= k < |list| ensures slab[..][list[k]] == FreeNode(First(list[k + 1..])) {
        if k == 0 {
          assert list[1..] == free;
        } else {
          assert list[k + 1..] == free[k..];
        }
      }
    }

    method PopFree(ghost free: seq<nat>) returns (slot: nat)
      requires free != [] && Linked(freelistHead, free, slab[..])
      modifies this`freelistHead
      ensures slot == free[0] && Linked(freelistHead, free[1..], slab[..])
    {
      slot := freelistHead.offset;
      freelistHead := slab[slot].next;
      forall k | 0 <= k < |free[1..]| ensures slab[..][free[1..][k]] == FreeNode(First(free[1..][k + 1..])) {
        assert free[1..][k + 1..] == free[k + 2..];
      }
    }

    /** Placing an object in a slot that is not free leaves the chain alone. */
    method Construct(slot: nat, value: T, ghost free: seq<nat>)
      requires slot < slab.Length && slot !in free && Linked(freelistHead, free, slab[..])
      modifies slab
      ensures slab[..] == old(slab[..])[slot := Object(value)] && Linked(freelistHead, free, slab[..])
    {
      slab[slot] := Object(value);
    }

    /** Hand out a slot holding `value`, or null if none is free. Live slots are not touched. */
    method Allocate(value: T) returns (p: Ptr)
      requires Valid()
      modifies this, slab
      ensures Valid() && State == Take(old(State)).0
      ensures p == (match Take(old(State)).1 case None => Null case Slot(i) => At(i))
      ensures p == Null <==> |old(State.live)| == capacity
      ensures p.At? ==> Owns(p) && slab[p.offset] == Object(value)
      ensures forall i :: i in old(State.live) ==> slab[i] == old(slab[i])
    {
      NoneIffAllLive(State);
      if freelistHead == Null {
        return Null;
      }
      var slot := AllocateSlot(value);
      p := At(slot);
    }

    method AllocateSlot(value: T) returns (slot: nat)
      requires Valid() && State.free != []
      modifies this, slab
      ensures Valid() && State == Take(old(State)).0 && slot == old(State).free[0]
      ensures slot < capacity && slab[..] == old(slab[..])[slot := Object(value)]
    {
      TakeKeepsPartition(State);
      slot := PopFree(State.free);
      Construct(slot, value, State.free[1..]);
      allocatedCount := allocatedCount + 1;
      State := Take(State).0;
    }

    /** Give back a live slot; null is ignored. */
    method Deallocate(p: Ptr)
      requires Valid() && (p.At? ==> p.offset in State.live)
      modifies this, slab
      ensures Valid() && State == if p == Null then old(State) else Give(old(State), p.offset)
      ensures forall i :: i in State.live ==> slab[i] == old(slab[i])
    {
      if p == Null {
        return;
      }
      assert Owns(p);  // checked by the source as well
      GiveKeepsPartition(State, p.offset);
      PushFree(p.offset, State.free);
      allocatedCount := allocatedCount - 1;
      State := Give(State, p.offset);
    }

    /** Does `p` point into the slab? Every pointer this pool hands out does, as `Allocate` promises. */
    predicate Owns(p: Ptr) {
      p.At? && p.offset >= 0 && p.offset < capacity
    }
  }
}
