/** The arena allocator behind the price-level maps: a freelist threaded through a raw
    byte buffer, with the general heap as a fallback. */
module PoolAllocators {
  import opened Bits
  import opened Freelists
  import opened ArenaGeometry

  const NULL: nat := 0

  /** Does the pointer-sized word at `k` share a byte with the `n` bytes at `a`? */
  predicate Overlaps(k: nat, a: nat, n: nat) {
    k < a + n && a < k + POINTER_BYTES
  }

  /** Memory, word by word and address by address, after `n` bytes at `a` have been written: words that
      share a byte with them read as `news` says, or are not known any more; the others are kept. */
  function Stored(memory: map<nat, nat>, a: nat, n: nat, news: map<nat, nat>): map<nat, nat> {
    (map k | k in memory && !Overlaps(k, a, n) :: memory[k]) + news
  }

  // ----- The chain through the free slots -----

  /** The address of the first slot of `free`, or null. */
  ghost function First(buffer: nat, slotSize: nat, free: seq<nat>): nat {
    if free == [] then NULL else SlotAddress(buffer, slotSize, free[0])
  }

  /** The words in the free slots chain them up in the order `free`, from `head` to null. */
  ghost predicate Chain(memory: map<nat, nat>, buffer: nat, slotSize: nat, head: nat, free: seq<nat>) {
    && head == First(buffer, slotSize, free)
    && forall k :: 0 <= k < |free|
        ==> Link(memory, SlotAddress(buffer, slotSize, free[k]), First(buffer, slotSize, free[k + 1..]))
  }

  ghost predicate Link(memory: map<nat, nat>, p: nat, next: nat) {
    p in memory && memory[p] == next
  }

  lemma ChainTail(memory: map<nat, nat>, buffer: nat, slotSize: nat, head: nat, free: seq<nat>)
    requires Chain(memory, buffer, slotSize, head, free) && free != []
    ensures head in memory && Chain(memory, buffer, slotSize, memory[head], free[1..])
  {
    assert Link(memory, SlotAddress(buffer, slotSize, free[0]), First(buffer, slotSize, free[1..]));
    var tail := free[1..];
    forall k | 0 <= k < |tail|
        ensures Link(memory, SlotAddress(buffer, slotSize, tail[k]), First(buffer, slotSize, tail[k + 1..])) {
      assert tail[k + 1..] == free[k + 2..] && tail[k] == free[k + 1];
    }
  }

  lemma ChainCons(memory: map<nat, nat>, buffer: nat, slotSize: nat, head: nat, slot: nat, free: seq<nat>)
    requires Chain(memory, buffer, slotSize, head, free) && Link(memory, SlotAddress(buffer, slotSize, slot), head)
    ensures Chain(memory, buffer, slotSize, SlotAddress(buffer, slotSize, slot), [slot] + free)
  {
    var list := [slot] + free;
    forall k | 0 <= k < |list|
        ensures Link(memory, SlotAddress(buffer, slotSize, list[k]), First(buffer, slotSize, list[k + 1..])) {
      assert list[k + 1..] == if k == 0 then free else free[k..];
    }
  }

  /** Writing inside another slot leaves the chain alone. */
  lemma ChainStored(memory: map<nat, nat>, buffer: nat, slotSize: nat, head: nat, free: seq<nat>,
                    slot: nat, a: nat, n: nat, news: map<nat, nat>)
    requires Chain(memory, buffer, slotSize, head, free) && slotSize >= POINTER_BYTES && slot !in free
    requires SlotAddress(buffer, slotSize, slot) <= a && a + n <= SlotAddress(buffer, slotSize, slot) + slotSize
    requires forall k :: k in news ==> Overlaps(k, a, n)
    ensures Chain(Stored(memory, a, n, news), buffer, slotSize, head, free)
  {
    forall k | 0 <= k < |free|
      ensures Link(Stored(memory, a, n, news), SlotAddress(buffer, slotSize, free[k]),
                   First(buffer, slotSize, free[k + 1..]))
    {
      WordsApart(buffer, slotSize, free[k], slot, a, n);
      assert Link(memory, SlotAddress(buffer, slotSize, free[k]), First(buffer, slotSize, free[k + 1..]));
    }
  }

  /** The first word of a slot shares no byte with anything inside another slot. */
  lemma WordsApart(buffer: nat, slotSize: nat, i: nat, j: nat, a: nat, n: nat)
    requires slotSize >= POINTER_BYTES && i != j
    requires SlotAddress(buffer, slotSize, j) <= a && a + n <= SlotAddress(buffer, slotSize, j) + slotSize
    ensures !Overlaps(SlotAddress(buffer, slotSize, i), a, n)
  {
    SlotsApart(buffer, slotSize, if i < j then i else j, if i < j then j else i);
  }

  class ArenaState {
    var buffer: nat
    var slotSize: nat
    var capacity: nat
    var freelist: nat
    var memory: map<nat, nat>  // pointer-sized words, by address

    ghost var State: Pool

    ghost predicate Valid()
      reads this
    {
      && State.capacity == capacity && Partition(State)
      && (capacity > 0 ==> buffer > 0 && slotSize >= POINTER_BYTES)
      && Chain(memory, buffer, slotSize, freelist, State.free)
    }

    ghost function Address(i: nat): nat
      reads this
    {
      SlotAddress(buffer, slotSize, i)
    }

    constructor ()
      ensures Valid() && State == Fresh(0)
    {
      buffer, slotSize, capacity, freelist := NULL, 0, 0, NULL;
      memory := map[];
      State := Fresh(0);
      new;
      FreshPartition(0);
    }

    method Init(buf: nat, bufBytes: nat, objSize: nat, objAlign: nat)
      requires buf > 0 && Sane(objSize, objAlign)
      modifies this
      ensures Valid() && buffer == buf && slotSize == SlotSize(objSize, objAlign) && capacity == bufBytes / slotSize
      ensures State == Fresh(capacity)
    {
      LayOut(buf, bufBytes, SlotSize(objSize, objAlign));
    }

    method LayOut(buf: nat, bufBytes: nat, size: nat)
      requires buf > 0 && size >= POINTER_BYTES
      modifies this
      ensures Valid() && buffer == buf && slotSize == size && capacity == bufBytes / size
      ensures State == Fresh(capacity)
    {
      slotSize := size;
      capacity := bufBytes / slotSize;
      buffer := buf;
      freelist := NULL;
      BuildFreelist();
      State := Fresh(capacity);
      FreshPartition(capacity);
    }

    /** From the last slot down to the first, so that the first is handed out first. */
    method BuildFreelist()
      requires slotSize >= POINTER_BYTES && freelist == NULL
      modifies this`memory, this`freelist
      ensures Chain(memory, buffer, slotSize, freelist, Ascending(0, capacity))
    {
      var i := capacity;
      while i > 0
        invariant 0 <= i <= capacity
        invariant Chain(memory, buffer, slotSize, freelist, Ascending(i, capacity))
      {
        i := i - 1;
        AscendingCons(i, capacity);
        Push(buffer + i * slotSize, i, Ascending(i + 1, capacity));
      }
    }

    method Push(p: nat, ghost slot: nat, ghost free: seq<nat>)
      requires slotSize >= POINTER_BYTES && p == Address(slot) && slot !in free
      requires Chain(memory, buffer, slotSize, freelist, free)
      modifies this`memory, this`freelist
      ensures Chain(memory, buffer, slotSize, freelist, [slot] + free)
      ensures memory == Stored(old(memory), p, POINTER_BYTES, map[p := old(freelist)])
    {
      ChainStored(memory, buffer, slotSize, freelist, free, slot, p, POINTER_BYTES, map[p := freelist]);
      memory := Stored(memory, p, POINTER_BYTES, map[p := freelist]);
      ChainCons(memory, buffer, slotSize, freelist, slot, free);
      freelist := p;
    }

    /** The next free slot's address, or null. */
    method Allocate() returns (p: nat)
      requires Valid()
      modifies this`freelist, this`State
      ensures Valid() && State == Take(old(State)).0
      ensures p == (match Take(old(State)).1 case None => NULL case Slot(i) => Address(i))
      ensures p == NULL <==> |old(State.live)| == capacity
    {
      NoneIffAllLive(State);
      TakeKeepsPartition(State);
      if freelist == NULL {
        EmptyIffNull();
        return NULL;
      }
      ChainTail(memory, buffer, slotSize, freelist, State.free);
      p := freelist;
      freelist := memory[p];
      State := Take(State).0;
    }

    lemma EmptyIffNull()
      requires Valid()
      ensures freelist == NULL <==> State.free == []
    {
    }

    method Deallocate(p: nat, ghost slot: nat)
      requires Valid() && slot in State.live && p == Address(slot)
      modifies this`memory, this`freelist, this`State
      ensures Valid() && State == Give(old(State), slot)
    {
      GiveKeepsPartition(State, slot);
      Push(p, slot, State.free);
      State := Give(State, slot);
    }

    /** Whoever holds a live slot may write any `n` bytes inside it without disturbing the freelist. */
    method ClientStore(a: nat, n: nat, news: map<nat, nat>, ghost slot: nat)
      requires Valid() && slot in State.live && Address(slot) <= a && a + n <= Address(slot) + slotSize
      requires forall k :: k in news ==> Overlaps(k, a, n)
      modifies this`memory
      ensures Valid() && memory == Stored(old(memory), a, n, news)
      ensures forall k :: k in old(memory) && (k + POINTER_BYTES <= a || a + n <= k) ==>
                k in memory && memory[k] == old(memory)[k]
    {
      ChainStored(memory, buffer, slotSize, freelist, State.free, slot, a, n, news);
      memory := Stored(memory, a, n, news);
    }

    predicate Owns(p: nat)
      reads this
    {
      p >= buffer && p < buffer + capacity * slotSize
    }
  }

  class PoolAllocator {
    const arena: ArenaState

    ghost var Heap: set<nat>  // blocks now held from the general heap

    ghost predicate Valid()
      reads this, arena
    {
      arena.Valid() && forall p :: p in Heap ==> p != NULL && !arena.Owns(p)
    }

    ghost predicate LiveSlot(p: nat, slot: nat)
      reads arena
    {
      slot in arena.State.live && p == arena.Address(slot)
    }

    constructor (arena: ArenaState)
      requires arena.Valid()
      ensures Valid() && this.arena == arena && Heap == {}
    {
      this.arena := arena;
      Heap := {};
    }

    /** The owner may set the arena up after blocks have already come from the heap. */
    method InitArena(buf: nat, bufBytes: nat, objSize: nat, objAlign: nat)
      requires Valid() && buf > 0 && Sane(objSize, objAlign)
      requires forall p :: p in Heap ==> p < buf || buf + bufBytes <= p
      modifies arena
      ensures Valid() && arena.State == Fresh(arena.capacity) && Heap == old(Heap)
    {
      arena.Init(buf, bufBytes, objSize, objAlign);
      if arena.capacity > 0 {
        SlotsFit(buf, bufBytes, arena.slotSize, 0);
      }
    }

    /** One object comes from the arena while it has a free slot; everything else from the heap.
        `fromNew` is the block the general heap would supply. */
    method Allocate(n: nat, fromNew: nat) returns (p: nat)
      requires Valid() && fromNew != NULL && !arena.Owns(fromNew) && fromNew !in Heap
      modifies this, arena`freelist, arena`State
      ensures Valid() && p != NULL
      ensures if n == 1 && |old(arena.State.live)| < arena.capacity then
                Heap == old(Heap) && arena.State == Take(old(arena.State)).0
                && Take(old(arena.State)).1.Slot? && p == arena.Address(Take(old(arena.State)).1.index)
              else
                p == fromNew && Heap == old(Heap) + {p} && arena.State == old(arena.State)
    {
      if n == 1 {
        NoneIffAllLive(arena.State);
        Counting(arena.State.free, arena.State.live, arena.capacity);
        var slot := arena.Allocate();
        if slot != NULL {
          return slot;
        }
      }
      Heap := Heap + {fromNew};
      p := fromNew;
    }

    /** Every block goes back where it came from. */
    method Deallocate(p: nat, ghost slot: nat)
      requires Valid() && (p in Heap || LiveSlot(p, slot))
      modifies this, arena`memory, arena`freelist, arena`State
      ensures Valid()
      ensures if p in old(Heap) then Heap == old(Heap) - {p} && arena.State == old(arena.State)
              else Heap == old(Heap) && arena.State == Give(old(arena.State), slot)
    {
      OwnsIffSlot(p, slot);
      if arena.Owns(p) {
        arena.Deallocate(p, slot);
      } else {
        Heap := Heap - {p};
      }
    }

    /** The address range test tells arena slots from heap blocks. */
    lemma OwnsIffSlot(p: nat, slot: nat)
      requires Valid() && (p in Heap || LiveSlot(p, slot))
      ensures arena.Owns(p) <==> p !in Heap
      ensures p in Heap <==> !LiveSlot(p, slot)
    {
      if LiveSlot(p, slot) {
        Monotone(slot + 1, arena.capacity, arena.slotSize);
        Distribute(slot, arena.slotSize);
      }
    }
  }
}
