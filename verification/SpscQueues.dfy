/** The queue's two operations as they are written: every statement is a step of the protocol. Each
    runs here to its end with the other thread standing still wherever it happens to be, and
    together they make a bounded FIFO queue. */
module SpscQueues {
  import opened Bits
  import opened SpscProtocol

  class SpscQueue<T(0)> {
    const capacity: nat
    const mask: nat
    const buffer: array<T>
    var head: nat
    var cachedTail: nat
    var tail: nat
    var cachedHead: nat

    ghost var Machine: State<T>

    /** The fields are those of the state machine. */
    ghost predicate InStep()
      reads this, buffer
    {
      && Inv(Machine) && Machine.capacity == capacity == mask + 1 && Machine.buffer == buffer[..]
      && Machine.head == head && Machine.cachedTail == cachedTail
      && Machine.tail == tail && Machine.cachedHead == cachedHead
    }

    /** The items pushed and not yet popped, oldest first. */
    ghost function Held(): seq<T>
      requires InStep()
      reads this, buffer
    {
      Machine.sent[|Machine.received|..]
    }

    constructor (capacity: nat)
      requires IsPow2(capacity)
      ensures InStep() && Machine.producer.PushIdle? && Machine.consumer.PopIdle?
      ensures Held() == [] && this.capacity == capacity && fresh(buffer)
    {
      this.capacity := capacity;
      mask := capacity - 1;
      buffer := new T[capacity];
      head, cachedTail, tail, cachedHead := 0, 0, 0, 0;
      new;
      Machine := Init(buffer[..]);
      InitInv(buffer[..]);
    }

    ghost method Take(step: Step<T>)
      requires Inv(Machine) && Enabled(Machine, step)
      modifies this`Machine
      ensures Inv(Machine) && Machine == Do(old(Machine), step)
    {
      StepKeepsInv(Machine, step);
      Machine := Do(Machine, step);
    }

    /** Append `item`, unless `capacity - 1` items are held. */
    method Push(item: T) returns (ok: bool)
      requires InStep() && Machine.producer.PushIdle?
      modifies this`head, this`cachedTail, this`Machine, buffer
      ensures InStep() && Machine.producer.PushIdle? && Machine.consumer == old(Machine.consumer)
      ensures ok <==> |old(Held())| < capacity - 1
      ensures Held() == if ok then old(Held()) + [item] else old(Held())
    {
      ok := HasRoom(item);
      if ok {
        Store(item);
      }
    }

    method HasRoom(item: T) returns (ok: bool)
      requires InStep() && Machine.producer.PushIdle?
      modifies this`cachedTail, this`Machine
      ensures InStep() && Machine.consumer == old(Machine.consumer)
      ensures Machine.producer == (if ok then PushWrite(item) else PushIdle)
      ensures Machine.sent == old(Machine.sent) && Machine.received == old(Machine.received)
      ensures ok <==> |Machine.sent| - |Machine.received| < capacity - 1
    {
      Take(BeginPush(item));
      var nextHead := And(head + 1, mask);
      Take(CheckFull);
      ok := true;
      if nextHead == cachedTail {
        ok := Reload(item, nextHead);
      }
    }

    method Reload(item: T, nextHead: nat) returns (ok: bool)
      requires InStep() && Machine.producer == PushReload(item) && nextHead == NextHead(Machine)
      modifies this`cachedTail, this`Machine
      ensures InStep() && Machine.consumer == old(Machine.consumer)
      ensures Machine.producer == (if ok then PushWrite(item) else PushIdle)
      ensures Machine.sent == old(Machine.sent) && Machine.received == old(Machine.received)
      ensures ok <==> |Machine.sent| - |Machine.received| < capacity - 1
    {
      MaskedIndex(Machine, |Machine.received|);
      PushRefusesIffFull(Machine, |Machine.received|);
      cachedTail := tail;
      Take(LoadTail(|Machine.received|));
      ok := nextHead != cachedTail;
    }

    method Store(item: T)
      requires InStep() && Machine.producer == PushWrite(item)
      modifies this`head, this`Machine, buffer
      ensures InStep() && Machine.producer.PushIdle? && Machine.consumer == old(Machine.consumer)
      ensures Machine.sent == old(Machine.sent) + [item] && Machine.received == old(Machine.received)
    {
      buffer[head] := item;
      Take(WriteSlot);
      assert InStep();
      head := And(head + 1, mask);
      Take(StoreHead);
    }

    /** Take the oldest item, if one is held; otherwise `kept` comes back. */
    method Pop(kept: T) returns (ok: bool, item: T)
      requires InStep() && Machine.consumer.PopIdle?
      modifies this`tail, this`cachedHead, this`Machine
      ensures InStep() && Machine.consumer.PopIdle? && Machine.producer == old(Machine.producer)
      ensures ok <==> old(Held()) != []
      ensures if ok then [item] + Held() == old(Held()) else Held() == old(Held()) && item == kept
    {
      item := kept;
      ok := HasItem();
      if ok {
        item := Fetch();
      }
    }

    method HasItem() returns (ok: bool)
      requires InStep() && Machine.consumer.PopIdle?
      modifies this`cachedHead, this`Machine
      ensures InStep() && Machine.producer == old(Machine.producer)
      ensures Machine.consumer == (if ok then PopRead else PopIdle)
      ensures Machine.sent == old(Machine.sent) && Machine.received == old(Machine.received)
      ensures ok <==> |Machine.received| < |Machine.sent|
    {
      Take(BeginPop);
      Take(CheckEmpty);
      ok := true;
      if tail == cachedHead {
        MaskedIndex(Machine, |Machine.sent|);
        PopRefusesIffEmpty(Machine, |Machine.sent|);
        cachedHead := head;
        Take(LoadHead(|Machine.sent|));
        ok := tail != cachedHead;
      }
    }

    method Fetch() returns (item: T)
      requires InStep() && Machine.consumer.PopRead?
      modifies this`tail, this`Machine
      ensures InStep() && Machine.consumer.PopIdle? && Machine.producer == old(Machine.producer)
      ensures Machine.sent == old(Machine.sent) && Machine.received == old(Machine.received) + [item]
    {
      item := buffer[tail];
      Take(ReadSlot(item));
      tail := And(tail + 1, mask);
      Take(StoreTail);
    }
  }
}
