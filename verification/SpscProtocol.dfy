/** The lock-free queue as a state machine: one producer and one consumer thread,
    interleaved at every shared access, each with a cached and possibly stale copy
    of the other's index. */
module SpscProtocol {
  import opened Bits

  /** Where the producer is inside `push`. */
  datatype Push<T> =
    | PushIdle
    | PushCheck(item: T)    // own index loaded, about to compare with the cached tail
    | PushReload(item: T)   // looked full, about to load the tail
    | PushWrite(item: T)    // room found, about to fill the slot
    | PushPublish(item: T)  // slot filled, about to store the head

  /** Where the consumer is inside `pop`. */
  datatype Pop<T> =
    | PopIdle
    | PopCheck
    | PopReload
    | PopRead
    | PopPublish(item: T)

  /** The queue's fields and the two threads, and beside them the history: everything sent and
      received, and which published index each cache is a copy of. */
  datatype State<T> = State(
    capacity: nat,
    buffer: seq<T>,
    head: nat,
    cachedTail: nat,
    tail: nat,
    cachedHead: nat,
    producer: Push<T>,
    consumer: Pop<T>,
    sent: seq<T>,
    received: seq<T>,
    seenTail: nat,
    seenHead: nat)

  /** One atomic step. Loads name the published index they return; `ReadSlot` the value it sees. */
  datatype Step<T> =
    | BeginPush(item: T)
    | CheckFull
    | LoadTail(published: nat)
    | WriteSlot
    | StoreHead
    | BeginPop
    | CheckEmpty
    | LoadHead(published: nat)
    | ReadSlot(value: T)
    | StoreTail

  function Mask<T>(s: State<T>): nat
    requires s.capacity > 0
  {
    s.capacity - 1
  }

  function NextHead<T>(s: State<T>): nat
    requires s.capacity > 0
  {
    And(s.head + 1, Mask(s))
  }

  function Init<T>(buffer: seq<T>): State<T> {
    State(|buffer|, buffer, 0, 0, 0, 0, PushIdle, PopIdle, [], [], 0, 0)
  }

  /** What may happen next. An acquire load returns some index the other thread has published, no
      older than the one last seen. A slot read is certain to see the slot's content only when the
      store that published it has been seen; otherwise it may return anything. */
  ghost predicate Enabled<T>(s: State<T>, step: Step<T>) {
    match step
    case BeginPush(_) => s.producer.PushIdle?
    case CheckFull => s.producer.PushCheck?
    case LoadTail(published) => s.producer.PushReload? && s.seenTail <= published <= |s.received|
    case WriteSlot => s.producer.PushWrite?
    case StoreHead => s.producer.PushPublish?
    case BeginPop => s.consumer.PopIdle?
    case CheckEmpty => s.consumer.PopCheck?
    case LoadHead(published) => s.consumer.PopReload? && s.seenHead <= published <= |s.sent|
    case ReadSlot(value) =>
      s.consumer.PopRead? && (|s.received| < s.seenHead && s.tail < |s.buffer| ==> value == s.buffer[s.tail])
    case StoreTail => s.consumer.PopPublish?
  }

  function Do<T>(s: State<T>, step: Step<T>): State<T>
    requires s.capacity > 0
  {
    match step
    case BeginPush(item) => s.(producer := PushCheck(item))
    case CheckFull =>
      if s.producer.PushCheck? then
        s.(producer := if NextHead(s) == s.cachedTail then PushReload(s.producer.item) else PushWrite(s.producer.item))
      else s
    case LoadTail(published) =>
      if s.producer.PushReload? then
        var cached := And(published, Mask(s));
        s.(cachedTail := cached, seenTail := published,
           producer := if NextHead(s) == cached then PushIdle else PushWrite(s.producer.item))
      else s
    case WriteSlot =>
      if s.producer.PushWrite? && s.head < |s.buffer| then
        s.(buffer := s.buffer[s.head := s.producer.item], producer := PushPublish(s.producer.item))
      else s
    case StoreHead =>
      if s.producer.PushPublish? then
        s.(head := NextHead(s), sent := s.sent + [s.producer.item], producer := PushIdle)
      else s
    case BeginPop => s.(consumer := PopCheck)
    case CheckEmpty => s.(consumer := if s.tail == s.cachedHead then PopReload else PopRead)
    case LoadHead(published) =>
      var cached := And(published, Mask(s));
      s.(cachedHead := cached, seenHead := published, consumer := if s.tail == cached then PopIdle else PopRead)
    case ReadSlot(value) => s.(consumer := PopPublish(value))
    case StoreTail =>
      if s.consumer.PopPublish? then
        s.(tail := And(s.tail + 1, Mask(s)), received := s.received + [s.consumer.item], consumer := PopIdle)
      else s
  }

  // ----- The invariant -----

  /** Indices are counters modulo the capacity, and the counters form a chain. */
  ghost predicate Indices<T>(s: State<T>) {
    && IsPow2(s.capacity) && |s.buffer| == s.capacity > 0
    && s.head == |s.sent| % s.capacity && s.tail == |s.received| % s.capacity
    && s.cachedHead == s.seenHead % s.capacity && s.cachedTail == s.seenTail % s.capacity
    && s.seenTail <= |s.received| <= s.seenHead <= |s.sent| <= s.seenTail + s.capacity - 1
  }

  ghost predicate Contents<T>(s: State<T>)
    requires Indices(s)
  {
    && s.received == s.sent[..|s.received|]
    && forall i :: |s.received| <= i < |s.sent| ==> s.buffer[i % s.capacity] == s.sent[i]
  }

  ghost predicate Threads<T>(s: State<T>)
    requires Indices(s)
  {
    && (s.producer.PushWrite? || s.producer.PushPublish? ==> |s.sent| < s.seenTail + s.capacity - 1)
    && (s.producer.PushPublish? ==> s.buffer[s.head] == s.producer.item)
    && (s.consumer.PopRead? || s.consumer.PopPublish? ==> |s.received| < s.seenHead)
    && (s.consumer.PopPublish? ==> s.consumer.item == s.sent[|s.received|])
  }

  ghost predicate Inv<T>(s: State<T>) {
    Indices(s) && Contents(s) && Threads(s)
  }

  lemma InitInv<T>(buffer: seq<T>)
    requires IsPow2(|buffer|)
    ensures Inv(Init(buffer))
  {
  }

  /** With a power-of-two capacity the mask is the remainder, so the next index is the next counter's. */
  lemma MaskedIndex<T>(s: State<T>, c: nat)
    requires IsPow2(s.capacity)
    ensures And(c, Mask(s)) == c % s.capacity
    ensures And(c % s.capacity + 1, Mask(s)) == (c + 1) % s.capacity
  {
    var k: nat :| s.capacity == Pow2(k);
    MaskIsMod(c, k);
    MaskIsMod(c % s.capacity + 1, k);
    NextMod(c, s.capacity);
  }

  lemma FullIndex(h: nat, t: nat, n: nat)
    requires n > 0 && t <= h <= t + n - 1
    ensures (h + 1) % n == t % n <==> h == t + n - 1
  {
    if h == t + n - 1 {
      assert h + 1 == (t / n + 1) * n + t % n;
      ModUnique(h + 1, n, t / n + 1, t % n);
    } else {
      ApartIndices(t, h + 1, n);
    }
  }

  // ----- Every step keeps it -----

  lemma ProducerKeepsInv<T>(s: State<T>, step: Step<T>)
    requires Inv(s) && Enabled(s, step)
    requires step.BeginPush? || step.CheckFull? || step.LoadTail?
    ensures Inv(Do(s, step))
  {
    MaskedIndex(s, |s.sent|);
    if step.CheckFull? {
      FullIndex(|s.sent|, s.seenTail, s.capacity);
    } else if step.LoadTail? {
      MaskedIndex(s, step.published);
      FullIndex(|s.sent|, step.published, s.capacity);
    }
  }

  lemma WriteKeepsInv<T>(s: State<T>)
    requires Inv(s) && Enabled(s, WriteSlot)
    ensures Inv(Do(s, WriteSlot))
  {
    forall i | |s.received| <= i < |s.sent| ensures i % s.capacity != s.head {
      ApartIndices(i, |s.sent|, s.capacity);
    }
  }

  lemma PublishKeepsInv<T>(s: State<T>)
    requires Inv(s) && Enabled(s, StoreHead)
    ensures Inv(Do(s, StoreHead))
  {
    MaskedIndex(s, |s.sent|);
    var s' := Do(s, StoreHead);
    forall i | |s'.received| <= i < |s'.sent| ensures s'.buffer[i % s'.capacity] == s'.sent[i] {
      if i < |s.sent| {
        assert s'.sent[i] == s.sent[i];
      }
    }
  }

  lemma ConsumerKeepsInv<T>(s: State<T>, step: Step<T>)
    requires Inv(s) && Enabled(s, step)
    requires step.BeginPop? || step.CheckEmpty? || step.LoadHead? || step.ReadSlot? || step.StoreTail?
    ensures Inv(Do(s, step))
  {
    MaskedIndex(s, |s.received|);
    if step.CheckEmpty? {
      ApartIndices(|s.received|, s.seenHead, s.capacity);
    } else if step.LoadHead? {
      MaskedIndex(s, step.published);
      ApartIndices(|s.received|, step.published, s.capacity);
    }
  }

  lemma StepKeepsInv<T>(s: State<T>, step: Step<T>)
    requires Inv(s) && Enabled(s, step)
    ensures Inv(Do(s, step))
  {
    match step
    case WriteSlot => WriteKeepsInv(s);
    case StoreHead => PublishKeepsInv(s);
    case BeginPush(_) => ProducerKeepsInv(s, step);
    case CheckFull => ProducerKeepsInv(s, step);
    case LoadTail(_) => ProducerKeepsInv(s, step);
    case _ => ConsumerKeepsInv(s, step);
  }

  // ----- Runs -----

  /** The state after `steps`, in whatever order the two threads took them. */
  ghost function After<T>(buffer: seq<T>, steps: seq<Step<T>>): State<T>
    requires |buffer| > 0
    ensures After(buffer, steps).capacity == |buffer|
  {
    if steps == [] then Init(buffer) else Do(After(buffer, steps[..|steps| - 1]), steps[|steps| - 1])
  }

  ghost predicate Possible<T>(buffer: seq<T>, steps: seq<Step<T>>)
    requires |buffer| > 0
  {
    steps == [] ||
    (Possible(buffer, steps[..|steps| - 1]) && Enabled(After(buffer, steps[..|steps| - 1]), steps[|steps| - 1]))
  }

  lemma {:induction false} RunsKeepInv<T>(buffer: seq<T>, steps: seq<Step<T>>)
    requires |buffer| > 0 && IsPow2(|buffer|) && Possible(buffer, steps)
    ensures Inv(After(buffer, steps))
  {
    if steps == [] {
      InitInv(buffer);
    } else {
      RunsKeepInv(buffer, steps[..|steps| - 1]);
      StepKeepsInv(After(buffer, steps[..|steps| - 1]), steps[|steps| - 1]);
    }
  }

  /** First in, first out, under every interleaving: what was received is a prefix of what was sent,
      the difference is still in the ring, slot by slot, and is at most capacity - 1 items. */
  lemma Fifo<T>(buffer: seq<T>, steps: seq<Step<T>>)
    requires |buffer| > 0 && IsPow2(|buffer|) && Possible(buffer, steps)
    ensures var s := After(buffer, steps);
            && s.received <= s.sent
            && |s.sent| - |s.received| <= s.capacity - 1
            && |s.buffer| == s.capacity
            && forall i :: |s.received| <= i < |s.sent| ==> s.buffer[i % s.capacity] == s.sent[i]
  {
    RunsKeepInv(buffer, steps);
  }

  /** The slot being written is never the slot being read. */
  lemma SlotsExclusive<T>(buffer: seq<T>, steps: seq<Step<T>>)
    requires |buffer| > 0 && IsPow2(|buffer|) && Possible(buffer, steps)
    ensures var s := After(buffer, steps);
            (s.producer.PushWrite? || s.producer.PushPublish?) && (s.consumer.PopRead? || s.consumer.PopPublish?)
            ==> s.head != s.tail
  {
    RunsKeepInv(buffer, steps);
    var s := After(buffer, steps);
    if |s.received| < |s.sent| {
      ApartIndices(|s.received|, |s.sent|, s.capacity);
    }
  }

  /** `push` gives up exactly when the ring is full for the tail index it loaded, so never when
      that index is current and there is room, and always when there is none. */
  lemma PushRefusesIffFull<T>(s: State<T>, published: nat)
    requires Inv(s) && Enabled(s, LoadTail(published))
    ensures Do(s, LoadTail(published)).producer.PushIdle? <==> |s.sent| - published == s.capacity - 1
    ensures |s.sent| - |s.received| == s.capacity - 1 ==> Do(s, LoadTail(published)).producer.PushIdle?
  {
    LoadedTail(s, published);
  }

  /** The comparison that `push` makes with the tail index it loaded. */
  lemma LoadedTail<T>(s: State<T>, published: nat)
    requires Indices(s) && s.seenTail <= published <= |s.received|
    ensures NextHead(s) == And(published, Mask(s)) <==> |s.sent| - published == s.capacity - 1
  {
    MaskedIndex(s, |s.sent|);
    MaskedIndex(s, published);
    FullIndex(|s.sent|, published, s.capacity);
  }

  /** `pop` gives up exactly when the head index it loaded is its own tail: nothing newer was published. */
  lemma PopRefusesIffEmpty<T>(s: State<T>, published: nat)
    requires Inv(s) && Enabled(s, LoadHead(published))
    ensures Do(s, LoadHead(published)).consumer.PopIdle? <==> published == |s.received|
    ensures |s.sent| == |s.received| ==> Do(s, LoadHead(published)).consumer.PopIdle?
  {
    MaskedIndex(s, published);
    ApartIndices(|s.received|, published, s.capacity);
  }
}
