/** A vector with room for N elements inside the object and the heap beyond that. */
module SmallVectors {

  class SmallVector<T(0)> {
    const inlineCapacity: nat  // N
    const inlineStorage: array<T>
    var size: nat
    var capacity: nat
    var heapData: array?<T>

    ghost var Elements: seq<T>
    ghost var Appends: nat  // elements ever appended
    ghost var Moves: nat    // elements ever moved by growing
    ghost var Growths: nat  // times the capacity was doubled

    /** Where the elements live now. */
    function Data(): array<T>
      reads this
    {
      if heapData != null then heapData else inlineStorage
    }

    ghost predicate Valid()
      reads this, inlineStorage, heapData
    {
      && inlineCapacity > 0 && inlineStorage.Length == inlineCapacity && heapData != inlineStorage
      && Data().Length == capacity
      && (heapData == null ==> capacity == inlineCapacity)
      && (heapData != null ==> Growths > 0)
      && capacity == Doubled(inlineCapacity, Growths)
      && size == |Elements| <= capacity && Data()[..size] == Elements
      && Moves == capacity - inlineCapacity
      && size <= Appends && (heapData != null ==> capacity < 2 * Appends)
    }

    constructor (n: nat)
      requires n > 0
      ensures Valid() && Elements == [] && Appends == 0 && Moves == 0 && inlineCapacity == n
      ensures fresh(inlineStorage) && heapData == null
    {
      inlineCapacity := n;
      inlineStorage := new T[n];
      size, capacity, heapData := 0, n, null;
      Elements, Appends, Moves, Growths := [], 0, 0, 0;
    }

    /** Take over another vector's elements and leave it empty but usable. */
    constructor Move(other: SmallVector<T>)
      requires other.Valid()
      modifies other
      ensures Valid() && Elements == old(other.Elements) && inlineCapacity == other.inlineCapacity
      ensures capacity == old(other.capacity) && heapData == old(other.heapData) && fresh(inlineStorage)
      ensures Appends == old(other.Appends) && Moves == old(other.Moves)
      ensures other.Valid() && other.Elements == [] && other.capacity == other.inlineCapacity
      ensures other.Appends == 0 && other.Moves == 0 && other.heapData == null
    {
      inlineCapacity := other.inlineCapacity;
      inlineStorage := new T[other.inlineCapacity];
      size, capacity, heapData := other.size, other.capacity, null;
      Elements, Appends, Moves, Growths := other.Elements, other.Appends, other.Moves, other.Growths;
      new;
      if other.heapData != null {
        heapData := other.heapData;
        other.heapData := null;
      } else {
        MoveInline(other);
      }
      other.size := 0;
      other.capacity := other.inlineCapacity;
      other.Elements, other.Appends, other.Moves, other.Growths := [], 0, 0, 0;
    }

    /** Move the inline elements one by one. */
    method MoveInline(other: SmallVector<T>)
      requires size <= other.inlineStorage.Length <= inlineStorage.Length && inlineStorage != other.inlineStorage
      modifies inlineStorage
      ensures inlineStorage[..size] == other.inlineStorage[..size]
    {
      var i := 0;
      while i < size
        invariant 0 <= i <= size && inlineStorage[..i] == other.inlineStorage[..i]
      {
        inlineStorage[i] := other.inlineStorage[i];
        i := i + 1;
      }
    }

    method EmplaceBack(value: T)
      requires Valid()
      modifies this, Data()
      ensures Valid() && Elements == old(Elements) + [value] && Appends == old(Appends) + 1
      ensures heapData == old(heapData) || fresh(heapData)
      ensures capacity == if old(size == capacity) then 2 * old(capacity) else old(capacity)
      ensures Moves == old(Moves) + if old(size == capacity) then old(size) else 0
    {
      if size == capacity {
        Grow();
      }
      Data()[size] := value;
      size := size + 1;
      Elements := Elements + [value];
      Appends := Appends + 1;
    }

    /** Double the capacity, moving every element to a new heap block. */
    method Grow()
      requires Valid() && size == capacity
      modifies this
      ensures heapData != null && fresh(heapData) && heapData.Length == capacity == 2 * old(capacity)
      ensures size == old(size) == |Elements| && Elements == old(Elements) && heapData[..size] == Elements
      ensures Moves == old(Moves) + old(size) && Appends == old(Appends) && Growths == old(Growths) + 1
    {
      var newCap := capacity * 2;
      var newBuf := new T[newCap];
      var i := 0;
      while i < size
        invariant 0 <= i <= size && newBuf[..i] == Elements[..i] && Moves == old(Moves) + i
        modifies newBuf, this`Moves
      {
        newBuf[i] := Data()[i];
        Moves := Moves + 1;
        i := i + 1;
      }
      Growths := Growths + 1;
      heapData := newBuf;
      capacity := newCap;
    }

    method Clear()
      requires Valid()
      modifies this`size, this`Elements
      ensures Valid() && Elements == [] && capacity == old(capacity) && heapData == old(heapData)
      ensures Appends == old(Appends) && Moves == old(Moves)
    {
      size := 0;
      Elements := [];
    }

    /** Growing has moved fewer than two elements per append; and only growth uses the heap. */
    lemma Amortised()
      requires Valid()
      ensures Moves <= 2 * Appends && (Appends > 0 ==> Moves < 2 * Appends)
      ensures heapData != null <==> capacity > inlineCapacity
      ensures Appends <= inlineCapacity ==> heapData == null
    {
      DoubledGrows(inlineCapacity, Growths);
    }
  }

  /** `n` doubled `k` times. */
  function Doubled(n: nat, k: nat): nat {
    if k == 0 then n else 2 * Doubled(n, k - 1)
  }

  lemma {:induction false} DoubledGrows(n: nat, k: nat)
    requires n > 0
    ensures Doubled(n, k) >= n && (k > 0 ==> Doubled(n, k) >= 2 * n)
  {
    if k > 0 {
      DoubledGrows(n, k - 1);
    }
  }
}
