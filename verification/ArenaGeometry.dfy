/** How an arena cuts a buffer into slots. */
module ArenaGeometry {
  import opened Bits

  const WORD_BITS: nat := 64
  const POINTER_BYTES: nat := 8

  /** Object size rounded up to the alignment with the complement mask, and at least one pointer wide. */
  function SlotSize(objSize: nat, objAlign: nat): (size: nat)
    requires 0 < objAlign <= Pow2(WORD_BITS)
    ensures size >= POINTER_BYTES
  {
    var rounded := Masked(objSize, objAlign, WORD_BITS);
    if rounded < POINTER_BYTES then POINTER_BYTES else rounded
  }

  /** The rounding in words of `bits` bits. */
  function Masked(objSize: nat, objAlign: nat, bits: nat): nat
    requires 0 < objAlign <= Pow2(bits)
  {
    And(objSize + objAlign - 1, Pow2(bits) - objAlign)
  }

  /** What `init` relies on: a power-of-two alignment, and sums that fit a machine word. */
  ghost predicate Sane(objSize: nat, objAlign: nat) {
    IsPow2(objAlign) && objAlign <= Pow2(WORD_BITS) && objSize + objAlign - 1 < Pow2(WORD_BITS)
  }

  lemma {:induction false} Pow2Order(k: nat, w: nat)
    requires Pow2(k) <= Pow2(w)
    ensures k <= w
  {
    if k > w {
      Pow2Grows(w, k);
    }
  }

  lemma {:induction false} Pow2Grows(w: nat, k: nat)
    requires w < k
    ensures Pow2(w) < Pow2(k)
  {
    if w + 1 < k {
      Pow2Grows(w, k - 1);
    }
  }

  /** A smaller power of two divides a larger one. */
  lemma {:induction false} Pow2Divides(k: nat, w: nat)
    requires k <= w
    ensures Pow2(w) % Pow2(k) == 0
  {
    if k == w {
      ModUnique(Pow2(w), Pow2(k), 1, 0);
    } else {
      Pow2Divides(k, w - 1);
      var q := Pow2(w - 1) / Pow2(k);
      assert Pow2(w - 1) == q * Pow2(k);
      assert Pow2(w) == (2 * q) * Pow2(k);
      ModUnique(Pow2(w), Pow2(k), 2 * q, 0);
    }
  }

  function RoundedUp(objSize: nat, objAlign: nat): nat
    requires objAlign > 0
  {
    var sum := objSize + objAlign - 1;
    sum - sum % objAlign
  }

  /** The mask rounds up to the next multiple of the alignment. */
  lemma MaskRoundsUp(objSize: nat, objAlign: nat)
    requires Sane(objSize, objAlign)
    ensures SlotSize(objSize, objAlign) ==
            if RoundedUp(objSize, objAlign) < POINTER_BYTES then POINTER_BYTES else RoundedUp(objSize, objAlign)
  {
    MaskedIs(objSize, objAlign, WORD_BITS);
  }

  lemma MaskedIs(objSize: nat, objAlign: nat, bits: nat)
    requires IsPow2(objAlign) && 0 < objAlign <= Pow2(bits) && objSize + objAlign - 1 < Pow2(bits)
    ensures Masked(objSize, objAlign, bits) == RoundedUp(objSize, objAlign)
  {
    ComplementMask(objSize + objAlign - 1, objAlign, bits);
  }

  /** In a word of `w` bits, masking with the complement of `a - 1` clears the remainder modulo `a`. */
  lemma ComplementMask(x: nat, a: nat, w: nat)
    requires IsPow2(a) && a <= Pow2(w) && x < Pow2(w)
    ensures And(x, Pow2(w) - a) == x - x % a
  {
    var k: nat :| a == Pow2(k);
    Pow2Order(k, w);
    MaskRoundsDown(x, k, w);
  }

  lemma MultipleBelow(m: nat, sum: nat, a: nat)
    requires a > 0 && m % a == 0 && m + a > sum
    ensures sum - sum % a <= m
  {
    var q, s := m / a, sum / a;
    assert m == q * a && sum - sum % a == s * a;
    if s > q {
      Distribute(q, a);
      assert s * a >= (q + 1) * a by {
        Monotone(q + 1, s, a);
      }
    } else {
      Monotone(s, q, a);
    }
  }

  lemma {:induction false} Monotone(x: nat, y: nat, a: nat)
    requires x <= y
    ensures x * a <= y * a
    decreases y
  {
    if x < y {
      Monotone(x, y - 1, a);
      Distribute(y - 1, a);
    }
  }

  /** The slot size holds the object and a pointer, and no smaller multiple of the alignment does. */
  lemma SlotSizeIsLeast(objSize: nat, objAlign: nat, m: nat)
    requires Sane(objSize, objAlign)
    ensures SlotSize(objSize, objAlign) >= objSize && SlotSize(objSize, objAlign) >= POINTER_BYTES
    ensures m % objAlign == 0 && m >= objSize && m >= POINTER_BYTES ==> SlotSize(objSize, objAlign) <= m
  {
    MaskRoundsUp(objSize, objAlign);
    var sum := objSize + objAlign - 1;
    if m % objAlign == 0 && m >= objSize {
      MultipleBelow(m, sum, objAlign);
    }
  }

  lemma RoundedDown(sum: nat, a: nat)
    requires a > 0
    ensures (sum - sum % a) % a == 0
    ensures if sum < a then sum - sum % a == 0 else sum - sum % a >= a
  {
    var q := sum / a;
    assert sum - sum % a == q * a;
    ModUnique(q * a, a, q, 0);
    MultipleGap(q, a);
    if sum < a {
      Small(sum, a);
    }
  }

  lemma PointerAligned(objAlign: nat)
    requires IsPow2(objAlign)
    ensures POINTER_BYTES % objAlign == 0 <==> objAlign <= POINTER_BYTES
  {
    var k: nat :| objAlign == Pow2(k);
    assert Pow2(3) == POINTER_BYTES;
    if objAlign <= POINTER_BYTES {
      Pow2Order(k, 3);
      Pow2Divides(k, 3);
    } else {
      Small(POINTER_BYTES, objAlign);
    }
  }

  /** Slots are aligned exactly when there is something to align or the alignment is at most a pointer's. */
  lemma SlotSizeAlignedIff(objSize: nat, objAlign: nat)
    requires Sane(objSize, objAlign)
    ensures SlotSize(objSize, objAlign) % objAlign == 0 <==> objSize > 0 || objAlign <= POINTER_BYTES
    ensures objSize == 0 ==> SlotSize(objSize, objAlign) == POINTER_BYTES
  {
    MaskRoundsUp(objSize, objAlign);
    RoundedDown(objSize + objAlign - 1, objAlign);
    RoundedAlignedIff(objSize, objAlign, RoundedUp(objSize, objAlign));
  }

  lemma RoundedAlignedIff(objSize: nat, objAlign: nat, r: nat)
    requires IsPow2(objAlign) && objAlign > 0 && r == RoundedUp(objSize, objAlign)
    ensures (if r < POINTER_BYTES then POINTER_BYTES else r) % objAlign == 0 <==> objSize > 0 || objAlign <= POINTER_BYTES
  {
    RoundedDown(objSize + objAlign - 1, objAlign);
    PointerAligned(objAlign);
  }

  /** Objects of size zero with a wide alignment end up misaligned: slots of 8 bytes, alignment 16. */
  lemma EmptyObjectsMisalign()
    ensures Sane(0, 16) && SlotSize(0, 16) % 16 != 0
  {
    assert Pow2(4) == 16;
    Pow2Grows(4, WORD_BITS);
    SlotSizeAlignedIff(0, 16);
  }

  // ----- Slots in a buffer -----

  function SlotAddress(buffer: nat, slotSize: nat, i: nat): nat {
    buffer + i * slotSize
  }

  /** As many slots as fit, all inside the buffer, aligned with it, and apart from each other. */
  lemma SlotsFit(buffer: nat, bytes: nat, slotSize: nat, i: nat)
    requires slotSize > 0 && i < bytes / slotSize
    ensures buffer <= SlotAddress(buffer, slotSize, i)
    ensures SlotAddress(buffer, slotSize, i) + slotSize <= buffer + (bytes / slotSize) * slotSize <= buffer + bytes
    ensures (bytes / slotSize + 1) * slotSize > bytes
  {
    var c := bytes / slotSize;
    Distribute(i, slotSize);
    Monotone(i + 1, c, slotSize);
    Distribute(c, slotSize);
    assert bytes == c * slotSize + bytes % slotSize;
  }

  lemma SlotsApart(buffer: nat, slotSize: nat, i: nat, j: nat)
    requires slotSize > 0 && i < j
    ensures SlotAddress(buffer, slotSize, i) + slotSize <= SlotAddress(buffer, slotSize, j)
  {
    Distribute(i, slotSize);
    Monotone(i + 1, j, slotSize);
  }

  lemma SlotAligned(buffer: nat, slotSize: nat, i: nat, align: nat)
    requires align > 0 && buffer % align == 0 && slotSize % align == 0
    ensures SlotAddress(buffer, slotSize, i) % align == 0
  {
    var a, b := buffer / align, slotSize / align;
    assert buffer == a * align && slotSize == b * align;
    assert i * slotSize == (i * b) * align by {
      assert i * (b * align) == (i * b) * align;
    }
    assert buffer + i * slotSize == (a + i * b) * align;
    ModUnique(buffer + i * slotSize, align, a + i * b, 0);
  }

  /** All slots that `init` lays out in a buffer lie inside it, apart from each other and, if the
      buffer is aligned and the slot size is, aligned. */
  lemma SlotsLaidOut(buffer: nat, bytes: nat, objSize: nat, objAlign: nat, i: nat, j: nat)
    requires Sane(objSize, objAlign) && i < j < bytes / SlotSize(objSize, objAlign)
    ensures var size := SlotSize(objSize, objAlign);
            && buffer <= SlotAddress(buffer, size, i)
            && SlotAddress(buffer, size, i) + size <= SlotAddress(buffer, size, j)
            && SlotAddress(buffer, size, j) + size <= buffer + bytes
            && (buffer % objAlign == 0 && (objSize > 0 || objAlign <= POINTER_BYTES)
                ==> SlotAddress(buffer, size, i) % objAlign == 0 && SlotAddress(buffer, size, j) % objAlign == 0)
  {
    var size := SlotSize(objSize, objAlign);
    SlotsFit(buffer, bytes, size, i);
    SlotsFit(buffer, bytes, size, j);
    SlotsApart(buffer, size, i, j);
    SlotSizeAlignedIff(objSize, objAlign);
    if buffer % objAlign == 0 && (objSize > 0 || objAlign <= POINTER_BYTES) {
      SlotAligned(buffer, size, i, objAlign);
      SlotAligned(buffer, size, j, objAlign);
    }
  }
}
