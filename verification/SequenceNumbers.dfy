/**
 Sequence numbers of the RapidTransfer protocol.

 Queues count fragments with 64-bit indices (`nat` here: 2^64 fragments are never
 sent), packets carry only the low 24 bits of an index, and rings store an index at
 its remainder by the ring capacity. The lemmas say when these three views agree.
 */
module SequenceNumbers {
  import opened Arithmetic

  const SN_SPACE: nat := 0x100_0000

  /** `SHORT_SN`: the low 24 bits of an index. */
  function ShortSn(index: int): (sn: nat)
    requires 0 <= index
    ensures sn < SN_SPACE
  {
    index % SN_SPACE
  }

  /** How far ahead of `base`, modulo 2^24, the short number `sn` lies. */
  function Distance(base: nat, sn: nat): (d: nat)
    requires sn < SN_SPACE
    ensures d < SN_SPACE
    ensures ShortSn(base + d) == sn
  {
    if ShortSn(base) <= sn then sn - ShortSn(base) else sn + SN_SPACE - ShortSn(base)
  }

  /** `SendQueue::markCompleted`: the tail after a cumulative acknowledgement `ack`. */
  function AckTail(tail: nat, head: nat, ack: nat): nat
    requires ack < SN_SPACE
  {
    var t, h := ShortSn(tail), ShortSn(head);
    if t <= h && t <= ack && ack <= h then tail + (ack - t)
    else if t > h && ack <= h then head - (h - ack)
    else if t > h && ack >= t then tail + (ack - t)
    else tail
  }

  /** `ReceiveQueue::markCompleted`: the window test, on short numbers only. */
  predicate Admits(tail: nat, wnd: nat, sn: nat)
  {
    var start, end := ShortSn(tail), ShortSn(tail + wnd);
    if start <= end then start <= sn < end else start <= sn || sn < end
  }

  /** An index is determined by its short number within any 2^24 consecutive indices. */
  lemma ShortSnInjective(i: nat, j: nat)
    requires ShortSn(i) == ShortSn(j)
    requires -(SN_SPACE as int) < i - j < SN_SPACE
    ensures i == j
  {}

  /** The distance is the only offset below 2^24 that reaches the short number. */
  lemma DistanceUnique(base: nat, d: nat)
    requires d < SN_SPACE
    ensures Distance(base, ShortSn(base + d)) == d
  {
    ShortSnInjective(base + Distance(base, ShortSn(base + d)), base + d);
  }

  /**
   The three cases of the 24-bit acknowledgement refine the 64-bit one: the new tail
   is the only index in `[tail, head]` with that short number, if there is one, and
   the old tail otherwise.
   */
  lemma AckTailRefines(tail: nat, head: nat, ack: nat)
    requires tail <= head < tail + SN_SPACE && ack < SN_SPACE
    ensures tail <= AckTail(tail, head, ack) <= head
    ensures AckTail(tail, head, ack) ==
            if tail + Distance(tail, ack) <= head then tail + Distance(tail, ack) else tail
    ensures forall i: nat :: tail <= i <= head && ShortSn(i) == ack ==> AckTail(tail, head, ack) == i
    ensures AckTail(tail, head, ack) != tail ==> ShortSn(AckTail(tail, head, ack)) == ack
  {
    var d := Distance(tail, ack);
    forall i: nat | tail <= i <= head && ShortSn(i) == ack
      ensures i == tail + d
    {
      ShortSnInjective(i, tail + d);
    }
  }

  /** The acknowledgement is not behind the tail, or its number is the tail's or that of no index in flight. */
  predicate AckExact(tail: nat, head: nat, value: nat) {
    tail <= value || ShortSn(value) == ShortSn(tail) || head - tail < Distance(tail, ShortSn(value))
  }

  /**
   A cumulative acknowledgement stands for the true 64-bit value `value <= head`. It is
   read as the 64-bit acknowledgement, whose tail is the larger of the two, exactly
   when it is not old enough to alias an index the sender still holds.
   */
  lemma AckExactIff(tail: nat, head: nat, value: nat)
    requires tail <= head < tail + SN_SPACE && value <= head
    ensures AckTail(tail, head, ShortSn(value)) == Max(tail, value) <==> AckExact(tail, head, value)
  {
    AckTailRefines(tail, head, ShortSn(value));
    if tail <= value {
      DistanceUnique(tail, value - tail);
      assert tail + (value - tail) == value;
    }
  }

  /** An acknowledgement less than 2^24 behind the head is never misread. */
  lemma FreshAck(tail: nat, head: nat, value: nat)
    requires tail <= head < tail + SN_SPACE && value <= head < value + SN_SPACE
    ensures AckExact(tail, head, value)
  {
    if value < tail {
      WrapDistance(tail, value);
    }
  }

  /** The distance to an older index goes once around the space. */
  lemma WrapDistance(base: nat, index: nat)
    requires index < base <= index + SN_SPACE
    ensures base == index + SN_SPACE ==> Distance(base, ShortSn(index)) == 0
    ensures base < index + SN_SPACE ==> Distance(base, ShortSn(index)) == index + SN_SPACE - base
  {
    if base < index + SN_SPACE {
      assert ShortSn(index + SN_SPACE) == ShortSn(index);
      DistanceUnique(base, index + SN_SPACE - base);
    }
  }

  /** The window test admits exactly the short numbers less than `wnd` ahead of the tail. */
  lemma AdmitsIff(tail: nat, wnd: nat, sn: nat)
    requires wnd < SN_SPACE && sn < SN_SPACE
    ensures Admits(tail, wnd, sn) <==> Distance(tail, sn) < wnd
  {}

  /**
   A data packet with true index `index` is read exactly: taken for that index or not
   taken at all. Either it is not behind the tail, or its distance misses the window.
   */
  predicate DataExact(tail: nat, wnd: nat, index: nat) {
    tail <= index || wnd <= Distance(tail, ShortSn(index))
  }

  /** What an admitted packet stands for is its own index if and only if `DataExact` holds. */
  lemma DataExactIff(tail: nat, wnd: nat, index: nat)
    requires wnd < SN_SPACE && index < tail + SN_SPACE
    ensures (Admits(tail, wnd, ShortSn(index)) ==> tail + Distance(tail, ShortSn(index)) == index)
       <==> DataExact(tail, wnd, index)
  {
    AdmitsIff(tail, wnd, ShortSn(index));
    if tail <= index {
      DistanceUnique(tail, index - tail);
    }
  }

  lemma ReadExactly(tail: nat, wnd: nat, index: nat)
    requires wnd < SN_SPACE && index < tail + SN_SPACE && DataExact(tail, wnd, index)
    ensures Admits(tail, wnd, ShortSn(index)) <==> tail <= index < tail + wnd
    ensures Admits(tail, wnd, ShortSn(index)) ==> tail + Distance(tail, ShortSn(index)) == index
  {
    AdmitsIff(tail, wnd, ShortSn(index));
    DataExactIff(tail, wnd, index);
    if tail <= index {
      DistanceUnique(tail, index - tail);
    }
  }

  /** In particular a packet at most 2^24 minus the window behind the tail is read exactly. */
  lemma FreshData(tail: nat, wnd: nat, index: nat)
    requires wnd < SN_SPACE && tail + wnd <= index + SN_SPACE && index < tail + SN_SPACE
    ensures DataExact(tail, wnd, index)
  {
    if index < tail {
      WrapDistance(tail, index);
    }
  }

  /** A packet later than that by less than the window is taken for the index 2^24 further on. */
  lemma StaleDataMisread(tail: nat, wnd: nat, index: nat)
    requires 0 < wnd < SN_SPACE && tail <= index + SN_SPACE < tail + wnd
    ensures !DataExact(tail, wnd, index)
    ensures Admits(tail, wnd, ShortSn(index)) && tail + Distance(tail, ShortSn(index)) == index + SN_SPACE
  {
    assert ShortSn(index + SN_SPACE) == ShortSn(index);
    ReadExactly(tail, wnd, index + SN_SPACE);
  }

  // Ring slots

  /** The ring slot of an index: the remainder by the capacity (see `SlotIsRemainder`). */
  function Slot(index: nat, capacity: nat): (s: nat)
    requires 0 < capacity
    ensures s < capacity
  {
    if index < capacity then index else Slot(index - capacity, capacity)
  }

  lemma {:induction false} SlotIsRemainder(index: nat, capacity: nat)
    requires 0 < capacity
    ensures Slot(index, capacity) == index % capacity
  {
    if index < capacity {
      DivModUnique(index, capacity, 0, index);
    } else {
      SlotIsRemainder(index - capacity, capacity);
      var q := (index - capacity) / capacity;
      assert index == capacity * (q + 1) + (index - capacity) % capacity;
      DivModUnique(index, capacity, q + 1, (index - capacity) % capacity);
    }
  }

  /** Indices less than a capacity apart are never in the same slot. */
  lemma SlotsDistinct(i: nat, j: nat, capacity: nat)
    requires i < j < i + capacity
    ensures Slot(i, capacity) != Slot(j, capacity)
    decreases i
  {
    if i >= capacity {
      SlotsDistinct(i - capacity, j - capacity, capacity);
    }
  }

  /** Going around the ring any number of times comes back to the same slot. */
  lemma {:induction false} SlotPeriodic(i: nat, capacity: nat, k: nat)
    requires 0 < capacity
    ensures Slot(i + capacity * k, capacity) == Slot(i, capacity)
    decreases k
  {
    if k > 0 {
      SlotPeriodic(i, capacity, k - 1);
      assert i + capacity * k == (i + capacity * (k - 1)) + capacity;
    }
  }

  /**
   `sn % capacity` is the slot of the index behind `sn`, for every index, exactly when
   the capacity divides 2^24.
   */
  lemma ShortSlotIff(capacity: nat)
    requires 0 < capacity
    ensures (forall i: nat :: Slot(ShortSn(i), capacity) == Slot(i, capacity)) <==> SN_SPACE % capacity == 0
  {
    if SN_SPACE % capacity == 0 {
      forall i: nat ensures Slot(ShortSn(i), capacity) == Slot(i, capacity) {
        ShortSlot(i, capacity);
      }
    } else {
      assert ShortSn(SN_SPACE) == 0;
      SlotIsRemainder(SN_SPACE, capacity);
      assert Slot(ShortSn(SN_SPACE), capacity) == 0 != Slot(SN_SPACE, capacity);
    }
  }

  lemma ShortSlot(i: nat, capacity: nat)
    requires 0 < capacity && SN_SPACE % capacity == 0
    ensures Slot(ShortSn(i), capacity) == Slot(i, capacity)
  {
    var k, n := SN_SPACE / capacity, i / SN_SPACE;
    calc {
      i;
      ShortSn(i) + SN_SPACE * n;
      { assert SN_SPACE == capacity * k; }
      ShortSn(i) + capacity * k * n;
      { assert capacity * k * n == capacity * (k * n); }
      ShortSn(i) + capacity * (k * n);
    }
    SlotPeriodic(ShortSn(i), capacity, k * n);
  }

  /** The one index of `[tail, tail + capacity)` that has the slot. */
  function LiveIndex(tail: nat, slot: nat, capacity: nat): nat
    requires slot < capacity
  {
    var t := Slot(tail, capacity);
    if t <= slot then tail + (slot - t) else tail + (capacity - t) + slot
  }

  lemma {:induction false} LiveIndexSlot(tail: nat, slot: nat, capacity: nat)
    requires slot < capacity
    ensures tail <= LiveIndex(tail, slot, capacity) < tail + capacity
    ensures Slot(LiveIndex(tail, slot, capacity), capacity) == slot
    decreases tail
  {
    if tail >= capacity {
      LiveIndexSlot(tail - capacity, slot, capacity);
      assert LiveIndex(tail, slot, capacity) == LiveIndex(tail - capacity, slot, capacity) + capacity;
    }
  }

  lemma LiveIndexUnique(tail: nat, i: nat, capacity: nat)
    requires tail <= i < tail + capacity
    ensures LiveIndex(tail, Slot(i, capacity), capacity) == i
  {
    var j := LiveIndex(tail, Slot(i, capacity), capacity);
    LiveIndexSlot(tail, Slot(i, capacity), capacity);
    if i < j { SlotsDistinct(i, j, capacity); } else if j < i { SlotsDistinct(j, i, capacity); }
  }

  /** What a ring holds for an index. */
  function At<T>(ring: seq<T>, index: nat): T
    requires |ring| > 0
  {
    ring[Slot(index, |ring|)]
  }

  /** Storing at one index leaves every index less than a capacity away alone. */
  lemma StoreAt<T>(ring: seq<T>, i: nat, x: T)
    requires |ring| > 0
    ensures At(ring[Slot(i, |ring|) := x], i) == x
    ensures forall j: nat :: i - |ring| < j < i + |ring| && j != i ==>
              At(ring[Slot(i, |ring|) := x], j) == At(ring, j)
  {
    forall j: nat | i - |ring| < j < i + |ring| && j != i
      ensures At(ring[Slot(i, |ring|) := x], j) == At(ring, j)
    {
      if i < j { SlotsDistinct(i, j, |ring|); } else { SlotsDistinct(j, i, |ring|); }
    }
  }
}
