/** The receive queue, in place, proved against its value form. */
module ReceiveQueues {
  import opened Arithmetic
  import opened SequenceNumbers
  import opened Fragmentation
  import opened Packets
  import opened ReceiveRing

  /** `memmove` into the process memory. */
  method CopyIn(memory: array<Byte>, addr: nat, bytes: seq<Byte>)
    requires addr + |bytes| <= memory.Length
    modifies memory
    ensures memory[..] == Write(old(memory[..]), addr, bytes)
  {
    for k := 0 to |bytes|
      invariant memory[..] == Write(old(memory[..]), addr, bytes[..k])
    {
      memory[addr + k] := bytes[k];
      assert memory[..] == Write(old(memory[..]), addr, bytes[..k + 1]);
    }
    assert bytes[..|bytes|] == bytes;
  }

  class ReceiveQueue {
    const capacity: nat
    const session: nat
    const requests: array<Request>
    const secondary: SecondaryQueue
    const memory: array<Byte>
    var head: nat
    var tail: nat
    var wnd: nat
    var lastTs: nat

    ghost predicate Valid()
      reads this, requests, secondary
    {
      && 0 < capacity == requests.Length
      && wnd < TWO_16 && tail <= head
      && secondary.Valid()
      && (forall s :: 0 <= s < capacity && requests[s].inflight ==>
            requests[s].addr + requests[s].length <= memory.Length)
      && (forall f :: f in secondary.Contents() ==> f.addr + f.length <= memory.Length)
    }

    ghost function View(): Inbox
      reads this, requests, secondary, memory
      requires Valid()
    {
      Inbox(head, tail, wnd, requests[..], secondary.Contents(), lastTs, memory[..])
    }

    constructor (mtu: nat, capacity: nat, wnd: nat, session: nat, memory: array<Byte>)
      requires mtu > HEADER_SIZE + GRH_SIZE && 0 < capacity && wnd <= capacity
      ensures Valid() && fresh(requests) && fresh(secondary) && this.memory == memory
      ensures head == tail == lastTs == 0 && this.wnd == U16(wnd) && this.capacity == capacity
      ensures secondary.fragmentSize == mtu - HEADER_SIZE - GRH_SIZE && secondary.fragmentId == 0
      ensures View().todo == [] && View().requests == seq(capacity, _ => Request(0, 0, false))
    {
      this.capacity, this.session, this.memory := capacity, session, memory;
      requests := new Request[capacity](_ => Request(0, 0, false));
      secondary := new SecondaryQueue(mtu - HEADER_SIZE - GRH_SIZE);
      head, tail, this.wnd, lastTs := 0, 0, U16(wnd), 0;
    }

    method FillPrimaryQueue()
      requires Valid()
      modifies this`head, requests, secondary
      ensures Valid() && secondary.fragmentId == old(secondary.fragmentId)
      ensures View() == Post(old(View()))
    {
      while true
        invariant Valid() && secondary.fragmentId == old(secondary.fragmentId)
        invariant Post(View()) == Post(old(View()))
        decreases |secondary.Contents()|
      {
        var more := secondary.HasRemainingFragment();
        if !more || head - tail > wnd {
          return;
        }
        PostFragment();
      }
    }

    /** The body of the fill loop. */
    method PostFragment()
      requires Valid() && secondary.Contents() != []
      modifies this`head, requests, secondary
      ensures Valid() && secondary.fragmentId == old(secondary.fragmentId)
      ensures View() == PostOne(old(View()))
    {
      ghost var before := View();
      var fragment := secondary.PopFragment();
      assert before.todo == [fragment] + secondary.Contents();
      assert fragment in before.todo;
      assert forall f :: f in secondary.Contents() ==> f in before.todo;
      var slot := Slot(head, capacity);
      requests[slot] := Request(fragment.addr, fragment.length, true);
      assert requests[..] == before.requests[slot := Request(fragment.addr, fragment.length, true)];
      head := head + 1;
    }

    method Push(list: seq<Buffer>) returns (lastSn: nat)
      requires Valid() && forall b :: b in list ==> b.addr + b.length <= memory.Length
      modifies this`head, requests, secondary
      ensures Valid()
      ensures secondary.fragmentId == old(secondary.fragmentId) + TotalCount(list, secondary.fragmentSize)
      ensures lastSn == ShortSn(secondary.fragmentId)
      ensures View() == Post(old(View()).(todo := old(View()).todo + CutAll(list, secondary.fragmentSize)))
    {
      CutAllGather(memory[..], list, secondary.fragmentSize);
      assert forall f :: f in CutAll(list, secondary.fragmentSize) ==> InBounds(memory[..], f);
      var start, end := secondary.Push(list);
      lastSn := ShortSn(end);
      FillPrimaryQueue();
    }

    /** Copies the payload of an awaited packet; a length mismatch ends the process. */
    method Accept(slot: nat, ts: nat, payload: seq<Byte>) returns (aborted: bool)
      requires Valid() && slot < capacity && requests[slot].inflight
      modifies this`lastTs, requests, memory
      ensures Valid()
      ensures aborted <==> |payload| != old(requests[slot].length)
      ensures aborted ==> View() == old(View())
      ensures !aborted ==> View() == Place(old(View()), slot, ts, payload)
    {
      var request := requests[slot];
      if |payload| != request.length {
        return true;
      }
      CopyIn(memory, request.addr, payload);
      lastTs := Max(lastTs, ts);
      requests[slot] := request.(inflight := false);
      assert requests[..] == old(requests[..])[slot := request.(inflight := false)];
      return false;
    }

    method Advance()
      requires Valid()
      modifies this`tail
      ensures Valid() && View() == Drain(old(View()))
    {
      while tail != head
        invariant Valid() && Drain(View()) == Drain(old(View()))
        decreases head - tail
      {
        if requests[Slot(tail, capacity)].inflight {
          return;
        }
        tail := tail + 1;
      }
    }

    method InWindow(sn: nat) returns (admitted: bool)
      ensures admitted <==> Admits(tail, wnd, sn)
    {
      var start, end := ShortSn(tail), ShortSn(tail + wnd);
      if start <= end {
        admitted := !(sn < start || sn >= end);
      } else {
        admitted := !(sn < start && sn >= end);
      }
    }

    method MarkCompleted(sn: nat, ts: nat, payload: seq<Byte>) returns (aborted: bool)
      requires Valid() && sn < SN_SPACE
      modifies this, requests, secondary, memory
      ensures Valid() && secondary.fragmentId == old(secondary.fragmentId)
      ensures (if aborted then Aborted else Kept(View())) == Mark(old(View()), sn, ts, payload)
    {
      var admitted := InWindow(sn);
      if !admitted {
        return false;
      }
      SlotIsRemainder(sn, capacity);
      var slot := sn % capacity;
      if requests[slot].inflight {
        var failed := Accept(slot, ts, payload);
        if failed { return true; }
      }
      Advance();
      FillPrimaryQueue();
      return false;
    }
  }
}
