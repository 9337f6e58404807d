/**
 The receiving side's ring of posted fragments (`ReceiveQueue`): value form, the
 invariant of every reachable state, and the class that works in place.
 */
module ReceiveRing {
  import opened Arithmetic
  import opened SequenceNumbers
  import opened Fragmentation
  import opened Packets

  datatype Request = Request(addr: nat, length: nat, inflight: bool)

  datatype Inbox = Inbox(
    head: nat, tail: nat, wnd: nat, requests: seq<Request>, todo: seq<Buffer>, lastTs: nat, mem: seq<Byte>)

  /** `abort()` ends the process; everything else goes on. */
  datatype Outcome = Aborted | Kept(inbox: Inbox)

  function PostOne(s: Inbox): Inbox
    requires |s.requests| > 0 && s.todo != []
  {
    s.(requests := s.requests[Slot(s.head, |s.requests|) := Request(s.todo[0].addr, s.todo[0].length, true)],
       head := s.head + 1, todo := s.todo[1..])
  }

  /** `fillPrimaryQueue` */
  function Post(s: Inbox): Inbox
    requires |s.requests| > 0 && s.tail <= s.head
    decreases |s.todo|
  {
    if s.todo == [] || s.head - s.tail > s.wnd then s else Post(PostOne(s))
  }

  /** The loop of `markCompleted` that passes every finished request. */
  function Drain(s: Inbox): (s': Inbox)
    requires |s.requests| > 0 && s.tail <= s.head
    ensures s.tail <= s'.tail <= s.head && s' == s.(tail := s'.tail)
    decreases s.head - s.tail
  {
    if s.tail == s.head || At(s.requests, s.tail).inflight then s else Drain(s.(tail := s.tail + 1))
  }

  /** Copying a payload into the request of a slot. */
  function Place(s: Inbox, slot: nat, ts: nat, payload: seq<Byte>): Inbox
    requires slot < |s.requests| && s.requests[slot].addr + |payload| <= |s.mem|
  {
    s.(requests := s.requests[slot := s.requests[slot].(inflight := false)],
       lastTs := Max(s.lastTs, ts),
       mem := Write(s.mem, s.requests[slot].addr, payload))
  }

  /** The request a packet would be copied to lies in memory. */
  predicate Markable(s: Inbox, sn: nat) {
    && |s.requests| > 0 && s.tail <= s.head
    && var r := s.requests[Slot(sn, |s.requests|)]; (r.inflight ==> r.addr + r.length <= |s.mem|)
  }

  /** `markCompleted` */
  function Mark(s: Inbox, sn: nat, ts: nat, payload: seq<Byte>): Outcome
    requires Markable(s, sn)
  {
    var slot := Slot(sn, |s.requests|);
    if !Admits(s.tail, s.wnd, sn) then Kept(s)
    else if !s.requests[slot].inflight then Kept(Post(Drain(s)))
    else if |payload| != s.requests[slot].length then Aborted
    else Kept(Post(Drain(Place(s, slot, ts, payload))))
  }

  /** The index whose destination a packet is copied to, if any: the live one of its slot. */
  function Copies(s: Inbox, sn: nat): seq<nat>
    requires |s.requests| > 0
  {
    var slot := Slot(sn, |s.requests|);
    if Admits(s.tail, s.wnd, sn) && s.requests[slot].inflight then [LiveIndex(s.tail, slot, |s.requests|)] else []
  }

  // Every reachable state

  /** The fragment at this index has been received: it is behind the tail, or done ahead of it. */
  ghost predicate Accepted(s: Inbox, i: nat)
    requires |s.requests| > 0
  {
    i < s.tail || (i < s.head && !At(s.requests, i).inflight)
  }

  /**
   The ring describes exactly the posted fragments in `[tail, head)` and nothing else in
   it is in flight. `Drained` below adds that the tail is the first one not received.
   */
  ghost predicate Tracks(s: Inbox, posted: seq<Buffer>) {
    && s.wnd < |s.requests|
    && s.tail <= s.head <= |posted| && s.head - s.tail <= s.wnd + 1
    && s.todo == posted[s.head..]
    && (forall i: nat :: s.tail <= i < s.head ==>
          At(s.requests, i).addr == posted[i].addr && At(s.requests, i).length == posted[i].length)
    && (forall i: nat :: s.head <= i < s.tail + |s.requests| ==> !At(s.requests, i).inflight)
    && (forall i: nat :: i < |posted| ==> InBounds(s.mem, posted[i]))
  }

  ghost predicate Drained(s: Inbox)
    requires |s.requests| > 0
  {
    s.tail == s.head || At(s.requests, s.tail).inflight
  }

  /** Posting has gone as far as it can: nothing is left to post, or the window is full. */
  ghost predicate Stocked(s: Inbox) {
    s.todo == [] || s.head - s.tail > s.wnd
  }

  ghost predicate SameAccepted(s: Inbox, s': Inbox) {
    && |s.requests| > 0 && |s'.requests| > 0
    && forall i: nat :: Accepted(s', i) <==> Accepted(s, i)
  }

  lemma PostOneKeeps(s: Inbox, posted: seq<Buffer>)
    requires Tracks(s, posted) && Drained(s) && s.todo != [] && s.head - s.tail <= s.wnd
    ensures Tracks(PostOne(s), posted) && Drained(PostOne(s)) && SameAccepted(s, PostOne(s))
  {
    var s' := PostOne(s);
    StoreAt(s.requests, s.head, s'.requests[Slot(s.head, |s.requests|)]);
    forall i: nat | s'.head <= i < s.tail + |s.requests| ensures !At(s'.requests, i).inflight {
      assert At(s'.requests, i) == At(s.requests, i);
    }
    forall i: nat ensures Accepted(s', i) <==> Accepted(s, i) {
      if s.tail <= i < s.head {
        assert At(s'.requests, i) == At(s.requests, i);
      }
    }
  }

  /** Posting more fragments changes neither what was received nor the memory. */
  lemma {:induction false} PostKeeps(s: Inbox, posted: seq<Buffer>)
    requires Tracks(s, posted) && Drained(s)
    ensures Tracks(Post(s), posted) && Drained(Post(s)) && SameAccepted(s, Post(s))
    ensures Post(s).mem == s.mem && Post(s).tail == s.tail && Post(s).lastTs == s.lastTs
    ensures Post(s).wnd == s.wnd && |Post(s).requests| == |s.requests| && Post(s).head >= s.head
    ensures Stocked(Post(s))
    decreases |s.todo|
  {
    if s.todo != [] && s.head - s.tail <= s.wnd {
      PostOneKeeps(s, posted);
      PostKeeps(PostOne(s), posted);
    }
  }

  lemma PassOneKeeps(s: Inbox, posted: seq<Buffer>)
    requires Tracks(s, posted) && s.tail < s.head && !At(s.requests, s.tail).inflight
    ensures Tracks(s.(tail := s.tail + 1), posted) && SameAccepted(s, s.(tail := s.tail + 1))
  {
    var last := s.tail + |s.requests|;
    assert At(s.requests, last) == At(s.requests, s.tail);
  }

  lemma SameAcceptedThrough(s: Inbox, mid: Inbox, s': Inbox)
    requires SameAccepted(s, mid) && SameAccepted(mid, s')
    ensures SameAccepted(s, s')
  {}

  /** Passing finished requests only moves the tail, and stops at the first one still in flight. */
  lemma {:induction false} DrainKeeps(s: Inbox, posted: seq<Buffer>)
    requires Tracks(s, posted)
    ensures Tracks(Drain(s), posted) && Drained(Drain(s)) && SameAccepted(s, Drain(s))
    ensures Drain(s).tail > s.tail <==> s.tail < s.head && !At(s.requests, s.tail).inflight
    decreases s.head - s.tail
  {
    if s.tail < s.head && !At(s.requests, s.tail).inflight {
      var next := s.(tail := s.tail + 1);
      PassOneKeeps(s, posted);
      DrainKeeps(next, posted);
      SameAcceptedThrough(s, next, Drain(next));
    }
  }

  lemma PlaceKeeps(s: Inbox, posted: seq<Buffer>, i: nat, ts: nat, payload: seq<Byte>)
    requires Tracks(s, posted) && s.tail <= i < s.head && |payload| == posted[i].length
    ensures var s' := Place(s, Slot(i, |s.requests|), ts, payload);
            && Tracks(s', posted)
            && (forall j: nat :: Accepted(s', j) <==> Accepted(s, j) || j == i)
            && s'.mem == Write(s.mem, posted[i].addr, payload)
  {
    var s' := Place(s, Slot(i, |s.requests|), ts, payload);
    StoreAt(s.requests, i, At(s.requests, i).(inflight := false));
    forall j: nat | s.head <= j < s.tail + |s.requests| ensures !At(s'.requests, j).inflight {
      assert At(s'.requests, j) == At(s.requests, j);
    }
    forall j: nat ensures Accepted(s', j) <==> Accepted(s, j) || j == i {
      if s.tail <= j < s.head && j != i {
        assert At(s'.requests, j) == At(s.requests, j);
      }
    }
  }

  /** Whether a packet for index `i` is copied into memory. */
  ghost predicate Fits(s: Inbox, i: nat)
    requires |s.requests| > 0
  {
    s.tail <= i < s.tail + s.wnd && i < s.head && At(s.requests, i).inflight
  }

  /** A packet for `i` is recognised as such: its number read exactly, its slot the slot of `i`, its length agreed. */
  ghost predicate Recognisable(s: Inbox, posted: seq<Buffer>, i: nat, length: nat) {
    && 0 < |s.requests| && Slot(ShortSn(i), |s.requests|) == Slot(i, |s.requests|) && s.wnd < SN_SPACE
    && i < s.tail + SN_SPACE && DataExact(s.tail, s.wnd, i)
    && (i < |posted| ==> length == posted[i].length)
  }

  /** What a packet for index `i` does to the receiver. */
  ghost predicate Marked(s: Inbox, s': Inbox, posted: seq<Buffer>, i: nat, ts: nat, payload: seq<Byte>) {
    && 0 < |s.requests| == |s'.requests| && s'.wnd == s.wnd
    && Tracks(s', posted) && Drained(s')
    && (forall j: nat :: Accepted(s', j) <==> Accepted(s, j) || (Fits(s, i) && j == i))
    && (Fits(s, i) ==> i < |posted| && posted[i].addr + |payload| <= |s.mem|)
    && s'.mem == (if Fits(s, i) then Write(s.mem, posted[i].addr, payload) else s.mem)
    && s'.lastTs == (if Fits(s, i) then Max(s.lastTs, ts) else s.lastTs)
    && s'.tail >= s.tail
    && (s'.tail > s.tail <==> Fits(s, i) && i == s.tail)
    && (Stocked(s) ==> Stocked(s'))
  }

  /** What completing an awaited request does: it alone is added to what was received. */
  ghost predicate Completed(s: Inbox, s': Inbox, posted: seq<Buffer>, i: nat, ts: nat, payload: seq<Byte>) {
    && 0 < |s.requests| == |s'.requests| && s'.wnd == s.wnd
    && Tracks(s', posted) && Drained(s')
    && (forall j: nat :: Accepted(s', j) <==> Accepted(s, j) || j == i)
    && i < |posted| && posted[i].addr + |payload| <= |s.mem|
    && s'.mem == Write(s.mem, posted[i].addr, payload) && s'.lastTs == Max(s.lastTs, ts)
    && s'.tail >= s.tail && (s'.tail > s.tail <==> i == s.tail)
    && Stocked(s')
  }

  lemma CompleteKeeps(s: Inbox, posted: seq<Buffer>, i: nat, ts: nat, payload: seq<Byte>)
    requires Tracks(s, posted) && Drained(s) && s.tail <= i < s.head && At(s.requests, i).inflight
    requires |payload| == posted[i].length
    ensures Completed(s, Post(Drain(Place(s, Slot(i, |s.requests|), ts, payload))), posted, i, ts, payload)
  {
    PlaceKeeps(s, posted, i, ts, payload);
    var placed := Place(s, Slot(i, |s.requests|), ts, payload);
    var drained := Drain(placed);
    DrainKeeps(placed, posted);
    PostKeeps(drained, posted);
    forall j: nat ensures Accepted(Post(drained), j) <==> Accepted(s, j) || j == i {
      assert Accepted(drained, j) <==> Accepted(placed, j);
    }
    assert Accepted(placed, s.tail) <==> i == s.tail;
  }

  /** Memory after the logged copies of a packet: the payload at their destination, and nothing else changed. */
  ghost predicate CopiedAs(mem: seq<Byte>, mem': seq<Byte>, posted: seq<Buffer>, copies: seq<nat>, payload: seq<Byte>) {
    if copies == [] then mem' == mem
    else && |copies| == 1 && copies[0] < |posted| && |payload| == posted[copies[0]].length
         && InBounds(mem, posted[copies[0]]) && mem' == Write(mem, posted[copies[0]].addr, payload)
  }

  /** What any packet that does not abort the process does to the ring and to memory. */
  ghost predicate MarkedAny(s: Inbox, s': Inbox, posted: seq<Buffer>, copies: seq<nat>, payload: seq<Byte>) {
    && 0 < |s.requests| == |s'.requests| && s'.wnd == s.wnd
    && CopiedAs(s.mem, s'.mem, posted, copies, payload)
    && Tracks(s', posted) && Drained(s')
    && (forall j: nat :: Accepted(s', j) <==> Accepted(s, j) || j in copies)
    && (forall j: nat :: j in copies ==> !Accepted(s, j))
    && s'.tail >= s.tail && (Stocked(s) ==> Stocked(s'))
  }

  /**
   Whatever a packet's number, age and length, and whatever the capacity: its payload is
   written to at most one destination, one not written before, no other byte of memory
   changes, and the ring stays in order.
   */
  lemma MarkAny(s: Inbox, posted: seq<Buffer>, sn: nat, ts: nat, payload: seq<Byte>)
    requires Tracks(s, posted) && Drained(s)
    ensures Markable(s, sn)
    ensures Mark(s, sn, ts, payload).Kept? ==>
              MarkedAny(s, Mark(s, sn, ts, payload).inbox, posted, Copies(s, sn), payload)
  {
    var slot := Slot(sn, |s.requests|);
    var j := LiveIndex(s.tail, slot, |s.requests|);
    LiveIndexSlot(s.tail, slot, |s.requests|);
    SlotInBounds(s, posted, sn);
    if Admits(s.tail, s.wnd, sn) && s.requests[slot].inflight {
      assert At(s.requests, j).inflight;
      if |payload| == s.requests[slot].length {
        CompleteKeeps(s, posted, j, ts, payload);
      }
    } else if Admits(s.tail, s.wnd, sn) {
      assert Drain(s) == s;
      PostKeeps(s, posted);
    }
  }

  /**
   A recognisable packet never aborts the process. It is copied exactly when its
   fragment is posted, in the window and not yet received, and then counts as received;
   nothing else about what was received changes, and the tail again is the first
   index not received.
   */
  lemma MarkKeeps(s: Inbox, posted: seq<Buffer>, i: nat, ts: nat, payload: seq<Byte>)
    requires Tracks(s, posted) && Drained(s) && Recognisable(s, posted, i, |payload|)
    ensures Markable(s, ShortSn(i)) && Mark(s, ShortSn(i), ts, payload).Kept?
    ensures Marked(s, Mark(s, ShortSn(i), ts, payload).inbox, posted, i, ts, payload)
  {
    ReadExactly(s.tail, s.wnd, i);
    SlotInBounds(s, posted, i);
    if Fits(s, i) {
      CompleteKeeps(s, posted, i, ts, payload);
    } else if Admits(s.tail, s.wnd, ShortSn(i)) {
      assert !At(s.requests, i).inflight;
      assert Drain(s) == s;
      PostKeeps(s, posted);
    }
  }

  /** Any slot in flight belongs to a posted fragment, so copying to it stays in memory. */
  lemma SlotInBounds(s: Inbox, posted: seq<Buffer>, i: nat)
    requires Tracks(s, posted)
    ensures At(s.requests, i).inflight ==> At(s.requests, i).addr + At(s.requests, i).length <= |s.mem|
  {
    var j := Representative(Slot(i, |s.requests|), s.tail, |s.requests|);
    if At(s.requests, i).inflight {
      assert At(s.requests, j).inflight;
      assert InBounds(s.mem, posted[j]);
    }
  }

  /** Every slot is the slot of one of any `capacity` consecutive indices. */
  lemma {:induction false} Representative(slot: nat, base: nat, capacity: nat) returns (j: nat)
    requires slot < capacity
    ensures base <= j < base + capacity && Slot(j, capacity) == slot
    decreases base
  {
    if base == 0 {
      j := slot;
    } else {
      j := Representative(slot, base - 1, capacity);
      if j == base - 1 { j := j + capacity; }
    }
  }

  // What the receiver's memory holds

  /** Every received fragment the application has not given back holds the bytes that were sent. */
  ghost predicate Delivered(s: Inbox, posted: seq<Buffer>, released: nat, sent: seq<seq<Byte>>, limit: nat) {
    && |s.requests| > 0 && s.tail <= s.head <= |posted| && limit <= |sent|
    && (forall i: nat :: i < |posted| ==> InBounds(s.mem, posted[i]))
    && (forall i: nat :: Accepted(s, i) ==> i < limit)
    && (forall i: nat :: released <= i && Accepted(s, i) ==> Read(s.mem, posted[i]) == sent[i])
  }

  /** Posted fragments do not overlap while the application still holds the earlier one. */
  ghost predicate Apart(posted: seq<Buffer>, released: nat) {
    forall i: nat, j: nat :: released <= i < j < |posted| ==> Disjoint(posted[i], posted[j])
  }

  lemma MarkDelivers(s: Inbox, posted: seq<Buffer>, released: nat, sent: seq<seq<Byte>>, limit: nat, i: nat, ts: nat)
    requires Tracks(s, posted) && Drained(s) && Delivered(s, posted, released, sent, limit) && Apart(posted, released)
    requires i < limit && Recognisable(s, posted, i, |sent[i]|) && released <= s.tail
    ensures Markable(s, ShortSn(i)) && Mark(s, ShortSn(i), ts, sent[i]).Kept?
    ensures Delivered(Mark(s, ShortSn(i), ts, sent[i]).inbox, posted, released, sent, limit)
  {
    MarkKeeps(s, posted, i, ts, sent[i]);
    var s' := Mark(s, ShortSn(i), ts, sent[i]).inbox;
    if Fits(s, i) {
      forall j: nat | released <= j && Accepted(s', j) ensures Read(s'.mem, posted[j]) == sent[j] {
        ReadAfterWrite(s.mem, posted[i], sent[i], posted[j]);
        if j != i {
          assert Disjoint(posted[i], posted[j]) by {
            if i < j { assert Disjoint(posted[i], posted[j]); } else { assert Disjoint(posted[j], posted[i]); }
          }
        }
      }
    }
  }
}
