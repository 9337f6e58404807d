/** The two send queues, in place, proved against the value form of the ring. */
module SendQueues {
  import opened Arithmetic
  import opened SequenceNumbers
  import opened Fragmentation
  import opened Packets
  import opened PacketPool
  import opened SendRing

  const UINT64_MAX: nat := TWO_64 - 1

  /** `getMinTailIndex` */
  function MinTail(tails: seq<nat>): nat {
    if tails == [] then UINT64_MAX else Min(tails[0], MinTail(tails[1..]))
  }

  lemma {:induction false} MinTailBounded(tails: seq<nat>)
    ensures MinTail(tails) <= UINT64_MAX
  {
    if tails != [] { MinTailBounded(tails[1..]); }
  }

  lemma {:induction false} MinTailAppend(tails: seq<nat>, t: nat)
    ensures MinTail(tails + [t]) == Min(MinTail(tails), MinTail([t]))
  {
    if tails == [] {
      assert tails + [t] == [t];
    } else {
      assert (tails + [t])[1..] == tails[1..] + [t];
      MinTailAppend(tails[1..], t);
    }
  }

  /** With at least one replica it is the smallest tail: below every one, and one of them. */
  lemma {:induction false} MinTailIsLeast(tails: seq<nat>)
    requires tails != [] && forall i :: 0 <= i < |tails| ==> tails[i] <= UINT64_MAX
    ensures forall i :: 0 <= i < |tails| ==> MinTail(tails) <= tails[i]
    ensures MinTail(tails) in tails
  {
    if |tails| > 1 {
      MinTailIsLeast(tails[1..]);
    }
  }

  ghost function RingOf(handles: array<Handle>, pool: PacketBufferPool, secondary: SecondaryQueue,
                        head: nat, session: nat, wnd: nat): Ring
    reads handles, pool, secondary
    requires secondary.Valid()
  {
    Ring(head, wnd, session, handles[..], secondary.Contents(), pool.free)
  }

  /** A slot keeps the packet buffer it has; otherwise it gets one from the pool. */
  method EnsurePacket(handle: Handle, pool: PacketBufferPool) returns (ok: bool, raw: Handle)
    requires pool.Valid()
    modifies pool
    ensures pool.Valid()
    ensures ok <==> handle.packet != 0 || old(pool.free) != []
    ensures ok ==> raw == if handle.packet != 0 then handle else RawHandle(old(pool.free)[0])
    ensures pool.free == if handle.packet != 0 || !ok then old(pool.free) else old(pool.free)[1..]
  {
    ok, raw := true, handle;
    if handle.packet == 0 {
      var failed, packet := pool.AllocatePacket();
      ok, raw := failed == 0, RawHandle(packet);
    }
  }

  /**
   The body of both fill loops: 0 when a fragment entered the ring, 1 when the pool
   had no packet buffer left, -1 when the fragment was refused.
   */
  method LoadEntry(handles: array<Handle>, pool: PacketBufferPool, secondary: SecondaryQueue,
                   head: nat, session: nat, wnd: nat) returns (loaded: int, next: nat)
    requires handles.Length > 0 && pool.Valid() && secondary.Valid() && secondary.Contents() != []
    modifies handles, pool, secondary
    ensures pool.Valid() && secondary.Valid() && secondary.fragmentId == old(secondary.fragmentId)
    ensures loaded in {0, 1, -1}
    ensures loaded == 1 <==> !CanLoad(old(RingOf(handles, pool, secondary, head, session, wnd)))
    ensures loaded == -1 ==> Refused(old(secondary.Contents())[0])
    ensures loaded == 0 ==> !Refused(old(secondary.Contents())[0])
    ensures next == if loaded == 0 then head + 1 else head
    ensures RingOf(handles, pool, secondary, next, session, wnd) ==
            var r := old(RingOf(handles, pool, secondary, head, session, wnd));
            if loaded == 1 then r else Load(r)
  {
    var slot := Slot(head, handles.Length);
    ghost var ring := RingOf(handles, pool, secondary, head, session, wnd);
    var ok, handle := EnsurePacket(handles[slot], pool);
    if !ok {
      return 1, head;
    }
    var fragment := secondary.PopFragment();
    assert fragment == ring.todo[0] && secondary.Contents() == ring.todo[1..];
    handle := handle.(session := session, cmd := PKT_CMD_DATA, wnd := wnd, sn := ShortSn(head), ts := 0);
    if fragment.addr == 0 && fragment.length > 0 {
      handles[slot] := handle;
      assert handles[..] == ring.handles[slot := handle];
      return -1, head;
    }
    handle := handle.(dataBuf := fragment.addr, dataLen := fragment.length, inflight := true);
    handles[slot] := handle;
    assert handles[..] == ring.handles[slot := handle];
    return 0, head + 1;
  }

  /** The case distinction of both `markCompleted`s. */
  method Acknowledge(tail: nat, head: nat, ack: nat) returns (moved: nat)
    requires ack < SN_SPACE
    ensures moved == AckTail(tail, head, ack)
  {
    moved := tail;
    var t, h := ShortSn(tail), ShortSn(head);
    if t <= h && t <= ack && ack <= h {
      moved := tail + (ack - t);
    } else if t > h && ack <= h {
      moved := head - (h - ack);
    } else if t > h && ack >= t {
      moved := tail + (ack - t);
    }
  }

  class SendQueue {
    const capacity: nat
    const session: nat
    const handles: array<Handle>
    const pool: PacketBufferPool
    const secondary: SecondaryQueue
    var head: nat
    var tail: nat
    var wnd: nat

    ghost predicate Valid()
      reads this, handles, pool, pool.words, secondary
    {
      && 0 < capacity == handles.Length
      && wnd < TWO_16
      && tail <= head <= tail + TWO_16
      && pool.Valid() && secondary.Valid()
    }

    ghost function View(): Ring
      reads this, handles, pool, pool.words, secondary
      requires Valid()
    {
      RingOf(handles, pool, secondary, head, session, wnd)
    }

    constructor (mtu: nat, capacity: nat, wnd: nat, pool: PacketBufferPool, session: nat)
      requires mtu > HEADER_SIZE + GRH_SIZE && 0 < capacity && wnd <= capacity && pool.Valid()
      ensures Valid() && fresh(handles) && fresh(secondary) && this.pool == pool
      ensures head == tail == 0 && this.wnd == U16(wnd) && this.capacity == capacity && this.session == session
      ensures secondary.fragmentSize == mtu - HEADER_SIZE - GRH_SIZE && secondary.fragmentId == 0
      ensures View().todo == [] && forall h :: h in View().handles ==> h.packet == 0
    {
      this.capacity, this.session, this.pool := capacity, session, pool;
      handles := new Handle[capacity](_ => RawHandle(0));
      secondary := new SecondaryQueue(mtu - HEADER_SIZE - GRH_SIZE);
      head, tail, this.wnd := 0, 0, U16(wnd);
    }

    method FillPrimaryQueue() returns (code: int)
      requires Valid()
      modifies this`head, handles, pool, secondary
      ensures Valid() && secondary.fragmentId == old(secondary.fragmentId)
      ensures code in {0, -1} && Filled(View(), code) == Fill(old(View()), tail)
    {
      while true
        invariant Valid() && secondary.fragmentId == old(secondary.fragmentId)
        invariant Fill(View(), tail) == Fill(old(View()), tail)
        decreases |secondary.Contents()|
      {
        var more := secondary.HasRemainingFragment();
        if !more || head - tail > wnd {
          return 0;
        }
        ghost var before := View();
        var loaded, next := LoadEntry(handles, pool, secondary, head, session, wnd);
        head := next;
        if loaded != 0 {
          return if loaded > 0 then 0 else -1;
        }
        assert View() == Load(before);
      }
    }

    method Push(list: seq<Buffer>) returns (code: int, lastSn: nat)
      requires Valid()
      modifies this`head, handles, pool, secondary
      ensures Valid()
      ensures secondary.fragmentId == old(secondary.fragmentId) + TotalCount(list, secondary.fragmentSize)
      ensures lastSn == ShortSn(secondary.fragmentId)
      ensures code in {0, -1} && Filled(View(), code) ==
              Fill(old(View()).(todo := old(View()).todo + CutAll(list, secondary.fragmentSize)), tail)
    {
      var start, end := secondary.Push(list);
      lastSn := ShortSn(end);
      code := FillPrimaryQueue();
    }

    method MarkCompleted(ack: nat) returns (code: int)
      requires Valid() && ack < SN_SPACE
      modifies this`head, this`tail, handles, pool, secondary
      ensures Valid() && secondary.fragmentId == old(secondary.fragmentId)
      ensures tail == AckTail(old(tail), old(head), ack)
      ensures code in {0, -1} && Filled(View(), code) == Fill(old(View()), tail)
    {
      AckTailRefines(tail, head, ack);
      tail := Acknowledge(tail, head, ack);
      code := FillPrimaryQueue();
    }

    method SetWndSize(size: nat)
      requires Valid()
      modifies this`wnd
      ensures Valid() && View() == old(View()).(wnd := CapWnd(size, capacity))
    {
      wnd := CapWnd(size, capacity);
    }
  }

  class McastSendQueue {
    const capacity: nat
    const session: nat
    const handles: array<Handle>
    const pool: PacketBufferPool
    const secondary: SecondaryQueue
    var head: nat
    var tails: seq<nat>
    var wnd: nat

    ghost predicate Valid()
      reads this, handles, pool, pool.words, secondary
    {
      && 0 < capacity == handles.Length
      && wnd < TWO_16
      && pool.Valid() && secondary.Valid()
    }

    ghost function View(): Ring
      reads this, handles, pool, pool.words, secondary
      requires Valid()
    {
      RingOf(handles, pool, secondary, head, session, wnd)
    }

    constructor (mtu: nat, capacity: nat, wnd: nat, pool: PacketBufferPool, session: nat, replicas: nat)
      requires mtu > HEADER_SIZE + GRH_SIZE && 0 < capacity && wnd <= capacity && pool.Valid()
      ensures Valid() && fresh(handles) && fresh(secondary) && this.pool == pool
      ensures head == 0 && tails == seq(replicas, _ => 0) && this.wnd == U16(wnd)
      ensures this.capacity == capacity && this.session == session
      ensures secondary.fragmentSize == mtu - HEADER_SIZE - GRH_SIZE && secondary.fragmentId == 0
      ensures View().todo == [] && forall h :: h in View().handles ==> h.packet == 0
    {
      this.capacity, this.session, this.pool := capacity, session, pool;
      handles := new Handle[capacity](_ => RawHandle(0));
      secondary := new SecondaryQueue(mtu - HEADER_SIZE - GRH_SIZE);
      head, tails, this.wnd := 0, seq(replicas, _ => 0), U16(wnd);
    }

    method GetMinTailIndex() returns (least: nat)
      ensures least == MinTail(tails)
    {
      least := UINT64_MAX;
      var i := 0;
      while i < |tails|
        invariant 0 <= i <= |tails| && least == MinTail(tails[..i])
      {
        assert tails[..i + 1] == tails[..i] + [tails[i]];
        MinTailAppend(tails[..i], tails[i]);
        MinTailBounded(tails[..i]);
        least := Min(least, tails[i]);
        i := i + 1;
      }
      assert tails[..i] == tails;
    }

    method FillPrimaryQueue() returns (code: int)
      requires Valid()
      modifies this`head, handles, pool, secondary
      ensures Valid() && secondary.fragmentId == old(secondary.fragmentId)
      ensures code in {0, -1} && Filled(View(), code) == Fill(old(View()), MinTail(tails))
    {
      while true
        invariant Valid() && secondary.fragmentId == old(secondary.fragmentId)
        invariant Fill(View(), MinTail(tails)) == Fill(old(View()), MinTail(tails))
        decreases |secondary.Contents()|
      {
        var more := secondary.HasRemainingFragment();
        var least := GetMinTailIndex();
        if !more || U64Sub(head, least) > wnd {
          return 0;
        }
        ghost var before := View();
        var loaded, next := LoadEntry(handles, pool, secondary, head, session, wnd);
        head := next;
        if loaded != 0 {
          return if loaded > 0 then 0 else -1;
        }
        assert View() == Load(before);
      }
    }

    method Push(list: seq<Buffer>) returns (code: int, lastSn: nat)
      requires Valid()
      modifies this`head, handles, pool, secondary
      ensures Valid()
      ensures secondary.fragmentId == old(secondary.fragmentId) + TotalCount(list, secondary.fragmentSize)
      ensures lastSn == ShortSn(secondary.fragmentId)
      ensures code in {0, -1} && Filled(View(), code) ==
              Fill(old(View()).(todo := old(View()).todo + CutAll(list, secondary.fragmentSize)), MinTail(tails))
    {
      var start, end := secondary.Push(list);
      lastSn := ShortSn(end);
      code := FillPrimaryQueue();
    }

    /** An index out of range is an error; otherwise only that replica's tail moves. */
    method MarkCompleted(index: int, ack: nat) returns (code: int)
      requires Valid() && ack < SN_SPACE
      modifies this`head, this`tails, handles, pool, secondary
      ensures Valid() && secondary.fragmentId == old(secondary.fragmentId)
      ensures !(0 <= index < |old(tails)|) ==> code == -1 && View() == old(View()) && tails == old(tails)
      ensures 0 <= index < |old(tails)| ==>
                && tails == old(tails)[index := AckTail(old(tails)[index], old(head), ack)]
                && code in {0, -1} && Filled(View(), code) == Fill(old(View()), MinTail(tails))
    {
      if index < 0 || index >= |tails| {
        return -1;
      }
      var tail := tails[index];
      tail := Acknowledge(tail, head, ack);
      tails := tails[index := tail];
      code := FillPrimaryQueue();
    }

    /** With an index, that replica's acknowledged number; without one, the slowest replica's. */
    method GetAckSN(index: int) returns (sn: nat)
      ensures sn == ShortSn(if 0 <= index < |tails| then tails[index] else MinTail(tails))
    {
      if index < 0 || index >= |tails| {
        var least := GetMinTailIndex();
        return ShortSn(least);
      }
      return ShortSn(tails[index]);
    }

    method SetWndSize(size: nat)
      requires Valid()
      modifies this`wnd
      ensures Valid() && View() == old(View()).(wnd := CapWnd(size, capacity))
    {
      wnd := CapWnd(size, capacity);
    }
  }
}
