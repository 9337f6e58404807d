/** The sender of a multicast context, in place, proved against the functions of `Multicast`. */
module McastContexts {
  import opened Arithmetic
  import opened SequenceNumbers
  import opened Fragmentation
  import opened Packets
  import opened PacketPool
  import opened SendRing
  import opened SendQueues
  import opened Control
  import opened Endpoint
  import opened Multicast
  import U = Unicast

  class McastContext {
    const mtu: nat
    const memory: array<Byte>
    const queue: McastSendQueue
    var cwnd: nat
    var rwnd: nat
    var ssthresh: nat
    var incr: nat
    var srtt: nat
    var rttval: nat
    var rto: nat

    ghost predicate Valid()
      reads this, queue, queue.handles, queue.pool, queue.pool.words, queue.secondary
    {
      0 < mtu && queue.Valid()
    }

    ghost function View(): McastSender
      reads this, queue, queue.handles, queue.pool, queue.pool.words, queue.secondary
      requires queue.Valid()
    {
      McastSender(queue.View(), queue.tails, Window(cwnd, rwnd, ssthresh, incr), Rtt(srtt, rttval, rto))
    }

    constructor (mtu: nat, memory: array<Byte>, queue: McastSendQueue)
      requires 0 < mtu && queue.Valid()
      ensures Valid() && this.queue == queue && this.memory == memory && this.mtu == mtu
      ensures View() == McastSender(queue.View(), queue.tails, INITIAL_WINDOW, Rtt(0, 0, MCAST_DEFAULT_RTO))
    {
      this.mtu, this.memory, this.queue := mtu, memory, queue;
      cwnd, rwnd, ssthresh, incr := 1, DEFAULT_WND, MIN_SSTHRESH, 0;
      srtt, rttval, rto := 0, 0, MCAST_DEFAULT_RTO;
    }

    /** Stamps and sends one packet; one that was sent before closes the queue's window to a single packet. */
    method SendOne(curr: nat, now: nat) returns (frame: Frame)
      requires Valid()
      modifies queue`wnd, queue.handles
      ensures Valid()
      ensures var h := At(old(queue.handles[..]), curr);
              && queue.wnd == (if h.ts != 0 then CapWnd(1, queue.capacity) else old(queue.wnd))
              && frame == Shot(h, now, memory[..])
      ensures queue.handles[..] == Stamp(old(queue.handles[..]), curr, now)
    {
      var slot := Slot(curr, queue.capacity);
      var handle := queue.handles[slot];
      if handle.ts != 0 {
        queue.SetWndSize(1);
      }
      frame := Shot(handle, now, memory[..]);
      queue.handles[slot] := handle.(ts := now);
      assert queue.handles[..] == old(queue.handles[..])[slot := handle.(ts := now)];
    }

    /** The loop over the live packets: a packet whose timer runs is passed over, not stopped at. */
    method SendRange(start: nat, end: nat, now: nat) returns (out: seq<U.Data>)
      requires Valid() && start <= end
      modifies queue`wnd, queue.handles
      ensures Valid()
      ensures Swept(queue.handles[..], queue.wnd, out) ==
              Sweep(old(queue.handles[..]), old(queue.wnd), start, end, now, rto, memory[..])
    {
      ghost var whole := Sweep(queue.handles[..], queue.wnd, start, end, now, rto, memory[..]);
      out := [];
      var curr := start;
      while curr != end
        invariant Valid() && curr <= end
        invariant var rest := Sweep(queue.handles[..], queue.wnd, curr, end, now, rto, memory[..]);
                  whole == rest.(out := out + rest.out)
        decreases end - curr
      {
        if U64Sub(now, queue.handles[Slot(curr, queue.capacity)].ts) >= rto {
          ghost var before := out;
          var frame := SendOne(curr, now);
          var sent := [U.Data(curr, frame)];
          out := out + sent;
          Associative(before, sent, Sweep(queue.handles[..], queue.wnd, curr + 1, end, now, rto, memory[..]).out);
        }
        curr := curr + 1;
      }
    }

    method SendDataPackets(now: nat) returns (out: seq<U.Data>)
      requires Valid() && queue.tails != [] && MinTail(queue.tails) <= queue.head
      modifies queue`wnd, queue.handles
      ensures Valid()
      ensures var before := old(View());
              var p := Sweep(before.ring.handles, before.ring.wnd, MinTail(before.tails), before.ring.head,
                             now, rto, memory[..]);
              View() == before.(ring := before.ring.(handles := p.handles, wnd := p.wnd)) && out == p.out
    {
      var least := queue.GetMinTailIndex();
      out := SendRange(least, queue.head, now);
    }

    method UpdateRTO(rtt: nat)
      modifies this`srtt, this`rttval, this`rto
      ensures Rtt(srtt, rttval, rto) ==
              UpdateRto(Rtt(old(srtt), old(rttval), old(rto)), rtt, MCAST_MIN_RTO, MCAST_MAX_RTO)
      ensures Weighs(Rtt(old(srtt), old(rttval), old(rto)), rtt, Rtt(srtt, rttval, rto), MCAST_MIN_RTO, MCAST_MAX_RTO)
    {
      UpdateWeighs(Rtt(srtt, rttval, rto), rtt, MCAST_MIN_RTO, MCAST_MAX_RTO);
      if srtt == 0 {
        srtt := rtt;
        rttval := rtt / 2;
      } else {
        var delta := rtt - srtt;
        if delta < 0 { delta := -delta; }
        rttval := (3 * rttval + delta) / 4;
        srtt := (7 * srtt + rtt) / 8;
        if srtt < 1 { srtt := 1; }
      }
      rto := Min(Max(MCAST_MIN_RTO, srtt + 4 * rttval), MCAST_MAX_RTO);
    }

    method UpdateWindow(advertised: nat)
      requires 0 < mtu
      modifies this`cwnd, this`rwnd, this`incr
      ensures Window(cwnd, rwnd, ssthresh, incr) ==
              OnSuccess(Window(old(cwnd), old(rwnd), ssthresh, old(incr)), mtu, advertised)
    {
      if cwnd < ssthresh {
        cwnd := U32(cwnd + 1);
        incr := U32(incr + mtu);
      } else {
        incr := GrowIncr(incr, mtu);
        cwnd := GrowCwnd(cwnd, incr, mtu);
      }
      rwnd := advertised;
      cwnd := Min(rwnd, cwnd);
    }

    /** The acknowledgement of the replica the controller has resolved to `index`. */
    method HandleAck(index: nat, ack: Received, now: nat)
      requires Valid() && now < TWO_64 && ack.sn < SN_SPACE && ack.ts < TWO_48
      modifies this, queue, queue.handles, queue.pool, queue.secondary
      ensures Valid()
      ensures View() == Replied(old(View()), mtu, index, ack, now)
    {
      var code := queue.MarkCompleted(index, ack.sn);
      UpdateRTO(RoundTripTime(now, ack.ts));
      UpdateWindow(ack.wnd);
      if queue.wnd != cwnd {
        queue.SetWndSize(cwnd);
      }
    }
  }
}
