/** A context with one session, in place, proved against the functions of `Endpoint`. */
module Contexts {
  import opened Arithmetic
  import opened SequenceNumbers
  import opened Fragmentation
  import opened Packets
  import opened PacketPool
  import opened SendRing
  import opened SendQueues
  import opened ReceiveRing
  import opened ReceiveQueues
  import opened Control
  import opened Endpoint
  import T = TaskStatus

  datatype Task = Task(lastSn: nat, isSend: bool)

  class Context {
    const mtu: nat
    const session: nat
    const memory: array<Byte>
    const sendQueue: SendQueue
    const receiveQueue: ReceiveQueue
    var ackHandle: Handle
    var recvPackets: nat
    var ackPackets: nat
    var cwnd: nat
    var rwnd: nat
    var ssthresh: nat
    var incr: nat
    var lastSendTs: nat
    var srtt: nat
    var rttval: nat
    var rto: nat
    var tasks: map<nat, Task>
    var nextTaskId: nat

    ghost predicate Valid()
      reads this, sendQueue, sendQueue.handles, sendQueue.pool, sendQueue.pool.words, sendQueue.secondary
      reads receiveQueue, receiveQueue.requests, receiveQueue.secondary
    {
      && mtu > HEADER_SIZE + GRH_SIZE
      && sendQueue.Valid() && receiveQueue.Valid()
      && receiveQueue.memory == memory && sendQueue.secondary != receiveQueue.secondary
      && ackHandle.packet != 0 && !ackHandle.compacted && ackHandle.dataBuf == ackHandle.dataLen == 0
      && lastSendTs == 0
      && (forall id :: id in tasks ==> id < nextTaskId && tasks[id].lastSn < SN_SPACE)
    }

    ghost function SenderView(): Sender
      reads this, sendQueue, sendQueue.handles, sendQueue.pool, sendQueue.pool.words, sendQueue.secondary
      requires sendQueue.Valid()
    {
      Sender(sendQueue.View(), sendQueue.tail, Window(cwnd, rwnd, ssthresh, incr), Rtt(srtt, rttval, rto))
    }

    ghost function ReceiverView(): Receiver
      reads this, receiveQueue, receiveQueue.requests, receiveQueue.secondary, receiveQueue.memory
      requires receiveQueue.Valid()
    {
      Receiver(receiveQueue.View(), session, recvPackets, ackPackets, ackHandle.inflight)
    }

    constructor (mtu: nat, session: nat, memory: array<Byte>, sendQueue: SendQueue, receiveQueue: ReceiveQueue,
                 ackPacket: nat)
      requires mtu > HEADER_SIZE + GRH_SIZE && sendQueue.Valid() && receiveQueue.Valid()
      requires receiveQueue.memory == memory && sendQueue.secondary != receiveQueue.secondary && ackPacket != 0
      ensures Valid() && this.sendQueue == sendQueue && this.receiveQueue == receiveQueue && this.memory == memory
      ensures this.mtu == mtu && this.session == session && tasks == map[]
      ensures SenderView() == Sender(sendQueue.View(), sendQueue.tail, INITIAL_WINDOW, Rtt(0, 0, DEFAULT_RTO))
      ensures ReceiverView() == Receiver(receiveQueue.View(), session, 0, 0, false)
    {
      this.mtu, this.session, this.memory := mtu, session, memory;
      this.sendQueue, this.receiveQueue := sendQueue, receiveQueue;
      ackHandle := RawHandle(ackPacket);
      recvPackets, ackPackets := 0, 0;
      cwnd, rwnd, ssthresh, incr := 1, DEFAULT_WND, MIN_SSTHRESH, 0;
      lastSendTs := 0;
      srtt, rttval, rto := 0, 0, DEFAULT_RTO;
      tasks, nextTaskId := map[], 0;
    }

    /** Stamps and sends one packet; a packet sent before backs the window off. */
    method SendOne(curr: nat, window: nat, now: nat) returns (backedOff: nat, frame: Frame)
      requires Valid()
      modifies sendQueue`wnd, sendQueue.handles
      ensures Valid()
      ensures var h := At(old(sendQueue.handles[..]), curr);
              && backedOff == (if h.ts != 0 then Backoff(window) else window)
              && sendQueue.wnd == (if h.ts != 0 then CapWnd(backedOff, sendQueue.capacity) else old(sendQueue.wnd))
              && frame == Shot(h, now, memory[..])
      ensures sendQueue.handles[..] == Stamp(old(sendQueue.handles[..]), curr, now)
    {
      var slot := Slot(curr, sendQueue.capacity);
      var handle := sendQueue.handles[slot];
      backedOff := window;
      if handle.ts != 0 {
        backedOff := Backoff(window);
        sendQueue.SetWndSize(backedOff);
      }
      frame := Shot(handle, now, memory[..]);
      sendQueue.handles[slot] := handle.(ts := now);
      assert sendQueue.handles[..] == old(sendQueue.handles[..])[slot := handle.(ts := now)];
    }

    /** One due packet of the pass `whole`, of which `out` is done. */
    method SendNext(ghost whole: Pass, out: seq<Frame>, curr: nat, end: nat, window: nat, now: nat)
      returns (out': seq<Frame>, window': nat)
      requires Valid() && curr < end
      requires U64Sub(now, At(sendQueue.handles[..], curr).ts) >= rto
      requires Ahead(whole, out, sendQueue.handles[..], sendQueue.wnd, window, curr, end, now, rto, memory[..])
      modifies sendQueue`wnd, sendQueue.handles
      ensures Valid()
      ensures Ahead(whole, out', sendQueue.handles[..], sendQueue.wnd, window', curr + 1, end, now, rto, memory[..])
    {
      BurstStep(whole, out, sendQueue.handles[..], sendQueue.wnd, window, curr, end, now, rto, memory[..]);
      var frame;
      window', frame := SendOne(curr, window, now);
      out' := out + [frame];
    }

    /** The loop of the pass: it stops at the first packet whose timer has not run out. */
    method SendRange(start: nat, end: nat, now: nat) returns (out: seq<Frame>)
      requires Valid()
      modifies sendQueue`wnd, sendQueue.handles
      ensures Valid()
      ensures Pass(sendQueue.handles[..], sendQueue.wnd, out) ==
              Burst(old(sendQueue.handles[..]), old(sendQueue.wnd), cwnd, start, end, now, rto, memory[..])
    {
      ghost var mem := memory[..];
      ghost var whole := Burst(sendQueue.handles[..], sendQueue.wnd, cwnd, start, end, now, rto, mem);
      BurstStart(sendQueue.handles[..], sendQueue.wnd, cwnd, start, end, now, rto, mem);
      out := [];
      var window := cwnd;
      var curr := start;
      var skip := false;
      while !skip && curr < end
        invariant Valid() && mem == memory[..]
        invariant if skip then Pass(sendQueue.handles[..], sendQueue.wnd, out) == whole
                  else Ahead(whole, out, sendQueue.handles[..], sendQueue.wnd, window, curr, end, now, rto, mem)
        decreases !skip, end - curr
      {
        if U64Sub(now, sendQueue.handles[Slot(curr, sendQueue.capacity)].ts) < rto {
          BurstEnd(whole, out, sendQueue.handles[..], sendQueue.wnd, window, curr, end, now, rto, mem);
          skip := true;
        } else {
          out, window := SendNext(whole, out, curr, end, window, now);
          curr := curr + 1;
        }
      }
      if !skip {
        BurstEnd(whole, out, sendQueue.handles[..], sendQueue.wnd, window, curr, end, now, rto, mem);
      }
    }

    /**
     One pass over the session. The loop works on copies of the window fields, as the
     source does, so only the queue's window and the timestamps outlive it.
     */
    method SendDataPackets(now: nat) returns (out: seq<Frame>)
      requires Valid()
      modifies sendQueue`wnd, sendQueue.handles
      ensures Valid()
      ensures var p := SendPass(old(SenderView()), now, memory[..]);
              SenderView() == AfterPass(old(SenderView()), p) && out == p.out
    {
      if U64Sub(now, lastSendTs) < rto * 2 / 3 {
        return [];
      }
      out := SendRange(sendQueue.tail, Min(sendQueue.head, sendQueue.tail + cwnd), now);
    }

    /** Sends at most one acknowledgement: none while the last is under way or nothing new has arrived. */
    method SendAckPackets() returns (out: Option<Frame>)
      requires Valid()
      modifies this`ackHandle, this`ackPackets
      ensures Valid() && unchanged(sendQueue) && unchanged(receiveQueue)
      ensures var r := old(ReceiverView());
              if OwesAck(r)
              then && out == Some(Frame(AckHandle(r).(packet := old(ackHandle.packet)), []))
                   && ReceiverView() == AfterAck(r)
              else out == None && ReceiverView() == r
      ensures SenderView() == old(SenderView())
      ensures out.Some? ==>
                var h, q := out.value.handle, receiveQueue;
                && h.cmd == PKT_CMD_ACK && !h.compacted && out.value.payload == []
                && h.wnd == Max(q.head - q.tail, 8) % 65536 && h.sn == q.tail % SN_SPACE && h.ts == q.lastTs
    {
      if ackPackets >= recvPackets || ackHandle.inflight {
        return None;
      }
      var open := receiveQueue.head - receiveQueue.tail;
      ackHandle := ackHandle.(session := session, cmd := PKT_CMD_ACK, wnd := U16(Max(open, MIN_ADVERTISED)),
                              sn := ShortSn(receiveQueue.tail), ts := receiveQueue.lastTs, inflight := true);
      out := Some(Frame(ackHandle, []));
      ackPackets := recvPackets;
    }

    method UpdateRTO(rtt: nat)
      modifies this`srtt, this`rttval, this`rto
      ensures Rtt(srtt, rttval, rto) == UpdateRto(Rtt(old(srtt), old(rttval), old(rto)), rtt, MIN_RTO, MAX_RTO)
      ensures Weighs(Rtt(old(srtt), old(rttval), old(rto)), rtt, Rtt(srtt, rttval, rto), MIN_RTO, MAX_RTO)
    {
      UpdateWeighs(Rtt(srtt, rttval, rto), rtt, MIN_RTO, MAX_RTO);
      if srtt == 0 {
        srtt := rtt;
        rttval := rtt / 2;
      } else {
        var delta := rtt - srtt;
        if delta < 0 { delta := -delta; }
        rttval := (3 * rttval + delta) / 4;
        srtt := (7 * srtt + rtt) / 8;
        if srtt < 1 { srtt := 1; }
      }
      rto := Min(Max(MIN_RTO, srtt + 4 * rttval), MAX_RTO);
    }

    method UpdateWindow(advertised: nat)
      requires 0 < mtu
      modifies this`cwnd, this`rwnd, this`incr
      ensures Window(cwnd, rwnd, ssthresh, incr) ==
              OnSuccess(Window(old(cwnd), old(rwnd), ssthresh, old(incr)), mtu, advertised)
    {
      if cwnd < ssthresh {
        cwnd := U32(cwnd + 1);
        incr := U32(incr + mtu);
      } else {
        incr := GrowIncr(incr, mtu);
        cwnd := GrowCwnd(cwnd, incr, mtu);
      }
      rwnd := advertised;
      cwnd := Min(rwnd, cwnd);
    }

    method UpdateWndOnSuccess(advertised: nat)
      requires Valid()
      modifies this`cwnd, this`rwnd, this`incr, sendQueue`wnd
      ensures Valid()
      ensures SenderView() == Windowed(old(SenderView()), mtu, advertised)
      ensures cwnd <= advertised == rwnd
      ensures sendQueue.wnd == if old(sendQueue.wnd) == cwnd then cwnd
                               else Min(cwnd % 65536, sendQueue.capacity % 65536)
    {
      UpdateWindow(advertised);
      if sendQueue.wnd != cwnd {
        sendQueue.SetWndSize(cwnd);
      }
    }

    method HandleAck(ack: Received, now: nat)
      requires Valid() && now < TWO_64 && ack.sn < SN_SPACE && ack.ts < TWO_48
      modifies this`cwnd, this`rwnd, this`incr, this`srtt, this`rttval, this`rto
      modifies sendQueue, sendQueue.handles, sendQueue.pool, sendQueue.secondary
      ensures Valid()
      ensures SenderView() == OnAck(old(SenderView()), mtu, ack, now)
    {
      var code := sendQueue.MarkCompleted(ack.sn);
      UpdateRTO(RoundTripTime(now, ack.ts));
      UpdateWndOnSuccess(ack.wnd);
    }

    method HandleData(data: Received) returns (aborted: bool)
      requires Valid() && data.sn < SN_SPACE
      modifies this`recvPackets, receiveQueue, receiveQueue.requests, receiveQueue.secondary, memory
      ensures Valid()
      ensures OnData(old(ReceiverView()), data) == if aborted then None else Some(ReceiverView())
      ensures SenderView() == old(SenderView())
    {
      aborted := receiveQueue.MarkCompleted(data.sn, data.ts, data.payload);
      if !aborted {
        recvPackets := recvPackets + 1;
      }
    }

    /** The completion of the acknowledgement's own transmission. */
    method AckCompleted()
      requires Valid()
      modifies this`ackHandle
      ensures Valid() && ReceiverView() == old(ReceiverView()).(ackBusy := false)
    {
      ackHandle := ackHandle.(inflight := false);
    }

    method AddTask(task: Task) returns (id: nat)
      requires Valid() && task.lastSn < SN_SPACE
      modifies this`tasks, this`nextTaskId
      ensures Valid() && id == old(nextTaskId) && id !in old(tasks) && tasks == old(tasks)[id := task]
    {
      id := nextTaskId;
      nextTaskId := nextTaskId + 1;
      tasks := tasks[id := task];
    }

    /** A new task gets a number no task has had; a refused buffer makes the send fail. */
    method Send(list: seq<Buffer>) returns (id: int)
      requires Valid()
      modifies this`tasks, this`nextTaskId
      modifies sendQueue`head, sendQueue.handles, sendQueue.pool, sendQueue.secondary
      ensures Valid()
      ensures id == -1 ==> tasks == old(tasks)
      ensures id != -1 ==> id == old(nextTaskId) && id !in old(tasks)
      ensures id >= 0 ==> tasks == old(tasks)[id := Task(ShortSn(sendQueue.secondary.fragmentId), true)]
      ensures Filled(sendQueue.View(), if id == -1 then -1 else 0) ==
              Fill(old(sendQueue.View()).(
                     todo := old(sendQueue.View()).todo + CutAll(list, sendQueue.secondary.fragmentSize)),
                   sendQueue.tail)
    {
      var code, lastSn := sendQueue.Push(list);
      if code != 0 {
        return code;
      }
      id := AddTask(Task(lastSn, true));
    }

    method Receive(list: seq<Buffer>) returns (id: nat)
      requires Valid() && forall b :: b in list ==> b.addr + b.length <= memory.Length
      modifies this`tasks, this`nextTaskId
      modifies receiveQueue`head, receiveQueue.requests, receiveQueue.secondary
      ensures Valid() && id == old(nextTaskId) && id !in old(tasks)
      ensures tasks == old(tasks)[id := Task(ShortSn(receiveQueue.secondary.fragmentId), false)]
      ensures receiveQueue.View() ==
              Post(old(receiveQueue.View()).(
                     todo := old(receiveQueue.View()).todo + CutAll(list, receiveQueue.secondary.fragmentSize)))
    {
      var lastSn := receiveQueue.Push(list);
      id := AddTask(Task(lastSn, false));
    }

    /** The number of a freed task is not used again. */
    method FreeTask(id: int) returns (code: int)
      requires Valid()
      modifies this`tasks
      ensures Valid() && code == (if id in old(tasks) then 0 else -1) && tasks == old(tasks) - {id}
    {
      if id !in tasks {
        return -1;
      }
      tasks := tasks - {id};
      return 0;
    }

    method GetStatus(id: int) returns (status: T.Status)
      requires Valid()
      ensures status == T.Unknown <==> id !in tasks
      ensures id in tasks ==>
                (status == T.Success <==>
                   if tasks[id].isSend
                   then T.Finished(tasks[id].lastSn, ShortSn(sendQueue.tail), ShortSn(sendQueue.head))
                   else T.Finished(tasks[id].lastSn, ShortSn(receiveQueue.tail), ShortSn(receiveQueue.head)))
    {
      if id !in tasks {
        return T.Unknown;
      }
      var task := tasks[id];
      var ackSn, nextSn;
      if task.isSend {
        ackSn, nextSn := ShortSn(sendQueue.tail), ShortSn(sendQueue.head);
      } else {
        ackSn, nextSn := ShortSn(receiveQueue.tail), ShortSn(receiveQueue.head);
      }
      if ackSn <= nextSn {
        if task.lastSn <= ackSn { return T.Success; }
      } else {
        if task.lastSn >= nextSn { return T.Success; }
      }
      return T.Pending;
    }
  }
}
