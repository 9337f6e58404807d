/**
 One unicast session of a context (`Context`): what it does on a send pass, on an
 arriving packet and on an acknowledgement, as functions of its state.
 */
module Endpoint {
  import opened Arithmetic
  import opened SequenceNumbers
  import opened Fragmentation
  import opened Packets
  import opened SendRing
  import opened ReceiveRing
  import opened Control

  const MIN_RTO: nat := 128
  const MAX_RTO: nat := 8196
  const DEFAULT_RTO: nat := 4096
  const MIN_ADVERTISED: nat := 8

  const BLANK: seq<Byte> := [0, 0, 0, 0, 0, 0, 0, 0]

  datatype Sender = Sender(ring: Ring, tail: nat, win: Window, rtt: Rtt)

  datatype Receiver = Receiver(inbox: Inbox, session: nat, recvPackets: nat, ackPackets: nat, ackBusy: bool)

  /** A handle as it goes on the wire, with the bytes it points to at that time. */
  datatype Frame = Frame(handle: Handle, payload: seq<Byte>)

  datatype Pass = Pass(handles: seq<Handle>, wnd: nat, out: seq<Frame>)

  // Sending

  /** The bytes a handle points to; a handle of the ring always points into memory. */
  function Payload(mem: seq<Byte>, h: Handle): seq<Byte> {
    var b := Buffer(h.dataBuf, h.dataLen);
    if InBounds(mem, b) then Read(mem, b) else []
  }

  /**
   The loop of `sendDataPackets` over `[curr, end)`. It stops at the first packet whose
   timer has not run out. `cwnd` is the loop's copy of the session's window, which is
   lost afterwards; the queue's own window `wnd` and the timestamps stay.
   */
  function Burst(handles: seq<Handle>, wnd: nat, cwnd: nat, curr: nat, end: nat, now: nat, rto: nat,
                 mem: seq<Byte>): Pass
    requires |handles| > 0
    decreases end - curr
  {
    if curr >= end then Pass(handles, wnd, [])
    else
      var h := At(handles, curr);
      if U64Sub(now, h.ts) < rto then Pass(handles, wnd, [])
      else
        var cwnd' := if h.ts != 0 then Backoff(cwnd) else cwnd;
        var wnd' := if h.ts != 0 then CapWnd(cwnd', |handles|) else wnd;
        var rest := Burst(Stamp(handles, curr, now), wnd', cwnd', curr + 1, end, now, rto, mem);
        rest.(out := [Shot(h, now, mem)] + rest.out)
  }

  /** A pass that has sent `out` and goes on with the rest. */
  function Onward(out: seq<Frame>, rest: Pass): Pass { rest.(out := out + rest.out) }

  /** `whole` is the pass that has sent `out` and goes on from packet `curr`. */
  ghost predicate Ahead(whole: Pass, out: seq<Frame>, handles: seq<Handle>, wnd: nat, cwnd: nat, curr: nat, end: nat,
                        now: nat, rto: nat, mem: seq<Byte>)
    requires |handles| > 0
  {
    whole == Onward(out, Burst(handles, wnd, cwnd, curr, end, now, rto, mem))
  }

  /** One due packet further, the same pass lies ahead. */
  lemma BurstStep(whole: Pass, out: seq<Frame>, handles: seq<Handle>, wnd: nat, cwnd: nat, curr: nat, end: nat,
                  now: nat, rto: nat, mem: seq<Byte>)
    requires |handles| > 0 && curr < end && U64Sub(now, At(handles, curr).ts) >= rto
    requires Ahead(whole, out, handles, wnd, cwnd, curr, end, now, rto, mem)
    ensures var h := At(handles, curr);
            var cwnd' := if h.ts != 0 then Backoff(cwnd) else cwnd;
            var wnd' := if h.ts != 0 then CapWnd(cwnd', |handles|) else wnd;
            Ahead(whole, out + [Shot(h, now, mem)], Stamp(handles, curr, now), wnd', cwnd', curr + 1, end,
                  now, rto, mem)
  {
    var h := At(handles, curr);
    var cwnd' := if h.ts != 0 then Backoff(cwnd) else cwnd;
    var wnd' := if h.ts != 0 then CapWnd(cwnd', |handles|) else wnd;
    var rest := Burst(Stamp(handles, curr, now), wnd', cwnd', curr + 1, end, now, rto, mem);
    Associative(out, [Shot(h, now, mem)], rest.out);
  }

  lemma BurstStart(handles: seq<Handle>, wnd: nat, cwnd: nat, curr: nat, end: nat, now: nat, rto: nat, mem: seq<Byte>)
    requires |handles| > 0
    ensures Ahead(Burst(handles, wnd, cwnd, curr, end, now, rto, mem), [], handles, wnd, cwnd, curr, end, now, rto, mem)
  {
    var p := Burst(handles, wnd, cwnd, curr, end, now, rto, mem);
    assert [] + p.out == p.out;
  }

  /** At the end, or at a packet that is not due, nothing lies ahead. */
  lemma BurstEnd(whole: Pass, out: seq<Frame>, handles: seq<Handle>, wnd: nat, cwnd: nat, curr: nat, end: nat,
                 now: nat, rto: nat, mem: seq<Byte>)
    requires |handles| > 0 && (curr >= end || U64Sub(now, At(handles, curr).ts) < rto)
    requires Ahead(whole, out, handles, wnd, cwnd, curr, end, now, rto, mem)
    ensures Pass(handles, wnd, out) == whole
  {
    assert out + [] == out;
  }

  function Stamp(handles: seq<Handle>, i: nat, now: nat): seq<Handle>
    requires |handles| > 0
  {
    handles[Slot(i, |handles|) := At(handles, i).(ts := now)]
  }

  /** What is sent for a handle at a given time. */
  function Shot(h: Handle, now: nat, mem: seq<Byte>): Frame {
    Frame(h.(ts := now), Payload(mem, h))
  }

  function Wire(f: Frame): Datagram {
    Emit(f.handle, BLANK, f.payload)
  }

  /** What a frame turns into at the other end. */
  function Image(f: Frame): Received {
    var h := f.handle;
    Received(h.session % 64, h.cmd % 2, h.compacted, h.sn % SN_SPACE,
             if h.compacted then 0 else U16(h.wnd), if h.compacted then 0 else h.ts % TWO_48, f.payload)
  }

  lemma ArrivesAsImage(f: Frame, grh: seq<Byte>)
    requires |grh| == GRH_SIZE
    ensures Arrive(Wire(f), grh) == Some(Image(f))
  {
    WireRoundTrip(f.handle, BLANK, f.payload, grh);
  }

  /** `sendDataPackets`. The stored `last_send_ts` is never updated, so it is always 0. */
  function SendPass(s: Sender, now: nat, mem: seq<Byte>): Pass
    requires |s.ring.handles| > 0
  {
    if now < s.rtt.rto * 2 / 3 then Pass(s.ring.handles, s.ring.wnd, [])
    else
      var end := Min(s.ring.head, s.tail + s.win.cwnd);
      Burst(s.ring.handles, s.ring.wnd, s.win.cwnd, s.tail, end, now, s.rtt.rto, mem)
  }

  function AfterPass(s: Sender, p: Pass): Sender {
    s.(ring := s.ring.(handles := p.handles, wnd := p.wnd))
  }

  /** The acknowledgement branch of `processReceivedPacket`: the tail moves and the ring refills, ... */
  function Acked(s: Sender, sn: nat): Sender
    requires |s.ring.handles| > 0 && sn < SN_SPACE
  {
    var tail := AckTail(s.tail, s.ring.head, sn);
    s.(tail := tail, ring := Fill(s.ring, tail).ring)
  }

  /** ... the round-trip time is taken, ... */
  function Timed(s: Sender, rtt: nat): Sender {
    s.(rtt := UpdateRto(s.rtt, rtt, MIN_RTO, MAX_RTO))
  }

  /** ... and the windows follow. */
  function Windowed(s: Sender, mtu: nat, rwnd: nat): Sender
    requires 0 < mtu
  {
    var win := OnSuccess(s.win, mtu, rwnd);
    var wnd := if s.ring.wnd != win.cwnd then CapWnd(win.cwnd, |s.ring.handles|) else s.ring.wnd;
    s.(win := win, ring := s.ring.(wnd := wnd))
  }

  function OnAck(s: Sender, mtu: nat, ack: Received, now: nat): Sender
    requires |s.ring.handles| > 0 && 0 < mtu && now < TWO_64 && ack.sn < SN_SPACE && ack.ts < TWO_48
  {
    Windowed(Timed(Acked(s, ack.sn), RoundTripTime(now, ack.ts)), mtu, ack.wnd)
  }

  // Receiving

  /** The data branch of `processReceivedPacket`; `None` when the process aborts. */
  function OnData(r: Receiver, d: Received): Option<Receiver>
    requires Markable(r.inbox, d.sn)
  {
    match Mark(r.inbox, d.sn, d.ts, d.payload)
    case Aborted => None
    case Kept(inbox) => Some(r.(inbox := inbox, recvPackets := r.recvPackets + 1))
  }

  /** The acknowledgement `sendAckPackets` would send now. */
  function AckHandle(r: Receiver): Handle
    requires r.inbox.tail <= r.inbox.head
  {
    var open := r.inbox.head - r.inbox.tail;
    Handle(1, r.session, PKT_CMD_ACK, U16(Max(open, MIN_ADVERTISED)), ShortSn(r.inbox.tail), r.inbox.lastTs,
           false, true, 0, 0)
  }

  predicate OwesAck(r: Receiver) {
    r.ackPackets < r.recvPackets && !r.ackBusy
  }

  /** `sendAckPackets`, when an acknowledgement is due. */
  function AfterAck(r: Receiver): Receiver {
    r.(ackPackets := r.recvPackets, ackBusy := true)
  }

  // Go-Back-N

  /** Timers along the ring: never later than `now`, and a packet's is not younger than its predecessor's. */
  ghost predicate Sorted(handles: seq<Handle>, lo: nat, hi: nat, now: nat) {
    && |handles| > 0
    && (forall i: nat :: lo <= i < hi ==> At(handles, i).ts <= now)
    && (forall i: nat, j: nat :: lo <= i < j < hi ==> At(handles, i).ts >= At(handles, j).ts)
  }

  /** What a pass leaves behind: `[lo, hi)` stamped with `now`, everything else as it was. */
  ghost predicate Stamped(before: seq<Handle>, after: seq<Handle>, lo: nat, hi: nat, now: nat) {
    && |after| == |before| > 0
    && (forall i: nat :: lo <= i < hi ==> At(after, i) == At(before, i).(ts := now))
    && (forall i: nat :: lo <= i < lo + |before| && i >= hi ==> At(after, i) == At(before, i))
  }

  /** One frame for every index of `[lo, hi)`, in order. */
  function Volley(handles: seq<Handle>, lo: nat, hi: nat, now: nat, mem: seq<Byte>): (out: seq<Frame>)
    requires |handles| > 0
    ensures |out| == Max(lo, hi) - lo
    decreases hi - lo
  {
    if lo >= hi then [] else [Shot(At(handles, lo), now, mem)] + Volley(handles, lo + 1, hi, now, mem)
  }

  lemma {:induction false} VolleyAt(handles: seq<Handle>, lo: nat, hi: nat, now: nat, mem: seq<Byte>, k: nat)
    requires |handles| > 0 && lo + k < hi
    ensures Volley(handles, lo, hi, now, mem)[k] == Shot(At(handles, lo + k), now, mem)
    decreases k
  {
    if k > 0 { VolleyAt(handles, lo + 1, hi, now, mem, k - 1); }
  }

  lemma {:induction false} VolleyFrame(a: seq<Handle>, b: seq<Handle>, lo: nat, hi: nat, now: nat, mem: seq<Byte>)
    requires |a| > 0 && |b| > 0 && forall i: nat :: lo <= i < hi ==> At(a, i) == At(b, i)
    ensures Volley(a, lo, hi, now, mem) == Volley(b, lo, hi, now, mem)
    decreases hi - lo
  {
    if lo < hi { VolleyFrame(a, b, lo + 1, hi, now, mem); }
  }

  ghost predicate AllDue(handles: seq<Handle>, lo: nat, hi: nat, now: nat, rto: nat) {
    |handles| > 0 && forall i: nat :: lo <= i < hi ==> U64Sub(now, At(handles, i).ts) >= rto
  }

  /** The whole of a range whose timers have run out goes out, in order. */
  lemma {:induction false} BurstAll(handles: seq<Handle>, wnd: nat, cwnd: nat, curr: nat, end: nat, now: nat,
                                    rto: nat, mem: seq<Byte>)
    requires AllDue(handles, curr, end, now, rto) && curr <= end <= curr + |handles|
    ensures Stamped(handles, Burst(handles, wnd, cwnd, curr, end, now, rto, mem).handles, curr, end, now)
    ensures Burst(handles, wnd, cwnd, curr, end, now, rto, mem).out == Volley(handles, curr, end, now, mem)
    decreases end - curr
  {
    if curr < end {
      var h := At(handles, curr);
      var next := Stamp(handles, curr, now);
      StampFrame(handles, curr, end, now);
      var cwnd' := if h.ts != 0 then Backoff(cwnd) else cwnd;
      var wnd' := if h.ts != 0 then CapWnd(cwnd', |handles|) else wnd;
      BurstAll(next, wnd', cwnd', curr + 1, end, now, rto, mem);
      VolleyFrame(handles, next, curr + 1, end, now, mem);
      BurstFirst(handles, Burst(next, wnd', cwnd', curr + 1, end, now, rto, mem).handles, curr, end, now);
    }
  }

  lemma StampFrame(handles: seq<Handle>, lo: nat, hi: nat, now: nat)
    requires |handles| > 0 && hi <= lo + |handles|
    ensures forall i: nat :: lo + 1 <= i < hi ==> At(Stamp(handles, lo, now), i) == At(handles, i)
  {
    StoreAt(handles, lo, At(handles, lo).(ts := now));
  }

  /** With sorted timers, the early exit is all or nothing. */
  lemma BurstAllOrNothing(handles: seq<Handle>, wnd: nat, cwnd: nat, lo: nat, hi: nat, now: nat, rto: nat,
                          mem: seq<Byte>)
    requires Sorted(handles, lo, hi, now) && lo <= hi <= lo + |handles|
    ensures var p := Burst(handles, wnd, cwnd, lo, hi, now, rto, mem);
            if lo < hi && now - At(handles, lo).ts >= rto
            then Stamped(handles, p.handles, lo, hi, now) && p.out == Volley(handles, lo, hi, now, mem)
            else p == Pass(handles, wnd, [])
  {
    if lo < hi && now - At(handles, lo).ts >= rto {
      assert AllDue(handles, lo, hi, now, rto) by {
        forall i: nat | lo <= i < hi ensures U64Sub(now, At(handles, i).ts) >= rto {
          assert i == lo || At(handles, lo).ts >= At(handles, i).ts;
        }
      }
      BurstAll(handles, wnd, cwnd, lo, hi, now, rto, mem);
    }
  }

  lemma BurstFirst(handles: seq<Handle>, after: seq<Handle>, curr: nat, end: nat, now: nat)
    requires |handles| > 0 && curr < end <= curr + |handles|
    requires Stamped(Stamp(handles, curr, now), after, curr + 1, end, now)
    ensures Stamped(handles, after, curr, end, now)
  {
    var next := Stamp(handles, curr, now);
    StoreAt(handles, curr, At(handles, curr).(ts := now));
    assert Slot(curr + |handles|, |handles|) == Slot(curr, |handles|);
    assert At(after, curr + |handles|) == At(next, curr + |handles|);
    forall i: nat | curr < i < curr + |handles| ensures At(next, i) == At(handles, i) {}
  }

  /** The queue window after a burst: untouched, or a backed-off window under the bound. */
  lemma {:induction false} BurstWnd(handles: seq<Handle>, wnd: nat, cwnd: nat, curr: nat, end: nat, now: nat,
                                    rto: nat, mem: seq<Byte>, bound: nat)
    requires |handles| > 0 && wnd <= bound && cwnd <= bound && 4 <= bound
    ensures Burst(handles, wnd, cwnd, curr, end, now, rto, mem).wnd <= bound
    decreases end - curr
  {
    if curr < end && U64Sub(now, At(handles, curr).ts) >= rto {
      var h := At(handles, curr);
      var cwnd' := if h.ts != 0 then Backoff(cwnd) else cwnd;
      var wnd' := if h.ts != 0 then CapWnd(cwnd', |handles|) else wnd;
      BurstWnd(Stamp(handles, curr, now), wnd', cwnd', curr + 1, end, now, rto, mem, bound);
    }
  }

  /** How many packets of `[lo, hi)` have been sent before. */
  function Resent(handles: seq<Handle>, lo: nat, hi: nat): nat
    requires |handles| > 0
    decreases hi - lo
  {
    if lo >= hi then 0 else (if At(handles, lo).ts != 0 then 1 else 0) + Resent(handles, lo + 1, hi)
  }

  lemma {:induction false} ResentFrame(a: seq<Handle>, b: seq<Handle>, lo: nat, hi: nat)
    requires |a| > 0 && |b| > 0 && forall i: nat :: lo <= i < hi ==> At(a, i) == At(b, i)
    ensures Resent(a, lo, hi) == Resent(b, lo, hi)
    decreases hi - lo
  {
    if lo < hi { ResentFrame(a, b, lo + 1, hi); }
  }

  /** The queue window after a burst: untouched without a resent packet, else backed off once for each of them. */
  lemma {:induction false} BurstWindow(handles: seq<Handle>, wnd: nat, cwnd: nat, curr: nat, end: nat, now: nat,
                                       rto: nat, mem: seq<Byte>)
    requires AllDue(handles, curr, end, now, rto) && curr <= end <= curr + |handles|
    ensures var k := Resent(handles, curr, end);
            Burst(handles, wnd, cwnd, curr, end, now, rto, mem).wnd ==
            if k == 0 then wnd else CapWnd(Backoffs(cwnd, k), |handles|)
    decreases end - curr
  {
    if curr < end {
      var h := At(handles, curr);
      var next := Stamp(handles, curr, now);
      StampFrame(handles, curr, end, now);
      ResentFrame(handles, next, curr + 1, end);
      var cwnd' := if h.ts != 0 then Backoff(cwnd) else cwnd;
      var wnd' := if h.ts != 0 then CapWnd(cwnd', |handles|) else wnd;
      BurstWindow(next, wnd', cwnd', curr + 1, end, now, rto, mem);
      assert Backoffs(cwnd', 0) == cwnd';
    }
  }

  /** Stamping a prefix with a time that nothing exceeds keeps the timers sorted. */
  lemma StampedSorted(before: seq<Handle>, after: seq<Handle>, lo: nat, mid: nat, hi: nat, earlier: nat, now: nat)
    requires Sorted(before, lo, hi, earlier) && earlier <= now && Stamped(before, after, lo, mid, now)
    requires lo <= mid <= hi <= lo + |before|
    ensures Sorted(after, lo, hi, now)
  {}
}
