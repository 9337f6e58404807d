/**
 What the unicast protocol keeps whatever the applications and the network do: packets
 may be of any age, buffers of any lengths, and the capacity any number above the window.
 */
module UnicastShape {
  import opened Arithmetic
  import opened SequenceNumbers
  import opened Fragmentation
  import opened Packets
  import opened SendRing
  import opened ReceiveRing
  import opened Control
  import opened Endpoint
  import opened Unicast
  import opened UnicastSafety
  import opened Runs

  ghost predicate InboxOk(c: Config, s: Inbox, posted: seq<Buffer>) {
    && |s.requests| == c.capacity && s.wnd == DEFAULT_WND
    && Tracks(s, posted) && Drained(s) && Stocked(s)
  }

  ghost predicate Shape(c: Config, w: World) {
    && GoodConfig(c)
    && SenderOk(c, w.snd, w.frags, w.now)
    && (forall i :: 0 <= i < |w.frags| ==> !Refused(w.frags[i]))
    && InboxOk(c, w.rcv.inbox, w.posted)
    && (forall a :: a in w.acks ==> a.frame.handle.wnd <= MAX_WND)
    && WritesOk(w.rcv.inbox, w.writes)
  }

  /** Any step that makes sense. */
  ghost predicate LooseStep(c: Config, w: World, a: Step, w': World) {
    GoodConfig(c) && Shaped(w) && Possible(c, w, a) && w' == Next(c, w, a)
  }

  ghost function Loose(c: Config): (World, Step, World) -> bool {
    (w, a, v) => LooseStep(c, w, a, v)
  }

  lemma SendShape(c: Config, w: World, list: seq<Buffer>)
    requires Shape(c, w) && Possible(c, w, Send(list))
    ensures Shape(c, SendNext(c, w, list))
    ensures FilledFrom(w.snd.ring.(todo := w.snd.ring.todo + CutAll(list, FragmentSize(c))),
                       SendNext(c, w, list).snd.ring, w.snd.tail)
  {
    var f := CutAll(list, FragmentSize(c));
    CutAllLoadable(list, FragmentSize(c));
    assert forall i :: 0 <= i < |f| ==> f[i] in f;
    assert forall i :: 0 <= i < |w.frags + f| ==> !Refused((w.frags + f)[i]);
    FillOk(c, w.snd, w.snd.tail, w.frags, f, w.now);
  }

  lemma ReceiveShape(c: Config, w: World, list: seq<Buffer>)
    requires Shape(c, w) && Shaped(w) && Possible(c, w, Receive(list))
    ensures Shape(c, ReceiveNext(c, w, list)) && Later(w, ReceiveNext(c, w, list))
  {
    var f := CutAll(list, FragmentSize(c));
    CutAllGather(w.rcv.inbox.mem, list, FragmentSize(c));
    PostShape(c, w.rcv.inbox, w.posted, f, w.writes);
  }

  /** Posting more buffers keeps a receive queue in order. */
  lemma PostShape(c: Config, s: Inbox, posted: seq<Buffer>, f: seq<Buffer>, writes: seq<nat>)
    requires InboxOk(c, s, posted) && WritesOk(s, writes) && forall b :: b in f ==> InBounds(s.mem, b)
    ensures InboxOk(c, Post(s.(todo := s.todo + f)), posted + f) && WritesOk(Post(s.(todo := s.todo + f)), writes)
    ensures Post(s.(todo := s.todo + f)).tail == s.tail
  {
    var queued := s.(todo := s.todo + f);
    TracksAppend(s, posted, f);
    PostKeeps(queued, posted + f);
    assert SameAccepted(s, Post(queued)) by {
      forall i: nat ensures Accepted(Post(queued), i) <==> Accepted(s, i) {
        assert Accepted(queued, i) <==> Accepted(s, i);
      }
    }
    WritesSame(s, Post(queued), writes);
  }

  lemma ReceiveMemoryShape(c: Config, w: World, rmem: seq<Byte>)
    requires Shape(c, w) && |rmem| == |w.rcv.inbox.mem|
    ensures Shape(c, w.(rcv := w.rcv.(inbox := w.rcv.inbox.(mem := rmem))))
  {
    var inbox := w.rcv.inbox.(mem := rmem);
    assert SameAccepted(w.rcv.inbox, inbox);
    WritesSame(w.rcv.inbox, inbox, w.writes);
  }

  lemma TransmitShape(c: Config, w: World, at: nat)
    requires Shape(c, w) && w.now <= at < TWO_64
    ensures Shape(c, TransmitNext(w, at))
  {
    SenderPass(w.snd, w.now, at, w.smem);
    var s, p := w.snd, SendPass(w.snd, at, w.smem);
    var end := Min(s.ring.head, s.tail + s.win.cwnd);
    if p.out != [] || p.handles != s.ring.handles {
      StampedHolds(s.ring, p.handles, p.wnd, s.tail, end, at, w.frags);
      StampedSorted(s.ring.handles, p.handles, s.tail, end, s.ring.head, w.now, at);
    }
  }

  lemma WritesMore(s: Inbox, s': Inbox, posted: seq<Buffer>, writes: seq<nat>, sn: nat, payload: seq<Byte>)
    requires Tracks(s, posted) && WritesOk(s, writes) && MarkedAny(s, s', posted, Copies(s, sn), payload)
    ensures WritesOk(s', writes + Copies(s, sn))
  {
    var more := Copies(s, sn);
    forall i: nat ensures i in writes + more <==> Accepted(s', i) {}
    forall i, j | 0 <= i < j < |writes + more| ensures (writes + more)[i] != (writes + more)[j] {
      if j == |writes| {
        assert more[0] in more && writes[i] in writes;
      }
    }
  }

  lemma TakesAny(c: Config, w: World, r: Received)
    requires Shape(c, w)
    ensures Markable(w.rcv.inbox, r.sn) && Shape(c, ReceiverTakes(w, r)) && Later(w, ReceiverTakes(w, r))
  {
    MarkAny(w.rcv.inbox, w.posted, r.sn, r.ts, r.payload);
    if Mark(w.rcv.inbox, r.sn, r.ts, r.payload).Kept? {
      WritesMore(w.rcv.inbox, Mark(w.rcv.inbox, r.sn, r.ts, r.payload).inbox, w.posted, w.writes, r.sn, r.payload);
    }
  }

  lemma DeliverDataShape(c: Config, w: World, d: Data, grh: seq<Byte>)
    requires Shape(c, w) && |grh| == GRH_SIZE
    ensures Shape(c, DeliverDataNext(w, d, grh)) && Later(w, DeliverDataNext(w, d, grh))
  {
    ArrivesAsImage(d.frame, grh);
    TakesAny(c, w, Image(d.frame));
  }

  lemma SendAckShape(c: Config, w: World)
    requires Shape(c, w)
    ensures Shaped(w) && Shape(c, SendAckNext(w))
  {
    AckFrameOk(w.rcv);
  }

  lemma AckedShape(c: Config, w: World, r: Received, received: nat)
    requires Shape(c, w) && w.now <= received < TWO_64 && r.sn < SN_SPACE && r.ts < TWO_48 && r.wnd <= MAX_WND
    ensures Shape(c, w.(now := received, snd := OnAck(w.snd, c.mtu, r, received)))
    ensures OnAck(w.snd, c.mtu, r, received).tail >= w.snd.tail
    ensures var s' := OnAck(w.snd, c.mtu, r, received); FilledFrom(w.snd.ring, s'.ring.(wnd := w.snd.ring.wnd), s'.tail)
  {
    var s := w.snd;
    AckTailRefines(s.tail, s.ring.head, r.sn);
    var tail := AckTail(s.tail, s.ring.head, r.sn);
    assert w.frags + [] == w.frags && s.ring.(todo := s.ring.todo + []) == s.ring;
    FillOk(c, s, tail, w.frags, [], w.now);
    OnAckShape(s, c.mtu, r, received);
    var s' := s.(ring := Fill(s.ring, tail).ring, tail := tail);
    Rewindow(c, s', OnAck(s, c.mtu, r, received), w.frags, w.now, received);
  }

  lemma DeliverAckShape(c: Config, w: World, a: Ack, grh: seq<Byte>, received: nat)
    requires Shape(c, w) && Possible(c, w, DeliverAck(a, grh, received))
    ensures Shape(c, DeliverAckNext(c, w, a, grh, received)) && Later(w, DeliverAckNext(c, w, a, grh, received))
  {
    ArrivesAsImage(a.frame, grh);
    AckedShape(c, w, Image(a.frame), received);
    Rewindow(c, w.snd, w.snd, w.frags, w.now, received);
  }

  /** An acknowledgement also refills the ring, from every state of every run. */
  lemma AckFills(c: Config, w: World, run: Run<World, Step>, a: Ack, grh: seq<Byte>, received: nat)
    requires Init(c, w) && IsRun(Loose(c), w, run) && Possible(c, Last(w, run), DeliverAck(a, grh, received))
    requires a.frame.handle.cmd == PKT_CMD_ACK
    ensures Shaped(Last(w, run))
    ensures var v := Last(w, run);
            var v' := Next(c, v, DeliverAck(a, grh, received));
            FilledFrom(v.snd.ring, v'.snd.ring.(wnd := v.snd.ring.wnd), v'.snd.tail)
  {
    assert Shape(c, Last(w, run)) by { RunShape(c, w, run); }
    StateFills(c, Last(w, run), a, grh, received);
  }

  lemma StateFills(c: Config, v: World, a: Ack, grh: seq<Byte>, received: nat)
    requires Shape(c, v) && Possible(c, v, DeliverAck(a, grh, received)) && a.frame.handle.cmd == PKT_CMD_ACK
    ensures var s' := DeliverAckNext(c, v, a, grh, received).snd;
            FilledFrom(v.snd.ring, s'.ring.(wnd := v.snd.ring.wnd), s'.tail)
  {
    AckedFills(c, v, Image(a.frame), received);
    AckNext(c, v, a, grh, received);
  }

  lemma AckedFills(c: Config, w: World, r: Received, received: nat)
    requires Shape(c, w) && w.now <= received < TWO_64 && r.sn < SN_SPACE && r.ts < TWO_48 && r.wnd <= MAX_WND
    ensures var s' := OnAck(w.snd, c.mtu, r, received); FilledFrom(w.snd.ring, s'.ring.(wnd := w.snd.ring.wnd), s'.tail)
  {
    AckedShape(c, w, r, received);
  }

  lemma AckNext(c: Config, w: World, a: Ack, grh: seq<Byte>, received: nat)
    requires GoodConfig(c) && |w.snd.ring.handles| > 0 && |grh| == GRH_SIZE && received < TWO_64
    requires a.frame.handle.cmd == PKT_CMD_ACK
    ensures var r := Image(a.frame);
            && r.sn < SN_SPACE && r.ts < TWO_48
            && DeliverAckNext(c, w, a, grh, received).snd == OnAck(w.snd, c.mtu, r, received)
  {
    ArrivesAsImage(a.frame, grh);
  }

  lemma StepShape(c: Config, w: World, a: Step)
    requires Shape(c, w) && Shaped(w) && Possible(c, w, a)
    ensures Shape(c, Next(c, w, a)) && Later(w, Next(c, w, a))
  {
    match a
    case Send(list) => SendShape(c, w, list);
    case Receive(list) => ReceiveShape(c, w, list);
    case WriteSendMemory(_) =>
    case WriteReceiveMemory(rmem) => ReceiveMemoryShape(c, w, rmem);
    case Release(_) =>
    case ChangePool(_) =>
    case ChangeRtt(_) =>
    case Transmit(at) => TransmitShape(c, w, at);
    case DeliverData(d, grh) => DeliverDataShape(c, w, d, grh);
    case SendAck => SendAckShape(c, w);
    case AckSent =>
    case DeliverAck(k, grh, received) => DeliverAckShape(c, w, k, grh, received);
  }

  lemma InitShape(c: Config, w: World)
    requires Init(c, w)
    ensures Shape(c, w)
  {
    assert forall s :: 0 <= s < c.capacity ==> w.snd.ring.handles[s] == RawHandle(0);
    assert forall s :: 0 <= s < c.capacity ==> w.rcv.inbox.requests[s] == Request(0, 0, false);
  }

  lemma RunShape(c: Config, w: World, run: Run<World, Step>)
    requires Init(c, w) && IsRun(Loose(c), w, run)
    ensures Shape(c, Last(w, run))
  {
    InitShape(c, w);
    var inv := v => Shape(c, v);
    forall v, a, v' | inv(v) && Loose(c)(v, a, v') ensures inv(v') {
      StepShape(c, v, a);
    }
    Invariance(Loose(c), inv, w, run);
  }

  /**
   Receive queue exactness, in every state of every run, whatever packets arrive: the tail
   is the first index not yet received, no slot outside `[tail, head)` is in flight, and
   each destination is written at most once, namely for the indices received.
   */
  lemma ReceiveExact(c: Config, w: World, run: Run<World, Step>)
    requires Init(c, w) && IsRun(Loose(c), w, run)
    ensures var s, writes := Last(w, run).rcv.inbox, Last(w, run).writes;
            && |s.requests| == c.capacity && s.head - s.tail <= 65
            && (s.tail == s.head || At(s.requests, s.tail).inflight)
            && (forall i: nat :: s.head <= i < s.tail + c.capacity ==> !At(s.requests, i).inflight)
            && (forall i: nat :: i < s.tail ==> Accepted(s, i)) && !Accepted(s, s.tail)
            && (forall i, j :: 0 <= i < j < |writes| ==> writes[i] != writes[j])
            && (forall i: nat :: i in writes <==> Accepted(s, i))
  {
    RunShape(c, w, run);
  }

  /**
   The log is what happens to memory: from every state of every run, whatever packet is
   delivered, memory changes by the payload at the destination of the logged index, if one
   is logged, and by nothing else.
   */
  lemma WritesLogged(c: Config, w: World, run: Run<World, Step>, d: Data, grh: seq<Byte>)
    requires Init(c, w) && IsRun(Loose(c), w, run) && |grh| == GRH_SIZE
    ensures var v := Last(w, run);
            var v' := DeliverDataNext(v, d, grh);
            && v.writes <= v'.writes
            && CopiedAs(v.rcv.inbox.mem, v'.rcv.inbox.mem, v.posted, v'.writes[|v.writes|..], d.frame.payload)
  {
    RunShape(c, w, run);
    var v := Last(w, run);
    ArrivesAsImage(d.frame, grh);
    TakenLogged(c, v, Image(d.frame));
  }

  lemma TakenLogged(c: Config, v: World, r: Received)
    requires Shape(c, v)
    ensures Markable(v.rcv.inbox, r.sn)
    ensures var v' := ReceiverTakes(v, r);
            && v.writes <= v'.writes
            && CopiedAs(v.rcv.inbox.mem, v'.rcv.inbox.mem, v.posted, v'.writes[|v.writes|..], r.payload)
  {
    MarkAny(v.rcv.inbox, v.posted, r.sn, r.ts, r.payload);
    if Mark(v.rcv.inbox, r.sn, r.ts, r.payload).Kept? {
      assert (v.writes + Copies(v.rcv.inbox, r.sn))[|v.writes|..] == Copies(v.rcv.inbox, r.sn);
    }
  }

  /**
   Closed-loop window bound, in every state of every run: advertised and send windows stay
   at most 65, the sender holds at most 66 packets, and the slot of every live index holds
   that index's fragment, so no two live indices share a slot.
   */
  lemma WindowBound(c: Config, w: World, run: Run<World, Step>)
    requires Init(c, w) && IsRun(Loose(c), w, run)
    ensures var v := Last(w, run);
            && v.snd.ring.wnd <= 65 && v.snd.win.cwnd <= 65 && v.snd.ring.head - v.snd.tail <= 66
            && (forall a :: a in v.acks ==> a.frame.handle.wnd <= 65)
            && |v.snd.ring.handles| == c.capacity && v.snd.ring.head <= |v.frags|
            && (forall i: nat :: v.snd.tail <= i < v.snd.ring.head ==>
                  Carries(v.snd.ring.handles[i % c.capacity], i, v.frags[i], c.session))
  {
    RunShape(c, w, run);
    var v := Last(w, run);
    forall i: nat | v.snd.tail <= i < v.snd.ring.head
      ensures Carries(v.snd.ring.handles[i % c.capacity], i, v.frags[i], c.session)
    {
      SlotIsRemainder(i, c.capacity);
      assert Carries(At(v.snd.ring.handles, i), i, v.frags[i], c.session);
    }
  }

  ghost predicate OnePass(s: Sender, out: seq<Frame>, at: nat)
    requires |s.ring.handles| > 0
  {
    var end := Min(s.ring.head, s.tail + s.win.cwnd);
    && (out == [] || |out| == end - s.tail)
    && (forall k :: 0 <= k < |out| ==> out[k].handle.sn == ShortSn(s.tail + k) && out[k].handle.ts == at)
    && (out == [] <==> s.tail == end || at - At(s.ring.handles, s.tail).ts < s.rtt.rto)
  }

  /**
   Go-Back-N, from every state of every run: the frames of a send pass are none, or those
   of all indices from the tail up to the window, each once and in order.
   */
  lemma GoBackN(c: Config, w: World, run: Run<World, Step>, at: nat)
    requires Init(c, w) && IsRun(Loose(c), w, run) && Last(w, run).now <= at < TWO_64
    ensures var s := Last(w, run).snd;
            |s.ring.handles| > 0 && OnePass(s, SendPass(s, at, Last(w, run).smem).out, at)
  {
    var v := Last(w, run);
    RunShape(c, w, run);
    PassShape(c, v, at);
  }

  lemma PassShape(c: Config, v: World, at: nat)
    requires Shape(c, v) && v.now <= at < TWO_64
    ensures |v.snd.ring.handles| > 0 && OnePass(v.snd, SendPass(v.snd, at, v.smem).out, at)
  {
    SenderPass(v.snd, v.now, at, v.smem);
    OneVolley(v.snd, SendPass(v.snd, at, v.smem), v.frags, at, v.smem);
  }

  lemma OneVolley(s: Sender, p: Pass, frags: seq<Buffer>, at: nat, mem: seq<Byte>)
    requires Holds(s.ring, s.tail, frags) && AllOrNothing(s, p, at, mem)
    ensures OnePass(s, p.out, at)
  {
    VolleyShape(s.ring, s.tail, Min(s.ring.head, s.tail + s.win.cwnd), frags, at, mem);
  }

  lemma VolleyShape(r: Ring, base: nat, end: nat, frags: seq<Buffer>, at: nat, mem: seq<Byte>)
    requires Holds(r, base, frags) && base <= end <= r.head
    ensures forall k :: 0 <= k < end - base ==>
              var f := Volley(r.handles, base, end, at, mem)[k]; f.handle.sn == ShortSn(base + k) && f.handle.ts == at
  {
    forall k | 0 <= k < end - base
      ensures var f := Volley(r.handles, base, end, at, mem)[k]; f.handle.sn == ShortSn(base + k) && f.handle.ts == at
    {
      VolleyAt(r.handles, base, end, at, mem, k);
      assert Carries(At(r.handles, base + k), base + k, frags[base + k], r.session);
    }
  }

  /** The pass finds the oldest packet's timer run out. */
  ghost predicate Due(s: Sender, at: nat)
    requires |s.ring.handles| > 0
  {
    s.tail < Min(s.ring.head, s.tail + s.win.cwnd) && at - At(s.ring.handles, s.tail).ts >= s.rtt.rto
  }

  /**
   The queue's window after a pass: untouched unless a packet goes out again; then what
   `cwnd` has above four, halved once for each such packet, and four, up to the capacity.
   */
  ghost predicate BackedOff(c: Config, s: Sender, at: nat, wnd: nat)
    requires |s.ring.handles| > 0
  {
    var k := if Due(s, at) then Resent(s.ring.handles, s.tail, Min(s.ring.head, s.tail + s.win.cwnd)) else 0;
    if k == 0 then wnd == s.ring.wnd
    else Pow2(k) >= 1 && wnd == Min(4 + (Max(4, s.win.cwnd) - 4) / Pow2(k), c.capacity % 65536)
  }

  /** What a pass changes: it stamps and sends exactly the packets up to the window, or nothing. */
  ghost predicate Passes(c: Config, v: World, at: nat, v': World)
    requires |v.snd.ring.handles| > 0
  {
    var s, end := v.snd, Min(v.snd.ring.head, v.snd.tail + v.snd.win.cwnd);
    && v' == v.(snd := s.(ring := s.ring.(handles := v'.snd.ring.handles, wnd := v'.snd.ring.wnd)), now := at,
                data := v'.data)
    && (if Due(s, at) then Stamped(s.ring.handles, v'.snd.ring.handles, s.tail, end, at)
        else v'.snd.ring.handles == s.ring.handles)
    && (forall d :: d in v'.data <==>
          d in v.data || (Due(s, at) && s.tail <= d.index < end
                          && d.frame == Shot(At(s.ring.handles, d.index), at, v.smem)))
    && BackedOff(c, s, at, v'.snd.ring.wnd)
  }

  lemma PassExact(c: Config, w: World, run: Run<World, Step>, at: nat)
    requires Init(c, w) && IsRun(Loose(c), w, run) && Last(w, run).now <= at < TWO_64
    ensures Shaped(Last(w, run)) && Passes(c, Last(w, run), at, Next(c, Last(w, run), Transmit(at)))
  {
    RunShape(c, w, run);
    StatePasses(c, Last(w, run), at);
  }

  lemma StatePasses(c: Config, v: World, at: nat)
    requires Shape(c, v) && v.now <= at < TWO_64
    ensures Shaped(v) && Passes(c, v, at, TransmitNext(v, at))
  {
    var s, p := v.snd, SendPass(v.snd, at, v.smem);
    SenderPass(s, v.now, at, v.smem);
    PassBacksOff(c, s, v.now, at, v.smem);
    forall d ensures d in Addressed(p.out, s.tail) <==>
                     Due(s, at) && s.tail <= d.index < Min(s.ring.head, s.tail + s.win.cwnd)
                     && d.frame == Shot(At(s.ring.handles, d.index), at, v.smem)
    {
      AddressedIff(s, p, at, v.smem, d);
    }
  }

  lemma AddressedIff(s: Sender, p: Pass, at: nat, mem: seq<Byte>, d: Data)
    requires |s.ring.handles| > 0 && AllOrNothing(s, p, at, mem)
    ensures d in Addressed(p.out, s.tail) <==>
            Due(s, at) && s.tail <= d.index < Min(s.ring.head, s.tail + s.win.cwnd)
            && d.frame == Shot(At(s.ring.handles, d.index), at, mem)
  {
    VolleyMember(s.ring.handles, s.tail, Min(s.ring.head, s.tail + s.win.cwnd), at, mem, d);
    assert Addressed([], s.tail) == {};
  }

  lemma VolleyMember(handles: seq<Handle>, base: nat, end: nat, at: nat, mem: seq<Byte>, d: Data)
    requires |handles| > 0
    ensures d in Addressed(Volley(handles, base, end, at, mem), base) <==>
            base <= d.index < end && d.frame == Shot(At(handles, d.index), at, mem)
  {
    var out := Volley(handles, base, end, at, mem);
    if d in Addressed(out, base) {
      var k :| 0 <= k < |out| && d == Data(base + k, out[k]);
      VolleyAt(handles, base, end, at, mem, k);
    }
    if base <= d.index < end {
      VolleyAt(handles, base, end, at, mem, d.index - base);
      assert Data(base + (d.index - base), out[d.index - base]) in Addressed(out, base);
    }
  }

  lemma PassBacksOff(c: Config, s: Sender, now: nat, at: nat, mem: seq<Byte>)
    requires Sorted(s.ring.handles, s.tail, s.ring.head, now) && s.tail <= s.ring.head <= s.tail + |s.ring.handles|
    requires |s.ring.handles| == c.capacity && s.ring.wnd <= MAX_WND && s.win.cwnd <= MAX_WND
    requires s.rtt.rto <= now <= at < TWO_64
    ensures BackedOff(c, s, at, SendPass(s, at, mem).wnd)
  {
    var end := Min(s.ring.head, s.tail + s.win.cwnd);
    if Due(s, at) {
      assert AllDue(s.ring.handles, s.tail, end, at, s.rtt.rto) by {
        forall i: nat | s.tail <= i < end ensures U64Sub(at, At(s.ring.handles, i).ts) >= s.rtt.rto {
          assert i == s.tail || At(s.ring.handles, s.tail).ts >= At(s.ring.handles, i).ts;
        }
      }
      BurstWindow(s.ring.handles, s.ring.wnd, s.win.cwnd, s.tail, end, at, s.rtt.rto, mem);
      var k := Resent(s.ring.handles, s.tail, end);
      if k > 0 {
        BackoffsHalve(s.win.cwnd, k);
        HalvedSmall(s.win.cwnd, Pow2(k));
      }
    } else {
      SenderPass(s, now, at, mem);
    }
  }

  lemma HalvedSmall(cwnd: nat, p: nat)
    requires cwnd <= MAX_WND && p >= 1
    ensures U16(4 + (Max(4, cwnd) - 4) / p) == 4 + (Max(4, cwnd) - 4) / p
  {
    var x := Max(4, cwnd) - 4;
    MulMonotone(x / p, 1, p);
    assert x / p * p <= x;
  }
}
