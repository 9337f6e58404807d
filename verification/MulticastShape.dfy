/**
 What the multicast protocol keeps whatever the applications, the network and the routing
 do: packets of any age, buffers of any lengths, any capacity of at least 66, and replicas
 listed anywhere.
 */
module MulticastShape {
  import opened Arithmetic
  import opened SequenceNumbers
  import opened Fragmentation
  import opened Packets
  import opened SendRing
  import opened SendQueues
  import opened ReceiveRing
  import opened Control
  import opened Endpoint
  import opened Controllers
  import opened Multicast
  import opened MulticastSafety
  import opened Runs
  import U = Unicast
  import S = UnicastSafety
  import H = UnicastShape

  ghost predicate ReplicaShape(m: Setup, w: World, r: nat)
    requires r < |w.rcvs| == |w.posted| == |w.writes|
  {
    H.InboxOk(m.c, w.rcvs[r].inbox, w.posted[r]) && U.WritesOk(w.rcvs[r].inbox, w.writes[r])
  }

  ghost predicate Shape(m: Setup, w: World) {
    && Sized(m) && SenderOk(m, w)
    && (forall i :: 0 <= i < |w.frags| ==> !Refused(w.frags[i]))
    && |w.rcvs| == |w.tails| == |w.posted| == |w.released| == |w.writes| == |m.nodes|
    && (forall r: nat :: r < |w.rcvs| ==> ReplicaShape(m, w, r))
    && (forall k :: k in w.acks ==> k.ack.frame.handle.wnd <= DEFAULT_WND)
  }

  ghost predicate LooseStep(m: Setup, w: World, a: Step, w': World) {
    Sized(m) && Shaped(m, w) && Possible(m, w, a) && w' == Next(m, w, a)
  }

  ghost function Loose(m: Setup): (World, Step, World) -> bool {
    (w, a, v) => LooseStep(m, w, a, v)
  }

  lemma LeastTail(m: Setup, w: World)
    requires Shape(m, w)
    ensures MinTail(w.tails) in w.tails && MinTail(w.tails) <= w.ring.head <= UINT64_MAX
    ensures forall r :: 0 <= r < |w.tails| ==> MinTail(w.tails) <= w.tails[r] <= w.ring.head <= w.tails[r] + MAX_LIVE
  {
    MinTailIsLeast(w.tails);
  }

  // The sender

  lemma SendShape(m: Setup, w: World, list: seq<Buffer>)
    requires Shape(m, w) && Shaped(m, w) && Possible(m, w, Send(list))
    ensures Shape(m, SendNext(m, w, list))
    ensures FilledFrom(w.ring.(todo := w.ring.todo + CutAll(list, U.FragmentSize(m.c))), SendNext(m, w, list).ring,
                       MinTail(w.tails))
  {
    LeastTail(m, w);
    var f := CutAll(list, U.FragmentSize(m.c));
    CutAllLoadable(list, U.FragmentSize(m.c));
    assert forall i :: 0 <= i < |f| ==> f[i] in f;
    assert forall i :: 0 <= i < |w.frags + f| ==> !Refused((w.frags + f)[i]);
    var w' := SendNext(m, w, list);
    FillOk(m, w, w.ring.(todo := w.ring.todo + f), w.tails, f, w');
    SameReplicas(m, w, w');
  }

  lemma SameReplicas(m: Setup, w: World, w': World)
    requires |w.rcvs| == |w.posted| == |w.writes| && forall r: nat :: r < |w.rcvs| ==> ReplicaShape(m, w, r)
    requires w'.rcvs == w.rcvs && w'.posted == w.posted && w'.writes == w.writes
    ensures forall r: nat :: r < |w'.rcvs| ==> ReplicaShape(m, w', r)
  {
    forall r: nat | r < |w'.rcvs| ensures ReplicaShape(m, w', r) { assert ReplicaShape(m, w, r); }
  }

  lemma TransmitShape(m: Setup, w: World, at: nat)
    requires Shape(m, w) && w.now <= at < TWO_64
    ensures Shape(m, TransmitNext(w, at))
  {
    var base := MinTail(w.tails);
    var p := Sweep(w.ring.handles, w.ring.wnd, base, w.ring.head, at, w.rtt.rto, w.smem);
    SweepOk(w.ring.handles, w.ring.wnd, base, base, w.ring.head, at, w.rtt.rto, w.smem);
    RetimedHolds(w.ring, p.handles, p.wnd, base, w.frags);
    SameReplicas(m, w, TransmitNext(w, at));
  }

  // Acknowledgements, wherever they are routed

  /** Between the tails before and after an acknowledgement: at most one differs, and it goes up within the ring. */
  ghost predicate OneMoved(tails: seq<nat>, tails': seq<nat>, index: nat, head: nat) {
    && |tails'| == |tails|
    && (forall r :: 0 <= r < |tails| && r != index ==> tails'[r] == tails[r])
    && (index < |tails| ==> tails[index] <= tails'[index] <= Max(tails[index], head))
  }

  ghost predicate MovesOne(tails: seq<nat>, tails': seq<nat>, head: nat) {
    exists index: nat :: OneMoved(tails, tails', index, head)
  }

  lemma ReplyShape(m: Setup, w: World, index: nat, q: Received, received: nat)
    requires Shape(m, w) && q.sn < SN_SPACE && q.ts < TWO_48 && q.wnd <= DEFAULT_WND && w.now <= received < TWO_64
    ensures var w' := OnReply(w, m.c.mtu, index, q, received);
            && Shape(m, w') && OneMoved(w.tails, w'.tails, index, w.ring.head)
            && (index < |w.tails| ==> FilledFrom(w.ring, w'.ring.(wnd := w.ring.wnd), MinTail(w'.tails)))
  {
    var w' := OnReply(w, m.c.mtu, index, q, received);
    if index < |w.tails| {
      TailMoves(m, w, index, q.sn);
      OnReplyShape(w, m.c.mtu, index, q, received);
      MovedShape(m, w, w', index);
    } else {
      OnSuccessCapped(w.win, m.c.mtu, q.wnd);
      MovedShape(m, w, w', index);
    }
  }

  lemma TailMoves(m: Setup, w: World, index: nat, sn: nat)
    requires Shape(m, w) && index < |w.tails| && sn < SN_SPACE
    ensures var tails := w.tails[index := AckTail(w.tails[index], w.ring.head, sn)];
            && OneMoved(w.tails, tails, index, w.ring.head)
            && SenderOk(m, w.(tails := tails, ring := Fill(w.ring, MinTail(tails)).ring))
            && Fill(w.ring, MinTail(tails)).ring.wnd == w.ring.wnd
            && FilledFrom(w.ring, Fill(w.ring, MinTail(tails)).ring, MinTail(tails))
  {
    LeastTail(m, w);
    var tails := w.tails[index := AckTail(w.tails[index], w.ring.head, sn)];
    AckTailRefines(w.tails[index], w.ring.head, sn);
    MinTailUp(w.tails, index, tails[index]);
    LeastOf(tails, w.ring.head);
    FilledOk(m, w, tails, w.(tails := tails, ring := Fill(w.ring, MinTail(tails)).ring));
  }

  lemma LeastOf(tails: seq<nat>, head: nat)
    requires tails != [] && head <= UINT64_MAX && forall r :: 0 <= r < |tails| ==> tails[r] <= head
    ensures MinTail(tails) <= head
  {
    MinTailIsLeast(tails);
  }

  lemma MovedShape(m: Setup, w: World, w': World, index: nat)
    requires Shape(m, w) && w'.now < TWO_64
    requires w' == w.(tails := w'.tails, ring := w'.ring, win := w'.win, now := w'.now, rtt := w'.rtt)
    requires w'.ring.wnd <= DEFAULT_WND && w'.win.cwnd <= DEFAULT_WND
    requires if index < |w.tails|
             then SenderOk(m, w.(tails := w'.tails, ring := w'.ring.(wnd := w.ring.wnd)))
             else w'.tails == w.tails && w'.ring == w.ring.(wnd := w'.ring.wnd)
    ensures Shape(m, w')
  {
    SameReplicas(m, w, w');
  }

  lemma OnlyClock(m: Setup, w: World, received: nat)
    requires Shape(m, w) && w.now <= received < TWO_64
    ensures Shape(m, w.(now := received)) && MovesOne(w.tails, w.tails, w.ring.head)
  {
    SameReplicas(m, w, w.(now := received));
    assert OneMoved(w.tails, w.tails, |w.tails|, w.ring.head);
  }

  lemma RoutedShape(m: Setup, w: World, index: nat, q: Received, received: nat)
    requires Shape(m, w) && q.sn < SN_SPACE && q.ts < TWO_48 && q.wnd <= DEFAULT_WND && w.now <= received < TWO_64
    ensures var w' := OnReply(w, m.c.mtu, index, q, received);
            Shape(m, w') && MovesOne(w.tails, w'.tails, w.ring.head)
  {
    ReplyShape(m, w, index, q, received);
    assert OneMoved(w.tails, OnReply(w, m.c.mtu, index, q, received).tails, index, w.ring.head);
  }

  lemma SenderTakesShape(m: Setup, w: World, replica: nat, q: Received, received: nat)
    requires Shape(m, w) && q.wnd <= DEFAULT_WND && w.now <= received < TWO_64
    ensures var w' := SenderTakes(m, w, replica, q, received);
            Shape(m, w') && MovesOne(w.tails, w'.tails, w.ring.head)
  {
    OnlyClock(m, w, received);
    if q.sn < SN_SPACE && q.ts < TWO_48 && replica < |m.nodes| && Route(m, replica).Some? {
      RoutedShape(m, w, Route(m, replica).value.index, q, received);
    }
  }

  lemma DeliverAckShape(m: Setup, w: World, k: Reply, grh: seq<Byte>, received: nat)
    requires Shape(m, w) && Shaped(m, w) && Possible(m, w, DeliverAck(k, grh, received))
    ensures Shape(m, DeliverAckNext(m, w, k, grh, received))
    ensures MovesOne(w.tails, DeliverAckNext(m, w, k, grh, received).tails, w.ring.head)
  {
    ArrivesAsImage(k.ack.frame, grh);
    SenderTakesShape(m, w, k.replica, Image(k.ack.frame), received);
  }

  // The replicas

  lemma ReplicaChanged(m: Setup, w: World, r: nat, rcv: Receiver, posted: seq<Buffer>, released: nat, writes: seq<nat>)
    requires Shape(m, w) && r < |w.rcvs|
    requires H.InboxOk(m.c, rcv.inbox, posted) && U.WritesOk(rcv.inbox, writes)
    ensures Shape(m, With(w, r, rcv, posted, released, writes))
  {
    var w' := With(w, r, rcv, posted, released, writes);
    forall q: nat | q < |w'.rcvs| ensures ReplicaShape(m, w', q) { assert ReplicaShape(m, w, q); }
  }

  lemma ReceiveShape(m: Setup, w: World, r: nat, list: seq<Buffer>)
    requires Shape(m, w) && Shaped(m, w) && Possible(m, w, Receive(r, list))
    ensures Shape(m, ReceiveNext(m, w, r, list))
  {
    assert ReplicaShape(m, w, r);
    var f, rcv := CutAll(list, U.FragmentSize(m.c)), w.rcvs[r];
    var rcv' := rcv.(inbox := Post(rcv.inbox.(todo := rcv.inbox.todo + f)));
    CutAllGather(rcv.inbox.mem, list, U.FragmentSize(m.c));
    H.PostShape(m.c, rcv.inbox, w.posted[r], f, w.writes[r]);
    ReplicaChanged(m, w, r, rcv', w.posted[r] + f, w.released[r], w.writes[r]);
    assert w.released[r := w.released[r]] == w.released && w.writes[r := w.writes[r]] == w.writes;
  }

  lemma RewriteShape(m: Setup, w: World, r: nat, rmem: seq<Byte>)
    requires Shape(m, w) && r < |w.rcvs| && |rmem| == |w.rcvs[r].inbox.mem|
    ensures Shape(m, RewriteNext(w, r, rmem))
  {
    assert ReplicaShape(m, w, r);
    var rcv := w.rcvs[r].(inbox := w.rcvs[r].inbox.(mem := rmem));
    assert SameAccepted(w.rcvs[r].inbox, rcv.inbox);
    S.WritesSame(w.rcvs[r].inbox, rcv.inbox, w.writes[r]);
    ReplicaChanged(m, w, r, rcv, w.posted[r], w.released[r], w.writes[r]);
    OnlyReceiver(w, r, rcv);
  }

  lemma TakesAny(m: Setup, w: World, r: nat, q: Received)
    requires Shape(m, w) && r < |w.rcvs|
    ensures Shape(m, ReplicaTakes(w, r, q))
  {
    assert ReplicaShape(m, w, r);
    var rcv := w.rcvs[r];
    MarkAny(rcv.inbox, w.posted[r], q.sn, q.ts, q.payload);
    if q.cmd == PKT_CMD_DATA && rcv.inbox.head != rcv.inbox.tail
       && Mark(rcv.inbox, q.sn, q.ts, q.payload).Kept?
    {
      var inbox := Mark(rcv.inbox, q.sn, q.ts, q.payload).inbox;
      var rcv' := rcv.(inbox := inbox, recvPackets := rcv.recvPackets + 1);
      H.WritesMore(rcv.inbox, inbox, w.posted[r], w.writes[r], q.sn, q.payload);
      ReplicaChanged(m, w, r, rcv', w.posted[r], w.released[r], w.writes[r] + Copies(rcv.inbox, q.sn));
      assert w.posted[r := w.posted[r]] == w.posted && w.released[r := w.released[r]] == w.released;
    } else {
      SameReplicas(m, w, ReplicaTakes(w, r, q));
    }
  }

  lemma SendAckShape(m: Setup, w: World, r: nat)
    requires Shape(m, w) && r < |w.rcvs|
    ensures Shape(m, SendAckNext(w, r))
  {
    assert ReplicaShape(m, w, r);
    ReplicaChanged(m, w, r, AfterAck(w.rcvs[r]), w.posted[r], w.released[r], w.writes[r]);
    OnlyReceiver(w, r, AfterAck(w.rcvs[r]));
    SameReplicas(m, w.(rcvs := w.rcvs[r := AfterAck(w.rcvs[r])]), SendAckNext(w, r));
  }

  lemma SmallStepShape(m: Setup, w: World, a: Step)
    requires Shape(m, w) && Shaped(m, w) && Possible(m, w, a)
    requires a.WriteSendMemory? || a.Release? || a.ChangePool? || a.ChangeRtt? || a.AckSent?
    ensures Shape(m, Next(m, w, a))
  {
    if a.AckSent? {
      var r := a.r;
      assert ReplicaShape(m, w, r);
      var rcv := w.rcvs[r].(ackBusy := false);
      ReplicaChanged(m, w, r, rcv, w.posted[r], w.released[r], w.writes[r]);
      OnlyReceiver(w, r, rcv);
    } else {
      SameReplicas(m, w, Next(m, w, a));
    }
  }

  lemma StepShape(m: Setup, w: World, a: Step)
    requires Shape(m, w) && Shaped(m, w) && Possible(m, w, a)
    ensures Shape(m, Next(m, w, a))
  {
    match a
    case Send(list) => SendShape(m, w, list);
    case Receive(r, list) => ReceiveShape(m, w, r, list);
    case WriteReceiveMemory(r, rmem) => RewriteShape(m, w, r, rmem);
    case Transmit(at) => TransmitShape(m, w, at);
    case DeliverData(r, d, grh) =>
      ArrivesAsImage(d.frame, grh);
      TakesAny(m, w, r, Image(d.frame));
    case SendAck(r) => SendAckShape(m, w, r);
    case DeliverAck(k, grh, received) => DeliverAckShape(m, w, k, grh, received);
    case _ => SmallStepShape(m, w, a);
  }

  // Every run

  lemma InitShape(m: Setup, w: World)
    requires Sized(m) && Init(m, w)
    ensures Shape(m, w)
  {
    MinTailIsLeast(w.tails);
    assert forall s :: 0 <= s < m.c.capacity ==> w.ring.handles[s] == RawHandle(0);
    forall r: nat | r < |w.rcvs| ensures ReplicaShape(m, w, r) {
      assert forall s :: 0 <= s < m.c.capacity ==> w.rcvs[r].inbox.requests[s] == Request(0, 0, false);
    }
  }

  lemma RunShape(m: Setup, w: World, run: Run<World, Step>)
    requires Sized(m) && Init(m, w) && IsRun(Loose(m), w, run)
    ensures Shape(m, Last(w, run))
  {
    InitShape(m, w);
    var inv := v => Shape(m, v);
    forall v, a, v' | inv(v) && Loose(m)(v, a, v') ensures inv(v') {
      StepShape(m, v, a);
    }
    Invariance(Loose(m), inv, w, run);
  }

  /**
   In every state of every run, whatever happens: windows stay at most 64, the sender holds
   at most 65 packets beyond the slowest tail, and the slot of every one of them holds its
   fragment.
   */
  lemma WindowBound(m: Setup, w: World, run: Run<World, Step>)
    requires Sized(m) && Init(m, w) && IsRun(Loose(m), w, run)
    ensures var v := Last(w, run);
            && v.ring.wnd <= 64 && v.win.cwnd <= 64 && v.ring.head - MinTail(v.tails) <= 65
            && |v.ring.handles| == m.c.capacity && v.ring.head <= |v.frags|
            && (forall i: nat :: MinTail(v.tails) <= i < v.ring.head ==>
                  Carries(v.ring.handles[i % m.c.capacity], i, v.frags[i], m.c.session))
  {
    RunShape(m, w, run);
    var v := Last(w, run);
    forall i: nat | MinTail(v.tails) <= i < v.ring.head
      ensures Carries(v.ring.handles[i % m.c.capacity], i, v.frags[i], m.c.session)
    {
      SlotIsRemainder(i, m.c.capacity);
      assert Carries(At(v.ring.handles, i), i, v.frags[i], m.c.session);
    }
  }

  /**
   From every state of every run, an acknowledgement of any age and routing moves at most one
   tail, within the ring.
   */
  lemma AckMovesOneTail(m: Setup, w: World, run: Run<World, Step>, k: Reply, grh: seq<Byte>, received: nat)
    requires Sized(m) && Init(m, w) && IsRun(Loose(m), w, run)
    requires Shaped(m, Last(w, run)) && Possible(m, Last(w, run), DeliverAck(k, grh, received))
    ensures var v := Last(w, run); MovesOne(v.tails, DeliverAckNext(m, v, k, grh, received).tails, v.ring.head)
  {
    var v := Last(w, run);
    assert Shape(m, v) by { RunShape(m, w, run); }
    DeliverAckShape(m, v, k, grh, received);
  }

  /** In every state of every run, every replica's receive queue is exact and each destination was written once. */
  lemma ReceiveExact(m: Setup, w: World, run: Run<World, Step>, r: nat)
    requires Sized(m) && Init(m, w) && IsRun(Loose(m), w, run) && r < |m.nodes|
    ensures var v := Last(w, run);
            && r < |v.rcvs| == |v.writes|
            && var s, writes := v.rcvs[r].inbox, v.writes[r];
               && |s.requests| == m.c.capacity && (s.tail == s.head || At(s.requests, s.tail).inflight)
               && (forall i: nat :: s.head <= i < s.tail + m.c.capacity ==> !At(s.requests, i).inflight)
               && (forall i, j :: 0 <= i < j < |writes| ==> writes[i] != writes[j])
               && (forall i: nat :: i in writes <==> Accepted(s, i))
  {
    RunShape(m, w, run);
    assert ReplicaShape(m, Last(w, run), r);
  }

  // What sends and passes do

  lemma ShapeShaped(m: Setup, w: World)
    requires Shape(m, w)
    ensures Shaped(m, w)
  {
    forall r | 0 <= r < |w.rcvs|
      ensures |w.rcvs[r].inbox.requests| > 0 && w.rcvs[r].inbox.tail <= w.rcvs[r].inbox.head
    {
      assert ReplicaShape(m, w, r);
    }
  }

  /**
   What a send does: the fragments of the list come last, as many of them enter the ring as
   window, slowest tail and pool allow, and nothing else changes.
   */
  ghost predicate Sends(m: Setup, v: World, list: seq<Buffer>, v': World)
    requires Sized(m)
  {
    var f := CutAll(list, U.FragmentSize(m.c));
    && v' == v.(ring := v'.ring, frags := v'.frags, sent := v'.sent) && v'.frags == v.frags + f
    && FilledFrom(v.ring.(todo := v.ring.todo + f), v'.ring, MinTail(v.tails))
    && Holds(v'.ring, MinTail(v.tails), v'.frags)
  }

  lemma SendFills(m: Setup, w: World, run: Run<World, Step>, list: seq<Buffer>)
    requires Sized(m) && Init(m, w) && IsRun(Loose(m), w, run)
    requires Shaped(m, Last(w, run)) && Possible(m, Last(w, run), Send(list))
    ensures Sends(m, Last(w, run), list, Next(m, Last(w, run), Send(list)))
  {
    assert Shape(m, Last(w, run)) by { RunShape(m, w, run); }
    SendShape(m, Last(w, run), list);
  }

  /** A pass sends and stamps exactly the due packets beyond the slowest tail, and closes the window on a resend. */
  ghost predicate Passes(m: Setup, v: World, at: nat, v': World)
    requires |v.ring.handles| > 0
  {
    var base := MinTail(v.tails);
    && v' == v.(ring := v.ring.(handles := v'.ring.handles, wnd := v'.ring.wnd), now := at, data := v'.data)
    && Retimed(v.ring.handles, v'.ring.handles, base)
    && (forall i: nat :: base <= i < v.ring.head ==>
          At(v'.ring.handles, i).ts == if Due(v.ring.handles, i, at, v.rtt.rto) then at else At(v.ring.handles, i).ts)
    && (forall d :: d in v'.data <==>
          d in v.data || (base <= d.index < v.ring.head && Due(v.ring.handles, d.index, at, v.rtt.rto)
                          && d.frame == Shot(At(v.ring.handles, d.index), at, v.smem)))
    && v'.ring.wnd == if Resends(v.ring.handles, base, v.ring.head, at, v.rtt.rto) then Min(1, m.c.capacity % 65536)
                      else v.ring.wnd
  }

  lemma StatePasses(m: Setup, v: World, at: nat)
    requires Shape(m, v) && v.now <= at < TWO_64
    ensures |v.ring.handles| > 0 && Passes(m, v, at, TransmitNext(v, at))
  {
    var h, base := v.ring.handles, MinTail(v.tails);
    var p := Sweep(h, v.ring.wnd, base, v.ring.head, at, v.rtt.rto, v.smem);
    SweepOk(h, v.ring.wnd, base, base, v.ring.head, at, v.rtt.rto, v.smem);
    SweepExact(h, v.ring.wnd, base, base, v.ring.head, at, v.rtt.rto, v.smem);
    SweepWindow(h, v.ring.wnd, base, base, v.ring.head, at, v.rtt.rto, v.smem);
    forall d ensures d in p.out <==> base <= d.index < v.ring.head && Due(h, d.index, at, v.rtt.rto)
                                     && d.frame == Shot(At(h, d.index), at, v.smem)
    {
      assert U.Data(d.index, d.frame) == d;
    }
  }

  lemma PassExact(m: Setup, w: World, run: Run<World, Step>, at: nat)
    requires Sized(m) && Init(m, w) && IsRun(Loose(m), w, run) && Last(w, run).now <= at < TWO_64
    ensures Shaped(m, Last(w, run)) && Passes(m, Last(w, run), at, Next(m, Last(w, run), Transmit(at)))
  {
    assert Shape(m, Last(w, run)) by { RunShape(m, w, run); }
    ShapeShaped(m, Last(w, run));
    StatePasses(m, Last(w, run), at);
  }

  /** An acknowledgement that is routed to a tail of this group also refills the ring, above the slowest tail. */
  lemma ReplyFills(m: Setup, w: World, run: Run<World, Step>, k: Reply, grh: seq<Byte>, received: nat)
    requires Sized(m) && Init(m, w) && IsRun(Loose(m), w, run)
    requires Shaped(m, Last(w, run)) && Possible(m, Last(w, run), DeliverAck(k, grh, received))
    requires k.replica < |m.nodes| && Route(m, k.replica).Some? && Route(m, k.replica).value.group == m.group
    requires Route(m, k.replica).value.index < |m.nodes| && k.ack.frame.handle.cmd == PKT_CMD_ACK
    ensures var v := Last(w, run);
            var v' := Next(m, v, DeliverAck(k, grh, received));
            FilledFrom(v.ring, v'.ring.(wnd := v.ring.wnd), MinTail(v'.tails))
  {
    var v := Last(w, run);
    assert Shape(m, v) by { RunShape(m, w, run); }
    StateFills(m, v, k, grh, received);
  }

  lemma StateFills(m: Setup, v: World, k: Reply, grh: seq<Byte>, received: nat)
    requires Shape(m, v) && Shaped(m, v) && Possible(m, v, DeliverAck(k, grh, received))
    requires k.replica < |m.nodes| && Route(m, k.replica).Some? && Route(m, k.replica).value.group == m.group
    requires Route(m, k.replica).value.index < |m.nodes| && k.ack.frame.handle.cmd == PKT_CMD_ACK
    ensures var v' := DeliverAckNext(m, v, k, grh, received);
            FilledFrom(v.ring, v'.ring.(wnd := v.ring.wnd), MinTail(v'.tails))
  {
    var index, q := Route(m, k.replica).value.index, Image(k.ack.frame);
    ReplyFilled(m, v, index, q, received);
    RoutedNext(m, v, k, grh, received);
  }

  lemma ReplyFilled(m: Setup, w: World, index: nat, q: Received, received: nat)
    requires Shape(m, w) && q.sn < SN_SPACE && q.ts < TWO_48 && q.wnd <= DEFAULT_WND && w.now <= received < TWO_64
    requires index < |w.tails|
    ensures var w' := OnReply(w, m.c.mtu, index, q, received);
            FilledFrom(w.ring, w'.ring.(wnd := w.ring.wnd), MinTail(w'.tails))
  {
    ReplyShape(m, w, index, q, received);
  }

  lemma RoutedNext(m: Setup, w: World, k: Reply, grh: seq<Byte>, received: nat)
    requires Sized(m) && |w.ring.handles| > 0 && |grh| == GRH_SIZE && received < TWO_64
    requires k.replica < |m.nodes| && Route(m, k.replica).Some? && Route(m, k.replica).value.group == m.group
    requires k.ack.frame.handle.cmd == PKT_CMD_ACK
    ensures var q := Image(k.ack.frame);
            && q.sn < SN_SPACE && q.ts < TWO_48
            && DeliverAckNext(m, w, k, grh, received) ==
               OnReply(w, m.c.mtu, Route(m, k.replica).value.index, q, received)
  {
    ArrivesAsImage(k.ack.frame, grh);
  }
}
