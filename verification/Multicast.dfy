/**
 The multicast protocol: one sender with a tail per replica, `n >= 1` replicas, and a
 network that may lose, duplicate and reorder what it is given, separately for each
 replica. Acknowledgements are routed to a tail by the controller.
 */
module Multicast {
  import opened Arithmetic
  import opened SequenceNumbers
  import opened Fragmentation
  import opened Packets
  import opened SendRing
  import opened SendQueues
  import opened ReceiveRing
  import opened Control
  import opened Endpoint
  import opened Controllers
  import U = Unicast

  const MCAST_MIN_RTO: nat := 64
  const MCAST_MAX_RTO: nat := 16392
  const MCAST_DEFAULT_RTO: nat := 8196

  /** The sender's view of its group: `nodes[r]` is the node number of replica `r`. */
  datatype Setup = Setup(c: U.Config, groups: seq<Group>, names: map<nat, string>, nodes: seq<nat>, group: nat)

  predicate Sized(m: Setup) { U.GoodConfig(m.c) && 1 <= |m.nodes| }

  /** The replicas are exactly those of the group, in its order, and each is listed nowhere else. */
  ghost predicate GoodSetup(m: Setup) {
    && Sized(m) && m.group < |m.groups| && |m.groups[m.group].replicas| == |m.nodes|
    && forall r :: 0 <= r < |m.nodes| ==>
         && m.nodes[r] in m.names
         && OccursAt(m.groups, m.names[m.nodes[r]], Place(m.group, r))
         && forall q :: OccursAt(m.groups, m.names[m.nodes[r]], q) ==> q == Place(m.group, r)
  }

  datatype Reply = Reply(replica: nat, ack: U.Ack)

  datatype World = World(
    ring: Ring, tails: seq<nat>, win: Window, rtt: Rtt, smem: seq<Byte>,
    rcvs: seq<Receiver>, aborted: bool, now: nat,
    data: set<U.Data>, acks: set<Reply>,
    frags: seq<Buffer>, sent: seq<seq<Byte>>, posted: seq<seq<Buffer>>, released: seq<nat>,
    writes: seq<seq<nat>>)

  datatype Step =
    | Send(list: seq<Buffer>)
    | Receive(r: nat, list: seq<Buffer>)
    | WriteSendMemory(smem: seq<Byte>)
    | WriteReceiveMemory(r: nat, rmem: seq<Byte>)
    | Release(r: nat, upto: nat)
    | ChangePool(free: seq<nat>)
    | ChangeRtt(rtt: Rtt)
    | Transmit(at: nat)
    | DeliverData(r: nat, d: U.Data, dgrh: seq<Byte>)
    | SendAck(r: nat)
    | AckSent(r: nat)
    | DeliverAck(k: Reply, agrh: seq<Byte>, received: nat)

  /** The number of replicas is the number of receivers, tails and posted lists. */
  predicate Shaped(m: Setup, w: World) {
    && |w.rcvs| == |w.tails| == |w.posted| == |w.released| == |w.writes| == |m.nodes|
    && |w.ring.handles| > 0
    && forall r :: 0 <= r < |w.rcvs| ==> |w.rcvs[r].inbox.requests| > 0 && w.rcvs[r].inbox.tail <= w.rcvs[r].inbox.head
  }

  /** `n` times the same. */
  predicate Repeats<T(==)>(s: seq<T>, n: nat, x: T) {
    |s| == n && forall i :: 0 <= i < n ==> s[i] == x
  }

  predicate NewReceiver(c: U.Config, rcv: Receiver) {
    && rcv == Receiver(rcv.inbox, c.session, 0, 0, false)
    && rcv.inbox == Inbox(0, 0, DEFAULT_WND, rcv.inbox.requests, [], 0, rcv.inbox.mem)
    && Repeats(rcv.inbox.requests, c.capacity, Request(0, 0, false))
  }

  predicate Init(m: Setup, w: World)
    requires U.GoodConfig(m.c)
  {
    && |w.rcvs| == |m.nodes|
    && w.ring.head == 0 && w.ring.wnd == DEFAULT_WND && w.ring.session == m.c.session && w.ring.todo == []
    && Repeats(w.ring.handles, m.c.capacity, RawHandle(0))
    && (forall k :: 0 <= k < |w.ring.free| ==> w.ring.free[k] != 0)
    && Repeats(w.tails, |m.nodes|, 0) && w.win == INITIAL_WINDOW && w.rtt == Rtt(0, 0, MCAST_DEFAULT_RTO)
    && (forall r :: 0 <= r < |w.rcvs| ==> NewReceiver(m.c, w.rcvs[r]))
    && !w.aborted && w.now < TWO_64 && w.data == {} && w.acks == {}
    && w.frags == [] && w.sent == []
    && Repeats(w.posted, |m.nodes|, []) && Repeats(w.released, |m.nodes|, 0) && Repeats(w.writes, |m.nodes|, [])
  }

  /** What a step needs to make sense. */
  ghost predicate Possible(m: Setup, w: World, a: Step)
    requires Sized(m) && Shaped(m, w)
  {
    match a
    case Send(list) =>
      && (forall b :: b in list ==> InBounds(w.smem, b) && !Refused(b))
      && |w.frags + CutAll(list, U.FragmentSize(m.c))| <= UINT64_MAX
    case Receive(r, list) => r < |w.rcvs| && forall b :: b in list ==> InBounds(w.rcvs[r].inbox.mem, b)
    case WriteSendMemory(smem) => |smem| == |w.smem|
    case WriteReceiveMemory(r, rmem) => r < |w.rcvs| && |rmem| == |w.rcvs[r].inbox.mem|
    case Release(r, upto) => r < |w.rcvs| && w.released[r] <= upto <= w.rcvs[r].inbox.tail
    case ChangePool(free) => forall k :: 0 <= k < |free| ==> free[k] != 0
    case ChangeRtt(_) => true
    case Transmit(at) => w.now <= at < TWO_64
    case DeliverData(r, d, grh) => r < |w.rcvs| && d in w.data && |grh| == GRH_SIZE
    case SendAck(r) => r < |w.rcvs| && OwesAck(w.rcvs[r])
    case AckSent(r) => r < |w.rcvs|
    case DeliverAck(k, grh, received) => k in w.acks && |grh| == GRH_SIZE && w.now <= received < TWO_64
  }

  /** What the applications and the network must respect for the right bytes to arrive everywhere. */
  ghost predicate Enabled(m: Setup, w: World, a: Step)
    requires Sized(m) && Shaped(m, w)
  {
    && Possible(m, w, a)
    && match a
       case Send(list) =>
         var f := CutAll(list, U.FragmentSize(m.c));
         && U.Aligned(m.c, |w.frags + f|)
         && (forall r :: 0 <= r < |w.posted| ==> U.Matching(w.frags + f, w.posted[r]))
       case Receive(r, list) =>
         var f := CutAll(list, U.FragmentSize(m.c));
         U.Matching(w.frags, w.posted[r] + f) && Apart(w.posted[r] + f, w.released[r])
       case WriteSendMemory(smem) =>
         forall i :: MinTail(w.tails) <= i < |w.frags| && InBounds(w.smem, w.frags[i]) ==>
           Read(smem, w.frags[i]) == Read(w.smem, w.frags[i])
       case WriteReceiveMemory(r, rmem) =>
         forall i :: w.released[r] <= i < |w.posted[r]| && InBounds(rmem, w.posted[r][i]) ==>
           Read(rmem, w.posted[r][i]) == Read(w.rcvs[r].inbox.mem, w.posted[r][i])
       case DeliverData(r, d, _) => DataExact(w.rcvs[r].inbox.tail, w.rcvs[r].inbox.wnd, d.index)
       case DeliverAck(k, _, _) =>
         k.replica < |w.tails| ==> AckExact(w.tails[k.replica], w.ring.head, k.ack.value)
       case _ => true
  }

  /** What a pass leaves in the ring and sends, each frame with the index it was sent for. */
  datatype Swept = Swept(handles: seq<Handle>, wnd: nat, out: seq<U.Data>)

  /** The loop of `sendDataPackets`: every packet whose timer has run out, without an early exit. */
  function Sweep(handles: seq<Handle>, wnd: nat, curr: nat, end: nat, now: nat, rto: nat, mem: seq<Byte>): Swept
    requires |handles| > 0
    decreases end - curr
  {
    if curr >= end then Swept(handles, wnd, [])
    else
      var h := At(handles, curr);
      if U64Sub(now, h.ts) < rto then Sweep(handles, wnd, curr + 1, end, now, rto, mem)
      else
        var wnd' := if h.ts != 0 then CapWnd(1, |handles|) else wnd;
        var rest := Sweep(Stamp(handles, curr, now), wnd', curr + 1, end, now, rto, mem);
        rest.(out := [U.Data(curr, Shot(h, now, mem))] + rest.out)
  }

  /** The acknowledgement of a replica advertises its whole window. */
  function ReplyHandle(r: Receiver): Handle {
    Handle(1, r.session, PKT_CMD_ACK, r.inbox.wnd, ShortSn(r.inbox.tail), r.inbox.lastTs, false, true, 0, 0)
  }

  // The steps

  function SendNext(m: Setup, w: World, list: seq<Buffer>): World
    requires U.GoodConfig(m.c) && |w.ring.handles| > 0 && forall b :: b in list ==> InBounds(w.smem, b)
  {
    var f := CutAll(list, U.FragmentSize(m.c));
    CutAllGather(w.smem, list, U.FragmentSize(m.c));
    w.(ring := Fill(w.ring.(todo := w.ring.todo + f), MinTail(w.tails)).ring,
       frags := w.frags + f, sent := w.sent + U.Contents(w.smem, f))
  }

  function ReceiveNext(m: Setup, w: World, r: nat, list: seq<Buffer>): World
    requires U.GoodConfig(m.c) && r < |w.rcvs| == |w.posted|
    requires |w.rcvs[r].inbox.requests| > 0 && w.rcvs[r].inbox.tail <= w.rcvs[r].inbox.head
  {
    var f, rcv := CutAll(list, U.FragmentSize(m.c)), w.rcvs[r];
    w.(rcvs := w.rcvs[r := rcv.(inbox := Post(rcv.inbox.(todo := rcv.inbox.todo + f)))],
       posted := w.posted[r := w.posted[r] + f])
  }

  function RewriteNext(w: World, r: nat, rmem: seq<Byte>): World
    requires r < |w.rcvs|
  {
    w.(rcvs := w.rcvs[r := w.rcvs[r].(inbox := w.rcvs[r].inbox.(mem := rmem))])
  }

  function TransmitNext(w: World, at: nat): World
    requires |w.ring.handles| > 0
  {
    var p := Sweep(w.ring.handles, w.ring.wnd, MinTail(w.tails), w.ring.head, at, w.rtt.rto, w.smem);
    w.(ring := w.ring.(handles := p.handles, wnd := p.wnd), now := at, data := w.data + (set d | d in p.out))
  }

  /** A packet that meets an empty receive queue is dropped, and not even counted. */
  function ReplicaTakes(w: World, r: nat, q: Received): World
    requires r < |w.rcvs| == |w.writes|
  {
    var rcv := w.rcvs[r];
    if q.cmd != PKT_CMD_DATA || !Markable(rcv.inbox, q.sn) || rcv.inbox.head == rcv.inbox.tail then w
    else
      match OnData(rcv, q)
      case None => w.(aborted := true)
      case Some(rcv') =>
        w.(rcvs := w.rcvs[r := rcv'], writes := w.writes[r := w.writes[r] + Copies(rcv.inbox, q.sn)])
  }

  function DeliverDataNext(w: World, r: nat, d: U.Data, grh: seq<Byte>): World
    requires |grh| == GRH_SIZE && r < |w.rcvs| == |w.writes|
  {
    match Arrive(Wire(d.frame), grh)
    case None => w
    case Some(q) => ReplicaTakes(w, r, q)
  }

  function SendAckNext(w: World, r: nat): World
    requires r < |w.rcvs|
  {
    var rcv := w.rcvs[r];
    w.(rcvs := w.rcvs[r := AfterAck(rcv)],
       acks := w.acks + {Reply(r, U.Ack(rcv.inbox.tail, Frame(ReplyHandle(rcv), [])))})
  }

  /** `redirectMulticast` for the session of a replica: the index of the tail to move. */
  function Route(m: Setup, replica: nat): Option<Place>
    requires replica < |m.nodes|
  {
    Find(m.groups, if m.nodes[replica] in m.names then m.names[m.nodes[replica]] else "", 0, 0)
  }

  /** What an acknowledgement changes of the sender. */
  datatype McastSender = McastSender(ring: Ring, tails: seq<nat>, win: Window, rtt: Rtt)

  /** The acknowledgement branch; an index out of range changes no tail. */
  function Replied(s: McastSender, mtu: nat, index: nat, ack: Received, now: nat): McastSender
    requires |s.ring.handles| > 0 && 0 < mtu && now < TWO_64 && ack.sn < SN_SPACE && ack.ts < TWO_48
  {
    var tails := if index < |s.tails| then s.tails[index := AckTail(s.tails[index], s.ring.head, ack.sn)] else s.tails;
    var ring := if index < |s.tails| then Fill(s.ring, MinTail(tails)).ring else s.ring;
    var win := OnSuccess(s.win, mtu, ack.wnd);
    var wnd := if ring.wnd != win.cwnd then CapWnd(win.cwnd, |ring.handles|) else ring.wnd;
    McastSender(ring.(wnd := wnd), tails, win,
                UpdateRto(s.rtt, RoundTripTime(now, ack.ts), MCAST_MIN_RTO, MCAST_MAX_RTO))
  }

  function OnReply(w: World, mtu: nat, index: nat, ack: Received, now: nat): World
    requires |w.ring.handles| > 0 && 0 < mtu && now < TWO_64 && ack.sn < SN_SPACE && ack.ts < TWO_48
  {
    var s := Replied(McastSender(w.ring, w.tails, w.win, w.rtt), mtu, index, ack, now);
    w.(tails := s.tails, ring := s.ring, win := s.win, rtt := s.rtt, now := now)
  }

  /** The sender routes an acknowledgement of the replica to a tail. */
  function SenderTakes(m: Setup, w: World, replica: nat, q: Received, received: nat): World
    requires U.GoodConfig(m.c) && |w.ring.handles| > 0 && received < TWO_64
  {
    if q.cmd != PKT_CMD_ACK || q.sn >= SN_SPACE || q.ts >= TWO_48 || replica >= |m.nodes| then w.(now := received)
    else
      match Route(m, replica)
      case None => w.(now := received)
      case Some(p) => if p.group == m.group then OnReply(w, m.c.mtu, p.index, q, received) else w.(now := received)
  }

  function DeliverAckNext(m: Setup, w: World, k: Reply, grh: seq<Byte>, received: nat): World
    requires U.GoodConfig(m.c) && |w.ring.handles| > 0 && |grh| == GRH_SIZE && received < TWO_64
  {
    match Arrive(Wire(k.ack.frame), grh)
    case None => w.(now := received)
    case Some(q) => SenderTakes(m, w, k.replica, q, received)
  }

  ghost function Next(m: Setup, w: World, a: Step): World
    requires Sized(m) && Shaped(m, w) && Possible(m, w, a)
  {
    match a
    case Send(list) => SendNext(m, w, list)
    case Receive(r, list) => ReceiveNext(m, w, r, list)
    case WriteSendMemory(smem) => w.(smem := smem)
    case WriteReceiveMemory(r, rmem) => RewriteNext(w, r, rmem)
    case Release(r, upto) => w.(released := w.released[r := upto])
    case ChangePool(free) => w.(ring := w.ring.(free := free))
    case ChangeRtt(rtt) => w.(rtt := rtt)
    case Transmit(at) => TransmitNext(w, at)
    case DeliverData(r, d, grh) => DeliverDataNext(w, r, d, grh)
    case SendAck(r) => SendAckNext(w, r)
    case AckSent(r) => w.(rcvs := w.rcvs[r := w.rcvs[r].(ackBusy := false)])
    case DeliverAck(k, grh, received) => DeliverAckNext(m, w, k, grh, received)
  }

  // The invariant

  /** No more than the default window and one packet beyond the slowest replica. */
  const MAX_LIVE: nat := DEFAULT_WND + 1

  ghost predicate SenderOk(m: Setup, w: World) {
    && |w.ring.handles| == m.c.capacity && w.ring.session == m.c.session
    && Holds(w.ring, MinTail(w.tails), w.frags)
    && w.ring.wnd <= DEFAULT_WND && w.win.cwnd <= DEFAULT_WND && w.ring.head - MinTail(w.tails) <= MAX_LIVE
    && |w.frags| <= UINT64_MAX && w.now < TWO_64
    && |w.tails| == |m.nodes|
    && (forall r :: 0 <= r < |w.tails| ==> w.tails[r] <= w.ring.head)
  }

  /** A replica is in order and at least as far as the sender believes. */
  ghost predicate ReplicaOk(m: Setup, w: World, r: nat)
    requires r < |w.rcvs| == |w.tails| == |w.posted| == |w.released| == |w.writes|
  {
    && U.WritesOk(w.rcvs[r].inbox, w.writes[r])
    && U.ReceiverOk(m.c, w.rcvs[r], w.posted[r], w.released[r], w.sent, w.ring.head)
    && U.Matching(w.frags, w.posted[r])
    && w.tails[r] <= w.rcvs[r].inbox.tail
  }

  ghost predicate ReplyOk(k: Reply, rcvs: seq<Receiver>) {
    k.replica < |rcvs| && U.AckOk(k.ack, rcvs[k.replica].inbox.tail) && k.ack.frame.handle.wnd == DEFAULT_WND
  }

  ghost predicate Inv(m: Setup, w: World) {
    && GoodSetup(m) && U.Aligned(m.c, |w.frags|) && !w.aborted
    && |w.rcvs| == |w.tails| == |w.posted| == |w.released| == |w.writes| == |m.nodes|
    && U.SourceOk(w.smem, w.frags, w.sent, MinTail(w.tails))
    && SenderOk(m, w)
    && (forall r: nat :: r < |w.rcvs| ==> ReplicaOk(m, w, r))
    && (forall d :: d in w.data ==> U.DataOk(d, w.sent, w.ring.head))
    && (forall k :: k in w.acks ==> ReplyOk(k, w.rcvs))
  }
}
