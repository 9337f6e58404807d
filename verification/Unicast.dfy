/**
 The unicast protocol: one sender, one receiver and a network that may lose,
 duplicate and reorder everything it is given, any number of times.

 The network keeps every frame ever sent; losing one is never delivering it. What is
 delivered is its datagram, behind any routing header. The 64-bit index kept beside a
 frame, and the fields of `World` after `acks`, are history: no step of the sender or the
 receiver depends on them.
 */
module Unicast {
  import opened Arithmetic
  import opened SequenceNumbers
  import opened Fragmentation
  import opened Packets
  import opened SendRing
  import opened ReceiveRing
  import opened Control
  import opened Endpoint

  datatype Config = Config(mtu: nat, capacity: nat, session: nat)

  /** A data packet in the network, with the index it was sent for. */
  datatype Data = Data(index: nat, frame: Frame)

  /** An acknowledgement in the network, with the receiver tail it was sent for. */
  datatype Ack = Ack(value: nat, frame: Frame)

  datatype World = World(
    snd: Sender, smem: seq<Byte>, rcv: Receiver, aborted: bool, now: nat,
    data: set<Data>, acks: set<Ack>,
    frags: seq<Buffer>, sent: seq<seq<Byte>>, posted: seq<Buffer>, released: nat, writes: seq<nat>)

  datatype Step =
    | Send(list: seq<Buffer>)
    | Receive(list: seq<Buffer>)
    | WriteSendMemory(smem: seq<Byte>)
    | WriteReceiveMemory(rmem: seq<Byte>)
    | Release(upto: nat)
    | ChangePool(free: seq<nat>)
    | ChangeRtt(rtt: Rtt)
    | Transmit(at: nat)
    | DeliverData(d: Data, dgrh: seq<Byte>)
    | SendAck
    | AckSent
    | DeliverAck(a: Ack, agrh: seq<Byte>, received: nat)

  /** Windows never exceed 65 and the ring never holds more than 66 packets. */
  const MAX_WND: nat := DEFAULT_WND + 1
  const MAX_LIVE: nat := DEFAULT_WND + 2

  predicate GoodConfig(c: Config) {
    c.mtu > HEADER_SIZE + GRH_SIZE && MAX_LIVE <= c.capacity
  }

  /** The first `n` indices have the slots of their short numbers (see `ShortSlotIff`). */
  predicate Aligned(c: Config, n: nat) {
    GoodConfig(c) && (SN_SPACE % c.capacity == 0 || n <= SN_SPACE)
  }

  lemma AlignedSlot(c: Config, n: nat, i: nat)
    requires Aligned(c, n) && i < n
    ensures Slot(ShortSn(i), c.capacity) == Slot(i, c.capacity)
  {
    if SN_SPACE % c.capacity == 0 { ShortSlot(i, c.capacity); }
  }

  function FragmentSize(c: Config): nat
    requires GoodConfig(c)
  {
    c.mtu - HEADER_SIZE - GRH_SIZE
  }

  function Contents(mem: seq<Byte>, frags: seq<Buffer>): seq<seq<Byte>>
    requires forall i :: 0 <= i < |frags| ==> InBounds(mem, frags[i])
  {
    seq(|frags|, i requires 0 <= i < |frags| => Read(mem, frags[i]))
  }

  predicate Init(c: Config, w: World) {
    && GoodConfig(c)
    && w.snd.ring.head == 0 && w.snd.ring.wnd == DEFAULT_WND && w.snd.ring.session == c.session
    && w.snd.ring.handles == seq(c.capacity, _ => RawHandle(0))
    && w.snd.ring.todo == [] && (forall k :: 0 <= k < |w.snd.ring.free| ==> w.snd.ring.free[k] != 0)
    && w.snd.tail == 0 && w.snd.win == INITIAL_WINDOW && w.snd.rtt == Rtt(0, 0, DEFAULT_RTO)
    && w.rcv == Receiver(
         Inbox(0, 0, DEFAULT_WND, seq(c.capacity, _ => Request(0, 0, false)), [], 0, w.rcv.inbox.mem),
         c.session, 0, 0, false)
    && !w.aborted && MAX_RTO <= w.now < TWO_64
    && w.data == {} && w.acks == {}
    && w.frags == [] && w.sent == [] && w.posted == [] && w.released == 0 && w.writes == []
  }

  /** Sender and receiver agree on the length of every fragment both know about. */
  predicate Matching(frags: seq<Buffer>, posted: seq<Buffer>) {
    forall i :: 0 <= i < |frags| && i < |posted| ==> frags[i].length == posted[i].length
  }

  /**
   What a step needs to make sense: buffers in memory, none of them refused, a clock that
   does not go back, a packet that was sent. Other sessions of the context change the
   packet pool and the round-trip estimate they share with this one.
   */
  ghost predicate Possible(c: Config, w: World, a: Step)
    requires GoodConfig(c)
  {
    match a
    case Send(list) => forall b :: b in list ==> InBounds(w.smem, b) && !Refused(b)
    case Receive(list) => forall b :: b in list ==> InBounds(w.rcv.inbox.mem, b)
    case WriteSendMemory(smem) => |smem| == |w.smem|
    case WriteReceiveMemory(rmem) => |rmem| == |w.rcv.inbox.mem|
    case Release(upto) => w.released <= upto <= w.rcv.inbox.tail
    case ChangePool(free) => forall k :: 0 <= k < |free| ==> free[k] != 0
    case ChangeRtt(rtt) => MIN_RTO <= rtt.rto <= MAX_RTO
    case Transmit(at) => w.now <= at < TWO_64
    case DeliverData(d, grh) => d in w.data && |grh| == GRH_SIZE
    case SendAck => OwesAck(w.rcv)
    case AckSent => true
    case DeliverAck(k, grh, received) => k in w.acks && |grh| == GRH_SIZE && w.now <= received < TWO_64
  }

  /**
   What the applications and the network must respect for the right bytes to arrive:
   matching buffers that do not overlap while held, memory left alone until it is
   acknowledged or released, no packet or acknowledgement so late that its 24-bit number
   is read as another index, and at most 2^24 fragments unless the capacity divides 2^24.
   */
  ghost predicate Enabled(c: Config, w: World, a: Step)
    requires GoodConfig(c)
  {
    && Possible(c, w, a)
    && match a
       case Send(list) =>
         && Matching(w.frags + CutAll(list, FragmentSize(c)), w.posted)
         && Aligned(c, |w.frags + CutAll(list, FragmentSize(c))|)
       case Receive(list) =>
         && Matching(w.frags, w.posted + CutAll(list, FragmentSize(c)))
         && Apart(w.posted + CutAll(list, FragmentSize(c)), w.released)
       case WriteSendMemory(smem) =>
         forall i :: w.snd.tail <= i < |w.frags| && InBounds(w.smem, w.frags[i]) ==>
           Read(smem, w.frags[i]) == Read(w.smem, w.frags[i])
       case WriteReceiveMemory(rmem) =>
         forall i :: w.released <= i < |w.posted| && InBounds(rmem, w.posted[i]) ==>
           Read(rmem, w.posted[i]) == Read(w.rcv.inbox.mem, w.posted[i])
       case DeliverData(d, _) => DataExact(w.rcv.inbox.tail, w.rcv.inbox.wnd, d.index)
       case DeliverAck(k, _, _) => AckExact(w.snd.tail, w.snd.ring.head, k.value)
       case _ => true
  }

  // The steps

  function SendNext(c: Config, w: World, list: seq<Buffer>): World
    requires GoodConfig(c) && |w.snd.ring.handles| > 0
    requires forall b :: b in list ==> InBounds(w.smem, b)
  {
    var f := CutAll(list, FragmentSize(c));
    CutAllGather(w.smem, list, FragmentSize(c));
    w.(snd := w.snd.(ring := Fill(w.snd.ring.(todo := w.snd.ring.todo + f), w.snd.tail).ring),
       frags := w.frags + f, sent := w.sent + Contents(w.smem, f))
  }

  function ReceiveNext(c: Config, w: World, list: seq<Buffer>): World
    requires GoodConfig(c) && |w.rcv.inbox.requests| > 0 && w.rcv.inbox.tail <= w.rcv.inbox.head
  {
    var f := CutAll(list, FragmentSize(c));
    w.(rcv := w.rcv.(inbox := Post(w.rcv.inbox.(todo := w.rcv.inbox.todo + f))), posted := w.posted + f)
  }

  /** The k-th frame of a pass was sent for index `base + k`. */
  function Addressed(out: seq<Frame>, base: nat): set<Data> {
    set k | 0 <= k < |out| :: Data(base + k, out[k])
  }

  function TransmitNext(w: World, at: nat): World
    requires |w.snd.ring.handles| > 0
  {
    var p := SendPass(w.snd, at, w.smem);
    w.(snd := AfterPass(w.snd, p), now := at, data := w.data + Addressed(p.out, w.snd.tail))
  }

  function DeliverDataNext(w: World, d: Data, grh: seq<Byte>): World
    requires |grh| == GRH_SIZE
  {
    match Arrive(Wire(d.frame), grh)
    case None => w
    case Some(r) =>
      if r.cmd != PKT_CMD_DATA || !Markable(w.rcv.inbox, r.sn) then w
      else ReceiverTakes(w, r)
  }

  function ReceiverTakes(w: World, r: Received): World
    requires Markable(w.rcv.inbox, r.sn)
  {
    match OnData(w.rcv, r)
    case None => w.(aborted := true)
    case Some(rcv) => w.(rcv := rcv, writes := w.writes + Copies(w.rcv.inbox, r.sn))
  }

  function SendAckNext(w: World): World
    requires w.rcv.inbox.tail <= w.rcv.inbox.head
  {
    w.(rcv := AfterAck(w.rcv), acks := w.acks + {Ack(w.rcv.inbox.tail, Frame(AckHandle(w.rcv), []))})
  }

  function DeliverAckNext(c: Config, w: World, a: Ack, grh: seq<Byte>, received: nat): World
    requires GoodConfig(c) && |w.snd.ring.handles| > 0 && |grh| == GRH_SIZE && received < TWO_64
  {
    match Arrive(Wire(a.frame), grh)
    case None => w.(now := received)
    case Some(r) =>
      if r.cmd != PKT_CMD_ACK || r.sn >= SN_SPACE || r.ts >= TWO_48 then w.(now := received)
      else w.(now := received, snd := OnAck(w.snd, c.mtu, r, received))
  }

  /** Both rings exist and are the right way around: the shape every state keeps. */
  predicate Shaped(w: World) {
    |w.snd.ring.handles| > 0 && |w.rcv.inbox.requests| > 0 && w.rcv.inbox.tail <= w.rcv.inbox.head
  }

  ghost function Next(c: Config, w: World, a: Step): World
    requires GoodConfig(c) && Shaped(w) && Possible(c, w, a)
  {
    match a
    case Send(list) => SendNext(c, w, list)
    case Receive(list) => ReceiveNext(c, w, list)
    case WriteSendMemory(smem) => w.(smem := smem)
    case WriteReceiveMemory(rmem) => w.(rcv := w.rcv.(inbox := w.rcv.inbox.(mem := rmem)))
    case Release(upto) => w.(released := upto)
    case ChangePool(free) => w.(snd := w.snd.(ring := w.snd.ring.(free := free)))
    case ChangeRtt(rtt) => w.(snd := w.snd.(rtt := rtt))
    case Transmit(at) => TransmitNext(w, at)
    case DeliverData(d, grh) => DeliverDataNext(w, d, grh)
    case SendAck => SendAckNext(w)
    case AckSent => w.(rcv := w.rcv.(ackBusy := false))
    case DeliverAck(k, grh, received) => DeliverAckNext(c, w, k, grh, received)
  }

  // The invariant

  /** What the sender remembers of the fragments the application gave it. */
  ghost predicate SourceOk(smem: seq<Byte>, frags: seq<Buffer>, sent: seq<seq<Byte>>, tail: nat) {
    && |sent| == |frags|
    && (forall i: nat :: i < |frags| ==>
          !Refused(frags[i]) && InBounds(smem, frags[i]) && |sent[i]| == frags[i].length)
    && (forall i: nat :: tail <= i < |frags| ==> Read(smem, frags[i]) == sent[i])
  }

  ghost predicate SenderOk(c: Config, s: Sender, frags: seq<Buffer>, now: nat) {
    && |s.ring.handles| == c.capacity && s.ring.session == c.session
    && Holds(s.ring, s.tail, frags)
    && s.ring.wnd <= MAX_WND && s.win.cwnd <= MAX_WND && s.ring.head - s.tail <= MAX_LIVE
    && Sorted(s.ring.handles, s.tail, s.ring.head, now)
    && s.rtt.rto <= MAX_RTO <= now < TWO_64
  }

  ghost predicate ReceiverOk(c: Config, r: Receiver, posted: seq<Buffer>, released: nat,
                             sent: seq<seq<Byte>>, limit: nat)
  {
    && |r.inbox.requests| == c.capacity && r.inbox.wnd == DEFAULT_WND && r.session == c.session
    && Tracks(r.inbox, posted) && Drained(r.inbox) && Stocked(r.inbox)
    && r.ackPackets <= r.recvPackets
    && Delivered(r.inbox, posted, released, sent, limit)
    && Apart(posted, released) && released <= r.inbox.tail
  }

  ghost predicate DataOk(d: Data, sent: seq<seq<Byte>>, limit: nat) {
    && d.index < limit <= |sent|
    && d.frame.handle.cmd == PKT_CMD_DATA && !d.frame.handle.compacted
    && d.frame.handle.sn == ShortSn(d.index)
    && d.frame.payload == sent[d.index]
  }

  ghost predicate AckOk(a: Ack, limit: nat) {
    && a.value <= limit
    && a.frame.handle.cmd == PKT_CMD_ACK && !a.frame.handle.compacted
    && a.frame.handle.sn == ShortSn(a.value)
    && MIN_ADVERTISED <= a.frame.handle.wnd <= MAX_WND
  }

  ghost predicate NetOk(w: World) {
    && (forall d :: d in w.data ==> DataOk(d, w.sent, w.snd.ring.head))
    && (forall a :: a in w.acks ==> AckOk(a, w.rcv.inbox.tail))
  }

  /** Every received fragment was copied exactly once. */
  ghost predicate WritesOk(s: Inbox, writes: seq<nat>) {
    && |s.requests| > 0
    && (forall i, j :: 0 <= i < j < |writes| ==> writes[i] != writes[j])
    && (forall i: nat :: i in writes <==> Accepted(s, i))
  }

  ghost predicate Inv(c: Config, w: World) {
    && Aligned(c, |w.frags|) && !w.aborted
    && SourceOk(w.smem, w.frags, w.sent, w.snd.tail)
    && SenderOk(c, w.snd, w.frags, w.now)
    && ReceiverOk(c, w.rcv, w.posted, w.released, w.sent, w.snd.ring.head)
    && NetOk(w)
    && WritesOk(w.rcv.inbox, w.writes)
    && Matching(w.frags, w.posted)
    && w.snd.tail <= w.rcv.inbox.tail
  }
}
