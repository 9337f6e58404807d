/**
 What acknowledgements say and what the sender makes of it: the advertised window, the
 echoed timestamp, the round-trip sample and the windows, in every run.
 */
module UnicastTiming {
  import opened Arithmetic
  import opened SequenceNumbers
  import opened Fragmentation
  import opened Packets
  import opened SendRing
  import opened ReceiveRing
  import opened Control
  import opened Endpoint
  import opened Unicast
  import opened UnicastSafety
  import opened UnicastShape
  import opened Runs

  /** A frame and the time of the pass that sent it. */
  datatype Sending = Sending(d: Data, at: nat)

  /** An acknowledgement, and the receiver when it was sent: tail, open requests, frames accepted. */
  datatype Echo = Echo(ack: Ack, tail: nat, open: nat, taken: nat)

  /** The protocol with its history: frames sent, frames accepted, acknowledgements sent, packets delivered. */
  datatype Clocked = Clocked(w: World, sendings: set<Sending>, taken: seq<Data>, echoes: seq<Echo>, delivered: nat)

  ghost predicate ClockedInit(c: Config, s: Clocked) {
    Init(c, s.w) && s == Clocked(s.w, {}, [], [], 0)
  }

  function NewEcho(s: Clocked): Echo
    requires s.w.rcv.inbox.tail <= s.w.rcv.inbox.head
  {
    var b := s.w.rcv.inbox;
    Echo(Ack(b.tail, Frame(AckHandle(s.w.rcv), [])), b.tail, b.head - b.tail, |s.taken|)
  }

  ghost predicate Records(s: Clocked, a: Step, s': Clocked)
    requires s.w.rcv.inbox.tail <= s.w.rcv.inbox.head
  {
    && s'.sendings == (if a.Transmit? then s.sendings + (set d | d in s'.w.data - s.w.data :: Sending(d, a.at))
                       else s.sendings)
    && s'.taken == (if a.DeliverData? && s'.w.writes != s.w.writes then s.taken + [a.d] else s.taken)
    && s'.echoes == (if a.SendAck? then s.echoes + [NewEcho(s)] else s.echoes)
    && s'.delivered == s.delivered + (if a.DeliverData? then 1 else 0)
  }

  ghost predicate ClockedTo(c: Config, s: Clocked, a: Step, s': Clocked) {
    LooseStep(c, s.w, a, s'.w) && Records(s, a, s')
  }

  ghost function Clock(c: Config): (Clocked, Step, Clocked) -> bool {
    (s, a, v) => ClockedTo(c, s, a, v)
  }

  // What every run keeps

  function Stamp48(d: Data): nat { d.frame.handle.ts % TWO_48 }

  /** The newest timestamp among some frames, on 48 bits; zero if there are none. */
  function Newest(ds: seq<Data>): nat {
    if ds == [] then 0 else Max(Newest(ds[..|ds| - 1]), Stamp48(ds[|ds| - 1]))
  }

  lemma NewestMore(ds: seq<Data>, d: Data)
    ensures Newest(ds + [d]) == Max(Newest(ds), Stamp48(d))
  {
    assert (ds + [d])[..|ds|] == ds;
  }

  /** It is that of one of the frames, and no frame's is larger. */
  lemma {:induction false} NewestIs(ds: seq<Data>)
    ensures Newest(ds) < TWO_48
    ensures forall d :: d in ds ==> Stamp48(d) <= Newest(ds)
    ensures ds != [] ==> exists d :: d in ds && Stamp48(d) == Newest(ds)
  {
    if ds != [] {
      var less, last := ds[..|ds| - 1], ds[|ds| - 1];
      NewestIs(less);
      assert ds == less + [last] && last in ds;
      if Newest(ds) != Stamp48(last) {
        var d :| d in less && Stamp48(d) == Newest(less);
        assert d in ds;
      }
    }
  }

  ghost predicate FrameOk(d: Data, now: nat) {
    var h := d.frame.handle;
    h.cmd == PKT_CMD_DATA && !h.compacted && h.sn == ShortSn(d.index) && h.ts <= now
  }

  ghost predicate SendingsOk(s: Clocked) {
    && (forall d :: d in s.w.data ==> FrameOk(d, s.w.now) && Sending(d, d.frame.handle.ts) in s.sendings)
    && (forall x :: x in s.sendings ==> x.d in s.w.data && x.at == x.d.frame.handle.ts)
  }

  ghost predicate TakenOk(s: Clocked) {
    && |s.taken| == |s.w.writes| && (forall d :: d in s.taken ==> d in s.w.data)
    && s.w.rcv.inbox.lastTs == Newest(s.taken)
  }

  /** An acknowledgement says what was so when it was sent. */
  ghost predicate EchoOk(e: Echo, taken: seq<Data>) {
    var h := e.ack.frame.handle;
    && e.ack.value == e.tail && e.open <= 65 && e.taken <= |taken|
    && h.cmd == PKT_CMD_ACK && !h.compacted
    && h.sn == e.tail % SN_SPACE && h.wnd == Max(e.open, 8) && h.ts == Newest(taken[..e.taken])
  }

  /** The acknowledgements recorded. */
  function Acks(echoes: seq<Echo>): set<Ack> {
    if echoes == [] then {} else Acks(echoes[..|echoes| - 1]) + {echoes[|echoes| - 1].ack}
  }

  lemma AcksMore(echoes: seq<Echo>, e: Echo)
    ensures Acks(echoes + [e]) == Acks(echoes) + {e.ack}
  {
    assert (echoes + [e])[..|echoes|] == echoes;
  }

  lemma {:induction false} AcksListed(echoes: seq<Echo>)
    ensures forall i :: 0 <= i < |echoes| ==> echoes[i].ack in Acks(echoes)
    ensures forall a :: a in Acks(echoes) ==> exists i :: 0 <= i < |echoes| && echoes[i].ack == a
  {
    if echoes != [] {
      var n := |echoes| - 1;
      var less := echoes[..n];
      AcksListed(less);
      forall i | 0 <= i < |echoes| ensures echoes[i].ack in Acks(echoes) {
        if i < n { assert less[i].ack in Acks(less); }
      }
      forall a | a in Acks(echoes) ensures exists i :: 0 <= i < |echoes| && echoes[i].ack == a {
        if a in Acks(less) {
          var i :| 0 <= i < n && less[i].ack == a;
          assert echoes[i].ack == a;
        } else {
          assert echoes[n].ack == a;
        }
      }
    }
  }

  ghost predicate EchoesOk(s: Clocked) {
    && s.w.acks == Acks(s.echoes)
    && (forall k :: 0 <= k < |s.echoes| ==> EchoOk(s.echoes[k], s.taken))
  }

  ghost predicate CountsOk(s: Clocked) {
    && |s.echoes| <= s.w.rcv.ackPackets <= s.w.rcv.recvPackets <= s.delivered
    && (!s.w.aborted ==> s.w.rcv.recvPackets == s.delivered)
  }

  ghost predicate ClockInv(c: Config, s: Clocked) {
    Shape(c, s.w) && SendingsOk(s) && TakenOk(s) && EchoesOk(s) && CountsOk(s)
  }

  // Passes

  lemma VolleyFrames(r: Ring, base: nat, end: nat, frags: seq<Buffer>, at: nat, mem: seq<Byte>, k: nat)
    requires Holds(r, base, frags) && base <= end <= r.head && base + k < end
    ensures var d := Data(base + k, Volley(r.handles, base, end, at, mem)[k]); FrameOk(d, at) && d.frame.handle.ts == at
  {
    VolleyAt(r.handles, base, end, at, mem, k);
    assert Carries(At(r.handles, base + k), base + k, frags[base + k], r.session);
  }

  lemma FrameFrom(s: Sender, p: Pass, frags: seq<Buffer>, at: nat, mem: seq<Byte>, d: Data)
    requires Holds(s.ring, s.tail, frags) && AllOrNothing(s, p, at, mem) && d in Addressed(p.out, s.tail)
    ensures FrameOk(d, at) && d.frame.handle.ts == at
  {
    var k :| 0 <= k < |p.out| && d == Data(s.tail + k, p.out[k]);
    VolleyFrames(s.ring, s.tail, Min(s.ring.head, s.tail + s.win.cwnd), frags, at, mem, k);
  }

  /** What a pass puts on the network: frames of live indices, with its own time. */
  lemma FramesOfPass(c: Config, w: World, at: nat, d: Data)
    requires Shape(c, w) && w.now <= at < TWO_64 && d in TransmitNext(w, at).data && d !in w.data
    ensures FrameOk(d, at) && d.frame.handle.ts == at
  {
    SenderPass(w.snd, w.now, at, w.smem);
    FrameFrom(w.snd, SendPass(w.snd, at, w.smem), w.frags, at, w.smem, d);
  }

  lemma PassKeeps(c: Config, s: Clocked, at: nat, s': Clocked)
    requires Shape(c, s.w) && SendingsOk(s) && s.w.now <= at < TWO_64 && s'.w == TransmitNext(s.w, at)
    requires s'.sendings == s.sendings + (set d | d in s'.w.data - s.w.data :: Sending(d, at))
    ensures SendingsOk(s')
  {
    forall d | d in s'.w.data ensures FrameOk(d, at) && Sending(d, d.frame.handle.ts) in s'.sendings {
      if d !in s.w.data { FramesOfPass(c, s.w, at, d); }
    }
    forall x | x in s'.sendings ensures x.d in s'.w.data && x.at == x.d.frame.handle.ts {
      if x !in s.sendings { FramesOfPass(c, s.w, at, x.d); }
    }
  }

  // Deliveries

  /** Only a copied packet can change the newest timestamp. */
  lemma MarkStamps(s: Inbox, posted: seq<Buffer>, sn: nat, ts: nat, payload: seq<Byte>)
    requires Tracks(s, posted) && Drained(s)
    ensures Markable(s, sn)
    ensures Mark(s, sn, ts, payload).Kept? ==>
              Mark(s, sn, ts, payload).inbox.lastTs == if Copies(s, sn) == [] then s.lastTs else Max(s.lastTs, ts)
  {
    var slot := Slot(sn, |s.requests|);
    var j := LiveIndex(s.tail, slot, |s.requests|);
    LiveIndexSlot(s.tail, slot, |s.requests|);
    SlotInBounds(s, posted, sn);
    if Admits(s.tail, s.wnd, sn) && s.requests[slot].inflight {
      assert At(s.requests, j).inflight;
      if |payload| == s.requests[slot].length {
        CompleteKeeps(s, posted, j, ts, payload);
      }
    } else if Admits(s.tail, s.wnd, sn) {
      PostKeeps(s, posted);
    }
  }

  /** What a delivered data packet changes. */
  ghost predicate Takes(w: World, d: Data, w': World) {
    && w' == w.(rcv := w'.rcv, writes := w'.writes, aborted := w'.aborted)
    && w'.rcv == w.rcv.(inbox := w'.rcv.inbox, recvPackets := w'.rcv.recvPackets)
    && (w.aborted ==> w'.aborted)
    && if w'.aborted && !w.aborted then w' == w.(aborted := true)
       else && w.writes <= w'.writes && |w'.writes| <= |w.writes| + 1
            && w'.rcv.inbox.lastTs == (if w'.writes == w.writes then w.rcv.inbox.lastTs
                                       else Max(w.rcv.inbox.lastTs, Stamp48(d)))
            && w.rcv.recvPackets <= w'.rcv.recvPackets <= w.rcv.recvPackets + 1
            && (!w'.aborted ==> w'.rcv.recvPackets == w.rcv.recvPackets + 1)
  }

  lemma DataTaken(c: Config, w: World, d: Data, grh: seq<Byte>)
    requires Shape(c, w) && |grh| == GRH_SIZE && FrameOk(d, w.now)
    ensures Takes(w, d, DeliverDataNext(w, d, grh))
  {
    ArrivesAsImage(d.frame, grh);
    var r := Image(d.frame);
    MarkAny(w.rcv.inbox, w.posted, r.sn, r.ts, r.payload);
    MarkStamps(w.rcv.inbox, w.posted, r.sn, r.ts, r.payload);
    assert DeliverDataNext(w, d, grh) == ReceiverTakes(w, r);
    if Mark(w.rcv.inbox, r.sn, r.ts, r.payload).Kept? {
      var more := Copies(w.rcv.inbox, r.sn);
      assert |more| <= 1 && (w.writes + more == w.writes <==> more == []);
    }
  }

  lemma EchoesKept(echoes: seq<Echo>, taken: seq<Data>, taken': seq<Data>)
    requires taken <= taken' && forall k :: 0 <= k < |echoes| ==> EchoOk(echoes[k], taken)
    ensures forall k :: 0 <= k < |echoes| ==> EchoOk(echoes[k], taken')
  {
    forall k | 0 <= k < |echoes| ensures EchoOk(echoes[k], taken') {
      assert taken'[..echoes[k].taken] == taken[..echoes[k].taken];
    }
  }

  lemma DeliveryKeeps(c: Config, s: Clocked, d: Data, grh: seq<Byte>, s': Clocked)
    requires ClockInv(c, s) && ClockedTo(c, s, DeliverData(d, grh), s')
    ensures TakenOk(s') && EchoesOk(s') && CountsOk(s') && SendingsOk(s')
  {
    assert Takes(s.w, d, s'.w) by { DataTaken(c, s.w, d, grh); }
    EchoesKept(s.echoes, s.taken, s'.taken);
    DeliveryCounts(s, d, s');
  }

  lemma DeliveryCounts(s: Clocked, d: Data, s': Clocked)
    requires TakenOk(s) && CountsOk(s) && Takes(s.w, d, s'.w) && d in s.w.data && s'.echoes == s.echoes
    requires s'.taken == (if s'.w.writes != s.w.writes then s.taken + [d] else s.taken)
    requires s'.delivered == s.delivered + 1
    ensures TakenOk(s') && CountsOk(s')
  {
    if s'.w.writes != s.w.writes { NewestMore(s.taken, d); }
  }

  // Acknowledgements

  lemma EchoOfNow(c: Config, s: Clocked)
    requires Shape(c, s.w) && TakenOk(s)
    ensures s.w.rcv.inbox.tail <= s.w.rcv.inbox.head && EchoOk(NewEcho(s), s.taken)
  {
    assert s.taken[..|s.taken|] == s.taken;
    var open := Max(s.w.rcv.inbox.head - s.w.rcv.inbox.tail, 8);
    assert U16(open) == open;
  }

  lemma AnswerKeeps(c: Config, s: Clocked, s': Clocked)
    requires ClockInv(c, s) && OwesAck(s.w.rcv) && s.w.rcv.inbox.tail <= s.w.rcv.inbox.head
    requires s'.w == SendAckNext(s.w) && Records(s, SendAck, s')
    ensures EchoesOk(s') && CountsOk(s')
  {
    assert EchoOk(NewEcho(s), s.taken) by { EchoOfNow(c, s); }
    AnswerRecorded(s, s');
  }

  lemma AnswerRecorded(s: Clocked, s': Clocked)
    requires EchoesOk(s) && CountsOk(s) && OwesAck(s.w.rcv) && s.w.rcv.inbox.tail <= s.w.rcv.inbox.head
    requires EchoOk(NewEcho(s), s.taken) && s'.w == SendAckNext(s.w) && Records(s, SendAck, s')
    ensures EchoesOk(s') && CountsOk(s')
  {
    AcksMore(s.echoes, NewEcho(s));
    assert s'.w.acks == s.w.acks + {NewEcho(s).ack};
  }

  /** All other steps leave frames, acknowledgements and the receiver's counts as they are. */
  lemma OthersKeep(c: Config, s: Clocked, a: Step, s': Clocked)
    requires ClockInv(c, s) && ClockedTo(c, s, a, s')
    requires !a.DeliverData? && !a.SendAck?
    ensures s'.w.acks == s.w.acks && s'.w.writes == s.w.writes && s'.w.rcv.inbox.lastTs == s.w.rcv.inbox.lastTs
    ensures s'.w.rcv.ackPackets == s.w.rcv.ackPackets && s'.w.rcv.recvPackets == s.w.rcv.recvPackets
    ensures s'.w.aborted == s.w.aborted && s.w.now <= s'.w.now && s.w.data <= s'.w.data
    ensures !a.Transmit? ==> s'.w.data == s.w.data
  {
    match a
    case Receive(list) =>
      var f := CutAll(list, FragmentSize(c));
      CutAllGather(s.w.rcv.inbox.mem, list, FragmentSize(c));
      TracksAppend(s.w.rcv.inbox, s.w.posted, f);
      PostKeeps(s.w.rcv.inbox.(todo := s.w.rcv.inbox.todo + f), s.w.posted + f);
    case _ =>
  }

  lemma ClockKeeps(c: Config, s: Clocked, a: Step, s': Clocked)
    requires ClockInv(c, s) && ClockedTo(c, s, a, s')
    ensures ClockInv(c, s')
  {
    StepShape(c, s.w, a);
    if a.DeliverData? {
      DeliveryKeeps(c, s, a.d, a.dgrh, s');
    } else if a.SendAck? {
      AnswerKeeps(c, s, s');
    } else {
      OthersKeep(c, s, a, s');
      if a.Transmit? { PassKeeps(c, s, a.at, s'); }
    }
  }

  lemma ClockRun(c: Config, s: Clocked, run: Run<Clocked, Step>)
    requires ClockedInit(c, s) && IsRun(Clock(c), s, run)
    ensures ClockInv(c, Last(s, run))
  {
    InitShape(c, s.w);
    var inv := v => ClockInv(c, v);
    forall v, a, v' | inv(v) && Clock(c)(v, a, v') ensures inv(v') {
      ClockKeeps(c, v, a, v');
    }
    Invariance(Clock(c), inv, s, run);
  }

  /**
   In every state of every run, whatever network and applications do: every frame carries
   the time of the pass that sent it; every acknowledgement carries the receive tail, the
   open requests, at least eight, and the newest timestamp accepted, all as they were when
   it was sent; and there are no more of them than packets counted, all delivered ones.
   */
  lemma AcksExact(c: Config, s: Clocked, run: Run<Clocked, Step>)
    requires ClockedInit(c, s) && IsRun(Clock(c), s, run)
    ensures var v := Last(s, run);
            && SendingsOk(v) && TakenOk(v) && CountsOk(v)
            && (forall k :: 0 <= k < |v.echoes| ==> v.echoes[k].ack in v.w.acks && EchoOk(v.echoes[k], v.taken))
            && (forall a :: a in v.w.acks ==> exists k :: 0 <= k < |v.echoes| && v.echoes[k].ack == a)
  {
    ClockRun(c, s, run);
    AcksListed(Last(s, run).echoes);
  }

  // What the sender makes of an acknowledgement

  lemma SampleIsAge(received: nat, sent: nat)
    requires sent <= received < TWO_64
    ensures RoundTripTime(received, sent % TWO_48) == (received - sent) % TWO_48
  {
    var q, x := sent / TWO_48, received - sent % TWO_48;
    var age := received - sent;
    assert sent == TWO_48 * q + sent % TWO_48;
    assert age == TWO_48 * (age / TWO_48) + age % TWO_48;
    assert x == TWO_48 * (q + age / TWO_48) + age % TWO_48;
    DivModUnique(x, TWO_48, q + age / TWO_48, age % TWO_48);
  }

  /** One of the newest frames that an acknowledgement echoes. */
  ghost predicate Echoed(x: Sending, ds: seq<Data>) {
    x.d in ds && forall d :: d in ds ==> Stamp48(d) <= Stamp48(x.d)
  }

  /** The windows after an acknowledgement: the congestion rule, and the queue's window set to its result. */
  ghost predicate Rewound(c: Config, s: Sender, rwnd: nat, s': Sender)
    requires GoodConfig(c)
  {
    && s'.win == OnSuccess(s.win, c.mtu, rwnd) && s'.win.cwnd <= rwnd == s'.win.rwnd
    && s'.ring.wnd == (if s.ring.wnd == s'.win.cwnd then s'.win.cwnd else Min(s'.win.cwnd, c.capacity % 65536))
    && (c.capacity < 65536 ==> s'.ring.wnd == s'.win.cwnd)
  }

  /**
   The sample taken from acknowledgement `e` is the age of the newest frame accepted when it
   was sent, on 48 bits: its true age if and only if that is below 2^48.
   */
  ghost predicate Sampled(v: Clocked, e: Echo, received: nat, rtt: Rtt)
    requires e.taken <= |v.taken|
  {
    && (e.taken == 0 ==> Weighs(v.w.snd.rtt, received % TWO_48, rtt, MIN_RTO, MAX_RTO))
    && (e.taken > 0 ==> exists x :: x in v.sendings && Echoed(x, v.taken[..e.taken]))
    && (forall x :: x in v.sendings && Echoed(x, v.taken[..e.taken]) ==>
          AgeWeighs(v.w.snd.rtt, x.at, received, rtt, MIN_RTO, MAX_RTO))
  }

  ghost predicate AgeWeighs(e: Rtt, sent: nat, received: nat, rtt: Rtt, lo: nat, hi: nat) {
    && sent <= received && Weighs(e, (received - sent) % TWO_48, rtt, lo, hi)
    && ((received - sent) % TWO_48 == received - sent <==> received - sent < TWO_48)
  }

  /** What the sender makes of an acknowledgement, from every state of every run. */
  lemma AckHeeded(c: Config, s: Clocked, run: Run<Clocked, Step>, k: nat, grh: seq<Byte>, received: nat)
    requires ClockedInit(c, s) && IsRun(Clock(c), s, run) && k < |Last(s, run).echoes|
    requires Possible(c, Last(s, run).w, DeliverAck(Last(s, run).echoes[k].ack, grh, received))
    ensures Shaped(Last(s, run).w)
    ensures var v := Last(s, run);
            var e := v.echoes[k];
            var s' := Next(c, v.w, DeliverAck(e.ack, grh, received)).snd;
            && s'.tail == AckTail(v.w.snd.tail, v.w.snd.ring.head, e.tail % SN_SPACE)
            && e.taken <= |v.taken| && Sampled(v, e, received, s'.rtt) && Rewound(c, v.w.snd, Max(e.open, 8), s')
  {
    var v := Last(s, run);
    assert ClockInv(c, v) by { ClockRun(c, s, run); }
    SenderHeeds(c, v, k, grh, received);
  }

  lemma SenderHeeds(c: Config, v: Clocked, k: nat, grh: seq<Byte>, received: nat)
    requires ClockInv(c, v) && k < |v.echoes| && Possible(c, v.w, DeliverAck(v.echoes[k].ack, grh, received))
    ensures var e := v.echoes[k];
            var s' := DeliverAckNext(c, v.w, e.ack, grh, received).snd;
            && s'.tail == AckTail(v.w.snd.tail, v.w.snd.ring.head, e.tail % SN_SPACE)
            && e.taken <= |v.taken| && Sampled(v, e, received, s'.rtt) && Rewound(c, v.w.snd, Max(e.open, 8), s')
  {
    var e := v.echoes[k];
    assert e.open <= 65 && EchoOk(e, v.taken);
    var r := EchoArrives(e, v.taken, grh);
    SenderTakes(c, v.w, e.ack, r, grh, received);
    AgesWeigh(v, e, received, DeliverAckNext(c, v.w, e.ack, grh, received).snd.rtt);
  }

  lemma SenderTakes(c: Config, w: World, a: Ack, r: Received, grh: seq<Byte>, received: nat)
    requires Shape(c, w) && |grh| == GRH_SIZE && received < TWO_64 && Arrive(Wire(a.frame), grh) == Some(r)
    requires r.cmd == PKT_CMD_ACK && r.sn < SN_SPACE && r.ts < TWO_48 && r.wnd <= 65
    ensures var s' := DeliverAckNext(c, w, a, grh, received).snd;
            && s'.tail == AckTail(w.snd.tail, w.snd.ring.head, r.sn) && Rewound(c, w.snd, r.wnd, s')
            && Weighs(w.snd.rtt, RoundTripTime(received, r.ts), s'.rtt, MIN_RTO, MAX_RTO)
  {
    AckSets(c, w.snd, r, received);
  }

  lemma EchoArrives(e: Echo, taken: seq<Data>, grh: seq<Byte>) returns (r: Received)
    requires EchoOk(e, taken) && |grh| == GRH_SIZE
    ensures Arrive(Wire(e.ack.frame), grh) == Some(r) && r.cmd == PKT_CMD_ACK
    ensures r.sn == e.tail % SN_SPACE && r.ts == e.ack.frame.handle.ts < TWO_48 && r.wnd == Max(e.open, 8)
  {
    NewestIs(taken[..e.taken]);
    r := ArrivesWhole(e.ack.frame, grh);
  }

  /** A frame whose fields fit their widths arrives as it was sent. */
  lemma ArrivesWhole(f: Frame, grh: seq<Byte>) returns (r: Received)
    requires |grh| == GRH_SIZE && f.handle.cmd < 2 && !f.handle.compacted
    requires f.handle.sn < SN_SPACE && f.handle.wnd < TWO_16 && f.handle.ts < TWO_48
    ensures Arrive(Wire(f), grh) == Some(r) && r.cmd == f.handle.cmd
    ensures r.sn == f.handle.sn && r.wnd == f.handle.wnd && r.ts == f.handle.ts && r.payload == f.payload
  {
    ImageWhole(f);
    r := Image(f);
    ArrivesAsImage(f, grh);
  }

  lemma ImageWhole(f: Frame)
    requires f.handle.cmd < 2 && !f.handle.compacted
    requires f.handle.sn < SN_SPACE && f.handle.wnd < TWO_16 && f.handle.ts < TWO_48
    ensures var r := Image(f);
            && r.cmd == f.handle.cmd && r.sn == f.handle.sn && r.wnd == f.handle.wnd && r.ts == f.handle.ts
            && r.payload == f.payload
  {
    DivModUnique(f.handle.ts, TWO_48, 0, f.handle.ts);
    DivModUnique(f.handle.sn, SN_SPACE, 0, f.handle.sn);
    DivModUnique(f.handle.wnd, TWO_16, 0, f.handle.wnd);
  }

  lemma AgeOf(e: Rtt, sent: nat, received: nat, rtt: Rtt, lo: nat, hi: nat)
    requires sent <= received < TWO_64 && Weighs(e, RoundTripTime(received, sent % TWO_48), rtt, lo, hi)
    ensures AgeWeighs(e, sent, received, rtt, lo, hi)
  {
    SampleIsAge(received, sent);
  }

  lemma AgesWeigh(v: Clocked, e: Echo, received: nat, rtt: Rtt)
    requires SendingsOk(v) && TakenOk(v) && EchoOk(e, v.taken) && v.w.now <= received < TWO_64
    requires e.ack.frame.handle.ts < TWO_48
    requires Weighs(v.w.snd.rtt, RoundTripTime(received, e.ack.frame.handle.ts), rtt, MIN_RTO, MAX_RTO)
    ensures Sampled(v, e, received, rtt)
  {
    var ds, ts := v.taken[..e.taken], e.ack.frame.handle.ts;
    NewestIs(ds);
    if ds == [] { AgeOf(v.w.snd.rtt, 0, received, rtt, MIN_RTO, MAX_RTO); } else { EchoExists(v, e); }
    forall x | x in v.sendings && Echoed(x, ds)
      ensures AgeWeighs(v.w.snd.rtt, x.at, received, rtt, MIN_RTO, MAX_RTO)
    {
      assert FrameOk(x.d, v.w.now) && ts == Stamp48(x.d);
      AgeOf(v.w.snd.rtt, x.at, received, rtt, MIN_RTO, MAX_RTO);
    }
  }

  lemma EchoExists(v: Clocked, e: Echo)
    requires SendingsOk(v) && TakenOk(v) && EchoOk(e, v.taken) && 0 < e.taken
    ensures exists x :: x in v.sendings && Echoed(x, v.taken[..e.taken])
  {
    var ds := v.taken[..e.taken];
    NewestIs(ds);
    var d :| d in ds && Stamp48(d) == e.ack.frame.handle.ts;
    assert d in v.taken;
    assert Sending(d, d.frame.handle.ts) in v.sendings && Echoed(Sending(d, d.frame.handle.ts), ds);
  }

  lemma AckSets(c: Config, s: Sender, r: Received, received: nat)
    requires GoodConfig(c) && |s.ring.handles| == c.capacity && received < TWO_64 && r.sn < SN_SPACE && r.ts < TWO_48
    requires r.wnd <= 65
    ensures var s' := OnAck(s, c.mtu, r, received);
            && s'.tail == AckTail(s.tail, s.ring.head, r.sn) && Rewound(c, s, r.wnd, s')
            && Weighs(s.rtt, RoundTripTime(received, r.ts), s'.rtt, MIN_RTO, MAX_RTO)
  {
    FillKeepsWnd(s.ring, AckTail(s.tail, s.ring.head, r.sn));
    OnSuccessCapped(s.win, c.mtu, r.wnd);
    UpdateWeighs(s.rtt, RoundTripTime(received, r.ts), MIN_RTO, MAX_RTO);
  }
}
