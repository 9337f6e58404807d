/**
 What the replies of the replicas say and what the multicast sender makes of them, in every
 run: the receive tail, the window, the newest timestamp, the round-trip sample.
 */
module MulticastTiming {
  import opened Arithmetic
  import opened SequenceNumbers
  import opened Fragmentation
  import opened Packets
  import opened SendRing
  import opened SendQueues
  import opened ReceiveRing
  import opened Control
  import opened Endpoint
  import opened Multicast
  import opened MulticastSafety
  import opened MulticastShape
  import opened Runs
  import U = Unicast
  import S = UnicastSafety
  import T = UnicastTiming

  /** A reply, and its replica when it was sent: tail and number of frames accepted. */
  datatype Echo = Echo(reply: Reply, tail: nat, taken: nat)

  /**
   The protocol with its history: frames sent, for each replica the frames accepted and the
   number of packets that met a receive queue with something posted, and replies sent.
   */
  datatype Clocked = Clocked(w: World, sendings: set<T.Sending>, taken: seq<seq<U.Data>>, met: seq<nat>,
                             echoes: seq<Echo>)

  ghost predicate ClockedInit(m: Setup, s: Clocked) {
    && Sized(m) && Init(m, s.w)
    && s.sendings == {} && Repeats(s.taken, |m.nodes|, []) && Repeats(s.met, |m.nodes|, 0) && s.echoes == []
  }

  function NewEcho(s: Clocked, r: nat): Echo
    requires r < |s.w.rcvs| == |s.taken|
  {
    var rcv := s.w.rcvs[r];
    Echo(Reply(r, U.Ack(rcv.inbox.tail, Frame(ReplyHandle(rcv), []))), rcv.inbox.tail, |s.taken[r]|)
  }

  ghost predicate Records(s: Clocked, a: Step, s': Clocked)
    requires |s.w.rcvs| == |s.w.writes| == |s.taken| == |s.met| && (a.SendAck? || a.DeliverData? ==> a.r < |s.w.rcvs|)
  {
    && s'.sendings == (if a.Transmit? then s.sendings + (set d | d in s'.w.data - s.w.data :: T.Sending(d, a.at))
                       else s.sendings)
    && |s'.w.writes| == |s.w.writes|
    && s'.taken == (if a.DeliverData? && s'.w.writes[a.r] != s.w.writes[a.r]
                    then s.taken[a.r := s.taken[a.r] + [a.d]] else s.taken)
    && s'.met == (if a.DeliverData? && s.w.rcvs[a.r].inbox.head != s.w.rcvs[a.r].inbox.tail
                  then s.met[a.r := s.met[a.r] + 1] else s.met)
    && s'.echoes == (if a.SendAck? then s.echoes + [NewEcho(s, a.r)] else s.echoes)
  }

  ghost predicate ClockedTo(m: Setup, s: Clocked, a: Step, s': Clocked) {
    && LooseStep(m, s.w, a, s'.w) && |s.w.rcvs| == |s.w.writes| == |s.taken| == |s.met|
    && Records(s, a, s')
  }

  ghost function Clock(m: Setup): (Clocked, Step, Clocked) -> bool {
    (s, a, v) => ClockedTo(m, s, a, v)
  }

  // What every run keeps

  ghost predicate SendingsOk(s: Clocked) {
    && (forall d :: d in s.w.data ==> T.FrameOk(d, s.w.now) && T.Sending(d, d.frame.handle.ts) in s.sendings)
    && (forall x :: x in s.sendings ==> x.d in s.w.data && x.at == x.d.frame.handle.ts)
  }

  /** The newest timestamp and the packet counts of a replica. */
  ghost predicate TakenOk(rcv: Receiver, writes: seq<nat>, taken: seq<U.Data>, met: nat, data: set<U.Data>,
                          aborted: bool)
  {
    && |taken| == |writes| && (forall d :: d in taken ==> d in data) && rcv.inbox.lastTs == T.Newest(taken)
    && rcv.recvPackets <= met && (!aborted ==> rcv.recvPackets == met)
  }

  ghost predicate AllTaken(s: Clocked) {
    && |s.w.rcvs| == |s.w.writes| == |s.taken| == |s.met|
    && forall r: nat :: r < |s.w.rcvs| ==>
         TakenOk(s.w.rcvs[r], s.w.writes[r], s.taken[r], s.met[r], s.w.data, s.w.aborted)
  }

  /** A reply says what was so of its replica when it was sent. */
  ghost predicate EchoOk(e: Echo, taken: seq<seq<U.Data>>) {
    var h, r := e.reply.ack.frame.handle, e.reply.replica;
    && r < |taken| && e.reply.ack.value == e.tail && e.taken <= |taken[r]|
    && h.cmd == PKT_CMD_ACK && !h.compacted
    && h.sn == e.tail % SN_SPACE && h.wnd == 64 && h.ts == T.Newest(taken[r][..e.taken])
  }

  /** The acknowledgements recorded. */
  function Replies(echoes: seq<Echo>): set<Reply> {
    if echoes == [] then {} else Replies(echoes[..|echoes| - 1]) + {echoes[|echoes| - 1].reply}
  }

  lemma RepliesMore(echoes: seq<Echo>, e: Echo)
    ensures Replies(echoes + [e]) == Replies(echoes) + {e.reply}
  {
    assert (echoes + [e])[..|echoes|] == echoes;
  }

  lemma {:induction false} RepliesListed(echoes: seq<Echo>)
    ensures forall i :: 0 <= i < |echoes| ==> echoes[i].reply in Replies(echoes)
    ensures forall a :: a in Replies(echoes) ==> exists i :: 0 <= i < |echoes| && echoes[i].reply == a
  {
    if echoes != [] {
      var n := |echoes| - 1;
      var less := echoes[..n];
      RepliesListed(less);
      forall i | 0 <= i < |echoes| ensures echoes[i].reply in Replies(echoes) {
        if i < n { assert less[i].reply in Replies(less); }
      }
      forall a | a in Replies(echoes) ensures exists i :: 0 <= i < |echoes| && echoes[i].reply == a {
        if a in Replies(less) {
          var i :| 0 <= i < n && less[i].reply == a;
          assert echoes[i].reply == a;
        } else {
          assert echoes[n].reply == a;
        }
      }
    }
  }

  ghost predicate EchoesOk(s: Clocked) {
    && s.w.acks == Replies(s.echoes)
    && (forall i :: 0 <= i < |s.echoes| ==> EchoOk(s.echoes[i], s.taken))
  }

  ghost predicate History(s: Clocked) { SendingsOk(s) && AllTaken(s) && EchoesOk(s) }

  ghost predicate ClockInv(m: Setup, s: Clocked) { Shape(m, s.w) && History(s) }

  // Passes

  lemma FramesOfPass(m: Setup, w: World, at: nat, d: U.Data)
    requires Shape(m, w) && w.now <= at < TWO_64 && d in TransmitNext(w, at).data && d !in w.data
    ensures T.FrameOk(d, at) && d.frame.handle.ts == at
  {
    StatePasses(m, w, at);
    assert Carries(At(w.ring.handles, d.index), d.index, w.frags[d.index], w.ring.session);
  }

  lemma PassKeeps(m: Setup, s: Clocked, at: nat, s': Clocked)
    requires Shape(m, s.w) && SendingsOk(s) && s.w.now <= at < TWO_64 && s'.w == TransmitNext(s.w, at)
    requires s'.sendings == s.sendings + (set d | d in s'.w.data - s.w.data :: T.Sending(d, at))
    ensures SendingsOk(s')
  {
    forall d | d in s'.w.data ensures T.FrameOk(d, at) && T.Sending(d, d.frame.handle.ts) in s'.sendings {
      if d !in s.w.data { FramesOfPass(m, s.w, at, d); }
    }
    forall x | x in s'.sendings ensures x.d in s'.w.data && x.at == x.d.frame.handle.ts {
      if x !in s.sendings { FramesOfPass(m, s.w, at, x.d); }
    }
  }

  // Deliveries

  /** What a delivered data packet changes: its own replica, if something is posted there. */
  ghost predicate Takes(w: World, r: nat, d: U.Data, w': World)
    requires r < |w.rcvs| == |w.writes|
  {
    && w' == w.(rcvs := w'.rcvs, writes := w'.writes, aborted := w'.aborted) && (w.aborted ==> w'.aborted)
    && |w'.rcvs| == |w.rcvs| && |w'.writes| == |w.writes|
    && w'.rcvs == w.rcvs[r := w'.rcvs[r]] && w'.writes == w.writes[r := w'.writes[r]]
    && if w.rcvs[r].inbox.head == w.rcvs[r].inbox.tail then w' == w
       else if w'.aborted && !w.aborted then w' == w.(aborted := true)
       else TakesHere(w.rcvs[r], w.writes[r], d, w'.rcvs[r], w'.writes[r], w'.aborted)
  }

  ghost predicate TakesHere(rcv: Receiver, writes: seq<nat>, d: U.Data, rcv': Receiver, writes': seq<nat>,
                            aborted: bool)
  {
    && writes <= writes' && |writes'| <= |writes| + 1
    && rcv' == rcv.(inbox := rcv'.inbox, recvPackets := rcv'.recvPackets)
    && rcv'.inbox.lastTs == (if writes' == writes then rcv.inbox.lastTs else Max(rcv.inbox.lastTs, T.Stamp48(d)))
    && rcv.recvPackets <= rcv'.recvPackets <= rcv.recvPackets + 1
    && (!aborted ==> rcv'.recvPackets == rcv.recvPackets + 1)
  }

  lemma DataTaken(m: Setup, w: World, r: nat, d: U.Data, grh: seq<Byte>)
    requires Shape(m, w) && r < |w.rcvs| && |grh| == GRH_SIZE && T.FrameOk(d, w.now)
    ensures Takes(w, r, d, DeliverDataNext(w, r, d, grh))
  {
    assert ReplicaShape(m, w, r);
    ArrivesAsImage(d.frame, grh);
    var q, rcv := Image(d.frame), w.rcvs[r];
    MarkAny(rcv.inbox, w.posted[r], q.sn, q.ts, q.payload);
    T.MarkStamps(rcv.inbox, w.posted[r], q.sn, q.ts, q.payload);
    assert DeliverDataNext(w, r, d, grh) == ReplicaTakes(w, r, q);
    assert w.rcvs[r := w.rcvs[r]] == w.rcvs && w.writes[r := w.writes[r]] == w.writes;
    if Mark(rcv.inbox, q.sn, q.ts, q.payload).Kept? {
      var more := Copies(rcv.inbox, q.sn);
      assert |more| <= 1 && (w.writes[r] + more == w.writes[r] <==> more == []);
    }
  }

  lemma TakenHere(rcv: Receiver, writes: seq<nat>, taken: seq<U.Data>, met: nat, data: set<U.Data>, d: U.Data,
                  rcv': Receiver, writes': seq<nat>, aborted: bool, aborted': bool)
    requires TakenOk(rcv, writes, taken, met, data, aborted) && d in data && (aborted ==> aborted')
    requires TakesHere(rcv, writes, d, rcv', writes', aborted')
    ensures TakenOk(rcv', writes', if writes' != writes then taken + [d] else taken, met + 1, data, aborted')
  {
    if writes' != writes { T.NewestMore(taken, d); }
  }

  lemma DeliveryTaken(s: Clocked, r: nat, d: U.Data, s': Clocked)
    requires AllTaken(s) && r < |s.w.rcvs| && d in s.w.data && Takes(s.w, r, d, s'.w)
    requires s'.taken == (if s'.w.writes[r] != s.w.writes[r] then s.taken[r := s.taken[r] + [d]] else s.taken)
    requires s'.met == (if s.w.rcvs[r].inbox.head != s.w.rcvs[r].inbox.tail then s.met[r := s.met[r] + 1] else s.met)
    ensures AllTaken(s')
  {
    forall q: nat | q < |s'.w.rcvs|
      ensures TakenOk(s'.w.rcvs[q], s'.w.writes[q], s'.taken[q], s'.met[q], s'.w.data, s'.w.aborted)
    {
      assert TakenOk(s.w.rcvs[q], s.w.writes[q], s.taken[q], s.met[q], s.w.data, s.w.aborted);
      if q == r && s.w.rcvs[r].inbox.head != s.w.rcvs[r].inbox.tail && !(s'.w.aborted && !s.w.aborted) {
        TakenHere(s.w.rcvs[r], s.w.writes[r], s.taken[r], s.met[r], s.w.data, d, s'.w.rcvs[r], s'.w.writes[r],
                  s.w.aborted, s'.w.aborted);
      }
    }
  }

  /** A step that accepts and counts nothing. */
  lemma CountsSame(s: Clocked, s': Clocked)
    requires AllTaken(s) && s'.taken == s.taken && s'.met == s.met && s'.w.writes == s.w.writes
    requires s.w.data <= s'.w.data && s'.w.aborted == s.w.aborted && |s'.w.rcvs| == |s.w.rcvs|
    requires forall r: nat :: r < |s.w.rcvs| ==> SameCounts(s.w.rcvs[r], s'.w.rcvs[r])
    ensures AllTaken(s')
  {
    forall q: nat | q < |s'.w.rcvs|
      ensures TakenOk(s'.w.rcvs[q], s'.w.writes[q], s'.taken[q], s'.met[q], s'.w.data, s'.w.aborted)
    {
      assert SameCounts(s.w.rcvs[q], s'.w.rcvs[q]);
      assert TakenOk(s.w.rcvs[q], s.w.writes[q], s.taken[q], s.met[q], s.w.data, s.w.aborted);
    }
  }

  predicate SameCounts(rcv: Receiver, rcv': Receiver) {
    rcv'.inbox.lastTs == rcv.inbox.lastTs && rcv'.recvPackets == rcv.recvPackets
  }

  lemma EchoesKept(echoes: seq<Echo>, taken: seq<seq<U.Data>>, r: nat, more: seq<U.Data>)
    requires r < |taken| && forall i :: 0 <= i < |echoes| ==> EchoOk(echoes[i], taken)
    ensures forall i :: 0 <= i < |echoes| ==> EchoOk(echoes[i], taken[r := taken[r] + more])
  {
    forall i | 0 <= i < |echoes| ensures EchoOk(echoes[i], taken[r := taken[r] + more]) {
      var e := echoes[i];
      var q := e.reply.replica;
      assert taken[r := taken[r] + more][q][..e.taken] == taken[q][..e.taken];
    }
  }

  lemma DeliveryKeeps(m: Setup, s: Clocked, r: nat, d: U.Data, grh: seq<Byte>, s': Clocked)
    requires ClockInv(m, s) && r < |s.w.rcvs| && d in s.w.data && |grh| == GRH_SIZE
    requires s'.w == DeliverDataNext(s.w, r, d, grh) && Records(s, DeliverData(r, d, grh), s')
    ensures History(s')
  {
    DataTaken(m, s.w, r, d, grh);
    DeliveryRecorded(s, r, d, grh, s');
  }

  lemma DeliveryRecorded(s: Clocked, r: nat, d: U.Data, grh: seq<Byte>, s': Clocked)
    requires History(s) && r < |s.w.rcvs| && d in s.w.data && Takes(s.w, r, d, s'.w)
    requires Records(s, DeliverData(r, d, grh), s')
    ensures History(s')
  {
    SendingsSame(s, r, d, grh, s');
    TakenRecorded(s, r, d, grh, s');
    EchoesRecorded(s, r, d, grh, s');
  }

  lemma SendingsSame(s: Clocked, r: nat, d: U.Data, grh: seq<Byte>, s': Clocked)
    requires |s.w.rcvs| == |s.w.writes| == |s.taken| == |s.met| && r < |s.w.rcvs| && Takes(s.w, r, d, s'.w)
    requires SendingsOk(s) && Records(s, DeliverData(r, d, grh), s')
    ensures SendingsOk(s')
  {}

  lemma TakenRecorded(s: Clocked, r: nat, d: U.Data, grh: seq<Byte>, s': Clocked)
    requires |s.w.rcvs| == |s.w.writes| == |s.taken| == |s.met| && r < |s.w.rcvs| && Takes(s.w, r, d, s'.w)
    requires AllTaken(s) && d in s.w.data && Records(s, DeliverData(r, d, grh), s')
    ensures AllTaken(s')
  {
    DeliveryTaken(s, r, d, s');
  }

  lemma EchoesRecorded(s: Clocked, r: nat, d: U.Data, grh: seq<Byte>, s': Clocked)
    requires |s.w.rcvs| == |s.w.writes| == |s.taken| == |s.met| && r < |s.w.rcvs| && Takes(s.w, r, d, s'.w)
    requires EchoesOk(s) && Records(s, DeliverData(r, d, grh), s')
    ensures EchoesOk(s')
  {
    EchoesMore(s, r, d, s');
  }

  lemma EchoesMore(s: Clocked, r: nat, d: U.Data, s': Clocked)
    requires EchoesOk(s) && r < |s.taken| && s'.w.acks == s.w.acks && s'.echoes == s.echoes
    requires s'.taken == s.taken || s'.taken == s.taken[r := s.taken[r] + [d]]
    ensures EchoesOk(s')
  {
    EchoesKept(s.echoes, s.taken, r, [d]);
  }

  // Replies

  lemma EchoOfNow(m: Setup, s: Clocked, r: nat)
    requires Shape(m, s.w) && AllTaken(s) && r < |s.w.rcvs|
    ensures EchoOk(NewEcho(s, r), s.taken)
  {
    assert ReplicaShape(m, s.w, r);
    assert TakenOk(s.w.rcvs[r], s.w.writes[r], s.taken[r], s.met[r], s.w.data, s.w.aborted);
    assert s.taken[r][..|s.taken[r]|] == s.taken[r];
  }

  lemma AnswerKeeps(m: Setup, s: Clocked, r: nat, s': Clocked)
    requires ClockInv(m, s) && r < |s.w.rcvs| && s'.w == SendAckNext(s.w, r) && Records(s, SendAck(r), s')
    ensures History(s')
  {
    assert EchoOk(NewEcho(s, r), s.taken) by { EchoOfNow(m, s, r); }
    AnswerRecorded(s, r, s');
  }

  lemma AnswerRecorded(s: Clocked, r: nat, s': Clocked)
    requires History(s) && r < |s.w.rcvs| && EchoOk(NewEcho(s, r), s.taken)
    requires s'.w == SendAckNext(s.w, r) && Records(s, SendAck(r), s')
    ensures History(s')
  {
    assert s'.w.acks == s.w.acks + {NewEcho(s, r).reply};
    CountsSame(s, s');
    EchoAdded(s, NewEcho(s, r), s');
  }

  lemma EchoAdded(s: Clocked, e: Echo, s': Clocked)
    requires EchoesOk(s) && EchoOk(e, s.taken) && s'.taken == s.taken
    requires s'.w.acks == s.w.acks + {e.reply} && s'.echoes == s.echoes + [e]
    ensures EchoesOk(s')
  {
    RepliesMore(s.echoes, e);
  }

  /** All other steps leave frames, replies and the replicas' counts as they are. */
  lemma OthersKeep(m: Setup, w: World, a: Step)
    requires Shape(m, w) && Shaped(m, w) && Possible(m, w, a) && !a.DeliverData? && !a.SendAck?
    ensures var w' := Next(m, w, a);
            && w'.acks == w.acks && w'.writes == w.writes && w'.aborted == w.aborted && w.now <= w'.now
            && w.data <= w'.data && (!a.Transmit? ==> w'.data == w.data)
            && |w'.rcvs| == |w.rcvs|
            && (forall r: nat :: r < |w.rcvs| ==> SameCounts(w.rcvs[r], w'.rcvs[r]))
  {
    match a
    case Receive(r, list) => PostCounts(m, w, r, list);
    case DeliverAck(k, grh, received) => OnlySenderTakes(m, w, k, grh, received);
    case _ =>
  }

  lemma PostCounts(m: Setup, w: World, r: nat, list: seq<Buffer>)
    requires Shape(m, w) && Shaped(m, w) && Possible(m, w, Receive(r, list))
    ensures SameCounts(w.rcvs[r], ReceiveNext(m, w, r, list).rcvs[r])
  {
    assert ReplicaShape(m, w, r);
    var f, s := CutAll(list, U.FragmentSize(m.c)), w.rcvs[r].inbox;
    CutAllGather(s.mem, list, U.FragmentSize(m.c));
    S.TracksAppend(s, w.posted[r], f);
    PostKeeps(s.(todo := s.todo + f), w.posted[r] + f);
  }

  lemma OnlySenderTakes(m: Setup, w: World, k: Reply, grh: seq<Byte>, received: nat)
    requires Shape(m, w) && Shaped(m, w) && Possible(m, w, DeliverAck(k, grh, received))
    ensures var w' := DeliverAckNext(m, w, k, grh, received);
            && w' == w.(ring := w'.ring, tails := w'.tails, win := w'.win, rtt := w'.rtt, now := received)
  {}

  lemma OthersTaken(m: Setup, s: Clocked, a: Step, s': Clocked)
    requires ClockInv(m, s) && ClockedTo(m, s, a, s') && !a.DeliverData? && !a.SendAck?
    ensures AllTaken(s') && EchoesOk(s') && (!a.Transmit? ==> SendingsOk(s'))
  {
    OthersKeep(m, s.w, a);
    CountsSame(s, s');
  }

  lemma ClockKeeps(m: Setup, s: Clocked, a: Step, s': Clocked)
    requires ClockInv(m, s) && ClockedTo(m, s, a, s')
    ensures ClockInv(m, s')
  {
    assert Shape(m, s'.w) by { StepShape(m, s.w, a); }
    if a.DeliverData? {
      DeliveryKeeps(m, s, a.r, a.d, a.dgrh, s');
    } else if a.SendAck? {
      AnswerKeeps(m, s, a.r, s');
    } else {
      OthersTaken(m, s, a, s');
      if a.Transmit? { PassKeeps(m, s, a.at, s'); }
    }
  }

  lemma ClockStart(m: Setup, s: Clocked)
    requires ClockedInit(m, s)
    ensures ClockInv(m, s)
  {
    assert Shape(m, s.w) by { InitShape(m, s.w); }
    forall r: nat | r < |s.w.rcvs|
      ensures TakenOk(s.w.rcvs[r], s.w.writes[r], s.taken[r], s.met[r], s.w.data, s.w.aborted)
    {
      assert NewReceiver(m.c, s.w.rcvs[r]);
    }
  }

  lemma ClockRun(m: Setup, s: Clocked, run: Run<Clocked, Step>)
    requires ClockedInit(m, s) && IsRun(Clock(m), s, run)
    ensures ClockInv(m, Last(s, run))
  {
    ClockStart(m, s);
    var inv := v => ClockInv(m, v);
    forall v, a, v' | inv(v) && Clock(m)(v, a, v') ensures inv(v') {
      ClockKeeps(m, v, a, v');
    }
    Invariance(Clock(m), inv, s, run);
  }

  /**
   In every state of every run, whatever network, routing and applications do: every frame
   carries the time of the pass that sent it; every reply carries its replica's receive
   tail, the window and the newest timestamp accepted, as they were when it was sent; and a
   replica counts exactly the packets that find something posted.
   */
  lemma RepliesExact(m: Setup, s: Clocked, run: Run<Clocked, Step>)
    requires ClockedInit(m, s) && IsRun(Clock(m), s, run)
    ensures var v := Last(s, run);
            && SendingsOk(v) && AllTaken(v)
            && (forall i :: 0 <= i < |v.echoes| ==> v.echoes[i].reply in v.w.acks && EchoOk(v.echoes[i], v.taken))
            && (forall k :: k in v.w.acks ==> exists i :: 0 <= i < |v.echoes| && v.echoes[i].reply == k)
  {
    ClockRun(m, s, run);
    RepliesListed(Last(s, run).echoes);
  }

  // What the sender makes of a reply

  /** The windows after a reply: the congestion rule, and the queue's window set to its result. */
  ghost predicate Rewound(m: Setup, w: World, rwnd: nat, w': World)
    requires Sized(m)
  {
    && w'.win == OnSuccess(w.win, m.c.mtu, rwnd) && w'.win.cwnd <= rwnd == w'.win.rwnd
    && w'.ring.wnd == (if w.ring.wnd == w'.win.cwnd then w'.win.cwnd else Min(w'.win.cwnd, m.c.capacity % 65536))
    && (m.c.capacity < 65536 ==> w'.ring.wnd == w'.win.cwnd)
  }

  lemma ReplySets(m: Setup, w: World, index: nat, q: Received, received: nat)
    requires Sized(m) && |w.ring.handles| == m.c.capacity && received < TWO_64
    requires q.sn < SN_SPACE && q.ts < TWO_48 && q.wnd <= 65
    ensures var w' := OnReply(w, m.c.mtu, index, q, received);
            && Rewound(m, w, q.wnd, w')
            && Weighs(w.rtt, RoundTripTime(received, q.ts), w'.rtt, MCAST_MIN_RTO, MCAST_MAX_RTO)
  {
    UpdateWeighs(w.rtt, RoundTripTime(received, q.ts), MCAST_MIN_RTO, MCAST_MAX_RTO);
    if index < |w.tails| {
      FillKeepsWnd(w.ring, MinTail(w.tails[index := AckTail(w.tails[index], w.ring.head, q.sn)]));
    }
    WindowSet(m, w.ring.wnd, w.win, q.wnd);
  }

  /** The window that is set: that of the congestion rule, cut to 16 bits and to the capacity's 16 low bits. */
  lemma WindowSet(m: Setup, wnd: nat, win: Window, rwnd: nat)
    requires Sized(m) && rwnd <= 65
    ensures var cwnd := OnSuccess(win, m.c.mtu, rwnd).cwnd;
            cwnd <= rwnd && CapWnd(cwnd, m.c.capacity) == Min(cwnd, m.c.capacity % 65536)
  {
    OnSuccessCapped(win, m.c.mtu, rwnd);
  }

  /** The sample is the age of the newest frame accepted when the reply was sent, on 48 bits. */
  ghost predicate Sampled(v: Clocked, e: Echo, received: nat, rtt: Rtt)
    requires e.reply.replica < |v.taken| && e.taken <= |v.taken[e.reply.replica]|
  {
    var ds := v.taken[e.reply.replica][..e.taken];
    && (ds == [] ==> Weighs(v.w.rtt, received % TWO_48, rtt, MCAST_MIN_RTO, MCAST_MAX_RTO))
    && (ds != [] ==> exists x :: x in v.sendings && T.Echoed(x, ds))
    && (forall x :: x in v.sendings && T.Echoed(x, ds) ==>
          T.AgeWeighs(v.w.rtt, x.at, received, rtt, MCAST_MIN_RTO, MCAST_MAX_RTO))
  }

  lemma EchoArrives(e: Echo, taken: seq<seq<U.Data>>, grh: seq<Byte>) returns (q: Received)
    requires EchoOk(e, taken) && |grh| == GRH_SIZE
    ensures Arrive(Wire(e.reply.ack.frame), grh) == Some(q) && q.cmd == PKT_CMD_ACK
    ensures q.sn == e.tail % SN_SPACE && q.ts == e.reply.ack.frame.handle.ts < TWO_48 && q.wnd == 64
  {
    T.NewestIs(taken[e.reply.replica][..e.taken]);
    q := T.ArrivesWhole(e.reply.ack.frame, grh);
  }

  lemma AgesWeigh(v: Clocked, e: Echo, received: nat, rtt: Rtt)
    requires SendingsOk(v) && AllTaken(v) && EchoOk(e, v.taken) && v.w.now <= received < TWO_64
    requires e.reply.ack.frame.handle.ts < TWO_48
    requires Weighs(v.w.rtt, RoundTripTime(received, e.reply.ack.frame.handle.ts), rtt, MCAST_MIN_RTO, MCAST_MAX_RTO)
    ensures Sampled(v, e, received, rtt)
  {
    var r := e.reply.replica;
    var ds, ts := v.taken[r][..e.taken], e.reply.ack.frame.handle.ts;
    T.NewestIs(ds);
    assert TakenOk(v.w.rcvs[r], v.w.writes[r], v.taken[r], v.met[r], v.w.data, v.w.aborted);
    if ds == [] {
      T.AgeOf(v.w.rtt, 0, received, rtt, MCAST_MIN_RTO, MCAST_MAX_RTO);
    } else {
      var d :| d in ds && T.Stamp48(d) == ts;
      assert d in v.taken[r];
      assert T.Sending(d, d.frame.handle.ts) in v.sendings && T.Echoed(T.Sending(d, d.frame.handle.ts), ds);
    }
    forall x | x in v.sendings && T.Echoed(x, ds)
      ensures T.AgeWeighs(v.w.rtt, x.at, received, rtt, MCAST_MIN_RTO, MCAST_MAX_RTO)
    {
      assert T.FrameOk(x.d, v.w.now) && ts == T.Stamp48(x.d);
      T.AgeOf(v.w.rtt, x.at, received, rtt, MCAST_MIN_RTO, MCAST_MAX_RTO);
    }
  }

  /** From every state of every run, of a reply that the controller routes to this group. */
  lemma ReplyHeeded(m: Setup, s: Clocked, run: Run<Clocked, Step>, i: nat, grh: seq<Byte>, received: nat)
    requires ClockedInit(m, s) && IsRun(Clock(m), s, run) && i < |Last(s, run).echoes|
    requires Shaped(m, Last(s, run).w)
    requires Possible(m, Last(s, run).w, DeliverAck(Last(s, run).echoes[i].reply, grh, received))
    requires var r := Last(s, run).echoes[i].reply.replica;
             r < |m.nodes| && Route(m, r).Some? && Route(m, r).value.group == m.group
    ensures var v := Last(s, run);
            var e := v.echoes[i];
            var w' := Next(m, v.w, DeliverAck(e.reply, grh, received));
            && EchoOk(e, v.taken) && Sampled(v, e, received, w'.rtt) && Rewound(m, v.w, 64, w')
  {
    var v := Last(s, run);
    assert ClockInv(m, v) by { ClockRun(m, s, run); }
    SenderHeeds(m, v, i, grh, received);
  }

  lemma SenderHeeds(m: Setup, v: Clocked, i: nat, grh: seq<Byte>, received: nat)
    requires ClockInv(m, v) && i < |v.echoes| && Shaped(m, v.w)
    requires Possible(m, v.w, DeliverAck(v.echoes[i].reply, grh, received))
    requires var r := v.echoes[i].reply.replica;
             r < |m.nodes| && Route(m, r).Some? && Route(m, r).value.group == m.group
    ensures var e := v.echoes[i];
            var w' := DeliverAckNext(m, v.w, e.reply, grh, received);
            && EchoOk(e, v.taken) && Sampled(v, e, received, w'.rtt) && Rewound(m, v.w, 64, w')
  {
    var e := v.echoes[i];
    assert EchoOk(e, v.taken);
    var q := EchoArrives(e, v.taken, grh);
    RoutedHere(m, v.w, e.reply, q, grh, received);
    AgesWeigh(v, e, received, DeliverAckNext(m, v.w, e.reply, grh, received).rtt);
  }

  lemma RoutedHere(m: Setup, w: World, k: Reply, q: Received, grh: seq<Byte>, received: nat)
    requires Shape(m, w) && |grh| == GRH_SIZE && received < TWO_64 && Arrive(Wire(k.ack.frame), grh) == Some(q)
    requires q.cmd == PKT_CMD_ACK && q.sn < SN_SPACE && q.ts < TWO_48 && q.wnd <= 65
    requires k.replica < |m.nodes| && Route(m, k.replica).Some? && Route(m, k.replica).value.group == m.group
    ensures var w' := DeliverAckNext(m, w, k, grh, received);
            && Rewound(m, w, q.wnd, w')
            && Weighs(w.rtt, RoundTripTime(received, q.ts), w'.rtt, MCAST_MIN_RTO, MCAST_MAX_RTO)
  {
    ReplySets(m, w, Route(m, k.replica).value.index, q, received);
  }
}
