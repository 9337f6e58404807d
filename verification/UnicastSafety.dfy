/** Every step of the unicast protocol keeps its invariant, so every run does. */
module UnicastSafety {
  import opened Arithmetic
  import opened SequenceNumbers
  import opened Fragmentation
  import opened Packets
  import opened SendRing
  import opened ReceiveRing
  import opened Control
  import opened Endpoint
  import opened Unicast
  import opened Runs

  /** Neither side's tail ever goes back. */
  ghost predicate Later(w: World, w': World) {
    w'.snd.tail >= w.snd.tail && w'.rcv.inbox.tail >= w.rcv.inbox.tail
  }

  // The sender's ring

  lemma HoldsAppend(r: Ring, base: nat, frags: seq<Buffer>, f: seq<Buffer>)
    requires Holds(r, base, frags)
    ensures Holds(r.(todo := r.todo + f), base, frags + f)
  {
    forall i: nat | base <= i < r.head ensures Carries(At(r.handles, i), i, (frags + f)[i], r.session) {
      assert (frags + f)[i] == frags[i];
    }
  }

  lemma HoldsAdvance(r: Ring, base: nat, base': nat, frags: seq<Buffer>)
    requires Holds(r, base, frags) && base <= base' <= r.head
    ensures Holds(r, base', frags)
  {}

  /** New packets carry no timer yet, so they come last in the order of timers. */
  lemma SortedFill(r: Ring, r': Ring, base: nat, now: nat)
    requires Sorted(r.handles, base, r.head, now) && FilledFrom(r, r', base)
    ensures Sorted(r'.handles, base, r'.head, now)
  {
    forall i: nat | base <= i < r'.head
      ensures At(r'.handles, i).ts == if i < r.head then At(r.handles, i).ts else 0
    {
      if i < r.head { assert At(r'.handles, i) == At(r.handles, i); }
    }
  }

  /** Filling after a push or an acknowledgement keeps the sender in order. */
  lemma FillOk(c: Config, s: Sender, tail: nat, frags: seq<Buffer>, f: seq<Buffer>, now: nat)
    requires GoodConfig(c) && SenderOk(c, s, frags, now) && s.tail <= tail <= s.ring.head
    requires forall i :: 0 <= i < |frags + f| ==> !Refused((frags + f)[i])
    ensures var ring := Fill(s.ring.(todo := s.ring.todo + f), tail).ring;
            && SenderOk(c, s.(ring := ring, tail := tail), frags + f, now)
            && FilledFrom(s.ring.(todo := s.ring.todo + f), ring, tail)
  {
    var r := s.ring.(todo := s.ring.todo + f);
    HoldsAppend(s.ring, s.tail, frags, f);
    HoldsAdvance(r, s.tail, tail, frags + f);
    FillKeeps(r, tail, frags + f);
    SortedFill(r, Fill(r, tail).ring, tail, now);
  }

  // Growing history

  lemma DeliveredGrow(s: Inbox, posted: seq<Buffer>, released: nat, sent: seq<seq<Byte>>, limit: nat,
                      more: seq<seq<Byte>>, limit': nat)
    requires Delivered(s, posted, released, sent, limit) && limit <= limit' <= |sent + more|
    ensures Delivered(s, posted, released, sent + more, limit')
  {}

  lemma DataGrow(data: set<Data>, sent: seq<seq<Byte>>, limit: nat, more: seq<seq<Byte>>, limit': nat)
    requires (forall d :: d in data ==> DataOk(d, sent, limit)) && limit <= limit' <= |sent + more|
    ensures forall d :: d in data ==> DataOk(d, sent + more, limit')
  {
    forall d | d in data ensures DataOk(d, sent + more, limit') {
      assert (sent + more)[d.index] == sent[d.index];
    }
  }

  lemma AcksGrow(acks: set<Ack>, limit: nat, limit': nat)
    requires (forall a :: a in acks ==> AckOk(a, limit)) && limit <= limit'
    ensures forall a :: a in acks ==> AckOk(a, limit')
  {
    forall a | a in acks ensures AckOk(a, limit') { assert AckOk(a, limit); }
  }

  /** Nothing is received that was not in the sender's ring before. */
  lemma ReceivedBelowHead(s: Inbox, posted: seq<Buffer>, released: nat, sent: seq<seq<Byte>>, limit: nat)
    requires Delivered(s, posted, released, sent, limit)
    ensures s.tail <= limit
  {
    if s.tail > 0 { assert Accepted(s, s.tail - 1); }
  }

  lemma InvShaped(c: Config, w: World)
    requires Inv(c, w)
    ensures Shaped(w) && w.rcv.inbox.tail <= w.snd.ring.head
  {
    ReceivedBelowHead(w.rcv.inbox, w.posted, w.released, w.sent, w.snd.ring.head);
  }

  // Applications

  /** Applications that push and post lists of equal lengths always match. */
  lemma EqualListsMatch(frags: seq<Buffer>, posted: seq<Buffer>, pushed: seq<Buffer>, list: seq<Buffer>, size: nat)
    requires 0 < size && |frags| == |posted| && Matching(frags, posted)
    requires |pushed| == |list| && forall i :: 0 <= i < |pushed| ==> pushed[i].length == list[i].length
    ensures |frags + CutAll(pushed, size)| == |posted + CutAll(list, size)|
    ensures Matching(frags + CutAll(pushed, size), posted + CutAll(list, size))
  {
    CutAllLengths(pushed, list, size);
  }

  lemma SourceAppend(smem: seq<Byte>, frags: seq<Buffer>, sent: seq<seq<Byte>>, tail: nat, f: seq<Buffer>)
    requires SourceOk(smem, frags, sent, tail)
    requires forall i :: 0 <= i < |f| ==> InBounds(smem, f[i]) && !Refused(f[i])
    ensures SourceOk(smem, frags + f, sent + Contents(smem, f), tail)
  {
    var frags', sent' := frags + f, sent + Contents(smem, f);
    forall i: nat | i < |frags'|
      ensures !Refused(frags'[i]) && InBounds(smem, frags'[i]) && |sent'[i]| == frags'[i].length
      ensures tail <= i ==> Read(smem, frags'[i]) == sent'[i]
    {
      if i >= |frags| { assert frags'[i] == f[i - |frags|] && sent'[i] == Contents(smem, f)[i - |frags|]; }
    }
  }

  lemma SendKeeps(c: Config, w: World, list: seq<Buffer>)
    requires Inv(c, w) && Enabled(c, w, Send(list))
    ensures Inv(c, SendNext(c, w, list))
    ensures FilledFrom(w.snd.ring.(todo := w.snd.ring.todo + CutAll(list, FragmentSize(c))),
                       SendNext(c, w, list).snd.ring, w.snd.tail)
  {
    var f := CutAll(list, FragmentSize(c));
    CutAllGather(w.smem, list, FragmentSize(c));
    CutAllLoadable(list, FragmentSize(c));
    assert forall i :: 0 <= i < |f| ==> f[i] in f;
    SourceAppend(w.smem, w.frags, w.sent, w.snd.tail, f);
    assert forall i :: 0 <= i < |w.frags + f| ==> !Refused((w.frags + f)[i]);
    FillOk(c, w.snd, w.snd.tail, w.frags, f, w.now);
    var w' := SendNext(c, w, list);
    var more := Contents(w.smem, f);
    DeliveredGrow(w.rcv.inbox, w.posted, w.released, w.sent, w.snd.ring.head, more, w'.snd.ring.head);
    DataGrow(w.data, w.sent, w.snd.ring.head, more, w'.snd.ring.head);
  }

  lemma DeliveredPost(s: Inbox, s': Inbox, posted: seq<Buffer>, f: seq<Buffer>, released: nat, sent: seq<seq<Byte>>,
                      limit: nat)
    requires Delivered(s, posted, released, sent, limit) && SameAccepted(s, s') && s'.mem == s.mem
    requires s'.tail <= s'.head <= |posted + f| && forall b :: b in f ==> InBounds(s.mem, b)
    ensures Delivered(s', posted + f, released, sent, limit)
  {
    forall i: nat | i < |posted + f| ensures InBounds(s.mem, (posted + f)[i]) {
      assert (posted + f)[i] == if i < |posted| then posted[i] else f[i - |posted|];
    }
    forall i: nat | released <= i && Accepted(s', i) ensures Read(s'.mem, (posted + f)[i]) == sent[i] {
      assert Accepted(s, i);
    }
  }

  lemma TracksAppend(s: Inbox, posted: seq<Buffer>, f: seq<Buffer>)
    requires Tracks(s, posted) && Drained(s) && forall b :: b in f ==> InBounds(s.mem, b)
    ensures Tracks(s.(todo := s.todo + f), posted + f) && Drained(s.(todo := s.todo + f))
    ensures SameAccepted(s, s.(todo := s.todo + f))
  {
    forall i: nat | i < |posted + f| ensures InBounds(s.mem, (posted + f)[i]) {
      assert (posted + f)[i] == if i < |posted| then posted[i] else f[i - |posted|];
    }
  }

  /** Posting more buffers keeps a receiver in order. */
  lemma PostOk(c: Config, r: Receiver, posted: seq<Buffer>, released: nat, sent: seq<seq<Byte>>, limit: nat,
               f: seq<Buffer>)
    requires ReceiverOk(c, r, posted, released, sent, limit)
    requires (forall b :: b in f ==> InBounds(r.inbox.mem, b)) && Apart(posted + f, released)
    ensures var inbox := Post(r.inbox.(todo := r.inbox.todo + f));
            && ReceiverOk(c, r.(inbox := inbox), posted + f, released, sent, limit)
            && SameAccepted(r.inbox, inbox) && inbox.tail == r.inbox.tail
  {
    var queued := r.inbox.(todo := r.inbox.todo + f);
    TracksAppend(r.inbox, posted, f);
    PostKeeps(queued, posted + f);
    assert SameAccepted(r.inbox, Post(queued)) by {
      forall i: nat ensures Accepted(Post(queued), i) <==> Accepted(r.inbox, i) {
        assert Accepted(queued, i) <==> Accepted(r.inbox, i);
      }
    }
    DeliveredPost(r.inbox, Post(queued), posted, f, released, sent, limit);
  }

  lemma WritesSame(s: Inbox, s': Inbox, writes: seq<nat>)
    requires WritesOk(s, writes) && SameAccepted(s, s')
    ensures WritesOk(s', writes)
  {
    forall i: nat ensures i in writes <==> Accepted(s', i) { assert Accepted(s', i) <==> Accepted(s, i); }
  }

  lemma ReceiveKeeps(c: Config, w: World, list: seq<Buffer>)
    requires Inv(c, w) && Enabled(c, w, Receive(list))
    ensures Shaped(w) && Inv(c, ReceiveNext(c, w, list)) && Later(w, ReceiveNext(c, w, list))
  {
    var f := CutAll(list, FragmentSize(c));
    CutAllGather(w.rcv.inbox.mem, list, FragmentSize(c));
    PostOk(c, w.rcv, w.posted, w.released, w.sent, w.snd.ring.head, f);
    WritesSame(w.rcv.inbox, ReceiveNext(c, w, list).rcv.inbox, w.writes);
  }

  lemma SendMemoryKeeps(c: Config, w: World, smem: seq<Byte>)
    requires Inv(c, w) && Enabled(c, w, WriteSendMemory(smem))
    ensures Inv(c, w.(smem := smem))
  {
    forall i: nat | w.snd.tail <= i < |w.frags| ensures Read(smem, w.frags[i]) == w.sent[i] {
      assert InBounds(w.smem, w.frags[i]);
    }
  }

  lemma ReceiveMemoryKeeps(c: Config, w: World, rmem: seq<Byte>)
    requires Inv(c, w) && Enabled(c, w, WriteReceiveMemory(rmem))
    ensures Inv(c, w.(rcv := w.rcv.(inbox := w.rcv.inbox.(mem := rmem))))
  {
    var inbox := w.rcv.inbox.(mem := rmem);
    assert SameAccepted(w.rcv.inbox, inbox);
    WritesSame(w.rcv.inbox, inbox, w.writes);
    forall i: nat | w.released <= i && Accepted(inbox, i) ensures Read(rmem, w.posted[i]) == w.sent[i] {
      assert Accepted(w.rcv.inbox, i);
    }
  }

  lemma MemoryKeeps(c: Config, w: World, a: Step)
    requires Inv(c, w) && Enabled(c, w, a)
    requires a.WriteSendMemory? || a.WriteReceiveMemory? || a.Release? || a.ChangePool? || a.ChangeRtt? || a.AckSent?
    ensures Shaped(w) && Inv(c, Next(c, w, a))
  {
    InvShaped(c, w);
    match a
    case WriteSendMemory(smem) => SendMemoryKeeps(c, w, smem);
    case WriteReceiveMemory(rmem) => ReceiveMemoryKeeps(c, w, rmem);
    case Release(_) =>
    case ChangePool(_) =>
    case ChangeRtt(_) =>
    case AckSent =>
  }

  // Sending

  lemma StampedHolds(r: Ring, handles: seq<Handle>, wnd: nat, base: nat, end: nat, now: nat, frags: seq<Buffer>)
    requires Holds(r, base, frags) && Stamped(r.handles, handles, base, end, now) && base <= end <= r.head
    ensures Holds(r.(handles := handles, wnd := wnd), base, frags)
  {
    forall i: nat | base <= i < r.head ensures Carries(At(handles, i), i, frags[i], r.session) {
      assert Carries(At(r.handles, i), i, frags[i], r.session);
      assert At(handles, i) == (if i < end then At(r.handles, i).(ts := now) else At(r.handles, i));
    }
    forall s | 0 <= s < |handles| && handles[s].packet != 0 ensures !handles[s].compacted {
      var j := Representative(s, base, |handles|);
      assert At(handles, j) == (if j < end then At(r.handles, j).(ts := now) else At(r.handles, j));
    }
  }

  /**
   Go-Back-N: a pass either sends nothing or sends exactly the packets of
   `[tail, min(head, tail + cwnd))`, each once and in order.
   */
  ghost predicate AllOrNothing(s: Sender, p: Pass, at: nat, mem: seq<Byte>)
    requires |s.ring.handles| > 0
  {
    var end := Min(s.ring.head, s.tail + s.win.cwnd);
    && s.tail <= end && p.wnd <= MAX_WND
    && if s.tail < end && at - At(s.ring.handles, s.tail).ts >= s.rtt.rto
       then Stamped(s.ring.handles, p.handles, s.tail, end, at)
            && p.out == Volley(s.ring.handles, s.tail, end, at, mem)
       else p == Pass(s.ring.handles, s.ring.wnd, [])
  }

  lemma SenderPass(s: Sender, now: nat, at: nat, mem: seq<Byte>)
    requires Sorted(s.ring.handles, s.tail, s.ring.head, now) && s.tail <= s.ring.head <= s.tail + |s.ring.handles|
    requires s.ring.wnd <= MAX_WND && s.win.cwnd <= MAX_WND && s.rtt.rto <= now <= at < TWO_64
    ensures AllOrNothing(s, SendPass(s, at, mem), at, mem)
  {
    var end := Min(s.ring.head, s.tail + s.win.cwnd);
    assert Sorted(s.ring.handles, s.tail, end, at);
    assert SendPass(s, at, mem).wnd <= MAX_WND by {
      BurstWnd(s.ring.handles, s.ring.wnd, s.win.cwnd, s.tail, end, at, s.rtt.rto, mem, MAX_WND);
    }
    BurstAllOrNothing(s.ring.handles, s.ring.wnd, s.win.cwnd, s.tail, end, at, s.rtt.rto, mem);
  }

  lemma PassAllOrNothing(c: Config, w: World, at: nat)
    requires Inv(c, w) && w.now <= at < TWO_64
    ensures |w.snd.ring.handles| > 0 && AllOrNothing(w.snd, SendPass(w.snd, at, w.smem), at, w.smem)
  {
    SenderPass(w.snd, w.now, at, w.smem);
  }

  lemma TransmitKeeps(c: Config, w: World, at: nat)
    requires Inv(c, w) && Enabled(c, w, Transmit(at))
    ensures Inv(c, TransmitNext(w, at))
  {
    PassAllOrNothing(c, w, at);
    var s := w.snd;
    var p := SendPass(s, at, w.smem);
    var end := Min(s.ring.head, s.tail + s.win.cwnd);
    if p.out == [] && p.handles == s.ring.handles {
      assert Addressed(p.out, s.tail) == {};
      assert w.data + {} == w.data;
    } else {
      StampedHolds(s.ring, p.handles, p.wnd, s.tail, end, at, w.frags);
      StampedSorted(s.ring.handles, p.handles, s.tail, end, s.ring.head, w.now, at);
    }
    VolleyOk(c, w, at, p.out);
  }

  lemma VolleyOk(c: Config, w: World, at: nat, out: seq<Frame>)
    requires Inv(c, w)
    requires var end := Min(w.snd.ring.head, w.snd.tail + w.snd.win.cwnd);
             out == [] || out == Volley(w.snd.ring.handles, w.snd.tail, end, at, w.smem)
    ensures forall d :: d in w.data + Addressed(out, w.snd.tail) ==> DataOk(d, w.sent, w.snd.ring.head)
  {
    var end := Min(w.snd.ring.head, w.snd.tail + w.snd.win.cwnd);
    forall i: nat | w.snd.tail <= i < end
      ensures DataOk(Data(i, Shot(At(w.snd.ring.handles, i), at, w.smem)), w.sent, w.snd.ring.head)
    {
      LiveShotOk(c, w, at, i);
    }
    if out != [] {
      AddressedOk(w.snd.ring.handles, w.snd.tail, end, at, w.smem, w.sent, w.snd.ring.head);
    } else {
      assert Addressed(out, w.snd.tail) == {};
    }
  }

  lemma AddressedOk(handles: seq<Handle>, base: nat, end: nat, at: nat, mem: seq<Byte>, sent: seq<seq<Byte>>,
                    limit: nat)
    requires |handles| > 0
    requires forall i: nat :: base <= i < end ==> DataOk(Data(i, Shot(At(handles, i), at, mem)), sent, limit)
    ensures forall d :: d in Addressed(Volley(handles, base, end, at, mem), base) ==> DataOk(d, sent, limit)
  {
    var out := Volley(handles, base, end, at, mem);
    forall d | d in Addressed(out, base) ensures DataOk(d, sent, limit) {
      var k :| 0 <= k < |out| && d == Data(base + k, out[k]);
      VolleyAt(handles, base, end, at, mem, k);
    }
  }

  lemma LiveShotOk(c: Config, w: World, at: nat, i: nat)
    requires Inv(c, w) && w.snd.tail <= i < w.snd.ring.head
    ensures DataOk(Data(i, Shot(At(w.snd.ring.handles, i), at, w.smem)), w.sent, w.snd.ring.head)
  {
    assert Carries(At(w.snd.ring.handles, i), i, w.frags[i], w.snd.ring.session);
    assert InBounds(w.smem, w.frags[i]) && Read(w.smem, w.frags[i]) == w.sent[i];
  }

  // Receiving

  /** Whether a packet is copied, told from what the receiver sees, is whether its fragment awaits it. */
  lemma CopiedIff(s: Inbox, posted: seq<Buffer>, i: nat)
    requires Tracks(s, posted) && Slot(ShortSn(i), |s.requests|) == Slot(i, |s.requests|) && s.wnd < SN_SPACE
    requires i < s.tail + SN_SPACE && DataExact(s.tail, s.wnd, i)
    ensures Copies(s, ShortSn(i)) == if Fits(s, i) then [i] else []
  {
    ReadExactly(s.tail, s.wnd, i);
    assert s.requests[Slot(ShortSn(i), |s.requests|)] == At(s.requests, i);
    if Fits(s, i) { LiveIndexUnique(s.tail, i, |s.requests|); }
  }

  /** A packet with the right contents keeps a receiver in order. */
  lemma MarkOk(c: Config, r: Receiver, posted: seq<Buffer>, released: nat, sent: seq<seq<Byte>>, limit: nat, i: nat,
               ts: nat)
    requires GoodConfig(c) && ReceiverOk(c, r, posted, released, sent, limit)
    requires i < limit && Recognisable(r.inbox, posted, i, |sent[i]|)
    ensures Markable(r.inbox, ShortSn(i)) && Mark(r.inbox, ShortSn(i), ts, sent[i]).Kept?
    ensures var inbox := Mark(r.inbox, ShortSn(i), ts, sent[i]).inbox;
            && Marked(r.inbox, inbox, posted, i, ts, sent[i])
            && ReceiverOk(c, r.(inbox := inbox, recvPackets := r.recvPackets + 1), posted, released, sent, limit)
  {
    MarkKeeps(r.inbox, posted, i, ts, sent[i]);
    MarkDelivers(r.inbox, posted, released, sent, limit, i, ts);
  }

  /** What is copied was not copied before. */
  lemma WritesMark(s: Inbox, s': Inbox, posted: seq<Buffer>, i: nat, ts: nat, payload: seq<Byte>, writes: seq<nat>)
    requires Marked(s, s', posted, i, ts, payload) && WritesOk(s, writes)
    ensures WritesOk(s', if Fits(s, i) then writes + [i] else writes)
  {
    if Fits(s, i) {
      assert !Accepted(s, i);
      forall j: nat ensures j in writes + [i] <==> Accepted(s', j) {}
    } else {
      forall j: nat ensures j in writes <==> Accepted(s', j) {}
    }
  }

  /** What the receiver makes of a datagram of the network. */
  lemma DeliverDataMarks(c: Config, w: World, d: Data, grh: seq<Byte>) returns (ts: nat)
    requires Inv(c, w) && Enabled(c, w, DeliverData(d, grh))
    ensures d.index < |w.sent| && Markable(w.rcv.inbox, ShortSn(d.index))
    ensures Mark(w.rcv.inbox, ShortSn(d.index), ts, w.sent[d.index]).Kept?
    ensures Recognisable(w.rcv.inbox, w.posted, d.index, |w.sent[d.index]|)
    ensures DeliverDataNext(w, d, grh) ==
            w.(rcv := w.rcv.(inbox := Mark(w.rcv.inbox, ShortSn(d.index), ts, w.sent[d.index]).inbox,
                             recvPackets := w.rcv.recvPackets + 1),
               writes := if Fits(w.rcv.inbox, d.index) then w.writes + [d.index] else w.writes)
  {
    InvShaped(c, w);
    var r := DataArrives(d, w.sent, w.snd.ring.head, grh);
    ts := r.ts;
    AlignedSlot(c, |w.frags|, d.index);
    TakesShape(w, r, d.index);
  }

  /** A data frame arrives as what it is. */
  lemma DataArrives(d: Data, sent: seq<seq<Byte>>, limit: nat, grh: seq<Byte>) returns (r: Received)
    requires DataOk(d, sent, limit) && |grh| == GRH_SIZE
    ensures Arrive(Wire(d.frame), grh) == Some(r)
    ensures r.cmd == PKT_CMD_DATA && r.sn == ShortSn(d.index) && r.payload == sent[d.index]
  {
    DataImage(d, sent, limit);
    r := Image(d.frame);
    ArrivesAsImage(d.frame, grh);
  }

  lemma DataImage(d: Data, sent: seq<seq<Byte>>, limit: nat)
    requires DataOk(d, sent, limit)
    ensures var r := Image(d.frame);
            r.cmd == PKT_CMD_DATA && r.sn == ShortSn(d.index) && r.payload == sent[d.index]
  {}

  /** An acknowledgement frame arrives as what it is. */
  lemma AckArrives(a: Ack, limit: nat, grh: seq<Byte>) returns (r: Received)
    requires AckOk(a, limit) && |grh| == GRH_SIZE
    ensures Arrive(Wire(a.frame), grh) == Some(r)
    ensures r.cmd == PKT_CMD_ACK && r.sn == ShortSn(a.value) && r.ts < TWO_48
    ensures r.wnd == a.frame.handle.wnd && MIN_ADVERTISED <= r.wnd <= MAX_WND
  {
    AckImage(a, limit);
    r := Image(a.frame);
    ArrivesAsImage(a.frame, grh);
  }

  lemma AckImage(a: Ack, limit: nat)
    requires AckOk(a, limit)
    ensures var r := Image(a.frame);
            && r.cmd == PKT_CMD_ACK && r.sn == ShortSn(a.value) && r.ts < TWO_48
            && r.wnd == a.frame.handle.wnd
  {}

  lemma TakesShape(w: World, r: Received, i: nat)
    requires 0 < |w.rcv.inbox.requests| && Tracks(w.rcv.inbox, w.posted) && Drained(w.rcv.inbox)
    requires Recognisable(w.rcv.inbox, w.posted, i, |r.payload|) && r.sn == ShortSn(i)
    ensures Markable(w.rcv.inbox, r.sn) && Mark(w.rcv.inbox, r.sn, r.ts, r.payload).Kept?
    ensures ReceiverTakes(w, r) ==
            w.(rcv := w.rcv.(inbox := Mark(w.rcv.inbox, r.sn, r.ts, r.payload).inbox,
                             recvPackets := w.rcv.recvPackets + 1),
               writes := if Fits(w.rcv.inbox, i) then w.writes + [i] else w.writes)
  {
    assert Markable(w.rcv.inbox, r.sn) && Mark(w.rcv.inbox, r.sn, r.ts, r.payload).Kept? by {
      MarkKeeps(w.rcv.inbox, w.posted, i, r.ts, r.payload);
    }
    CopiedIff(w.rcv.inbox, w.posted, i);
  }

  lemma DeliverDataKeeps(c: Config, w: World, d: Data, grh: seq<Byte>)
    requires Inv(c, w) && Enabled(c, w, DeliverData(d, grh))
    ensures Inv(c, DeliverDataNext(w, d, grh)) && Later(w, DeliverDataNext(w, d, grh))
  {
    var ts := DeliverDataMarks(c, w, d, grh);
    MarkOk(c, w.rcv, w.posted, w.released, w.sent, w.snd.ring.head, d.index, ts);
    var w' := DeliverDataNext(w, d, grh);
    WritesMark(w.rcv.inbox, w'.rcv.inbox, w.posted, d.index, ts, w.sent[d.index], w.writes);
    AcksGrow(w.acks, w.rcv.inbox.tail, w'.rcv.inbox.tail);
  }

  // Acknowledging

  lemma AckFrameOk(r: Receiver)
    requires r.inbox.tail <= r.inbox.head <= r.inbox.tail + MAX_WND
    ensures AckOk(Ack(r.inbox.tail, Frame(AckHandle(r), [])), r.inbox.tail)
  {
    var open := Max(r.inbox.head - r.inbox.tail, MIN_ADVERTISED);
    assert U16(open) == open;
  }

  lemma SendAckKeeps(c: Config, w: World)
    requires Inv(c, w)
    ensures Shaped(w) && Inv(c, SendAckNext(w))
  {
    InvShaped(c, w);
    AckFrameOk(w.rcv);
  }

  /** What an acknowledgement changes, without the arithmetic of the windows. */
  lemma OnAckShape(s: Sender, mtu: nat, ack: Received, received: nat)
    requires |s.ring.handles| > 0 && 0 < mtu && received < TWO_64 && ack.sn < SN_SPACE && ack.ts < TWO_48
    requires ack.wnd <= MAX_WND && s.ring.wnd <= MAX_WND
    requires Fill(s.ring, AckTail(s.tail, s.ring.head, ack.sn)).ring.wnd == s.ring.wnd
    ensures var s' := OnAck(s, mtu, ack, received);
            && s'.tail == AckTail(s.tail, s.ring.head, ack.sn)
            && s'.ring == Fill(s.ring, s'.tail).ring.(wnd := s'.ring.wnd)
            && s'.ring.wnd <= MAX_WND && s'.win.cwnd <= MAX_WND && s'.rtt.rto <= MAX_RTO
  {
    OnSuccessCapped(s.win, mtu, ack.wnd);
  }

  /** Handling an acknowledgement of the receiver's own making keeps the sender in order. */
  lemma AckHandled(c: Config, s: Sender, frags: seq<Buffer>, now: nat, ack: Received, value: nat, received: nat)
    requires GoodConfig(c) && SenderOk(c, s, frags, now) && forall i :: 0 <= i < |frags| ==> !Refused(frags[i])
    requires value <= s.ring.head && AckExact(s.tail, s.ring.head, value) && ack.sn == ShortSn(value)
    requires ack.wnd <= MAX_WND && ack.ts < TWO_48 && now <= received < TWO_64
    ensures var s' := OnAck(s, c.mtu, ack, received);
            && SenderOk(c, s', frags, received)
            && s'.tail == Max(s.tail, value)
            && FilledFrom(s.ring, s'.ring.(wnd := s.ring.wnd), s'.tail)
  {
    AckExactIff(s.tail, s.ring.head, value);
    var tail := Max(s.tail, value);
    var ring := Fill(s.ring, tail).ring;
    assert SenderOk(c, s.(ring := ring, tail := tail), frags, now) && FilledFrom(s.ring, ring, tail) by {
      assert frags + [] == frags && s.ring.(todo := s.ring.todo + []) == s.ring;
      FillOk(c, s, tail, frags, [], now);
    }
    OnAckShape(s, c.mtu, ack, received);
    Rewindow(c, s.(ring := ring, tail := tail), OnAck(s, c.mtu, ack, received), frags, now, received);
    assert OnAck(s, c.mtu, ack, received).ring.(wnd := s.ring.wnd) == ring;
  }

  lemma Rewindow(c: Config, s: Sender, s': Sender, frags: seq<Buffer>, now: nat, now': nat)
    requires SenderOk(c, s, frags, now) && now <= now' < TWO_64
    requires s'.tail == s.tail && s'.ring == s.ring.(wnd := s'.ring.wnd)
    requires s'.ring.wnd <= MAX_WND && s'.win.cwnd <= MAX_WND && s'.rtt.rto <= MAX_RTO
    ensures SenderOk(c, s', frags, now')
  {}

  lemma DeliverAckKeeps(c: Config, w: World, a: Ack, grh: seq<Byte>, received: nat)
    requires Inv(c, w) && Enabled(c, w, DeliverAck(a, grh, received))
    ensures var w' := DeliverAckNext(c, w, a, grh, received);
            && Inv(c, w')
            && w'.snd.tail == Max(w.snd.tail, a.value) && w' == w.(now := received, snd := w'.snd)
  {
    InvShaped(c, w);
    var r := AckArrives(a, w.rcv.inbox.tail, grh);
    AckHandled(c, w.snd, w.frags, w.now, r, a.value, received);
    SenderMoves(c, w, OnAck(w.snd, c.mtu, r, received), a.value, received);
  }

  lemma SenderMoves(c: Config, w: World, snd: Sender, value: nat, received: nat)
    requires Inv(c, w) && SenderOk(c, snd, w.frags, received) && snd.tail == Max(w.snd.tail, value)
    requires value <= w.rcv.inbox.tail && FilledFrom(w.snd.ring, snd.ring.(wnd := w.snd.ring.wnd), snd.tail)
    ensures Inv(c, w.(now := received, snd := snd))
  {
    assert w.sent + [] == w.sent;
    DeliveredGrow(w.rcv.inbox, w.posted, w.released, w.sent, w.snd.ring.head, [], snd.ring.head);
    DataGrow(w.data, w.sent, w.snd.ring.head, [], snd.ring.head);
  }

  // Every run

  lemma StepKeeps(c: Config, w: World, a: Step)
    requires Inv(c, w) && Enabled(c, w, a)
    ensures Shaped(w) && Inv(c, Next(c, w, a))
    ensures Later(w, Next(c, w, a))
  {
    InvShaped(c, w);
    match a
    case Send(list) => SendKeeps(c, w, list);
    case Receive(list) => ReceiveKeeps(c, w, list);
    case WriteSendMemory(_) => MemoryKeeps(c, w, a);
    case WriteReceiveMemory(_) => MemoryKeeps(c, w, a);
    case Release(_) => MemoryKeeps(c, w, a);
    case ChangePool(_) => MemoryKeeps(c, w, a);
    case ChangeRtt(_) => MemoryKeeps(c, w, a);
    case Transmit(at) => TransmitKeeps(c, w, at);
    case DeliverData(d, grh) => DeliverDataKeeps(c, w, d, grh);
    case SendAck => SendAckKeeps(c, w);
    case AckSent => MemoryKeeps(c, w, a);
    case DeliverAck(k, grh, received) => DeliverAckKeeps(c, w, k, grh, received);
  }

  lemma InitInv(c: Config, w: World)
    requires Init(c, w)
    ensures Inv(c, w)
  {
    assert forall s :: 0 <= s < c.capacity ==> w.snd.ring.handles[s] == RawHandle(0);
    assert forall s :: 0 <= s < c.capacity ==> w.rcv.inbox.requests[s] == Request(0, 0, false);
  }

  ghost predicate StepTo(c: Config, w: World, a: Step, w': World) {
    GoodConfig(c) && Shaped(w) && Enabled(c, w, a) && w' == Next(c, w, a)
  }

  /** The step relation of the protocol. */
  ghost function Stepper(c: Config): (World, Step, World) -> bool {
    (w, a, v) => StepTo(c, w, a, v)
  }

  lemma RunKeeps(c: Config, w: World, run: Run<World, Step>)
    requires Inv(c, w) && IsRun(Stepper(c), w, run)
    ensures Inv(c, Last(w, run)) && Later(w, Last(w, run))
  {
    var inv := v => Inv(c, v) && Later(w, v);
    forall v, a, v' | inv(v) && Stepper(c)(v, a, v') ensures inv(v') {
      StepKeeps(c, v, a);
    }
    Invariance(Stepper(c), inv, w, run);
  }

  /**
   End-to-end safety, in every state of every run: the process never aborts; sender tail
   <= receiver tail <= sender head; every received fragment that the application has not
   given back holds exactly the bytes that were sent for it, and was written once.
   */
  lemma EndToEnd(c: Config, w: World, run: Run<World, Step>)
    requires Init(c, w) && IsRun(Stepper(c), w, run)
    ensures var v := Last(w, run);
            && !v.aborted
            && v.snd.tail <= v.rcv.inbox.tail <= v.snd.ring.head <= |v.sent| == |v.frags|
            && v.rcv.inbox.tail <= v.rcv.inbox.head <= |v.posted|
            && (forall i: nat :: v.released <= i < v.rcv.inbox.tail ==>
                  InBounds(v.rcv.inbox.mem, v.posted[i]) && Read(v.rcv.inbox.mem, v.posted[i]) == v.sent[i])
            && (forall i, j :: 0 <= i < j < |v.writes| ==> v.writes[i] != v.writes[j])
            && (forall i: nat :: i < v.rcv.inbox.tail ==> i in v.writes)
            && (forall i: nat :: i in v.writes ==> i < v.snd.ring.head)
  {
    InitInv(c, w);
    RunKeeps(c, w, run);
    var v := Last(w, run);
    InvShaped(c, v);
    forall i: nat | i < v.rcv.inbox.tail
      ensures i in v.writes
      ensures v.released <= i ==>
                InBounds(v.rcv.inbox.mem, v.posted[i]) && Read(v.rcv.inbox.mem, v.posted[i]) == v.sent[i]
    {
      assert Accepted(v.rcv.inbox, i);
    }
  }
}
