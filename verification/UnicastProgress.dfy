/**
 The unicast protocol does not get stuck, exactly when: over a network that delivers every
 frame at most once, when everything sent can still be acknowledged, and the schedule of
 timeouts, deliveries and acknowledgements that does it.
 */
module UnicastProgress {
  import opened Arithmetic
  import opened SequenceNumbers
  import opened Fragmentation
  import opened Packets
  import opened SendRing
  import opened ReceiveRing
  import opened Control
  import opened Endpoint
  import opened Unicast
  import opened UnicastSafety
  import opened Runs

  // Packet buffers

  lemma StampedShortage(r: Ring, handles: seq<Handle>, wnd: nat, base: nat, end: nat, now: nat)
    requires Stamped(r.handles, handles, base, end, now)
    ensures Shortage(r.(handles := handles, wnd := wnd)) == Shortage(r)
  {
    forall j: nat ensures At(handles, j).packet == At(r.handles, j).packet {
      var i := Representative(Slot(j, |handles|), base, |handles|);
      assert At(handles, i) == (if i < end then At(r.handles, i).(ts := now) else At(r.handles, i));
    }
    NeedsSame(handles, r.handles, r.head, Min(|r.todo|, |handles|));
  }

  // What every run keeps besides

  /** The pass works on a copy of the session, so the slow-start threshold never changes. */
  ghost predicate Live(c: Config, w: World) {
    Inv(c, w) && w.snd.win.ssthresh == MIN_SSTHRESH
  }

  /** What an acknowledgement, whose advertised window is at least 8, does to head and windows. */
  lemma AckWindow(c: Config, w: World, a: Ack, grh: seq<Byte>, received: nat)
    requires Inv(c, w) && Possible(c, w, DeliverAck(a, grh, received))
    ensures var s := DeliverAckNext(c, w, a, grh, received).snd;
            && s.win.ssthresh == w.snd.win.ssthresh && s.ring.head >= w.snd.ring.head
            && (w.snd.win.cwnd == 0 < w.snd.win.ssthresh ==> s.win.cwnd == 1)
  {
    var r := AckArrives(a, w.rcv.inbox.tail, grh);
    assert DeliverAckNext(c, w, a, grh, received).snd == OnAck(w.snd, c.mtu, r, received);
    AckHead(w.snd, c.mtu, r, received);
  }

  lemma AckHead(s: Sender, mtu: nat, ack: Received, received: nat)
    requires |s.ring.handles| > 0 && 0 < mtu && received < TWO_64 && ack.sn < SN_SPACE && ack.ts < TWO_48
    requires 1 <= ack.wnd
    ensures OnAck(s, mtu, ack, received).ring.head >= s.ring.head
    ensures OnAck(s, mtu, ack, received).win.ssthresh == s.win.ssthresh
    ensures s.win.cwnd == 0 < s.win.ssthresh ==> OnAck(s, mtu, ack, received).win.cwnd == 1
  {
    OnSuccessCapped(s.win, mtu, ack.wnd);
    ZeroReopens(s.win, mtu, ack.wnd);
    FillConserves(s.ring, AckTail(s.tail, s.ring.head, ack.sn));
  }

  lemma LiveKeeps(c: Config, w: World, a: Step)
    requires Live(c, w) && Enabled(c, w, a)
    ensures Shaped(w) && Live(c, Next(c, w, a))
  {
    StepKeeps(c, w, a);
    match a
    case DeliverAck(k, grh, received) => AckWindow(c, w, k, grh, received);
    case DeliverData(d, grh) => var ts := DeliverDataMarks(c, w, d, grh);
    case _ =>
  }

  lemma RunLive(c: Config, w: World, run: Run<World, Step>)
    requires Init(c, w) && IsRun(Stepper(c), w, run)
    ensures Live(c, Last(w, run))
  {
    InitInv(c, w);
    var inv := v => Live(c, v);
    forall v, a, v' | inv(v) && Stepper(c)(v, a, v') ensures inv(v') {
      LiveKeeps(c, v, a);
    }
    Invariance(Stepper(c), inv, w, run);
  }

  // A network that delivers every frame at most once

  /** The protocol with the frames sent and not yet delivered. */
  datatype Line = Line(w: World, data: multiset<Data>, acks: multiset<Ack>)

  /** The frames of a pass, each with its index. */
  function Passed(w: World, at: nat): seq<Data>
    requires |w.snd.ring.handles| > 0
  {
    var out := SendPass(w.snd, at, w.smem).out;
    seq(|out|, k requires 0 <= k < |out| => Data(w.snd.tail + k, out[k]))
  }

  function NewAck(w: World): Ack
    requires w.rcv.inbox.tail <= w.rcv.inbox.head
  {
    Ack(w.rcv.inbox.tail, Frame(AckHandle(w.rcv), []))
  }

  /** What a step leaves undelivered. */
  ghost predicate LineTo(c: Config, l: Line, a: Step, l': Line) {
    && StepTo(c, l.w, a, l'.w)
    && match a
       case Transmit(at) => l'.data == l.data + multiset(Passed(l.w, at)) && l'.acks == l.acks
       case DeliverData(d, _) => d in l.data && l'.data == l.data - multiset{d} && l'.acks == l.acks
       case SendAck => l'.data == l.data && l'.acks == l.acks + multiset{NewAck(l.w)}
       case DeliverAck(k, _, _) => k in l.acks && l'.data == l.data && l'.acks == l.acks - multiset{k}
       case _ => l'.data == l.data && l'.acks == l.acks
  }

  /** The steps of a schedule: no application takes part. */
  ghost function Schedule(c: Config): (Line, Step, Line) -> bool {
    (l, a, v) =>
      && LineTo(c, l, a, v)
      && (a.Transmit? || a.DeliverData? || a.SendAck? || a.AckSent? || a.DeliverAck?)
  }

  lemma OneStep(c: Config, l: Line, a: Step, v: Line) returns (run: Run<Line, Step>)
    requires Schedule(c)(l, a, v)
    ensures IsRun(Schedule(c), l, run) && Length(run) == 1 && Last(l, run) == v
  {
    run := Go(a, v, Stop);
  }

  // An exchange: a pass, the delivery of its frames, and an acknowledgement

  function Unacked(w: World): nat {
    if w.snd.tail <= |w.frags| then |w.frags| - w.snd.tail else 0
  }

  /** Nothing has arrived ahead of the receive tail. */
  ghost predicate Ordered(s: Inbox) {
    |s.requests| > 0 && forall i: nat :: Accepted(s, i) ==> i < s.tail
  }

  /** And the sender knows that tail. */
  ghost predicate InOrder(w: World) {
    w.rcv.inbox.tail == w.snd.tail && Ordered(w.rcv.inbox)
  }

  const ANY_GRH: seq<Byte> := BLANK + BLANK + BLANK + BLANK + BLANK

  /** The sender can send: something is in the ring, the window is open, and the pool suffices for the rest. */
  ghost predicate Open(w: World) {
    && w.snd.tail < w.snd.ring.head && 1 <= w.snd.win.cwnd
    && |w.snd.ring.handles| > 0 && Shortage(w.snd.ring) <= 0
  }

  /** Between two worlds of a schedule without acknowledgements delivered. */
  ghost predicate SameSender(w: World, v: World) {
    && v.frags == w.frags && v.posted == w.posted
    && v.snd == w.snd.(ring := v.snd.ring) && v.snd.ring.head == w.snd.ring.head
    && |v.snd.ring.handles| > 0 && |w.snd.ring.handles| > 0 && Shortage(v.snd.ring) == Shortage(w.snd.ring)
  }

  /** When the oldest packet's timer has run out, a pass puts that packet, first, on the network. */
  lemma TransmitSendsTail(c: Config, w: World, at: nat)
    requires Live(c, w) && Open(w) && w.now + MAX_RTO <= at < TWO_64
    ensures var w' := TransmitNext(w, at);
            && Live(c, w') && w' == w.(snd := w'.snd, now := at, data := w'.data) && SameSender(w, w')
            && 1 <= |Passed(w, at)| <= MAX_WND && Passed(w, at)[0].index == w.snd.tail
            && (forall d :: d in Passed(w, at) ==> d in w'.data && w.snd.tail <= d.index)
  {
    TransmitKeeps(c, w, at);
    PassAllOrNothing(c, w, at);
    PassedOk(w, at);
    var s, p := w.snd, SendPass(w.snd, at, w.smem);
    assert At(s.ring.handles, s.tail).ts <= w.now;
    StampedShortage(s.ring, p.handles, p.wnd, s.tail, Min(s.ring.head, s.tail + s.win.cwnd), at);
  }

  lemma PassedOk(w: World, at: nat)
    requires |w.snd.ring.handles| > 0
    ensures |Passed(w, at)| == |SendPass(w.snd, at, w.smem).out|
    ensures forall k :: 0 <= k < |Passed(w, at)| ==> Passed(w, at)[k].index == w.snd.tail + k
    ensures forall d :: d in Passed(w, at) ==> d in TransmitNext(w, at).data && w.snd.tail <= d.index
  {
    var out := SendPass(w.snd, at, w.smem).out;
    forall d | d in Passed(w, at) ensures d in Addressed(out, w.snd.tail) && w.snd.tail <= d.index {
      var k :| 0 <= k < |out| && d == Data(w.snd.tail + k, out[k]);
    }
  }

  /** What the receiver has after some frames of a pass. */
  ghost predicate Received(w: World, v: World, ds: seq<Data>) {
    && v == w.(rcv := v.rcv, writes := v.writes)
    && v.rcv.ackBusy == w.rcv.ackBusy && v.rcv.ackPackets == w.rcv.ackPackets
    && v.rcv.recvPackets == w.rcv.recvPackets + |ds|
    && v.rcv.inbox.tail >= w.rcv.inbox.tail && (ds == [] ==> v.rcv.inbox == w.rcv.inbox)
    && (ds != [] && ds[0].index == w.snd.tail ==> v.rcv.inbox.tail > w.snd.tail)
    && (|ds| == 1 && ds[0].index == w.snd.tail && Ordered(w.rcv.inbox) ==>
          Ordered(v.rcv.inbox) && v.rcv.inbox.tail == Max(w.rcv.inbox.tail, w.snd.tail + 1))
  }

  lemma MarkSteps(s: Inbox, s': Inbox, posted: seq<Buffer>, i: nat, ts: nat, payload: seq<Byte>)
    requires Tracks(s, posted) && Drained(s) && Stocked(s) && Marked(s, s', posted, i, ts, payload)
    requires i <= s.tail && i < |posted| && 0 < s.wnd
    ensures s'.tail > i
    ensures Ordered(s) ==> Ordered(s') && s'.tail == Max(s.tail, i + 1)
  {
    if s.tail == i {
      assert s.head > s.tail;
      assert Fits(s, i);
    }
    if Ordered(s) { OrderedAfter(s, s', posted, i, ts, payload); }
  }

  lemma OrderedAfter(s: Inbox, s': Inbox, posted: seq<Buffer>, i: nat, ts: nat, payload: seq<Byte>)
    requires Tracks(s, posted) && Marked(s, s', posted, i, ts, payload) && Ordered(s)
    requires i <= s.tail && (s.tail == i ==> Fits(s, i))
    ensures Ordered(s') && s'.tail == Max(s.tail, i + 1)
  {
    forall j: nat | Accepted(s', j) ensures j < Max(s.tail, i + 1) {}
    assert !Accepted(s', s'.tail);
    if s.tail == i { assert Accepted(s', i); }
    if s'.tail > 0 { assert Accepted(s', s'.tail - 1); }
  }

  /** Delivering a frame not behind the sender's tail. */
  lemma DeliverOne(c: Config, w: World, d: Data)
    requires Live(c, w) && d in w.data && w.snd.tail <= d.index && |w.frags| <= |w.posted|
    ensures Enabled(c, w, DeliverData(d, ANY_GRH))
    ensures Live(c, DeliverDataNext(w, d, ANY_GRH)) && Received(w, DeliverDataNext(w, d, ANY_GRH), [d])
  {
    InvShaped(c, w);
    var s := w.rcv.inbox;
    assert d.index < w.snd.ring.head;
    assert DataExact(s.tail, s.wnd, d.index) by { FreshData(s.tail, s.wnd, d.index); }
    LiveKeeps(c, w, DeliverData(d, ANY_GRH));
    var ts := DeliverDataMarks(c, w, d, ANY_GRH);
    MarkKeeps(s, w.posted, d.index, ts, w.sent[d.index]);
    if d.index == w.snd.tail {
      MarkSteps(s, DeliverDataNext(w, d, ANY_GRH).rcv.inbox, w.posted, d.index, ts, w.sent[d.index]);
    }
  }

  /** Delivering several, each once. */
  lemma {:induction false} DeliverEach(c: Config, l: Line, ds: seq<Data>) returns (run: Run<Line, Step>)
    requires Live(c, l.w) && |l.w.frags| <= |l.w.posted| && multiset(ds) <= l.data
    requires forall d :: d in ds ==> d in l.w.data && l.w.snd.tail <= d.index
    ensures IsRun(Schedule(c), l, run) && Length(run) == |ds|
    ensures var v := Last(l, run);
            v == l.(w := v.w, data := l.data - multiset(ds)) && Live(c, v.w) && Received(l.w, v.w, ds)
    decreases |ds|
  {
    if ds == [] {
      run := Stop;
      assert l.data - multiset(ds) == l.data;
    } else {
      var d, rest := ds[0], ds[1..];
      TakeFirst(l.data, ds);
      InvShaped(c, l.w);
      DeliverOne(c, l.w, d);
      var l1 := l.(w := DeliverDataNext(l.w, d, ANY_GRH), data := l.data - multiset{d});
      assert LineTo(c, l, DeliverData(d, ANY_GRH), l1);
      var more := DeliverEach(c, l1, rest);
      run := Go(DeliverData(d, ANY_GRH), l1, more);
      ReceivedBoth(l.w, l1.w, Last(l1, more).w, ds);
    }
  }

  lemma TakeFirst(pending: multiset<Data>, ds: seq<Data>)
    requires ds != [] && multiset(ds) <= pending
    ensures ds[0] in pending && multiset(ds[1..]) <= pending - multiset{ds[0]}
    ensures pending - multiset{ds[0]} - multiset(ds[1..]) == pending - multiset(ds)
  {
    assert ds == [ds[0]] + ds[1..];
  }

  lemma ReceivedBoth(w: World, u: World, v: World, ds: seq<Data>)
    requires ds != [] && Received(w, u, [ds[0]]) && Received(u, v, ds[1..])
    ensures Received(w, v, ds)
  {}

  /** After an exchange: the sender as it was, its timers apart, and one new acknowledgement under way. */
  ghost predicate Exchanged(c: Config, l: Line, v: Line, all: bool, at: nat) {
    && Live(c, v.w) && SameSender(l.w, v.w) && v.w.now == at
    && v.w.rcv.inbox.tail > l.w.snd.tail && v.w.rcv.inbox.tail >= l.w.rcv.inbox.tail
    && (exists a :: a in v.w.acks && a.value == v.w.rcv.inbox.tail && v.acks == l.acks + multiset{a})
    && l.w.acks <= v.w.acks
    && (all ==> v.data == l.data)
    && (!all && Ordered(l.w.rcv.inbox) ==>
          Ordered(v.w.rcv.inbox) && v.w.rcv.inbox.tail == Max(l.w.rcv.inbox.tail, l.w.snd.tail + 1))
  }

  /** The frames of the pass that are delivered: all of them, or only the first. */
  ghost function Chosen(ds: seq<Data>, all: bool): seq<Data>
    requires ds != []
  {
    if all then ds else ds[..1]
  }

  lemma Exchange(c: Config, l: Line, all: bool) returns (run: Run<Line, Step>)
    requires Live(c, l.w) && Open(l.w) && |l.w.frags| <= |l.w.posted| && l.w.now + MAX_RTO < TWO_64
    ensures IsRun(Schedule(c), l, run) && Length(run) <= 3 + MAX_WND
    ensures Exchanged(c, l, Last(l, run), all, l.w.now + MAX_RTO)
  {
    var first := Rest(c, l);
    var l1 := Last(l, first);
    var rest := PassAndAnswer(c, l1, all);
    ChainIsRun(Schedule(c), l, first, rest);
    run := Chain(first, rest);
  }

  /** The transmission of the last acknowledgement completes. */
  lemma Rest(c: Config, l: Line) returns (run: Run<Line, Step>)
    requires Live(c, l.w)
    ensures IsRun(Schedule(c), l, run) && Length(run) == 1
    ensures Last(l, run) == l.(w := l.w.(rcv := l.w.rcv.(ackBusy := false))) && Live(c, Last(l, run).w)
  {
    LiveKeeps(c, l.w, AckSent);
    run := OneStep(c, l, AckSent, l.(w := l.w.(rcv := l.w.rcv.(ackBusy := false))));
  }

  lemma SendOnce(c: Config, l: Line, at: nat) returns (run: Run<Line, Step>)
    requires Live(c, l.w) && l.w.now <= at < TWO_64
    ensures |l.w.snd.ring.handles| > 0 && IsRun(Schedule(c), l, run) && Length(run) == 1
    ensures Last(l, run) == l.(w := TransmitNext(l.w, at), data := l.data + multiset(Passed(l.w, at)))
  {
    InvShaped(c, l.w);
    var v := l.(w := TransmitNext(l.w, at), data := l.data + multiset(Passed(l.w, at)));
    assert StepTo(c, l.w, Transmit(at), v.w);
    assert LineTo(c, l, Transmit(at), v);
    run := OneStep(c, l, Transmit(at), v);
  }

  lemma PassAndAnswer(c: Config, l: Line, all: bool) returns (run: Run<Line, Step>)
    requires Live(c, l.w) && Open(l.w) && |l.w.frags| <= |l.w.posted| && l.w.now + MAX_RTO < TWO_64
    requires !l.w.rcv.ackBusy
    ensures IsRun(Schedule(c), l, run) && Length(run) <= 2 + MAX_WND
    ensures Exchanged(c, l, Last(l, run), all, l.w.now + MAX_RTO)
  {
    var at := l.w.now + MAX_RTO;
    var first := SendOnce(c, l, at);
    var l1, ds := Last(l, first), Passed(l.w, at);
    TransmitSendsTail(c, l.w, at);
    ChosenFits(l.data, ds, all);
    var rest := DeliverAndAnswer(c, l1, Chosen(ds, all));
    ChainIsRun(Schedule(c), l, first, rest);
    run := Chain(first, rest);
    ExchangeDone(c, l, l1, Last(l1, rest), ds, all);
  }

  lemma ChosenFits(pending: multiset<Data>, ds: seq<Data>, all: bool)
    requires ds != []
    ensures Chosen(ds, all) != [] && Chosen(ds, all)[0] == ds[0] && |Chosen(ds, all)| <= |ds|
    ensures multiset(Chosen(ds, all)) <= pending + multiset(ds)
    ensures all ==> pending + multiset(ds) - multiset(Chosen(ds, all)) == pending
    ensures forall d :: d in Chosen(ds, all) ==> d in ds
  {
    assert ds == ds[..1] + ds[1..];
  }

  /** The receiver after the chosen frames, and its answer under way. */
  ghost predicate Answered(c: Config, l: Line, v: Line, ds: seq<Data>)
    requires ds != []
  {
    && Live(c, v.w) && v.w == l.w.(rcv := v.w.rcv, writes := v.w.writes, acks := v.w.acks)
    && v.data == l.data - multiset(ds) && l.w.acks <= v.w.acks
    && (exists a :: a in v.w.acks && a.value == v.w.rcv.inbox.tail && v.acks == l.acks + multiset{a})
    && v.w.rcv.inbox.tail >= l.w.rcv.inbox.tail
    && (ds[0].index == l.w.snd.tail ==> v.w.rcv.inbox.tail > l.w.snd.tail)
    && (|ds| == 1 && ds[0].index == l.w.snd.tail && Ordered(l.w.rcv.inbox) ==>
          Ordered(v.w.rcv.inbox) && v.w.rcv.inbox.tail == Max(l.w.rcv.inbox.tail, l.w.snd.tail + 1))
  }

  lemma DeliverAndAnswer(c: Config, l: Line, ds: seq<Data>) returns (run: Run<Line, Step>)
    requires Live(c, l.w) && |l.w.frags| <= |l.w.posted| && ds != [] && multiset(ds) <= l.data && !l.w.rcv.ackBusy
    requires forall d :: d in ds ==> d in l.w.data && l.w.snd.tail <= d.index
    ensures IsRun(Schedule(c), l, run) && Length(run) == |ds| + 1
    ensures Answered(c, l, Last(l, run), ds)
  {
    var first := DeliverEach(c, l, ds);
    var l1 := Last(l, first);
    var second := Answer(c, l1);
    ChainIsRun(Schedule(c), l, first, second);
    run := Chain(first, second);
    assert NewAck(l1.w) in Last(l1, second).w.acks;
  }

  lemma ExchangeDone(c: Config, l: Line, l1: Line, v: Line, ds: seq<Data>, all: bool)
    requires Live(c, l.w) && SameSender(l.w, l1.w) && l1.w == l.w.(snd := l1.w.snd, now := l1.w.now, data := l1.w.data)
    requires ds != [] && ds[0].index == l.w.snd.tail
    requires l1 == l.(w := l1.w, data := l.data + multiset(ds))
    requires Chosen(ds, all) != [] && Answered(c, l1, v, Chosen(ds, all))
    ensures Exchanged(c, l, v, all, l1.w.now)
  {
    ChosenFits(l.data, ds, all);
  }

  /** The receiver answers. */
  lemma Answer(c: Config, l: Line) returns (run: Run<Line, Step>)
    requires Live(c, l.w) && OwesAck(l.w.rcv)
    ensures IsRun(Schedule(c), l, run) && Length(run) == 1
    ensures l.w.rcv.inbox.tail <= l.w.rcv.inbox.head
    ensures var v := Last(l, run);
            && v == l.(w := v.w, acks := l.acks + multiset{NewAck(l.w)}) && Live(c, v.w)
            && v.w == l.w.(rcv := v.w.rcv, acks := l.w.acks + {NewAck(l.w)}) && v.w.rcv.inbox == l.w.rcv.inbox
  {
    InvShaped(c, l.w);
    LiveKeeps(c, l.w, SendAck);
    run := OneStep(c, l, SendAck, l.(w := SendAckNext(l.w), acks := l.acks + multiset{NewAck(l.w)}));
  }

  // One round

  /** An acknowledgement not behind the tail moves it there and refills the ring; a closed window opens. */
  lemma DeliverOneAck(c: Config, w: World, a: Ack)
    requires Live(c, w) && a in w.acks && a.value >= w.snd.tail
    ensures Enabled(c, w, DeliverAck(a, ANY_GRH, w.now))
    ensures var w' := DeliverAckNext(c, w, a, ANY_GRH, w.now);
            && Live(c, w') && w' == w.(snd := w'.snd) && w'.snd.tail == a.value
            && |w.snd.ring.handles| > 0 && |w'.snd.ring.handles| > 0
            && Shortage(w'.snd.ring) == Shortage(w.snd.ring)
            && (Shortage(w.snd.ring) <= 0 ==> w'.snd.ring.todo == [] || w'.snd.tail < w'.snd.ring.head)
            && (w.snd.win.cwnd == 0 ==> w'.snd.win.cwnd == 1)
  {
    InvShaped(c, w);
    LiveKeeps(c, w, DeliverAck(a, ANY_GRH, w.now));
    DeliverAckKeeps(c, w, a, ANY_GRH, w.now);
    AckWindow(c, w, a, ANY_GRH, w.now);
    AckRefills(c, w, a);
  }

  lemma AckRefills(c: Config, w: World, a: Ack)
    requires Live(c, w) && a in w.acks && a.value >= w.snd.tail
    ensures |w.snd.ring.handles| > 0
    ensures var s := DeliverAckNext(c, w, a, ANY_GRH, w.now).snd;
            && |s.ring.handles| > 0 && Shortage(s.ring) == Shortage(w.snd.ring)
            && (Shortage(w.snd.ring) <= 0 ==> s.ring.todo == [] || s.tail < s.ring.head)
  {
    InvShaped(c, w);
    var r := AckArrives(a, w.rcv.inbox.tail, ANY_GRH);
    AckHandled(c, w.snd, w.frags, w.now, r, a.value, w.now);
    AckShortage(w.snd, c.mtu, r, w.now);
    var s' := OnAck(w.snd, c.mtu, r, w.now);
    if Shortage(w.snd.ring) <= 0 {
      FilledNotStalled(w.snd.ring, s'.ring.(wnd := w.snd.ring.wnd), s'.tail);
    }
  }

  lemma AckShortage(s: Sender, mtu: nat, ack: Received, received: nat)
    requires |s.ring.handles| > 0 && 0 < mtu && received < TWO_64 && ack.sn < SN_SPACE && ack.ts < TWO_48
    requires NoneRefused(s.ring.todo) && forall k :: 0 <= k < |s.ring.free| ==> s.ring.free[k] != 0
    ensures |OnAck(s, mtu, ack, received).ring.handles| > 0
    ensures Shortage(OnAck(s, mtu, ack, received).ring) == Shortage(s.ring)
  {
    FillShortage(s.ring, AckTail(s.tail, s.ring.head, ack.sn));
  }

  /** The sender has everything acknowledged up to the receive tail, and what is left is in the ring or none. */
  ghost predicate Caught(c: Config, w: World, v: World) {
    && Live(c, v) && v.frags == w.frags && v.posted == w.posted && v.now == w.now
    && v.rcv == w.rcv && v.snd.tail == w.rcv.inbox.tail
    && |v.snd.ring.handles| > 0 && Shortage(v.snd.ring) <= 0
    && (v.snd.ring.todo == [] || v.snd.tail < v.snd.ring.head)
  }

  /** What an acknowledgement taken leaves behind. */
  ghost predicate Taken(c: Config, l: Line, v: Line, a: Ack) {
    && Live(c, v.w) && v == l.(w := v.w, acks := l.acks - multiset{a}) && v.w == l.w.(snd := v.w.snd)
    && v.w.snd.tail == a.value
    && |v.w.snd.ring.handles| > 0 && Shortage(v.w.snd.ring) <= 0
    && (v.w.snd.ring.todo == [] || v.w.snd.tail < v.w.snd.ring.head)
    && (l.w.snd.win.cwnd == 0 ==> v.w.snd.win.cwnd == 1)
  }

  /** The windows after an acknowledgement. */
  ghost function AckedWindow(c: Config, w: World, a: Ack): Window {
    if GoodConfig(c) && |w.snd.ring.handles| > 0 && w.now < TWO_64
    then DeliverAckNext(c, w, a, ANY_GRH, w.now).snd.win else w.snd.win
  }

  lemma TakeAckKnowing(c: Config, l: Line, a: Ack) returns (run: Run<Line, Step>)
    requires Live(c, l.w) && a in l.w.acks && a in l.acks && a.value >= l.w.snd.tail
    requires |l.w.snd.ring.handles| > 0 && Shortage(l.w.snd.ring) <= 0
    ensures IsRun(Schedule(c), l, run) && Length(run) == 1
    ensures Taken(c, l, Last(l, run), a) && Last(l, run).w.snd.win == AckedWindow(c, l.w, a)
  {
    InvShaped(c, l.w);
    DeliverOneAck(c, l.w, a);
    var v := l.(w := DeliverAckNext(c, l.w, a, ANY_GRH, l.w.now), acks := l.acks - multiset{a});
    assert StepTo(c, l.w, DeliverAck(a, ANY_GRH, l.w.now), v.w);
    assert LineTo(c, l, DeliverAck(a, ANY_GRH, l.w.now), v);
    run := OneStep(c, l, DeliverAck(a, ANY_GRH, l.w.now), v);
  }

  lemma TakeAck(c: Config, l: Line, a: Ack) returns (run: Run<Line, Step>)
    requires Live(c, l.w) && a in l.w.acks && a in l.acks && a.value >= l.w.snd.tail
    requires |l.w.snd.ring.handles| > 0 && Shortage(l.w.snd.ring) <= 0
    ensures IsRun(Schedule(c), l, run) && Length(run) == 1
    ensures Taken(c, l, Last(l, run), a)
  {
    run := TakeAckKnowing(c, l, a);
  }

  /** They depend on nothing but the windows before. */
  lemma SameWindow(c: Config, w: World, v: World, a: Ack)
    requires Live(c, w) && Live(c, v) && v.snd.win == w.snd.win && a in w.acks && a in v.acks
    ensures AckedWindow(c, v, a) == AckedWindow(c, w, a)
  {
    var r := AckArrives(a, w.rcv.inbox.tail, ANY_GRH);
    assert DeliverAckNext(c, v, a, ANY_GRH, v.now).snd == OnAck(v.snd, c.mtu, r, v.now);
    assert DeliverAckNext(c, w, a, ANY_GRH, w.now).snd == OnAck(w.snd, c.mtu, r, w.now);
  }

  /** One exchange is enough if its acknowledgement leaves the window open; ... */
  lemma FinishOne(c: Config, l: Line, a: Ack) returns (run: Run<Line, Step>)
    requires Live(c, l.w) && Open(l.w) && a in l.w.acks && a in l.acks
    requires a.value == l.w.rcv.inbox.tail >= l.w.snd.tail && AckedWindow(c, l.w, a).cwnd >= 1
    ensures IsRun(Schedule(c), l, run) && Length(run) == 1
    ensures var v := Last(l, run);
            Caught(c, l.w, v.w) && 1 <= v.w.snd.win.cwnd && v.data == l.data && v.acks == l.acks - multiset{a}
  {
    run := TakeAckKnowing(c, l, a);
  }

  /** ... otherwise a second one is made before the first acknowledgement is delivered, and opens it again. */
  lemma FinishTwo(c: Config, l: Line, a: Ack, b: Ack) returns (run: Run<Line, Step>)
    requires Live(c, l.w) && Open(l.w) && a in l.w.acks && b in l.w.acks && multiset{a, b} <= l.acks
    requires l.w.snd.tail <= a.value <= b.value == l.w.rcv.inbox.tail && AckedWindow(c, l.w, a).cwnd == 0
    ensures IsRun(Schedule(c), l, run) && Length(run) == 2
    ensures var v := Last(l, run);
            Caught(c, l.w, v.w) && 1 <= v.w.snd.win.cwnd && v.data == l.data && v.acks == l.acks - multiset{a, b}
  {
    TwoOf(l.acks, a, b);
    var first := TakeClosing(c, l, a);
    var l1 := Last(l, first);
    var second := TakeAck(c, l1, b);
    ChainIsRun(Schedule(c), l, first, second);
    run := Chain(first, second);
    BothTaken(c, l, l1, Last(l1, second), a, b);
  }

  lemma TakeClosing(c: Config, l: Line, a: Ack) returns (run: Run<Line, Step>)
    requires Live(c, l.w) && a in l.w.acks && a in l.acks && a.value >= l.w.snd.tail
    requires Open(l.w) && AckedWindow(c, l.w, a).cwnd == 0
    ensures IsRun(Schedule(c), l, run) && Length(run) == 1
    ensures Taken(c, l, Last(l, run), a) && Last(l, run).w.snd.win.cwnd == 0
  {
    run := TakeAckKnowing(c, l, a);
  }

  lemma TwoOf(acks: multiset<Ack>, a: Ack, b: Ack)
    requires multiset{a, b} <= acks
    ensures a in acks && b in acks - multiset{a} && acks - multiset{a} - multiset{b} == acks - multiset{a, b}
  {
    assert multiset{a, b} == multiset{a} + multiset{b};
  }

  lemma BothTaken(c: Config, l: Line, l1: Line, v: Line, a: Ack, b: Ack)
    requires Taken(c, l, l1, a) && Taken(c, l1, v, b) && l1.w.snd.win.cwnd == 0 && b.value == l.w.rcv.inbox.tail
    ensures Caught(c, l.w, v.w) && v.w.snd.win.cwnd == 1
    ensures v.data == l.data && v.acks == l.acks - multiset{a} - multiset{b}
  {}

  /** What a round does: the frames it sends are all delivered, or only the first of each pass. */
  ghost predicate Rounded(c: Config, l: Line, v: Line, all: bool) {
    && Live(c, v.w) && v.w.frags == l.w.frags && v.w.posted == l.w.posted && v.w.now <= l.w.now + 2 * MAX_RTO
    && v.w.snd.tail == v.w.rcv.inbox.tail > l.w.snd.tail
    && |v.w.snd.ring.handles| > 0 && Shortage(v.w.snd.ring) <= 0 && 1 <= v.w.snd.win.cwnd
    && (v.w.snd.ring.todo == [] || v.w.snd.tail < v.w.snd.ring.head)
    && v.acks == l.acks && (all ==> v.data == l.data)
    && (!all && InOrder(l.w) ==> InOrder(v.w) && v.w.snd.tail == l.w.snd.tail + 1)
  }

  lemma Round(c: Config, l: Line, all: bool) returns (run: Run<Line, Step>)
    requires Live(c, l.w) && Open(l.w) && |l.w.frags| <= |l.w.posted| && l.w.now + 2 * MAX_RTO < TWO_64
    ensures IsRun(Schedule(c), l, run) && Length(run) <= ROUND
    ensures Rounded(c, l, Last(l, run), all)
  {
    var first := Exchange(c, l, all);
    var l1 := Last(l, first);
    var a :| a in l1.w.acks && a.value == l1.w.rcv.inbox.tail && l1.acks == l.acks + multiset{a};
    if AckedWindow(c, l1.w, a).cwnd >= 1 {
      var last := FinishOne(c, l1, a);
      ChainIsRun(Schedule(c), l, first, last);
      run := Chain(first, last);
      OnceDone(c, l, l1, Last(l1, last), all);
    } else {
      var rest := SecondTry(c, l, l1, a, all);
      ChainIsRun(Schedule(c), l, first, rest);
      run := Chain(first, rest);
    }
  }

  lemma SecondTry(c: Config, l: Line, l1: Line, a: Ack, all: bool) returns (run: Run<Line, Step>)
    requires Live(c, l.w) && Open(l.w) && |l.w.frags| <= |l.w.posted| && l.w.now + 2 * MAX_RTO < TWO_64
    requires Exchanged(c, l, l1, all, l.w.now + MAX_RTO)
    requires a in l1.w.acks && a.value == l1.w.rcv.inbox.tail && l1.acks == l.acks + multiset{a}
    requires AckedWindow(c, l1.w, a).cwnd == 0
    ensures IsRun(Schedule(c), l1, run) && Length(run) <= 5 + MAX_WND
    ensures Rounded(c, l, Last(l1, run), all)
  {
    var second := Exchange(c, l1, all);
    var l2 := Last(l1, second);
    var b :| b in l2.w.acks && b.value == l2.w.rcv.inbox.tail && l2.acks == l1.acks + multiset{b};
    SameWindow(c, l1.w, l2.w, a);
    TakeBoth(l.acks, a, b);
    var last := FinishTwo(c, l2, a, b);
    ChainIsRun(Schedule(c), l1, second, last);
    run := Chain(second, last);
    TwiceDone(c, l, l1, l2, Last(l2, last), all);
  }

  lemma TakeBoth(acks: multiset<Ack>, a: Ack, b: Ack)
    ensures var both := acks + multiset{a} + multiset{b};
            multiset{a, b} <= both && both - multiset{a, b} == acks
  {}

  lemma OnceDone(c: Config, l: Line, l1: Line, v: Line, all: bool)
    requires Exchanged(c, l, l1, all, l.w.now + MAX_RTO)
    requires Caught(c, l1.w, v.w) && 1 <= v.w.snd.win.cwnd && v.data == l1.data && v.acks == l.acks
    ensures Rounded(c, l, v, all)
  {}

  lemma TwiceDone(c: Config, l: Line, l1: Line, l2: Line, v: Line, all: bool)
    requires Exchanged(c, l, l1, all, l.w.now + MAX_RTO) && Exchanged(c, l1, l2, all, l1.w.now + MAX_RTO)
    requires Caught(c, l2.w, v.w) && 1 <= v.w.snd.win.cwnd && v.data == l2.data && v.acks == l.acks
    ensures Rounded(c, l, v, all)
  {}

  /** The most steps a round takes. */
  const ROUND: nat := 2 * (3 + MAX_WND) + 2

  // Everything is acknowledged

  /** Every buffer sent is also posted, and the clock does not run out. */
  ghost predicate Timely(w: World) {
    |w.frags| <= |w.posted| && w.now + Rounds(Unacked(w), 2 * MAX_RTO) < TWO_64
  }

  ghost predicate Ready(c: Config, w: World) {
    Live(c, w) && Timely(w) && (Unacked(w) == 0 || Open(w))
  }

  lemma RoundReady(c: Config, l: Line, v: Line, all: bool)
    requires Ready(c, l.w) && Unacked(l.w) > 0 && Rounded(c, l, v, all)
    ensures Ready(c, v.w) && Unacked(v.w) < Unacked(l.w)
  {
    FewerRounds(Unacked(v.w), Unacked(l.w), 2 * MAX_RTO);
  }

  ghost function ReadyFor(c: Config, frags: seq<Buffer>, data: multiset<Data>, acks: multiset<Ack>): Line -> bool {
    (v: Line) => Ready(c, v.w) && v.w.frags == frags && v.data == data && v.acks == acks
  }

  ghost function LeftOver(): Line -> nat { (v: Line) => Unacked(v.w) }

  lemma RoundReaches(c: Config, l: Line)
    requires Ready(c, l.w) && Unacked(l.w) > 0
    ensures Reaches(Schedule(c), l, Below(ReadyFor(c, l.w.frags, l.data, l.acks), LeftOver(), Unacked(l.w)), ROUND)
  {
    FewerRounds(0, Unacked(l.w), 2 * MAX_RTO);
    var run := Round(c, l, true);
    RoundReady(c, l, Last(l, run), true);
    var goal := Below(ReadyFor(c, l.w.frags, l.data, l.acks), LeftOver(), Unacked(l.w));
    assert IsRun(Schedule(c), l, run) && Length(run) <= ROUND && goal(Last(l, run));
  }

  lemma ProgressReaches(c: Config, l: Line)
    requires Ready(c, l.w)
    ensures Reaches(Schedule(c), l, Below(ReadyFor(c, l.w.frags, l.data, l.acks), LeftOver(), 1),
                    Rounds(Unacked(l.w), ROUND))
  {
    var able := ReadyFor(c, l.w.frags, l.data, l.acks);
    forall v | able(v) && LeftOver()(v) > 0
      ensures Reaches(Schedule(c), v, Below(able, LeftOver(), LeftOver()(v)), ROUND)
    {
      RoundReaches(c, v);
    }
    Exhaust(Schedule(c), able, LeftOver(), ROUND, l);
  }

  /**
   No stuck state: a sender that can send has a schedule of at most `ROUND` steps per
   fragment after which everything is acknowledged. Every frame the schedule sends is
   delivered, once, and it delivers no others: what was undelivered before still is.
   */
  lemma Progress(c: Config, l: Line) returns (run: Run<Line, Step>)
    requires Ready(c, l.w)
    ensures IsRun(Schedule(c), l, run) && Length(run) <= ROUND * Unacked(l.w)
    ensures var v := Last(l, run);
            && Inv(c, v.w) && v.w.frags == l.w.frags && v.w.snd.tail == |l.w.frags| == v.w.rcv.inbox.tail
            && v.data == l.data && v.acks == l.acks
  {
    ProgressReaches(c, l);
    RoundsIsProduct(Unacked(l.w), ROUND);
    var goal := Below(ReadyFor(c, l.w.frags, l.data, l.acks), LeftOver(), 1);
    run :| IsRun(Schedule(c), l, run) && Length(run) <= ROUND * Unacked(l.w) && goal(Last(l, run));
    AllAcked(c, Last(l, run).w);
  }

  lemma AllAcked(c: Config, w: World)
    requires Inv(c, w) && Unacked(w) == 0
    ensures w.snd.tail == |w.frags| == w.rcv.inbox.tail
  {
    InvShaped(c, w);
  }

  /** From a state in order, some schedule that loses frames brings the tail to any fragment, and there exactly. */
  lemma {:induction false} ReachTail(c: Config, l: Line, target: nat) returns (run: Run<Line, Step>)
    requires Ready(c, l.w) && InOrder(l.w) && l.w.snd.tail <= target <= |l.w.frags|
    ensures IsRun(Schedule(c), l, run)
    ensures var v := Last(l, run).w; v.snd.tail == target && v.frags == l.w.frags && Inv(c, v)
    decreases target - l.w.snd.tail
  {
    if l.w.snd.tail == target {
      run := Stop;
    } else {
      FewerRounds(0, Unacked(l.w), 2 * MAX_RTO);
      var first := Round(c, l, false);
      RoundReady(c, l, Last(l, first), false);
      var rest := ReachTail(c, Last(l, first), target);
      ChainIsRun(Schedule(c), l, first, rest);
      run := Chain(first, rest);
    }
  }

  // Silence

  /** No packet can go out: the window is zero, or the ring is empty. */
  ghost predicate Silent(w: World) {
    w.snd.win.cwnd == 0 || w.snd.tail == w.snd.ring.head
  }

  /** Only an acknowledgement ends a silence, or, with an open window, a new send. */
  lemma SilentStep(c: Config, w: World, a: Step)
    requires Inv(c, w) && Enabled(c, w, a) && Silent(w) && !a.DeliverAck? && (a.Send? ==> w.snd.win.cwnd == 0)
    ensures Shaped(w) && Silent(Next(c, w, a)) && Next(c, w, a).data == w.data
    ensures Next(c, w, a).snd.tail == w.snd.tail && Next(c, w, a).snd.win == w.snd.win
  {
    InvShaped(c, w);
    match a
    case Transmit(at) =>
      PassAllOrNothing(c, w, at);
      assert Addressed([], w.snd.tail) == {};
    case DeliverData(d, grh) => var ts := DeliverDataMarks(c, w, d, grh);
    case _ =>
  }

  /** Any steps but the arrival of an acknowledgement, and new sends only while the window is zero. */
  ghost function Bystander(c: Config): (World, Step, World) -> bool {
    (w, a, v) => StepTo(c, w, a, v) && !a.DeliverAck? && (a.Send? ==> w.snd.win.cwnd == 0)
  }

  /** So without acknowledgements a silent sender stays silent for ever, with a zero window whatever is sent. */
  lemma SilentForever(c: Config, w: World, run: Run<World, Step>)
    requires Inv(c, w) && Silent(w) && IsRun(Bystander(c), w, run)
    ensures var v := Last(w, run);
            Silent(v) && v.data == w.data && v.snd.tail == w.snd.tail && v.snd.win == w.snd.win
  {
    var inv := v =>
      Inv(c, v) && Silent(v) && v.data == w.data && v.snd.tail == w.snd.tail && v.snd.win == w.snd.win;
    forall v, a, v' | inv(v) && Bystander(c)(v, a, v') ensures inv(v') {
      SilentStep(c, v, a);
      StepKeeps(c, v, a);
    }
    Invariance(Bystander(c), inv, w, run);
  }

  // When it is not

  /** Any steps but a new send and a change of the pool, every frame delivered at most once. */
  ghost function Quiet(c: Config): (Line, Step, Line) -> bool {
    (l, a, v) => LineTo(c, l, a, v) && !a.Send? && !a.ChangePool?
  }

  /** Nothing is under way and nothing is owed. */
  ghost predicate Still(l: Line) {
    l.data == multiset{} && l.acks == multiset{} && l.w.rcv.ackPackets == l.w.rcv.recvPackets
  }

  /** Any steps, every frame delivered at most once, but new sends only while the window is zero. */
  ghost function Onlooker(c: Config): (Line, Step, Line) -> bool {
    (l, a, v) => LineTo(c, l, a, v) && (a.Send? ==> l.w.snd.win.cwnd == 0)
  }

  /** A silent sender with nothing under way: nothing ever happens to it again. */
  lemma StillKeeps(c: Config, l: Line, a: Step, v: Line)
    requires Live(c, l.w) && Still(l) && Silent(l.w) && Onlooker(c)(l, a, v)
    ensures Live(c, v.w) && Still(v) && Silent(v.w)
    ensures v.w.snd.tail == l.w.snd.tail && v.w.snd.win == l.w.snd.win
  {
    LiveKeeps(c, l.w, a);
    SilentStep(c, l.w, a);
    match a
    case Transmit(at) =>
      PassAllOrNothing(c, l.w, at);
      assert Passed(l.w, at) == [];
    case _ =>
  }

  /** With a zero window that is so whatever is sent, and however full the pool. */
  lemma StuckForever(c: Config, l: Line, run: Run<Line, Step>)
    requires Live(c, l.w) && Still(l) && Silent(l.w) && IsRun(Onlooker(c), l, run)
    ensures Last(l, run).w.snd.tail == l.w.snd.tail && Still(Last(l, run)) && Silent(Last(l, run).w)
  {
    var inv := (v: Line) => Live(c, v.w) && Still(v) && Silent(v.w) && v.w.snd.tail == l.w.snd.tail;
    forall v, a, v' | inv(v) && Onlooker(c)(v, a, v') ensures inv(v') {
      StillKeeps(c, v, a, v');
    }
    Invariance(Onlooker(c), inv, l, run);
  }

  /** Without a change of the pool a shortage stays. */
  lemma ShortageKeeps(c: Config, w: World, a: Step)
    requires Live(c, w) && Enabled(c, w, a) && !a.Send? && !a.ChangePool?
    ensures Shaped(w) && Live(c, Next(c, w, a)) && Next(c, w, a).frags == w.frags
    ensures |Next(c, w, a).snd.ring.handles| > 0 && Shortage(Next(c, w, a).snd.ring) == Shortage(w.snd.ring)
  {
    LiveKeeps(c, w, a);
    match a
    case Transmit(at) => PassShortage(c, w, at);
    case DeliverAck(k, grh, received) => AckedShortage(c, w, k, grh, received);
    case DeliverData(d, grh) => var ts := DeliverDataMarks(c, w, d, grh);
    case _ =>
  }

  lemma PassShortage(c: Config, w: World, at: nat)
    requires Live(c, w) && w.now <= at < TWO_64
    ensures |w.snd.ring.handles| > 0 && |TransmitNext(w, at).snd.ring.handles| > 0
    ensures Shortage(TransmitNext(w, at).snd.ring) == Shortage(w.snd.ring)
  {
    PassAllOrNothing(c, w, at);
    var s, p := w.snd, SendPass(w.snd, at, w.smem);
    if p.handles != s.ring.handles {
      StampedShortage(s.ring, p.handles, p.wnd, s.tail, Min(s.ring.head, s.tail + s.win.cwnd), at);
    }
  }

  lemma AckedShortage(c: Config, w: World, a: Ack, grh: seq<Byte>, received: nat)
    requires Live(c, w) && Possible(c, w, DeliverAck(a, grh, received))
    ensures var w' := DeliverAckNext(c, w, a, grh, received);
            && w'.frags == w.frags && |w.snd.ring.handles| > 0 && |w'.snd.ring.handles| > 0
            && Shortage(w'.snd.ring) == Shortage(w.snd.ring)
  {
    var r := AckArrives(a, w.rcv.inbox.tail, grh);
    AckShortage(w.snd, c.mtu, r, received);
  }

  lemma ShortForever(c: Config, l: Line, run: Run<Line, Step>)
    requires Live(c, l.w) && IsRun(Quiet(c), l, run) && |l.w.snd.ring.handles| > 0 && Shortage(l.w.snd.ring) > 0
    ensures Last(l, run).w.snd.tail < |l.w.frags|
  {
    var inv := (v: Line) =>
      Live(c, v.w) && v.w.frags == l.w.frags && |v.w.snd.ring.handles| > 0 && Shortage(v.w.snd.ring) > 0;
    forall v, a, v' | inv(v) && Quiet(c)(v, a, v') ensures inv(v') {
      ShortageKeeps(c, v.w, a);
    }
    Invariance(Quiet(c), inv, l, run);
    assert Last(l, run).w.snd.ring.todo != [];
  }

  /** Some run without a send or a change of the pool acknowledges everything. */
  ghost predicate Completes(c: Config, l: Line) {
    exists run :: IsRun(Quiet(c), l, run) && Last(l, run).w.snd.tail == |l.w.frags|
  }

  /**
   The exact condition, with nothing under way and nothing owed: everything can be
   acknowledged if and only if it is already, or something is in the ring, the window is
   open and the pool covers the slots that the remaining fragments will use.
   */
  lemma CompletesIff(c: Config, l: Line)
    requires Live(c, l.w) && Timely(l.w) && Still(l)
    ensures Completes(c, l) <==> Unacked(l.w) == 0 || Open(l.w)
  {
    if Unacked(l.w) == 0 || Open(l.w) {
      var run := Progress(c, l);
      SubRun(Schedule(c), Quiet(c), l, run);
      assert IsRun(Quiet(c), l, run) && Last(l, run).w.snd.tail == |l.w.frags|;
    } else {
      forall run | IsRun(Quiet(c), l, run) ensures Last(l, run).w.snd.tail != |l.w.frags| {
        if Silent(l.w) {
          SubRun(Quiet(c), Onlooker(c), l, run);
          StuckForever(c, l, run);
        } else {
          ShortForever(c, l, run);
        }
      }
    }
  }

  /**
   A send that finds the packet pool empty succeeds, but none of its fragments enters the
   ring: with nothing under way, nothing but another send or a refilled pool helps.
   */
  lemma StalledExample(c: Config, w: World, b: Buffer)
    requires Init(c, w) && w.snd.ring.free == [] && Enabled(c, w, Send([b]))
    ensures Shaped(w)
    ensures var v := Next(c, w, Send([b])); Unacked(v) > 0 && !Open(v) && Silent(v)
    ensures Still(Line(Next(c, w, Send([b])), multiset{}, multiset{}))
  {
    var r := w.snd.ring.(todo := w.snd.ring.todo + CutAll([b], FragmentSize(c)));
    assert At(r.handles, 0).packet == 0;
    assert r.todo == CutAll([b], FragmentSize(c)) == Cut(b, FragmentSize(c)) + CutAll([], FragmentSize(c));
    assert Fill(r, 0).ring == r;
  }
}
