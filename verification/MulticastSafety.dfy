/** Every step of the multicast protocol keeps its invariant; the replicas agree with the sender. */
module MulticastSafety {
  import opened Arithmetic
  import opened SequenceNumbers
  import opened Fragmentation
  import opened Packets
  import opened SendRing
  import opened SendQueues
  import opened ReceiveRing
  import opened Control
  import opened Endpoint
  import opened Controllers
  import opened Multicast
  import opened Runs
  import U = Unicast
  import S = UnicastSafety

  // Tails

  lemma TailsBounded(m: Setup, w: World)
    requires Inv(m, w)
    ensures Shaped(m, w)
    ensures MinTail(w.tails) in w.tails && MinTail(w.tails) <= w.ring.head <= UINT64_MAX
    ensures forall r :: 0 <= r < |w.tails| ==> MinTail(w.tails) <= w.tails[r] <= w.ring.head
  {
    forall r | 0 <= r < |w.tails| ensures w.tails[r] <= UINT64_MAX {}
    MinTailIsLeast(w.tails);
    forall r | 0 <= r < |w.rcvs|
      ensures |w.rcvs[r].inbox.requests| > 0 && w.rcvs[r].inbox.tail <= w.rcvs[r].inbox.head
    {
      assert ReplicaOk(m, w, r);
    }
  }

  /** Moving one tail forward does not move the slowest one back, or past that tail. */
  lemma MinTailUp(tails: seq<nat>, r: nat, t: nat)
    requires r < |tails| && (forall i :: 0 <= i < |tails| ==> tails[i] <= UINT64_MAX) && tails[r] <= t <= UINT64_MAX
    ensures MinTail(tails) <= MinTail(tails[r := t]) <= t
  {
    var tails' := tails[r := t];
    MinTailIsLeast(tails);
    MinTailIsLeast(tails');
    var i :| 0 <= i < |tails'| && tails'[i] == MinTail(tails');
    assert tails'[r] == t;
  }

  // The sender's ring

  lemma FillOk(m: Setup, w: World, ring: Ring, tails: seq<nat>, f: seq<Buffer>, w': World)
    requires Sized(m) && SenderOk(m, w) && ring == w.ring.(todo := w.ring.todo + f)
    requires |tails| == |w.tails| && forall r :: 0 <= r < |tails| ==> tails[r] <= w.ring.head
    requires MinTail(w.tails) <= MinTail(tails) <= w.ring.head
    requires |w.frags + f| <= UINT64_MAX && forall i :: 0 <= i < |w.frags + f| ==> !Refused((w.frags + f)[i])
    requires w'.ring == Fill(ring, MinTail(tails)).ring && w'.tails == tails && w'.frags == w.frags + f
    requires w'.win == w.win && w'.now == w.now
    ensures SenderOk(m, w') && w'.ring.head >= w.ring.head && FilledFrom(ring, w'.ring, MinTail(tails))
  {
    S.HoldsAppend(w.ring, MinTail(w.tails), w.frags, f);
    S.HoldsAdvance(ring, MinTail(w.tails), MinTail(tails), w.frags + f);
    FillKeeps(ring, MinTail(tails), w.frags + f);
  }

  /** A longer history of the sender changes nothing for a replica. */
  lemma ReplicaGrow(m: Setup, w: World, w': World, r: nat, more: seq<seq<Byte>>)
    requires r < |w.rcvs| == |w.tails| == |w.posted| == |w.released| == |w.writes| && ReplicaOk(m, w, r)
    requires w'.rcvs == w.rcvs && w'.posted == w.posted && w'.released == w.released && w'.writes == w.writes
    requires |w'.tails| == |w.tails|
    requires w'.sent == w.sent + more && w.ring.head <= w'.ring.head <= |w'.sent|
    requires w'.tails[r] <= w'.rcvs[r].inbox.tail && U.Matching(w'.frags, w'.posted[r])
    ensures ReplicaOk(m, w', r)
  {
    S.DeliveredGrow(w.rcvs[r].inbox, w.posted[r], w.released[r], w.sent, w.ring.head, more, w'.ring.head);
  }

  lemma SendKeeps(m: Setup, w: World, list: seq<Buffer>)
    requires Inv(m, w) && Shaped(m, w) && Enabled(m, w, Send(list))
    ensures Inv(m, SendNext(m, w, list))
    ensures FilledFrom(w.ring.(todo := w.ring.todo + CutAll(list, U.FragmentSize(m.c))), SendNext(m, w, list).ring,
                       MinTail(w.tails))
  {
    TailsBounded(m, w);
    var f := CutAll(list, U.FragmentSize(m.c));
    CutAllGather(w.smem, list, U.FragmentSize(m.c));
    CutAllLoadable(list, U.FragmentSize(m.c));
    assert forall i :: 0 <= i < |f| ==> f[i] in f;
    S.SourceAppend(w.smem, w.frags, w.sent, MinTail(w.tails), f);
    assert forall i :: 0 <= i < |w.frags + f| ==> !Refused((w.frags + f)[i]);
    var w' := SendNext(m, w, list);
    FillOk(m, w, w.ring.(todo := w.ring.todo + f), w.tails, f, w');
    var more := U.Contents(w.smem, f);
    forall r: nat | r < |w'.rcvs| ensures ReplicaOk(m, w', r) {
      assert ReplicaOk(m, w, r);
      ReplicaGrow(m, w, w', r, more);
    }
    S.DataGrow(w.data, w.sent, w.ring.head, more, w'.ring.head);
  }

  // One replica at a time

  /** Replica `r` in a new state, all others as they were. */
  ghost function With(w: World, r: nat, rcv: Receiver, posted: seq<Buffer>, released: nat, writes: seq<nat>): World
    requires r < |w.rcvs| == |w.posted| == |w.released| == |w.writes|
  {
    w.(rcvs := w.rcvs[r := rcv], posted := w.posted[r := posted], released := w.released[r := released],
       writes := w.writes[r := writes])
  }

  /** A step of one replica that keeps it in order and does not move its tail back keeps everything. */
  lemma OneReplica(m: Setup, w: World, r: nat, rcv: Receiver, posted: seq<Buffer>, released: nat, writes: seq<nat>)
    requires Inv(m, w) && r < |w.rcvs| && U.WritesOk(rcv.inbox, writes)
    requires U.ReceiverOk(m.c, rcv, posted, released, w.sent, w.ring.head) && U.Matching(w.frags, posted)
    requires rcv.inbox.tail >= w.rcvs[r].inbox.tail
    ensures Inv(m, With(w, r, rcv, posted, released, writes))
  {
    var w' := With(w, r, rcv, posted, released, writes);
    assert ReplicaOk(m, w, r);
    forall q: nat | q < |w'.rcvs| ensures ReplicaOk(m, w', q) {
      assert ReplicaOk(m, w, q);
    }
    forall k | k in w'.acks ensures ReplyOk(k, w'.rcvs) {
      assert ReplyOk(k, w.rcvs);
    }
  }

  /** Only the receiver itself has changed. */
  lemma OnlyReceiver(w: World, r: nat, rcv: Receiver)
    requires r < |w.rcvs| == |w.posted| == |w.released| == |w.writes|
    ensures With(w, r, rcv, w.posted[r], w.released[r], w.writes[r]) == w.(rcvs := w.rcvs[r := rcv])
  {
    assert w.posted[r := w.posted[r]] == w.posted && w.released[r := w.released[r]] == w.released;
    assert w.writes[r := w.writes[r]] == w.writes;
  }

  lemma ReceiveKeeps(m: Setup, w: World, r: nat, list: seq<Buffer>)
    requires Inv(m, w) && Shaped(m, w) && Enabled(m, w, Receive(r, list))
    ensures Inv(m, ReceiveNext(m, w, r, list))
  {
    assert ReplicaOk(m, w, r);
    var f, rcv := CutAll(list, U.FragmentSize(m.c)), w.rcvs[r];
    var rcv' := rcv.(inbox := Post(rcv.inbox.(todo := rcv.inbox.todo + f)));
    CutAllGather(rcv.inbox.mem, list, U.FragmentSize(m.c));
    S.PostOk(m.c, rcv, w.posted[r], w.released[r], w.sent, w.ring.head, f);
    S.WritesSame(rcv.inbox, rcv'.inbox, w.writes[r]);
    OneReplica(m, w, r, rcv', w.posted[r] + f, w.released[r], w.writes[r]);
    assert w.released[r := w.released[r]] == w.released && w.writes[r := w.writes[r]] == w.writes;
  }

  lemma RewriteKeeps(m: Setup, w: World, r: nat, rmem: seq<Byte>)
    requires Inv(m, w) && Shaped(m, w) && Enabled(m, w, WriteReceiveMemory(r, rmem))
    ensures Inv(m, RewriteNext(w, r, rmem))
  {
    assert ReplicaOk(m, w, r);
    var rcv, posted := w.rcvs[r], w.posted[r];
    var rcv' := rcv.(inbox := rcv.inbox.(mem := rmem));
    assert SameAccepted(rcv.inbox, rcv'.inbox);
    S.WritesSame(rcv.inbox, rcv'.inbox, w.writes[r]);
    forall i: nat | w.released[r] <= i && Accepted(rcv'.inbox, i) ensures Read(rmem, posted[i]) == w.sent[i] {
      assert Accepted(rcv.inbox, i);
    }
    OneReplica(m, w, r, rcv', posted, w.released[r], w.writes[r]);
    OnlyReceiver(w, r, rcv');
  }

  /** What a replica makes of a recognisable packet. */
  lemma TakesShape(w: World, r: nat, q: Received, i: nat)
    requires r < |w.rcvs| == |w.posted| == |w.released| == |w.writes| && 0 < |w.rcvs[r].inbox.requests|
    requires Tracks(w.rcvs[r].inbox, w.posted[r]) && Drained(w.rcvs[r].inbox)
    requires Recognisable(w.rcvs[r].inbox, w.posted[r], i, |q.payload|) && q.sn == ShortSn(i) && q.cmd == PKT_CMD_DATA
    ensures var rcv := w.rcvs[r];
            && Markable(rcv.inbox, q.sn) && Mark(rcv.inbox, q.sn, q.ts, q.payload).Kept?
            && ReplicaTakes(w, r, q) ==
               if rcv.inbox.head == rcv.inbox.tail then w
               else With(w, r, rcv.(inbox := Mark(rcv.inbox, q.sn, q.ts, q.payload).inbox,
                                    recvPackets := rcv.recvPackets + 1),
                         w.posted[r], w.released[r], if Fits(rcv.inbox, i) then w.writes[r] + [i] else w.writes[r])
  {
    var rcv, writes := w.rcvs[r], w.writes[r];
    assert Markable(rcv.inbox, q.sn) && Mark(rcv.inbox, q.sn, q.ts, q.payload).Kept? by {
      MarkKeeps(rcv.inbox, w.posted[r], i, q.ts, q.payload);
    }
    assert writes + Copies(rcv.inbox, q.sn) == (if Fits(rcv.inbox, i) then writes + [i] else writes) by {
      S.CopiedIff(rcv.inbox, w.posted[r], i);
    }
    assert w.posted[r := w.posted[r]] == w.posted && w.released[r := w.released[r]] == w.released;
  }

  lemma TakesKeeps(m: Setup, w: World, r: nat, q: Received, i: nat)
    requires Inv(m, w) && r < |w.rcvs| && i < w.ring.head <= |w.sent| && q.payload == w.sent[i]
    requires q.sn == ShortSn(i) && q.cmd == PKT_CMD_DATA
    requires DataExact(w.rcvs[r].inbox.tail, w.rcvs[r].inbox.wnd, i)
    ensures Inv(m, ReplicaTakes(w, r, q))
  {
    assert ReplicaOk(m, w, r);
    RecognisableHere(m, w, r, i);
    TakesShape(w, r, q, i);
    if w.rcvs[r].inbox.head != w.rcvs[r].inbox.tail {
      var rcv := w.rcvs[r].(inbox := Mark(w.rcvs[r].inbox, q.sn, q.ts, q.payload).inbox,
                            recvPackets := w.rcvs[r].recvPackets + 1);
      MarkedKeeps(m, w, r, i, q.ts, rcv, if Fits(w.rcvs[r].inbox, i) then w.writes[r] + [i] else w.writes[r]);
    }
  }

  lemma MarkedKeeps(m: Setup, w: World, r: nat, i: nat, ts: nat, rcv: Receiver, writes: seq<nat>)
    requires Inv(m, w) && r < |w.rcvs| && i < w.ring.head <= |w.sent|
    requires Recognisable(w.rcvs[r].inbox, w.posted[r], i, |w.sent[i]|)
    requires Markable(w.rcvs[r].inbox, ShortSn(i)) && Mark(w.rcvs[r].inbox, ShortSn(i), ts, w.sent[i]).Kept?
    requires rcv == w.rcvs[r].(inbox := Mark(w.rcvs[r].inbox, ShortSn(i), ts, w.sent[i]).inbox,
                               recvPackets := w.rcvs[r].recvPackets + 1)
    requires writes == if Fits(w.rcvs[r].inbox, i) then w.writes[r] + [i] else w.writes[r]
    ensures Inv(m, With(w, r, rcv, w.posted[r], w.released[r], writes))
  {
    assert ReplicaOk(m, w, r);
    assert && U.ReceiverOk(m.c, rcv, w.posted[r], w.released[r], w.sent, w.ring.head)
           && U.WritesOk(rcv.inbox, writes) && rcv.inbox.tail >= w.rcvs[r].inbox.tail by {
      ReplicaMarks(m.c, w.rcvs[r], w.posted[r], w.released[r], w.sent, w.ring.head, i, ts, w.writes[r]);
    }
    OneReplica(m, w, r, rcv, w.posted[r], w.released[r], writes);
  }

  lemma ReplicaMarks(c: U.Config, rcv: Receiver, posted: seq<Buffer>, released: nat, sent: seq<seq<Byte>>, limit: nat,
                     i: nat, ts: nat, writes: seq<nat>)
    requires U.GoodConfig(c) && U.ReceiverOk(c, rcv, posted, released, sent, limit) && U.WritesOk(rcv.inbox, writes)
    requires i < limit && Recognisable(rcv.inbox, posted, i, |sent[i]|)
    ensures Markable(rcv.inbox, ShortSn(i)) && Mark(rcv.inbox, ShortSn(i), ts, sent[i]).Kept?
    ensures var inbox := Mark(rcv.inbox, ShortSn(i), ts, sent[i]).inbox;
            && U.ReceiverOk(c, rcv.(inbox := inbox, recvPackets := rcv.recvPackets + 1), posted, released, sent, limit)
            && U.WritesOk(inbox, if Fits(rcv.inbox, i) then writes + [i] else writes)
            && inbox.tail >= rcv.inbox.tail
  {
    S.MarkOk(c, rcv, posted, released, sent, limit, i, ts);
    S.WritesMark(rcv.inbox, Mark(rcv.inbox, ShortSn(i), ts, sent[i]).inbox, posted, i, ts, sent[i], writes);
  }

  lemma RecognisableHere(m: Setup, w: World, r: nat, i: nat)
    requires Inv(m, w) && r < |w.rcvs| && i < w.ring.head <= |w.sent|
    requires DataExact(w.rcvs[r].inbox.tail, w.rcvs[r].inbox.wnd, i)
    ensures Recognisable(w.rcvs[r].inbox, w.posted[r], i, |w.sent[i]|)
  {
    TailsBounded(m, w);
    assert ReplicaOk(m, w, r);
    U.AlignedSlot(m.c, |w.frags|, i);
  }

  lemma DeliverDataKeeps(m: Setup, w: World, r: nat, d: U.Data, grh: seq<Byte>)
    requires Inv(m, w) && Shaped(m, w) && Enabled(m, w, DeliverData(r, d, grh))
    ensures Inv(m, DeliverDataNext(w, r, d, grh))
  {
    var q := S.DataArrives(d, w.sent, w.ring.head, grh);
    TakesKeeps(m, w, r, q, d.index);
  }

  lemma SendAckKeeps(m: Setup, w: World, r: nat)
    requires Inv(m, w) && r < |w.rcvs|
    ensures Inv(m, SendAckNext(w, r))
  {
    assert ReplicaOk(m, w, r);
    OneReplica(m, w, r, AfterAck(w.rcvs[r]), w.posted[r], w.released[r], w.writes[r]);
    OnlyReceiver(w, r, AfterAck(w.rcvs[r]));
    var k := Reply(r, U.Ack(w.rcvs[r].inbox.tail, Frame(ReplyHandle(w.rcvs[r]), [])));
    var v := w.(rcvs := w.rcvs[r := AfterAck(w.rcvs[r])]);
    var w' := SendAckNext(w, r);
    assert w' == v.(acks := w.acks + {k});
    assert ReplyOk(k, w'.rcvs);
    forall q: nat | q < |w'.rcvs| ensures ReplicaOk(m, w', q) { assert ReplicaOk(m, v, q); }
  }

  /** A change of the sender alone that leaves it in order. */
  lemma OnlySender(m: Setup, w: World, w': World)
    requires Inv(m, w) && SenderOk(m, w') && U.SourceOk(w'.smem, w'.frags, w'.sent, MinTail(w'.tails))
    requires w' == w.(ring := w'.ring, rtt := w'.rtt, smem := w'.smem) && w'.ring.head == w.ring.head
    ensures Inv(m, w')
  {
    forall r: nat | r < |w'.rcvs| ensures ReplicaOk(m, w', r) { assert ReplicaOk(m, w, r); }
  }

  lemma SmallStepKeeps(m: Setup, w: World, a: Step)
    requires Inv(m, w) && Shaped(m, w) && Enabled(m, w, a)
    requires a.WriteSendMemory? || a.Release? || a.ChangePool? || a.ChangeRtt? || a.AckSent?
    ensures Inv(m, Next(m, w, a))
  {
    match a
    case WriteSendMemory(smem) =>
      forall i: nat | MinTail(w.tails) <= i < |w.frags| ensures Read(smem, w.frags[i]) == w.sent[i] {
        assert InBounds(w.smem, w.frags[i]);
      }
      OnlySender(m, w, w.(smem := smem));
    case Release(r, upto) => ReleaseKeeps(m, w, r, upto);
    case ChangePool(free) => OnlySender(m, w, w.(ring := w.ring.(free := free)));
    case ChangeRtt(rtt) => OnlySender(m, w, w.(rtt := rtt));
    case AckSent(r) => AckSentKeeps(m, w, r);
  }

  lemma ReleaseKeeps(m: Setup, w: World, r: nat, upto: nat)
    requires Inv(m, w) && Shaped(m, w) && Enabled(m, w, Release(r, upto))
    ensures Inv(m, Next(m, w, Release(r, upto)))
  {
    assert ReplicaOk(m, w, r);
    OneReplica(m, w, r, w.rcvs[r], w.posted[r], upto, w.writes[r]);
    assert w.rcvs[r := w.rcvs[r]] == w.rcvs && w.posted[r := w.posted[r]] == w.posted;
    assert w.writes[r := w.writes[r]] == w.writes;
  }

  lemma AckSentKeeps(m: Setup, w: World, r: nat)
    requires Inv(m, w) && Shaped(m, w) && Enabled(m, w, AckSent(r))
    ensures Inv(m, Next(m, w, AckSent(r)))
  {
    assert ReplicaOk(m, w, r);
    var rcv := w.rcvs[r].(ackBusy := false);
    OneReplica(m, w, r, rcv, w.posted[r], w.released[r], w.writes[r]);
    OnlyReceiver(w, r, rcv);
  }

  // Sending

  /** The ring after a sweep differs only in timestamps. */
  ghost predicate Retimed(before: seq<Handle>, after: seq<Handle>, lo: nat) {
    && |after| == |before| > 0
    && forall i: nat :: lo <= i < lo + |before| ==> At(after, i) == At(before, i).(ts := At(after, i).ts)
  }

  /** Whatever a sweep sends is the current packet of an index in its range. */
  lemma {:induction false} SweepOk(handles: seq<Handle>, wnd: nat, base: nat, curr: nat, end: nat, now: nat,
                                   rto: nat, mem: seq<Byte>)
    requires |handles| > 0 && base <= curr && end <= base + |handles|
    ensures var p := Sweep(handles, wnd, curr, end, now, rto, mem);
            && Retimed(handles, p.handles, base)
            && p.wnd <= Max(wnd, 1)
            && (forall d :: d in p.out ==> curr <= d.index < end && d.frame == Shot(At(handles, d.index), now, mem))
    decreases end - curr
  {
    if curr < end {
      var h := At(handles, curr);
      if U64Sub(now, h.ts) < rto {
        SweepOk(handles, wnd, base, curr + 1, end, now, rto, mem);
      } else {
        var wnd' := if h.ts != 0 then CapWnd(1, |handles|) else wnd;
        var next := Stamp(handles, curr, now);
        StampRetimes(handles, base, curr, now);
        SweepOk(next, wnd', base, curr + 1, end, now, rto, mem);
        RetimedTrans(handles, next, Sweep(next, wnd', curr + 1, end, now, rto, mem).handles, base);
        StampFrame(handles, curr, end, now);
      }
    }
  }

  ghost predicate Due(handles: seq<Handle>, i: nat, now: nat, rto: nat) {
    |handles| > 0 && U64Sub(now, At(handles, i).ts) >= rto
  }

  /**
   What a sweep of `[curr, end)` did: exactly the packets that were due are sent and stamped,
   the others left alone.
   */
  ghost predicate SweptExactly(handles: seq<Handle>, p: Swept, base: nat, curr: nat, end: nat, now: nat, rto: nat,
                               mem: seq<Byte>)
    requires |handles| > 0
  {
    && |p.handles| == |handles|
    && (forall i: nat :: curr <= i < end ==>
          && (Due(handles, i, now, rto) <==> U.Data(i, Shot(At(handles, i), now, mem)) in p.out)
          && At(p.handles, i).ts == if Due(handles, i, now, rto) then now else At(handles, i).ts)
    && (forall i: nat :: base <= i < curr ==> At(p.handles, i) == At(handles, i))
  }

  /** The window closes to one packet exactly when a packet goes out again. */
  ghost predicate Resends(handles: seq<Handle>, curr: nat, end: nat, now: nat, rto: nat) {
    exists i: nat :: curr <= i < end && Due(handles, i, now, rto) && At(handles, i).ts != 0
  }

  lemma {:induction false} SweepExact(handles: seq<Handle>, wnd: nat, base: nat, curr: nat, end: nat, now: nat,
                                      rto: nat, mem: seq<Byte>)
    requires |handles| > 0 && base <= curr && end <= base + |handles|
    ensures SweptExactly(handles, Sweep(handles, wnd, curr, end, now, rto, mem), base, curr, end, now, rto, mem)
    decreases end - curr
  {
    if curr < end {
      if !Due(handles, curr, now, rto) {
        SweepOk(handles, wnd, base, curr + 1, end, now, rto, mem);
        SweepExact(handles, wnd, base, curr + 1, end, now, rto, mem);
      } else {
        var wnd' := if At(handles, curr).ts != 0 then CapWnd(1, |handles|) else wnd;
        var next := Stamp(handles, curr, now);
        SweepExact(next, wnd', base, curr + 1, end, now, rto, mem);
        StampElsewhere(handles, base, curr, end, now);
        SweptFirst(handles, next, Sweep(next, wnd', curr + 1, end, now, rto, mem), base, curr, end, now, rto, mem);
      }
    }
  }

  lemma {:induction false} SweepWindow(handles: seq<Handle>, wnd: nat, base: nat, curr: nat, end: nat, now: nat,
                                       rto: nat, mem: seq<Byte>)
    requires |handles| > 0 && base <= curr && end <= base + |handles|
    ensures Sweep(handles, wnd, curr, end, now, rto, mem).wnd ==
            if Resends(handles, curr, end, now, rto) then CapWnd(1, |handles|) else wnd
    decreases end - curr
  {
    if curr < end {
      if !Due(handles, curr, now, rto) {
        SweepWindow(handles, wnd, base, curr + 1, end, now, rto, mem);
      } else {
        var wnd' := if At(handles, curr).ts != 0 then CapWnd(1, |handles|) else wnd;
        var next := Stamp(handles, curr, now);
        SweepWindow(next, wnd', base, curr + 1, end, now, rto, mem);
        StampElsewhere(handles, base, curr, end, now);
        ResendsFirst(handles, next, curr, end, now, rto);
      }
    }
  }

  lemma StampElsewhere(handles: seq<Handle>, base: nat, curr: nat, end: nat, now: nat)
    requires |handles| > 0 && base <= curr < end <= base + |handles|
    ensures var next := Stamp(handles, curr, now);
            && |next| == |handles| && At(next, curr) == At(handles, curr).(ts := now)
            && (forall i: nat :: base <= i < end && i != curr ==> At(next, i) == At(handles, i))
  {
    StoreAt(handles, curr, At(handles, curr).(ts := now));
  }

  lemma SweptFirst(handles: seq<Handle>, next: seq<Handle>, rest: Swept, base: nat, curr: nat, end: nat, now: nat,
                   rto: nat, mem: seq<Byte>)
    requires |next| == |handles| > 0 && base <= curr < end && Due(handles, curr, now, rto)
    requires At(next, curr) == At(handles, curr).(ts := now)
    requires forall i: nat :: base <= i < end && i != curr ==> At(next, i) == At(handles, i)
    requires SweptExactly(next, rest, base, curr + 1, end, now, rto, mem)
    ensures SweptExactly(handles, rest.(out := [U.Data(curr, Shot(At(handles, curr), now, mem))] + rest.out),
                         base, curr, end, now, rto, mem)
  {
    var first := U.Data(curr, Shot(At(handles, curr), now, mem));
    forall i: nat | curr <= i < end
      ensures Due(handles, i, now, rto) <==> U.Data(i, Shot(At(handles, i), now, mem)) in [first] + rest.out
      ensures At(rest.handles, i).ts == if Due(handles, i, now, rto) then now else At(handles, i).ts
    {
      if i > curr { assert Due(next, i, now, rto) <==> Due(handles, i, now, rto); }
    }
  }

  lemma ResendsFirst(handles: seq<Handle>, next: seq<Handle>, curr: nat, end: nat, now: nat, rto: nat)
    requires |next| == |handles| > 0 && curr < end && Due(handles, curr, now, rto)
    requires forall i: nat :: curr < i < end ==> At(next, i) == At(handles, i)
    ensures Resends(handles, curr, end, now, rto) <==>
            At(handles, curr).ts != 0 || Resends(next, curr + 1, end, now, rto)
  {
    if Resends(handles, curr, end, now, rto) && At(handles, curr).ts == 0 {
      var i: nat :| curr <= i < end && Due(handles, i, now, rto) && At(handles, i).ts != 0;
      assert Due(next, i, now, rto) && At(next, i).ts != 0;
    }
    if Resends(next, curr + 1, end, now, rto) {
      var i: nat :| curr + 1 <= i < end && Due(next, i, now, rto) && At(next, i).ts != 0;
      assert Due(handles, i, now, rto) && At(handles, i).ts != 0;
    }
  }

  lemma StampRetimes(handles: seq<Handle>, base: nat, curr: nat, now: nat)
    requires |handles| > 0 && base <= curr < base + |handles|
    ensures Retimed(handles, Stamp(handles, curr, now), base)
  {
    StoreAt(handles, curr, At(handles, curr).(ts := now));
    forall i: nat | base <= i < base + |handles|
      ensures At(Stamp(handles, curr, now), i) == At(handles, i).(ts := At(Stamp(handles, curr, now), i).ts)
    {
      if i != curr { assert At(Stamp(handles, curr, now), i) == At(handles, i); }
    }
  }

  lemma RetimedTrans(a: seq<Handle>, b: seq<Handle>, c: seq<Handle>, base: nat)
    requires Retimed(a, b, base) && Retimed(b, c, base)
    ensures Retimed(a, c, base)
  {
    forall i: nat | base <= i < base + |a| ensures At(c, i) == At(a, i).(ts := At(c, i).ts) {
      assert At(b, i) == At(a, i).(ts := At(b, i).ts);
    }
  }

  lemma RetimedHolds(r: Ring, handles: seq<Handle>, wnd: nat, base: nat, frags: seq<Buffer>)
    requires Holds(r, base, frags) && Retimed(r.handles, handles, base)
    ensures Holds(r.(handles := handles, wnd := wnd), base, frags)
  {
    forall i: nat | base <= i < r.head ensures Carries(At(handles, i), i, frags[i], r.session) {
      assert Carries(At(r.handles, i), i, frags[i], r.session);
      assert At(handles, i) == At(r.handles, i).(ts := At(handles, i).ts);
    }
    forall s | 0 <= s < |handles| && handles[s].packet != 0 ensures !handles[s].compacted {
      var j := Representative(s, base, |handles|);
      assert At(handles, j) == At(r.handles, j).(ts := At(handles, j).ts);
    }
  }

  lemma LiveShotOk(m: Setup, w: World, at: nat, i: nat)
    requires Inv(m, w) && MinTail(w.tails) <= i < w.ring.head
    ensures U.DataOk(U.Data(i, Shot(At(w.ring.handles, i), at, w.smem)), w.sent, w.ring.head)
  {
    assert Carries(At(w.ring.handles, i), i, w.frags[i], w.ring.session);
    assert InBounds(w.smem, w.frags[i]) && Read(w.smem, w.frags[i]) == w.sent[i];
  }

  lemma TransmitKeeps(m: Setup, w: World, at: nat)
    requires Inv(m, w) && w.now <= at < TWO_64
    ensures Inv(m, TransmitNext(w, at))
  {
    var base := MinTail(w.tails);
    var p := Sweep(w.ring.handles, w.ring.wnd, base, w.ring.head, at, w.rtt.rto, w.smem);
    SweepOk(w.ring.handles, w.ring.wnd, base, base, w.ring.head, at, w.rtt.rto, w.smem);
    RetimedHolds(w.ring, p.handles, p.wnd, base, w.frags);
    var w' := TransmitNext(w, at);
    forall d | d in p.out ensures U.DataOk(d, w.sent, w.ring.head) {
      LiveShotOk(m, w, at, d.index);
    }
    forall r: nat | r < |w'.rcvs| ensures ReplicaOk(m, w', r) { assert ReplicaOk(m, w, r); }
  }

  // Acknowledging

  /** The controller routes every replica's acknowledgement to that replica's tail. */
  lemma RouteOwn(m: Setup, r: nat)
    requires GoodSetup(m) && r < |m.nodes|
    ensures Route(m, r) == Some(Place(m.group, r))
  {
    FindUnique(m.groups, m.names[m.nodes[r]], Place(m.group, r));
  }

  /** What a routed acknowledgement changes: its own replica's tail, and no other. */
  lemma ReplyMoves(m: Setup, w: World, k: Reply, grh: seq<Byte>, received: nat) returns (q: Received)
    requires Inv(m, w) && Shaped(m, w) && Enabled(m, w, DeliverAck(k, grh, received))
    ensures k.replica < |w.tails| && q.sn < SN_SPACE && q.ts < TWO_48 && q.wnd == DEFAULT_WND
    ensures DeliverAckNext(m, w, k, grh, received) == OnReply(w, m.c.mtu, k.replica, q, received)
    ensures AckTail(w.tails[k.replica], w.ring.head, q.sn) == Max(w.tails[k.replica], k.ack.value)
    ensures k.ack.value <= w.rcvs[k.replica].inbox.tail <= w.ring.head
  {
    TailsBounded(m, w);
    assert ReplyOk(k, w.rcvs) && ReplicaOk(m, w, k.replica);
    var rcv := w.rcvs[k.replica];
    S.ReceivedBelowHead(rcv.inbox, w.posted[k.replica], w.released[k.replica], w.sent, w.ring.head);
    q := S.AckArrives(k.ack, rcv.inbox.tail, grh);
    RouteOwn(m, k.replica);
    AckExactIff(w.tails[k.replica], w.ring.head, k.ack.value);
  }

  /** The shape of `OnReply`, without the arithmetic of the windows. */
  lemma OnReplyShape(w: World, mtu: nat, index: nat, ack: Received, now: nat)
    requires |w.ring.handles| > 0 && 0 < mtu && now < TWO_64 && ack.sn < SN_SPACE && ack.ts < TWO_48
    requires index < |w.tails| && ack.wnd <= DEFAULT_WND && w.ring.wnd <= DEFAULT_WND
    requires var tails := w.tails[index := AckTail(w.tails[index], w.ring.head, ack.sn)];
             Fill(w.ring, MinTail(tails)).ring.wnd == w.ring.wnd
    ensures var w' := OnReply(w, mtu, index, ack, now);
            && w'.tails == w.tails[index := AckTail(w.tails[index], w.ring.head, ack.sn)]
            && w'.ring == Fill(w.ring, MinTail(w'.tails)).ring.(wnd := w'.ring.wnd)
            && w'.ring.wnd <= DEFAULT_WND && w'.win.cwnd <= DEFAULT_WND
            && w' == w.(tails := w'.tails, ring := w'.ring, win := w'.win, now := now, rtt := w'.rtt)
  {
    OnSuccessCapped(w.win, mtu, ack.wnd);
  }

  lemma DeliverAckKeeps(m: Setup, w: World, k: Reply, grh: seq<Byte>, received: nat)
    requires Inv(m, w) && Shaped(m, w) && Enabled(m, w, DeliverAck(k, grh, received))
    ensures var w' := DeliverAckNext(m, w, k, grh, received);
            && Inv(m, w') && k.replica < |w.tails|
            && w'.tails == w.tails[k.replica := Max(w.tails[k.replica], k.ack.value)]
            && w'.rcvs == w.rcvs
  {
    var q := ReplyMoves(m, w, k, grh, received);
    ReplyKeeps(m, w, k.replica, k.ack.value, q, received);
  }

  lemma ReplyKeeps(m: Setup, w: World, r: nat, value: nat, q: Received, received: nat)
    requires Inv(m, w) && r < |w.tails| && q.sn < SN_SPACE && q.ts < TWO_48 && q.wnd == DEFAULT_WND
    requires received < TWO_64 && value <= w.rcvs[r].inbox.tail <= w.ring.head
    requires AckTail(w.tails[r], w.ring.head, q.sn) == Max(w.tails[r], value)
    ensures var w' := OnReply(w, m.c.mtu, r, q, received);
            && Inv(m, w') && w'.tails == w.tails[r := Max(w.tails[r], value)] && w'.rcvs == w.rcvs
  {
    TailsBounded(m, w);
    assert ReplicaOk(m, w, r);
    var tails := w.tails[r := Max(w.tails[r], value)];
    MinTailUp(w.tails, r, tails[r]);
    var filled := w.(tails := tails, ring := Fill(w.ring, MinTail(tails)).ring);
    FilledOk(m, w, tails, filled);
    OnReplyShape(w, m.c.mtu, r, q, received);
    var w' := OnReply(w, m.c.mtu, r, q, received);
    Rewindow(m, filled, w', received);
    RepliedOk(m, w, w', r);
  }

  lemma FilledOk(m: Setup, w: World, tails: seq<nat>, filled: World)
    requires Sized(m) && SenderOk(m, w) && forall i :: 0 <= i < |w.frags| ==> !Refused(w.frags[i])
    requires |tails| == |w.tails| && forall r :: 0 <= r < |tails| ==> tails[r] <= w.ring.head
    requires MinTail(w.tails) <= MinTail(tails) <= w.ring.head
    requires filled == w.(tails := tails, ring := Fill(w.ring, MinTail(tails)).ring)
    ensures SenderOk(m, filled) && filled.ring.head >= w.ring.head && filled.ring.wnd == w.ring.wnd
    ensures FilledFrom(w.ring, filled.ring, MinTail(tails))
  {
    assert w.frags + [] == w.frags && w.ring.(todo := w.ring.todo + []) == w.ring;
    FillOk(m, w, w.ring, tails, [], filled);
    FillKeepsWnd(w.ring, MinTail(tails));
  }

  lemma Rewindow(m: Setup, w: World, w': World, received: nat)
    requires SenderOk(m, w) && received < TWO_64 && w'.now == received
    requires w'.tails == w.tails && w'.frags == w.frags && w'.ring == w.ring.(wnd := w'.ring.wnd)
    requires w'.ring.wnd <= DEFAULT_WND && w'.win.cwnd <= DEFAULT_WND
    ensures SenderOk(m, w')
  {}

  lemma RepliedOk(m: Setup, w: World, w': World, index: nat)
    requires Inv(m, w) && SenderOk(m, w') && index < |w.tails|
    requires w' == w.(tails := w'.tails, ring := w'.ring, win := w'.win, now := w'.now, rtt := w'.rtt)
    requires w.ring.head <= w'.ring.head && MinTail(w.tails) <= MinTail(w'.tails)
    requires w'.tails == w.tails[index := w'.tails[index]] && w'.tails[index] <= w.rcvs[index].inbox.tail
    ensures Inv(m, w')
  {
    assert w.sent + [] == w.sent;
    forall r: nat | r < |w'.rcvs| ensures ReplicaOk(m, w', r) {
      assert ReplicaOk(m, w, r);
      ReplicaGrow(m, w, w', r, []);
    }
    S.DataGrow(w.data, w.sent, w.ring.head, [], w'.ring.head);
  }

  // Every run

  lemma StepKeeps(m: Setup, w: World, a: Step)
    requires Inv(m, w) && Shaped(m, w) && Enabled(m, w, a)
    ensures Inv(m, Next(m, w, a))
  {
    match a
    case Send(list) => SendKeeps(m, w, list);
    case Receive(r, list) => ReceiveKeeps(m, w, r, list);
    case WriteSendMemory(_) => SmallStepKeeps(m, w, a);
    case WriteReceiveMemory(r, rmem) => RewriteKeeps(m, w, r, rmem);
    case Release(_, _) => SmallStepKeeps(m, w, a);
    case ChangePool(_) => SmallStepKeeps(m, w, a);
    case ChangeRtt(_) => SmallStepKeeps(m, w, a);
    case Transmit(at) => TransmitKeeps(m, w, at);
    case DeliverData(r, d, grh) => DeliverDataKeeps(m, w, r, d, grh);
    case SendAck(r) => SendAckKeeps(m, w, r);
    case AckSent(_) => SmallStepKeeps(m, w, a);
    case DeliverAck(k, grh, received) => DeliverAckKeeps(m, w, k, grh, received);
  }

  ghost predicate StepTo(m: Setup, w: World, a: Step, w': World) {
    GoodSetup(m) && Shaped(m, w) && Enabled(m, w, a) && w' == Next(m, w, a)
  }

  ghost function Stepper(m: Setup): (World, Step, World) -> bool {
    (w, a, v) => StepTo(m, w, a, v)
  }

  lemma InitInv(m: Setup, w: World)
    requires GoodSetup(m) && Init(m, w)
    ensures Inv(m, w)
  {
    MinTailIsLeast(w.tails);
    assert forall s :: 0 <= s < m.c.capacity ==> w.ring.handles[s] == RawHandle(0);
    forall r: nat | r < |w.rcvs| ensures ReplicaOk(m, w, r) {
      assert forall s :: 0 <= s < m.c.capacity ==> w.rcvs[r].inbox.requests[s] == Request(0, 0, false);
    }
  }

  lemma RunKeeps(m: Setup, w: World, run: Run<World, Step>)
    requires Inv(m, w) && IsRun(Stepper(m), w, run)
    ensures Inv(m, Last(w, run))
  {
    var inv := v => Inv(m, v);
    forall v, a, v' | inv(v) && Stepper(m)(v, a, v') ensures inv(v') {
      StepKeeps(m, v, a);
    }
    Invariance(Stepper(m), inv, w, run);
  }

  /** Replica `r` is exactly as far as the sender may assume and holds the sender's bytes. */
  ghost predicate Agrees(w: World, r: nat)
    requires r < |w.rcvs| == |w.tails| == |w.posted| == |w.released| == |w.writes|
  {
    var s := w.rcvs[r].inbox;
    && (forall i, j :: 0 <= i < j < |w.writes[r]| ==> w.writes[r][i] != w.writes[r][j])
    && (forall i: nat :: i < s.tail ==> i in w.writes[r])
    && MinTail(w.tails) <= w.tails[r] <= s.tail <= w.ring.head <= |w.sent|
    && s.tail <= |w.posted[r]|
    && forall i: nat :: w.released[r] <= i < s.tail ==>
         InBounds(s.mem, w.posted[r][i]) && Read(s.mem, w.posted[r][i]) == w.sent[i]
  }

  lemma ReplicaAgrees(m: Setup, w: World, r: nat)
    requires Inv(m, w) && r < |w.rcvs|
    ensures Agrees(w, r)
  {
    TailsBounded(m, w);
    assert ReplicaOk(m, w, r);
    var s := w.rcvs[r].inbox;
    S.ReceivedBelowHead(s, w.posted[r], w.released[r], w.sent, w.ring.head);
    forall i: nat | w.released[r] <= i < s.tail
      ensures InBounds(s.mem, w.posted[r][i]) && Read(s.mem, w.posted[r][i]) == w.sent[i]
    {
      assert Accepted(s, i);
    }
    forall i: nat | i < s.tail ensures i in w.writes[r] { assert Accepted(s, i); }
  }

  /**
   Multicast agreement, in every state of every run: each tail is at most its own replica's
   receive tail, every replica holds the sender's bytes below its tail and was written once,
   and the slot of an index is not reused before the slowest replica has passed it.
   */
  lemma Agreement(m: Setup, w: World, run: Run<World, Step>)
    requires GoodSetup(m) && Init(m, w) && IsRun(Stepper(m), w, run)
    ensures var v := Last(w, run);
            && !v.aborted && |v.rcvs| == |v.tails| == |v.posted| == |v.released| == |v.writes| == |m.nodes|
            && (forall r: nat :: r < |v.rcvs| ==> Agrees(v, r))
            && |v.ring.handles| == m.c.capacity && v.ring.head - MinTail(v.tails) <= 65
            && v.ring.head <= |v.frags|
            && (forall i: nat :: MinTail(v.tails) <= i < v.ring.head ==>
                  Carries(v.ring.handles[i % m.c.capacity], i, v.frags[i], m.c.session))
  {
    InitInv(m, w);
    RunKeeps(m, w, run);
    var v := Last(w, run);
    TailsBounded(m, v);
    forall r: nat | r < |v.rcvs| ensures Agrees(v, r) { ReplicaAgrees(m, v, r); }
    forall i: nat | MinTail(v.tails) <= i < v.ring.head
      ensures Carries(v.ring.handles[i % m.c.capacity], i, v.frags[i], m.c.session)
    {
      SlotIsRemainder(i, m.c.capacity);
      assert Carries(At(v.ring.handles, i), i, v.frags[i], m.c.session);
    }
  }

  /** An acknowledgement, from every state of every run, moves its own replica's tail and no other. */
  lemma AckMovesOwnTail(m: Setup, w: World, run: Run<World, Step>, k: Reply, grh: seq<Byte>, received: nat)
    requires GoodSetup(m) && Init(m, w) && IsRun(Stepper(m), w, run)
    requires Shaped(m, Last(w, run)) && Enabled(m, Last(w, run), DeliverAck(k, grh, received))
    ensures var v := Last(w, run);
            var v' := Next(m, v, DeliverAck(k, grh, received));
            && k.replica < |v.tails| == |v'.tails|
            && v'.tails[k.replica] == Max(v.tails[k.replica], k.ack.value)
            && (forall r :: 0 <= r < |v.tails| && r != k.replica ==> v'.tails[r] == v.tails[r])
  {
    InitInv(m, w);
    RunKeeps(m, w, run);
    DeliverAckKeeps(m, Last(w, run), k, grh, received);
  }
}
