/**
 The exchange of the multicast protocol: what a reply brings about at the sender, when all
 replicas have answered, and when a replica can be heard at all.
 */
module MulticastReplies {
  import opened Arithmetic
  import opened SequenceNumbers
  import opened Fragmentation
  import opened Packets
  import opened SendRing
  import opened SendQueues
  import opened ReceiveRing
  import opened Control
  import opened Endpoint
  import opened Multicast
  import opened MulticastSafety
  import opened MulticastShape
  import opened MulticastTasks
  import opened TaskStatus
  import opened Runs
  import U = Unicast
  import S = UnicastSafety
  import P = UnicastProgress

  // Tails over runs

  /** No tail goes back, and only a reply of a replica moves the replica's tail. */
  lemma TailsGrow(m: Setup, w: World, a: Step)
    requires Inv(m, w) && Shaped(m, w) && Enabled(m, w, a)
    ensures var w' := Next(m, w, a);
            && |w'.tails| == |w.tails|
            && (forall r :: 0 <= r < |w.tails| ==> w.tails[r] <= w'.tails[r])
            && (!a.DeliverAck? ==> w'.tails == w.tails)
            && (a.DeliverAck? ==> a.k.replica < |w.tails| && a.k.ack.value <= w'.tails[a.k.replica])
  {
    if a.DeliverAck? {
      DeliverAckKeeps(m, w, a.k, a.agrh, a.received);
    } else {
      TailsSame(m, w, a);
    }
  }

  lemma TailsSame(m: Setup, w: World, a: Step)
    requires Sized(m) && Shaped(m, w) && Possible(m, w, a) && !a.DeliverAck?
    ensures Next(m, w, a).tails == w.tails
  {}

  lemma StepOn(m: Setup, w: World, a: Step, v: World)
    requires Inv(m, w) && StepTo(m, w, a, v)
    ensures Inv(m, v) && |v.tails| == |w.tails| && forall r :: 0 <= r < |w.tails| ==> w.tails[r] <= v.tails[r]
    ensures a.DeliverAck? ==> a.k.replica < |v.tails| && a.k.ack.value <= v.tails[a.k.replica]
  {
    StepKeeps(m, w, a);
    TailsGrow(m, w, a);
  }

  lemma {:induction false} TailsGrowOver(m: Setup, w: World, run: Run<World, Step>)
    requires Inv(m, w) && IsRun(Stepper(m), w, run)
    ensures |Last(w, run).tails| == |w.tails|
    ensures forall r :: 0 <= r < |w.tails| ==> w.tails[r] <= Last(w, run).tails[r]
    decreases run
  {
    match run
    case Stop =>
    case Go(a, v, rest) =>
      StepOn(m, w, a, v);
      TailsGrowOver(m, v, rest);
  }

  // Replies sent and delivered

  /** The reply of replica `r` as it is now: it stands for the receive tail. */
  ghost predicate IsReply(k: Reply, w: World, r: nat) {
    && r < |w.rcvs| && k.replica == r
    && k.ack.value == w.rcvs[r].inbox.tail && k.ack.frame.handle.sn == w.rcvs[r].inbox.tail % SN_SPACE
    && k.ack.frame.handle.wnd == w.rcvs[r].inbox.wnd && k.ack.frame.handle.ts == w.rcvs[r].inbox.lastTs
  }

  /** A replica that owes an answer sends exactly one, which says how far it is. */
  lemma AnswerExact(m: Setup, w: World, run: Run<World, Step>, r: nat)
    requires Sized(m) && Init(m, w) && IsRun(Loose(m), w, run)
    requires Shaped(m, Last(w, run)) && Possible(m, Last(w, run), SendAck(r))
    ensures var v := Last(w, run);
            var v' := Next(m, v, SendAck(r));
            && (exists k :: IsReply(k, v, r) && v'.acks == v.acks + {k})
            && v' == v.(acks := v'.acks, rcvs := v.rcvs[r := v'.rcvs[r]])
            && v'.rcvs[r] == v.rcvs[r].(ackPackets := v.rcvs[r].recvPackets, ackBusy := true)
  {
    var v := Last(w, run);
    var k := TheReply(v, r);
    assert IsReply(k, v, r) && Next(m, v, SendAck(r)).acks == v.acks + {k};
  }

  function TheReply(w: World, r: nat): Reply
    requires r < |w.rcvs|
  {
    Reply(r, U.Ack(w.rcvs[r].inbox.tail, Frame(ReplyHandle(w.rcvs[r]), [])))
  }

  /** The run delivers this reply to the sender. */
  ghost predicate Delivers(run: Run<World, Step>, k: Reply)
    decreases run
  {
    match run
    case Stop => false
    case Go(a, _, rest) => (a.DeliverAck? && a.k == k) || Delivers(rest, k)
  }

  /** In the run replica `r` answers when it is at or past `n`, and that answer is delivered later. */
  ghost predicate Answers(w: World, run: Run<World, Step>, r: nat, n: nat)
    decreases run
  {
    match run
    case Stop => false
    case Go(a, v, rest) =>
      || (&& a == SendAck(r) && r < |w.rcvs| && n <= w.rcvs[r].inbox.tail
          && exists k :: IsReply(k, w, r) && k in v.acks && Delivers(rest, k))
      || Answers(v, rest, r, n)
  }

  lemma {:induction false} DeliveredRaises(m: Setup, w: World, run: Run<World, Step>, k: Reply)
    requires Inv(m, w) && IsRun(Stepper(m), w, run) && Delivers(run, k)
    ensures |Last(w, run).tails| == |m.nodes| && k.replica < |m.nodes|
    ensures k.ack.value <= Last(w, run).tails[k.replica]
    decreases run
  {
    match run
    case Go(a, v, rest) =>
      StepOn(m, w, a, v);
      if a.DeliverAck? && a.k == k {
        TailsGrowOver(m, v, rest);
      } else {
        DeliveredRaises(m, v, rest, k);
      }
  }

  lemma {:induction false} AnswerRaises(m: Setup, w: World, run: Run<World, Step>, r: nat, n: nat)
    requires Inv(m, w) && IsRun(Stepper(m), w, run) && r < |m.nodes| && Answers(w, run, r, n)
    ensures |Last(w, run).tails| == |m.nodes| && n <= Last(w, run).tails[r]
    decreases run
  {
    match run
    case Go(a, v, rest) =>
      StepOn(m, w, a, v);
      if a == SendAck(r) && r < |w.rcvs| && n <= w.rcvs[r].inbox.tail
         && exists k :: IsReply(k, w, r) && k in v.acks && Delivers(rest, k)
      {
        var k :| IsReply(k, w, r) && k in v.acks && Delivers(rest, k);
        DeliveredRaises(m, v, rest, k);
      } else {
        AnswerRaises(m, v, rest, r, n);
      }
  }

  /** When every replica has answered from at or past `n`, the slowest tail is there too. */
  lemma AllAnswered(m: Setup, w: World, run: Run<World, Step>, n: nat)
    requires Inv(m, w) && IsRun(Stepper(m), w, run) && forall r: nat :: r < |m.nodes| ==> Answers(w, run, r, n)
    ensures n <= MinTail(Last(w, run).tails)
  {
    var v := Last(w, run);
    RunKeeps(m, w, run);
    TailsBounded(m, v);
    forall r: nat | r < |m.nodes| ensures |v.tails| == |m.nodes| && n <= v.tails[r] { AnswerRaises(m, w, run, r, n); }
    var r: nat :| r < |v.tails| && v.tails[r] == MinTail(v.tails);
  }

  // With the tasks

  /** The protocol steps of a session's run. */
  function Worlds(run: Run<Session, Step>): Run<World, Step> {
    match run
    case Stop => Stop
    case Go(a, v, rest) => Go(a, v.w, Worlds(rest))
  }

  lemma {:induction false} WorldsRun(m: Setup, s: Session, run: Run<Session, Step>)
    requires IsRun(Proper(m), s, run)
    ensures IsRun(Stepper(m), s.w, Worlds(run)) && Last(s.w, Worlds(run)) == Last(s, run).w
    decreases run
  {
    match run
    case Stop =>
    case Go(a, v, rest) => WorldsRun(m, v, rest);
  }

  lemma {:induction false} ProperIsLoose(m: Setup, s: Session, run: Run<Session, Step>)
    requires IsRun(Proper(m), s, run)
    ensures IsRun(Sessions(m), s, run)
    decreases run
  {
    match run
    case Stop =>
    case Go(a, v, rest) => ProperIsLoose(m, v, rest);
  }

  /**
   From every state of every run: once every replica has answered from at or past `n`, every
   recorded send that ends at or before `n` is finished, and below 2^24 fragments reported so.
   */
  lemma AnsweredFinished(m: Setup, s: Session, before: Run<Session, Step>, after: Run<Session, Step>, n: nat)
    requires GoodSetup(m) && SessionInit(m, s) && IsRun(Proper(m), s, before)
    requires IsRun(Proper(m), Last(s, before), after)
    requires forall r: nat :: r < |m.nodes| ==> Answers(Last(s, before).w, Worlds(after), r, n)
    ensures var v := Last(Last(s, before), after);
            && n <= MinTail(v.w.tails)
            && forall k: nat :: k < |v.sends.tasks| && v.sends.tasks[k].end <= n ==>
                 && v.sends.tasks[k].end <= MinTail(v.w.tails)
                 && (|v.w.frags| < SN_SPACE ==> Said(v.sends.tasks[k], MinTail(v.w.tails), v.w.ring.head))
  {
    var u := Last(s, before);
    var v := Last(u, after);
    assert n <= MinTail(v.w.tails) by {
      InitInv(m, s.w);
      ProperRun(m, s, before);
      WorldsRun(m, u, after);
      AllAnswered(m, u.w, Worlds(after), n);
    }
    assert SendsTold(v) by {
      ChainIsRun(Proper(m), s, before, after);
      ProperIsLoose(m, s, Chain(before, after));
      StatusExact(m, s, Chain(before, after));
    }
    forall k: nat | k < |v.sends.tasks| && v.sends.tasks[k].end <= n && |v.w.frags| < SN_SPACE
      ensures Said(v.sends.tasks[k], MinTail(v.w.tails), v.w.ring.head)
    {
      assert Told(v.sends.tasks[k], v.w.frags, MinTail(v.w.tails), v.w.ring.head);
    }
  }

  // Collecting the answers

  /** What collecting replica `r`'s answer changes: its tail is where it is, and it owes nothing. */
  ghost predicate Collected(m: Setup, w: World, r: nat, v: World)
    requires r < |w.rcvs| == |w.tails|
  {
    && Inv(m, v) && v.now == w.now && v.frags == w.frags && v.posted == w.posted
    && v.tails == w.tails[r := w.rcvs[r].inbox.tail]
    && |v.rcvs| == |w.rcvs| && v.rcvs[r].inbox == w.rcvs[r].inbox
    && (forall q :: 0 <= q < |w.rcvs| && q != r ==> v.rcvs[q] == w.rcvs[q])
  }

  /** The run posts nothing for replica `r`. */
  ghost predicate NoPost(run: Run<World, Step>, r: nat)
    decreases run
  {
    match run
    case Stop => true
    case Go(a, _, rest) => !(a.Receive? && a.r == r) && NoPost(rest, r)
  }

  lemma TailBehind(m: Setup, w: World, r: nat)
    requires Inv(m, w) && r < |w.rcvs|
    ensures Shaped(m, w) && w.tails[r] <= w.rcvs[r].inbox.tail
  {
    TailsBounded(m, w);
    assert ReplicaOk(m, w, r);
  }

  /** A replica's answer is sent and delivered. */
  lemma CollectOne(m: Setup, w: World, r: nat) returns (run: Run<World, Step>)
    requires Inv(m, w) && r < |w.rcvs| && w.rcvs[r].ackPackets < w.rcvs[r].recvPackets
    ensures IsRun(Stepper(m), w, run) && Length(run) == 3 && NoPost(run, r)
    ensures |w.rcvs| == |w.tails| && Collected(m, w, r, Last(w, run))
  {
    var v := RestOne(m, w, r);
    var rest := AnswerAndHear(m, v, r);
    run := Go(AckSent(r), v, rest);
  }

  lemma AnswerAndHear(m: Setup, w: World, r: nat) returns (run: Run<World, Step>)
    requires Inv(m, w) && Shaped(m, w) && r < |w.rcvs| && OwesAck(w.rcvs[r])
    ensures IsRun(Stepper(m), w, run) && Length(run) == 2 && NoPost(run, r)
    ensures Collected(m, w, r, Last(w, run))
  {
    var k := TheReply(w, r);
    var v := AnswerOne(m, w, r);
    TailBehind(m, v, r);
    var hear, u := HearOne(m, v, k);
    run := Go(SendAck(r), v, Go(hear, u, Stop));
    TwoSteps(Stepper(m), w, SendAck(r), v, hear, u);
    NoPostTwo(SendAck(r), v, hear, u, r);
  }

  lemma NoPostTwo(a: Step, v: World, b: Step, u: World, r: nat)
    requires !a.Receive? && !b.Receive?
    ensures NoPost(Go(a, v, Go(b, u, Stop)), r)
  {
    assert NoPost(Go(b, u, Stop), r);
  }

  lemma RestOne(m: Setup, w: World, r: nat) returns (v: World)
    requires Inv(m, w) && r < |w.rcvs|
    ensures Shaped(m, w) && StepTo(m, w, AckSent(r), v) && Inv(m, v) && Shaped(m, v)
    ensures v == w.(rcvs := w.rcvs[r := w.rcvs[r].(ackBusy := false)])
  {
    TailsBounded(m, w);
    v := Next(m, w, AckSent(r));
    StepKeeps(m, w, AckSent(r));
    TailsBounded(m, v);
  }

  lemma AnswerOne(m: Setup, w: World, r: nat) returns (v: World)
    requires Inv(m, w) && Shaped(m, w) && r < |w.rcvs| && OwesAck(w.rcvs[r])
    ensures StepTo(m, w, SendAck(r), v) && Inv(m, v)
    ensures v == w.(rcvs := w.rcvs[r := AfterAck(w.rcvs[r])], acks := w.acks + {TheReply(w, r)})
  {
    v := Next(m, w, SendAck(r));
    StepKeeps(m, w, SendAck(r));
  }

  lemma HearOne(m: Setup, w: World, k: Reply) returns (a: Step, v: World)
    requires Inv(m, w) && Shaped(m, w) && k in w.acks && k.replica < |w.tails| && w.tails[k.replica] <= k.ack.value
    ensures a.DeliverAck? && StepTo(m, w, a, v)
    ensures Inv(m, v) && v.tails == w.tails[k.replica := k.ack.value] && v.rcvs == w.rcvs && v.now == w.now
    ensures v.frags == w.frags && v.posted == w.posted
  {
    a := DeliverAck(k, P.ANY_GRH, w.now);
    DeliverAckKeeps(m, w, k, P.ANY_GRH, w.now);
    HeardHead(m, w, k);
    v := Next(m, w, a);
  }

  lemma HeardHead(m: Setup, w: World, k: Reply)
    requires Inv(m, w) && Shaped(m, w) && Enabled(m, w, DeliverAck(k, P.ANY_GRH, w.now))
    ensures var v := DeliverAckNext(m, w, k, P.ANY_GRH, w.now);
            v.now == w.now && v.frags == w.frags && v.posted == w.posted
  {
    var q := ReplyMoves(m, w, k, P.ANY_GRH, w.now);
  }

  /** Everyone from replica `r` on owes an answer and is at or past `n`; everyone before has answered. */
  ghost predicate Owing(w: World, r: nat, n: nat) {
    && |w.rcvs| == |w.tails|
    && (forall q :: r <= q < |w.rcvs| ==> w.rcvs[q].ackPackets < w.rcvs[q].recvPackets && n <= w.rcvs[q].inbox.tail)
    && (forall q :: 0 <= q < r && q < |w.tails| ==> n <= w.tails[q])
  }

  /** If all replicas are at or past `n` and owe an answer, three steps for each bring the slowest tail there. */
  lemma {:induction false} Collect(m: Setup, w: World, r: nat, n: nat) returns (run: Run<World, Step>)
    requires Inv(m, w) && Owing(w, r, n) && r <= |m.nodes|
    ensures IsRun(Stepper(m), w, run) && Length(run) == 3 * (|m.nodes| - r)
    ensures n <= MinTail(Last(w, run).tails) && Inv(m, Last(w, run)) && Last(w, run).frags == w.frags
    decreases |m.nodes| - r
  {
    if r == |m.nodes| {
      run := Stop;
      TailsBounded(m, w);
      var q: nat :| q < |w.tails| && w.tails[q] == MinTail(w.tails);
    } else {
      var first := CollectOne(m, w, r);
      var rest := Collect(m, Last(w, first), r + 1, n);
      ChainIsRun(Stepper(m), w, first, rest);
      run := Chain(first, rest);
    }
  }

  // When a replica can be heard

  /** Every answer of the replica has been heard, and it owes none. */
  ghost predicate Spent(w: World, r: nat)
    requires r < |w.rcvs| == |w.tails|
  {
    && w.rcvs[r].ackPackets == w.rcvs[r].recvPackets
    && forall k :: k in w.acks && k.replica == r ==> k.ack.value <= w.tails[r]
  }

  /** Any steps, but the replica posts nothing more. */
  ghost function NotPosting(m: Setup, r: nat): (World, Step, World) -> bool {
    (w, a, v) => StepTo(m, w, a, v) && !(a.Receive? && a.r == r)
  }

  ghost predicate Deaf(m: Setup, w: World, r: nat, t: nat) {
    && Inv(m, w) && r < |w.rcvs| == |w.tails| && w.rcvs[r].inbox.head == w.rcvs[r].inbox.tail
    && w.tails[r] == t && Spent(w, r)
  }

  /** A replica whose posted buffers are all filled drops what arrives, uncounted, so it never answers again. */
  lemma DeafKeeps(m: Setup, w: World, a: Step, v: World, r: nat, t: nat)
    requires Deaf(m, w, r, t) && NotPosting(m, r)(w, a, v)
    ensures Deaf(m, v, r, t)
  {
    StepOn(m, w, a, v);
    match a
    case DeliverAck(k, grh, received) =>
      DeafHears(m, w, k, grh, received, r, t);
    case DeliverData(q, d, grh) => DeafDrops(m, w, q, d, grh, r);
    case _ =>
  }

  lemma DeafHears(m: Setup, w: World, k: Reply, grh: seq<Byte>, received: nat, r: nat, t: nat)
    requires Deaf(m, w, r, t) && Shaped(m, w) && Enabled(m, w, DeliverAck(k, grh, received))
    ensures var v := DeliverAckNext(m, w, k, grh, received); v.acks == w.acks && v.rcvs == w.rcvs && v.tails[r] == t
  {
    DeliverAckKeeps(m, w, k, grh, received);
    var q := ReplyMoves(m, w, k, grh, received);
  }

  lemma DeafDrops(m: Setup, w: World, q: nat, d: U.Data, grh: seq<Byte>, r: nat)
    requires Inv(m, w) && q < |w.rcvs| && r < |w.rcvs| && |grh| == GRH_SIZE
    requires w.rcvs[r].inbox.head == w.rcvs[r].inbox.tail
    ensures var v := DeliverDataNext(w, q, d, grh);
            v.rcvs[r] == w.rcvs[r] && v.acks == w.acks && v.tails == w.tails && |v.rcvs| == |w.rcvs|
  {
    ArrivesAsImage(d.frame, grh);
  }

  lemma DeafForever(m: Setup, w: World, run: Run<World, Step>, r: nat, t: nat)
    requires Deaf(m, w, r, t) && IsRun(NotPosting(m, r), w, run)
    ensures Deaf(m, Last(w, run), r, t)
  {
    var inv := v => Deaf(m, v, r, t);
    forall v, a, v' | inv(v) && NotPosting(m, r)(v, a, v') ensures inv(v') {
      DeafKeeps(m, v, a, v', r, t);
    }
    Invariance(NotPosting(m, r), inv, w, run);
  }

  /** What a recognisable packet does to its replica: it is counted, and the awaited one moves the tail. */
  lemma Delivered(m: Setup, w: World, r: nat, d: U.Data)
    requires Inv(m, w) && Shaped(m, w) && r < |w.rcvs| && d in w.data
    requires w.rcvs[r].inbox.head != w.rcvs[r].inbox.tail
    requires d.index <= w.rcvs[r].inbox.tail < d.index + SN_SPACE - DEFAULT_WND
    ensures Enabled(m, w, DeliverData(r, d, P.ANY_GRH))
    ensures var v := DeliverDataNext(w, r, d, P.ANY_GRH);
            && v == w.(rcvs := w.rcvs[r := v.rcvs[r]], writes := v.writes) && |v.rcvs| == |w.rcvs|
            && v.rcvs[r].recvPackets == w.rcvs[r].recvPackets + 1 && v.rcvs[r].ackPackets == w.rcvs[r].ackPackets
            && v.rcvs[r].inbox.tail >= w.rcvs[r].inbox.tail
            && (d.index == w.rcvs[r].inbox.tail ==> v.rcvs[r].inbox.tail > d.index)
  {
    assert ReplicaOk(m, w, r);
    var rcv := w.rcvs[r];
    FreshData(rcv.inbox.tail, rcv.inbox.wnd, d.index);
    var q := S.DataArrives(d, w.sent, w.ring.head, P.ANY_GRH);
    RecognisableHere(m, w, r, d.index);
    TakesShape(w, r, q, d.index);
    MarkKeeps(rcv.inbox, w.posted[r], d.index, q.ts, q.payload);
    if d.index == rcv.inbox.tail { assert Fits(rcv.inbox, d.index); }
  }

  /** Some run in which the replica posts nothing more moves its tail. */
  ghost predicate CanBeHeard(m: Setup, w: World, r: nat)
    requires r < |w.tails|
  {
    exists run :: IsRun(NotPosting(m, r), w, run) && MovedBy(w, Last(w, run), r)
  }

  ghost predicate MovedBy(w: World, v: World, r: nat)
    requires r < |w.tails|
  {
    |v.tails| == |w.tails| && w.tails[r] < v.tails[r]
  }

  /** All timers have run out at that time. */
  ghost predicate AllDueAt(w: World, at: nat) {
    w.now <= at < TWO_64 && forall i: nat :: MinTail(w.tails) <= i < w.ring.head ==>
      Due(w.ring.handles, i, at, w.rtt.rto)
  }

  /** The packet to send the replica: the one it waits for, or else one it has. */
  function Wanted(w: World, r: nat): nat
    requires r < |w.rcvs| == |w.tails|
  {
    if w.rcvs[r].inbox.tail < w.ring.head then w.rcvs[r].inbox.tail else w.tails[r]
  }

  lemma SendWanted(m: Setup, w: World, r: nat, at: nat) returns (v: World, d: U.Data)
    requires Inv(m, w) && r < |w.rcvs| && w.tails[r] < w.ring.head && AllDueAt(w, at)
    ensures Shaped(m, w) && StepTo(m, w, Transmit(at), v) && Inv(m, v) && Shaped(m, v) && r < |w.tails|
    ensures d in v.data && d.index == Wanted(w, r)
    ensures v.tails == w.tails && v.rcvs == w.rcvs && v.ring.head == w.ring.head
  {
    TailBehind(m, w, r);
    TailsBounded(m, w);
    v := Next(m, w, Transmit(at));
    StepKeeps(m, w, Transmit(at));
    TailsBounded(m, v);
    InvShape(m, w);
    StatePasses(m, w, at);
    var i := Wanted(w, r);
    d := U.Data(i, Shot(At(w.ring.handles, i), at, w.smem));
  }

  lemma InvShape(m: Setup, w: World)
    requires Inv(m, w)
    ensures Shape(m, w)
  {
    forall r: nat | r < |w.rcvs| ensures ReplicaShape(m, w, r) { assert ReplicaOk(m, w, r); }
    forall k | k in w.acks ensures k.ack.frame.handle.wnd <= DEFAULT_WND { assert ReplyOk(k, w.rcvs); }
  }

  lemma DeliverWanted(m: Setup, w: World, r: nat, d: U.Data) returns (v: World)
    requires Inv(m, w) && Shaped(m, w) && r < |w.rcvs| && d in w.data && d.index == Wanted(w, r)
    requires w.tails[r] < w.ring.head && w.rcvs[r].inbox.head != w.rcvs[r].inbox.tail
    requires w.rcvs[r].ackPackets == w.rcvs[r].recvPackets
    ensures StepTo(m, w, DeliverData(r, d, P.ANY_GRH), v) && Inv(m, v)
    ensures v.tails == w.tails && |v.rcvs| == |w.rcvs| && w.tails[r] < v.rcvs[r].inbox.tail
    ensures v.rcvs[r].ackPackets < v.rcvs[r].recvPackets
  {
    NotFarBehind(m, w, r);
    Delivered(m, w, r, d);
    v := Next(m, w, DeliverData(r, d, P.ANY_GRH));
    StepKeeps(m, w, DeliverData(r, d, P.ANY_GRH));
  }

  lemma NotFarBehind(m: Setup, w: World, r: nat)
    requires Inv(m, w) && r < |w.rcvs|
    ensures |w.tails| == |w.rcvs| && w.tails[r] <= w.rcvs[r].inbox.tail <= w.ring.head <= w.tails[r] + MAX_LIVE
  {
    ReplicaAgrees(m, w, r);
    TailsBounded(m, w);
  }

  /** The four steps after the pass: delivery, rest, answer and its delivery. */
  lemma HearWanted(m: Setup, w: World, r: nat, d: U.Data) returns (run: Run<World, Step>)
    requires Inv(m, w) && Shaped(m, w) && r < |w.rcvs| && d in w.data && d.index == Wanted(w, r)
    requires w.tails[r] < w.ring.head && w.rcvs[r].inbox.head != w.rcvs[r].inbox.tail
    requires w.rcvs[r].ackPackets == w.rcvs[r].recvPackets
    ensures IsRun(Stepper(m), w, run) && MovedBy(w, Last(w, run), r)
    ensures NoPost(run, r)
  {
    var v := DeliverWanted(m, w, r, d);
    var rest := CollectOne(m, v, r);
    run := Go(DeliverData(r, d, P.ANY_GRH), v, rest);
  }

  lemma {:induction false} NotPostingRun(m: Setup, w: World, run: Run<World, Step>, r: nat)
    requires IsRun(Stepper(m), w, run) && NoPost(run, r)
    ensures IsRun(NotPosting(m, r), w, run)
    decreases run
  {
    match run
    case Stop =>
    case Go(a, v, rest) => NotPostingRun(m, v, rest, r);
  }

  /**
   When every answer of a replica has been heard and it owes none, and something beyond its
   tail is in the ring: without posting more it can be heard again if and only if one of its
   posted buffers is still to be filled. So a lost last answer is never repeated.
   */
  lemma HeardIff(m: Setup, w: World, r: nat, at: nat)
    requires Inv(m, w) && r < |w.rcvs| == |w.tails| && Spent(w, r) && w.tails[r] < w.ring.head && AllDueAt(w, at)
    ensures CanBeHeard(m, w, r) <==> w.rcvs[r].inbox.head != w.rcvs[r].inbox.tail
  {
    if w.rcvs[r].inbox.head != w.rcvs[r].inbox.tail {
      var v, d := SendWanted(m, w, r, at);
      var rest := HearWanted(m, v, r, d);
      var run := Go(Transmit(at), v, rest);
      NotPostingRun(m, w, run, r);
      assert IsRun(NotPosting(m, r), w, run) && MovedBy(w, Last(w, run), r);
    } else {
      forall run | IsRun(NotPosting(m, r), w, run) ensures !MovedBy(w, Last(w, run), r) {
        DeafForever(m, w, run, r, w.tails[r]);
      }
    }
  }
}
