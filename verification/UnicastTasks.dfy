/**
 The tasks of a unicast session: the protocol together with the fragment counts and the
 tasks that `push` records, in every run.
 */
module UnicastTasks {
  import opened Arithmetic
  import opened SequenceNumbers
  import opened Fragmentation
  import opened Packets
  import opened SendRing
  import opened ReceiveRing
  import opened Endpoint
  import opened Unicast
  import opened UnicastSafety
  import opened UnicastShape
  import opened UnicastProgress
  import opened TaskStatus
  import opened Runs

  datatype Session = Session(w: World, sends: Book, receives: Book)

  ghost predicate SessionInit(c: Config, s: Session) {
    Init(c, s.w) && s.sends == NEW_BOOK && s.receives == NEW_BOOK
  }

  /** What a step enters in the books: a push, in its queue's book. */
  ghost predicate Entered(c: Config, s: Session, a: Step, s': Session)
    requires GoodConfig(c)
  {
    && s'.sends == (if a.Send? then Enter(s.sends, s.w.frags, a.list, FragmentSize(c)) else s.sends)
    && s'.receives == (if a.Receive? then Enter(s.receives, s.w.posted, a.list, FragmentSize(c)) else s.receives)
  }

  /** Any step that makes sense, whatever the applications and the network do. */
  ghost predicate SessionTo(c: Config, s: Session, a: Step, s': Session) {
    LooseStep(c, s.w, a, s'.w) && Entered(c, s, a, s')
  }

  ghost function Sessions(c: Config): (Session, Step, Session) -> bool {
    (s, a, v) => SessionTo(c, s, a, v)
  }

  /** The steps under which the right bytes arrive. */
  ghost function Proper(c: Config): (Session, Step, Session) -> bool {
    (s, a, v) => SessionTo(c, s, a, v) && Enabled(c, s.w, a)
  }

  ghost predicate SessionInv(c: Config, s: Session) {
    Shape(c, s.w) && BookOk(s.sends, s.w.frags) && BookOk(s.receives, s.w.posted)
  }

  /** Tasks stay recorded, histories grow, and neither tail goes back. */
  ghost predicate SessionLater(s: Session, v: Session) {
    && Later(s.w, v.w) && |s.w.frags| <= |v.w.frags| && |s.w.posted| <= |v.w.posted|
    && s.sends.tasks <= v.sends.tasks && s.receives.tasks <= v.receives.tasks
  }

  /** Steps that push nothing leave the histories of the queues alone. */
  lemma HistoryKept(c: Config, w: World, a: Step)
    requires Shape(c, w) && Shaped(w) && Possible(c, w, a)
    ensures !a.Send? ==> Next(c, w, a).frags == w.frags
    ensures !a.Receive? ==> Next(c, w, a).posted == w.posted
  {}

  lemma SessionKeeps(c: Config, s: Session, a: Step, s': Session)
    requires SessionInv(c, s) && SessionTo(c, s, a, s')
    ensures SessionInv(c, s') && SessionLater(s, s')
  {
    StepShape(c, s.w, a);
    HistoryKept(c, s.w, a);
    match a
    case Send(list) => EnterOk(s.sends, s.w.frags, list, FragmentSize(c));
    case Receive(list) => EnterOk(s.receives, s.w.posted, list, FragmentSize(c));
    case _ =>
  }

  lemma SessionRun(c: Config, s: Session, run: Run<Session, Step>)
    requires SessionInv(c, s) && IsRun(Sessions(c), s, run)
    ensures SessionInv(c, Last(s, run)) && SessionLater(s, Last(s, run))
  {
    var inv := v => SessionInv(c, v) && SessionLater(s, v);
    forall v, a, v' | inv(v) && Sessions(c)(v, a, v') ensures inv(v') {
      SessionKeeps(c, v, a, v');
    }
    Invariance(Sessions(c), inv, s, run);
  }

  lemma SessionStart(c: Config, s: Session)
    requires SessionInit(c, s)
    ensures SessionInv(c, s)
  {
    InitShape(c, s.w);
  }

  /**
   What is in the ring and what is still to come are together exactly the fragments
   pushed, in order; head plus what is to come is the fragment count plus the empty
   fragments; and when the head reaches the end of a task, its low bits are the number
   recorded for that task, empty fragments apart.
   */
  ghost predicate SendConserved(v: Session) {
    var r := v.w.snd.ring;
    && r.head + |r.todo| == v.sends.fragmentId + EmptyBuffers(v.w.frags) == |v.w.frags|
    && r.todo == v.w.frags[r.head..] && |r.handles| > 0
    && (forall i: nat :: v.w.snd.tail <= i < r.head ==>
          var h := At(r.handles, i); Buffer(h.dataBuf, h.dataLen) == v.w.frags[i])
    && (forall k :: 0 <= k < |v.sends.tasks| ==>
          var t := v.sends.tasks[k];
          && TaskOk(t, v.w.frags)
          && (r.head == t.end ==> t.skipped <= r.head && ShortSn(r.head - t.skipped) == t.lastSn))
  }

  ghost predicate ReceiveConserved(v: Session) {
    var s := v.w.rcv.inbox;
    && s.head + |s.todo| == v.receives.fragmentId + EmptyBuffers(v.w.posted) == |v.w.posted|
    && (forall k :: 0 <= k < |v.receives.tasks| ==> TaskOk(v.receives.tasks[k], v.w.posted))
  }

  lemma StateConserves(c: Config, v: Session)
    requires SessionInv(c, v)
    ensures SendConserved(v) && ReceiveConserved(v)
  {
    var r := v.w.snd.ring;
    forall i: nat | v.w.snd.tail <= i < r.head
      ensures var h := At(r.handles, i); Buffer(h.dataBuf, h.dataLen) == v.w.frags[i]
    {
      assert Carries(At(r.handles, i), i, v.w.frags[i], r.session);
    }
  }

  /** Fragment conservation, in every state of every run, whatever pool, network and applications do. */
  lemma Conservation(c: Config, s: Session, run: Run<Session, Step>)
    requires SessionInit(c, s) && IsRun(Sessions(c), s, run)
    ensures SendConserved(Last(s, run)) && ReceiveConserved(Last(s, run))
  {
    SessionStart(c, s);
    SessionRun(c, s, run);
    StateConserves(c, Last(s, run));
  }

  /** The first `n` fragments are at the receiver, and those not given back hold the bytes sent. */
  ghost predicate Arrived(w: World, n: nat) {
    && n <= w.rcv.inbox.tail && n <= |w.posted| && n <= |w.sent|
    && forall i: nat :: w.released <= i < n ==>
         InBounds(w.rcv.inbox.mem, w.posted[i]) && Read(w.rcv.inbox.mem, w.posted[i]) == w.sent[i]
  }

  lemma HasArrived(c: Config, w: World, n: nat)
    requires Inv(c, w) && n <= w.rcv.inbox.tail
    ensures Arrived(w, n)
  {
    InvShaped(c, w);
    forall i: nat | w.released <= i < n
      ensures InBounds(w.rcv.inbox.mem, w.posted[i]) && Read(w.rcv.inbox.mem, w.posted[i]) == w.sent[i]
    {
      assert Accepted(w.rcv.inbox, i);
    }
  }

  /** What `getStatus` says of a recorded task. */
  ghost predicate SendTold(v: Session, k: nat) {
    k < |v.sends.tasks| && Told(v.sends.tasks[k], v.w.frags, v.w.snd.tail, v.w.snd.ring.head)
  }

  ghost predicate ReceiveTold(v: Session, k: nat) {
    k < |v.receives.tasks| && Told(v.receives.tasks[k], v.w.posted, v.w.rcv.inbox.tail, v.w.rcv.inbox.head)
  }

  ghost predicate AllTold(v: Session) {
    && (forall k: nat :: k < |v.sends.tasks| ==> SendTold(v, k))
    && (forall k: nat :: k < |v.receives.tasks| ==> ReceiveTold(v, k))
  }

  lemma StateTells(c: Config, v: Session)
    requires SessionInv(c, v)
    ensures AllTold(v)
  {
    forall k: nat | k < |v.sends.tasks| ensures SendTold(v, k) {
      TaskTold(v.sends.tasks[k], v.w.frags, v.w.snd.tail, v.w.snd.ring.head);
    }
    forall k: nat | k < |v.receives.tasks| ensures ReceiveTold(v, k) {
      TaskTold(v.receives.tasks[k], v.w.posted, v.w.rcv.inbox.tail, v.w.rcv.inbox.head);
    }
  }

  /** The status of every recorded task in every state of every run, whatever network and applications do. */
  lemma StatusExact(c: Config, s: Session, run: Run<Session, Step>)
    requires SessionInit(c, s) && IsRun(Sessions(c), s, run)
    ensures AllTold(Last(s, run))
  {
    var v := Last(s, run);
    assert SessionInv(c, v) by {
      SessionStart(c, s);
      SessionRun(c, s, run);
    }
    StateTells(c, v);
  }

  /** Every finished task has arrived with its bytes. */
  ghost predicate AllArrived(v: Session) {
    && (forall k: nat :: k < |v.sends.tasks| && v.sends.tasks[k].end <= v.w.snd.tail ==>
          Arrived(v.w, v.sends.tasks[k].end))
    && (forall k: nat :: k < |v.receives.tasks| && v.receives.tasks[k].end <= v.w.rcv.inbox.tail ==>
          Arrived(v.w, v.receives.tasks[k].end))
  }

  lemma ProperRun(c: Config, s: Session, run: Run<Session, Step>)
    requires Inv(c, s.w) && IsRun(Proper(c), s, run)
    ensures Inv(c, Last(s, run).w)
  {
    var inv := (v: Session) => Inv(c, v.w);
    forall v, a, v' | inv(v) && Proper(c)(v, a, v') ensures inv(v') {
      StepKeeps(c, v.w, a);
    }
    Invariance(Proper(c), inv, s, run);
  }

  lemma FinishedArrived(c: Config, s: Session, run: Run<Session, Step>)
    requires SessionInit(c, s) && IsRun(Proper(c), s, run)
    ensures AllArrived(Last(s, run))
  {
    var v := Last(s, run);
    assert Inv(c, v.w) by {
      InitInv(c, s.w);
      ProperRun(c, s, run);
    }
    forall n: nat | n <= v.w.rcv.inbox.tail ensures Arrived(v.w, n) { HasArrived(c, v.w, n); }
  }

  /** Once a recorded task is reported finished, it is in every later state, below 2^24 fragments. */
  lemma StatusStays(c: Config, s: Session, run: Run<Session, Step>, k: nat)
    requires SessionInv(c, s) && IsRun(Sessions(c), s, run)
    ensures var v := Last(s, run);
            k < |s.sends.tasks| && |v.w.frags| < SN_SPACE ==>
              && k < |v.sends.tasks| && v.sends.tasks[k] == s.sends.tasks[k]
              && (Said(s.sends.tasks[k], s.w.snd.tail, s.w.snd.ring.head) ==>
                    Said(v.sends.tasks[k], v.w.snd.tail, v.w.snd.ring.head))
    ensures var v := Last(s, run);
            k < |s.receives.tasks| && |v.w.posted| < SN_SPACE ==>
              && k < |v.receives.tasks| && v.receives.tasks[k] == s.receives.tasks[k]
              && (Said(s.receives.tasks[k], s.w.rcv.inbox.tail, s.w.rcv.inbox.head) ==>
                    Said(v.receives.tasks[k], v.w.rcv.inbox.tail, v.w.rcv.inbox.head))
  {
    SessionRun(c, s, run);
    var v := Last(s, run);
    if k < |s.sends.tasks| && |v.w.frags| < SN_SPACE {
      SaidStays(s.sends.tasks[k], s.w.frags, s.w.snd.tail, s.w.snd.ring.head,
                v.w.frags, v.w.snd.tail, v.w.snd.ring.head);
    }
    if k < |s.receives.tasks| && |v.w.posted| < SN_SPACE {
      SaidStays(s.receives.tasks[k], s.w.posted, s.w.rcv.inbox.tail, s.w.rcv.inbox.head,
                v.w.posted, v.w.rcv.inbox.tail, v.w.rcv.inbox.head);
    }
  }

  lemma SaidStays(t: Task, frags: seq<Buffer>, tail: nat, head: nat, frags': seq<Buffer>, tail': nat, head': nat)
    requires TaskOk(t, frags) && TaskOk(t, frags') && |frags| <= |frags'| < SN_SPACE
    requires tail <= head <= |frags| && tail <= tail' <= head' <= |frags'|
    ensures Said(t, tail, head) ==> Said(t, tail', head')
  {
    TaskTold(t, frags, tail, head);
    TaskTold(t, frags', tail', head');
  }

  // When the report is right all the time

  /** In every state that can follow, with fewer than 2^24 fragments, the report on task `k` is right. */
  ghost predicate AlwaysRight(c: Config, s: Session, k: nat) {
    forall run :: IsRun(Sessions(c), s, run) && |Last(s, run).w.frags| < SN_SPACE ==> RightIn(Last(s, run), k)
  }

  ghost predicate RightIn(v: Session, k: nat) {
    k < |v.sends.tasks| && Right(v.sends.tasks[k], v.w.snd.tail, v.w.snd.ring.head)
  }

  /** A schedule of the protocol is one of the session: no task is added. */
  lemma {:induction false} Lift(c: Config, s: Session, l: Line, run: Run<Line, Step>)
    returns (lifted: Run<Session, Step>)
    requires IsRun(Schedule(c), l, run) && l.w == s.w
    ensures IsRun(Sessions(c), s, lifted) && Last(s, lifted) == s.(w := Last(l, run).w)
    decreases run
  {
    match run
    case Stop => lifted := Stop;
    case Go(a, v, rest) =>
      var more := Lift(c, s.(w := v.w), v, rest);
      assert SessionTo(c, s, a, s.(w := v.w));
      lifted := Go(a, s.(w := v.w), more);
  }

  /**
   Where everything can be acknowledged and nothing has arrived out of order, the report
   on an unfinished send is right in every state that can follow if and only if no empty
   buffer was pushed up to and including it.
   */
  lemma AlwaysRightIff(c: Config, s: Session, k: nat)
    requires SessionInv(c, s) && Ready(c, s.w) && InOrder(s.w) && |s.w.frags| < SN_SPACE
    requires k < |s.sends.tasks| && s.w.snd.tail < s.sends.tasks[k].end
    ensures AlwaysRight(c, s, k) <==> EmptyBuffers(s.w.frags[..s.sends.tasks[k].end]) == 0
  {
    var t := s.sends.tasks[k];
    assert TaskOk(t, s.w.frags);
    if t.skipped == 0 {
      forall run | IsRun(Sessions(c), s, run) && |Last(s, run).w.frags| < SN_SPACE ensures RightIn(Last(s, run), k) {
        SessionRun(c, s, run);
        EarlyRight(c, Last(s, run), k);
      }
    } else {
      var l := Line(s.w, multiset{}, multiset{});
      var run := ReachTail(c, l, t.end - 1);
      var lifted := Lift(c, s, l, run);
      EarlyRight(c, Last(s, lifted), k);
      assert IsRun(Sessions(c), s, lifted) && !RightIn(Last(s, lifted), k);
    }
  }

  lemma EarlyRight(c: Config, v: Session, k: nat)
    requires v.w.snd.tail <= v.w.snd.ring.head <= |v.w.frags| < SN_SPACE
    requires k < |v.sends.tasks| && TaskOk(v.sends.tasks[k], v.w.frags)
    ensures var t := v.sends.tasks[k]; RightIn(v, k) <==> !(t.end - t.skipped <= v.w.snd.tail < t.end)
  {
    TaskTold(v.sends.tasks[k], v.w.frags, v.w.snd.tail, v.w.snd.ring.head);
  }

  // The two ways to be wrong, one step from the start

  /** The session after a first send of one buffer. */
  ghost function FirstSend(c: Config, s: Session, b: Buffer): Session
    requires SessionInit(c, s) && Enabled(c, s.w, Send([b]))
  {
    Session(SendNext(c, s.w, [b]), Enter(s.sends, s.w.frags, [b], FragmentSize(c)), s.receives)
  }

  lemma FirstTask(c: Config, s: Session, b: Buffer)
    requires SessionInit(c, s) && Enabled(c, s.w, Send([b]))
    ensures var v := FirstSend(c, s, b);
            && SessionTo(c, s, Send([b]), v) && v.w.snd.tail == 0 && |v.sends.tasks| == 1
            && v.sends.tasks[0] == Task(ShortSn(FragmentCount(b.length, FragmentSize(c))), 0,
                                        |Cut(b, FragmentSize(c))|, if b.length == 0 then 1 else 0)
  {
    FirstEntry(b, FragmentSize(c));
    assert LooseStep(c, s.w, Send([b]), FirstSend(c, s, b).w);
  }

  /** A first send of 2^24 fragments is reported finished before any of them is acknowledged. */
  lemma WrapExample(c: Config, s: Session, b: Buffer)
    requires SessionInit(c, s) && Enabled(c, s.w, Send([b]))
    requires FragmentCount(b.length, FragmentSize(c)) == SN_SPACE
    ensures var v := FirstSend(c, s, b);
            var t := v.sends.tasks[0];
            && SessionTo(c, s, Send([b]), v) && t.end == SN_SPACE
            && Said(t, v.w.snd.tail, v.w.snd.ring.head) && v.w.snd.tail == 0
  {
    FirstTask(c, s, b);
    CutCount(b, FragmentSize(c));
    assert ShortSn(SN_SPACE) == 0 && ShortSn(0) == 0;
    DivModUnique(FragmentSize(c) - 1, FragmentSize(c), 0, FragmentSize(c) - 1);
  }

  /** A first send of one empty buffer is reported finished before its packet is acknowledged. */
  lemma EmptyBufferExample(c: Config, s: Session, b: Buffer)
    requires SessionInit(c, s) && Enabled(c, s.w, Send([b])) && b.length == 0
    ensures var v := FirstSend(c, s, b);
            var t := v.sends.tasks[0];
            && SessionTo(c, s, Send([b]), v) && t.end == 1
            && Said(t, v.w.snd.tail, v.w.snd.ring.head) && v.w.snd.tail == 0
  {
    FirstTask(c, s, b);
    DivModUnique(FragmentSize(c) - 1, FragmentSize(c), 0, FragmentSize(c) - 1);
    assert ShortSn(0) == 0;
  }
}
