/**
 The tasks of a multicast session, in every run: what `getStatus` says of them, and that a
 finished send is at every replica.
 */
module MulticastTasks {
  import opened Arithmetic
  import opened SequenceNumbers
  import opened Fragmentation
  import opened Packets
  import opened SendRing
  import opened SendQueues
  import opened ReceiveRing
  import opened Endpoint
  import opened Multicast
  import opened MulticastSafety
  import opened MulticastShape
  import opened TaskStatus
  import opened Runs
  import U = Unicast

  datatype Session = Session(w: World, sends: Book, receives: seq<Book>)

  ghost predicate SessionInit(m: Setup, s: Session) {
    && Sized(m) && Init(m, s.w)
    && s.sends == NEW_BOOK && Repeats(s.receives, |m.nodes|, NEW_BOOK)
  }

  /** What a step enters in the books: a push, in its queue's book. */
  ghost predicate Entered(m: Setup, s: Session, a: Step, s': Session)
    requires Sized(m)
  {
    var size := U.FragmentSize(m.c);
    && |s.receives| == |s.w.posted|
    && s'.sends == (if a.Send? then Enter(s.sends, s.w.frags, a.list, size) else s.sends)
    && s'.receives == (if a.Receive? && a.r < |s.receives|
                       then s.receives[a.r := Enter(s.receives[a.r], s.w.posted[a.r], a.list, size)]
                       else s.receives)
  }

  /** Any step that makes sense, whatever the applications, the network and the routing do. */
  ghost predicate SessionTo(m: Setup, s: Session, a: Step, s': Session) {
    LooseStep(m, s.w, a, s'.w) && Entered(m, s, a, s')
  }

  ghost function Sessions(m: Setup): (Session, Step, Session) -> bool {
    (s, a, v) => SessionTo(m, s, a, v)
  }

  /** The steps under which the right bytes arrive. */
  ghost function Proper(m: Setup): (Session, Step, Session) -> bool {
    (s, a, v) => SessionTo(m, s, a, v) && StepTo(m, s.w, a, v.w)
  }

  ghost predicate BooksOk(receives: seq<Book>, posted: seq<seq<Buffer>>) {
    |receives| == |posted| && forall r: nat :: r < |receives| ==> BookOk(receives[r], posted[r])
  }

  ghost predicate SessionInv(m: Setup, s: Session) {
    Shape(m, s.w) && BookOk(s.sends, s.w.frags) && BooksOk(s.receives, s.w.posted)
  }

  /** Steps that push nothing leave the histories of the queues alone. */
  lemma HistoryKept(m: Setup, w: World, a: Step)
    requires Shape(m, w) && Shaped(m, w) && Possible(m, w, a)
    ensures !a.Send? ==> Next(m, w, a).frags == w.frags
    ensures !a.Receive? ==> Next(m, w, a).posted == w.posted
  {}

  lemma BooksKept(m: Setup, s: Session, r: nat, list: seq<Buffer>)
    requires BooksOk(s.receives, s.w.posted) && r < |s.receives| && Sized(m)
    ensures var size := U.FragmentSize(m.c);
            BooksOk(s.receives[r := Enter(s.receives[r], s.w.posted[r], list, size)],
                    s.w.posted[r := s.w.posted[r] + CutAll(list, size)])
  {
    EnterOk(s.receives[r], s.w.posted[r], list, U.FragmentSize(m.c));
  }

  lemma SessionKeeps(m: Setup, s: Session, a: Step, s': Session)
    requires SessionInv(m, s) && SessionTo(m, s, a, s')
    ensures SessionInv(m, s')
  {
    assert Shape(m, s'.w) by { StepShape(m, s.w, a); }
    HistoryKept(m, s.w, a);
    match a
    case Send(list) => EnterOk(s.sends, s.w.frags, list, U.FragmentSize(m.c));
    case Receive(r, list) => BooksKept(m, s, r, list);
    case _ =>
  }

  lemma BooksStart(receives: seq<Book>, posted: seq<seq<Buffer>>, n: nat)
    requires Repeats(receives, n, NEW_BOOK) && Repeats(posted, n, [])
    ensures BooksOk(receives, posted) && BookOk(NEW_BOOK, [])
  {}

  lemma SessionStart(m: Setup, s: Session)
    requires SessionInit(m, s)
    ensures SessionInv(m, s)
  {
    InitShape(m, s.w);
    BooksStart(s.receives, s.w.posted, |m.nodes|);
  }

  lemma SessionRun(m: Setup, s: Session, run: Run<Session, Step>)
    requires SessionInv(m, s) && IsRun(Sessions(m), s, run)
    ensures SessionInv(m, Last(s, run))
  {
    var inv := v => SessionInv(m, v);
    forall v, a, v' | inv(v) && Sessions(m)(v, a, v') ensures inv(v') {
      SessionKeeps(m, v, a, v');
    }
    Invariance(Sessions(m), inv, s, run);
  }

  /** The count of the sender's fragments, and what `getStatus` says of every recorded send. */
  ghost predicate SendsTold(v: Session) {
    && v.w.ring.head + |v.w.ring.todo| == v.sends.fragmentId + EmptyBuffers(v.w.frags) == |v.w.frags|
    && (forall k: nat :: k < |v.sends.tasks| ==>
          Told(v.sends.tasks[k], v.w.frags, MinTail(v.w.tails), v.w.ring.head))
  }

  /** The same of the receives of replica `r`. */
  ghost predicate ReceivesTold(v: Session, r: nat) {
    && r < |v.receives| == |v.w.rcvs| == |v.w.posted|
    && var s, b := v.w.rcvs[r].inbox, v.receives[r];
       && s.head + |s.todo| == b.fragmentId + EmptyBuffers(v.w.posted[r]) == |v.w.posted[r]|
       && (forall k: nat :: k < |b.tasks| ==> Told(b.tasks[k], v.w.posted[r], s.tail, s.head))
  }

  lemma StateTellsSends(m: Setup, v: Session)
    requires SessionInv(m, v)
    ensures SendsTold(v)
  {
    LeastTail(m, v.w);
    forall k: nat | k < |v.sends.tasks|
      ensures Told(v.sends.tasks[k], v.w.frags, MinTail(v.w.tails), v.w.ring.head)
    {
      TaskTold(v.sends.tasks[k], v.w.frags, MinTail(v.w.tails), v.w.ring.head);
    }
  }

  lemma StateTellsReceives(m: Setup, v: Session, r: nat)
    requires SessionInv(m, v) && r < |m.nodes|
    ensures ReceivesTold(v, r)
  {
    assert ReplicaShape(m, v.w, r) && BookOk(v.receives[r], v.w.posted[r]);
    var s, b := v.w.rcvs[r].inbox, v.receives[r];
    forall k: nat | k < |b.tasks| ensures Told(b.tasks[k], v.w.posted[r], s.tail, s.head) {
      TaskTold(b.tasks[k], v.w.posted[r], s.tail, s.head);
    }
  }

  ghost predicate AllTold(m: Setup, v: Session) {
    SendsTold(v) && forall r: nat :: r < |m.nodes| ==> ReceivesTold(v, r)
  }

  lemma StateTells(m: Setup, v: Session)
    requires SessionInv(m, v)
    ensures AllTold(m, v)
  {
    StateTellsSends(m, v);
    forall r: nat | r < |m.nodes| ensures ReceivesTold(v, r) { StateTellsReceives(m, v, r); }
  }

  /**
   In every state of every run, whatever the applications, the network and the routing do:
   no fragment is lost or counted twice, and every recorded task, of the sender by the
   slowest tail and of each replica by its own, is reported as `Told` says.
   */
  lemma StatusExact(m: Setup, s: Session, run: Run<Session, Step>)
    requires SessionInit(m, s) && IsRun(Sessions(m), s, run)
    ensures AllTold(m, Last(s, run))
  {
    assert SessionInv(m, Last(s, run)) by {
      SessionStart(m, s);
      SessionRun(m, s, run);
    }
    StateTells(m, Last(s, run));
  }

  /** Every replica is past the first `n` fragments and holds the sender's bytes of those not given back. */
  ghost predicate Everywhere(w: World, n: nat) {
    && |w.rcvs| == |w.tails| == |w.posted| == |w.released| == |w.writes|
    && forall r: nat :: r < |w.rcvs| ==> Agrees(w, r) && n <= w.rcvs[r].inbox.tail
  }

  lemma ProperRun(m: Setup, s: Session, run: Run<Session, Step>)
    requires GoodSetup(m) && Inv(m, s.w) && IsRun(Proper(m), s, run)
    ensures Inv(m, Last(s, run).w)
  {
    var inv := (v: Session) => Inv(m, v.w);
    forall v, a, v' | inv(v) && Proper(m)(v, a, v') ensures inv(v') {
      StepKeeps(m, v.w, a);
    }
    Invariance(Proper(m), inv, s, run);
  }

  lemma FinishedEverywhere(m: Setup, w: World, n: nat)
    requires Inv(m, w) && n <= MinTail(w.tails)
    ensures Everywhere(w, n)
  {
    TailsBounded(m, w);
    forall r: nat | r < |w.rcvs| ensures Agrees(w, r) { ReplicaAgrees(m, w, r); }
  }

  /** In every run in which the group is listed alike, a finished send is at every replica. */
  lemma SuccessMeansEverywhere(m: Setup, s: Session, run: Run<Session, Step>)
    requires GoodSetup(m) && SessionInit(m, s) && IsRun(Proper(m), s, run)
    ensures var v := Last(s, run);
            forall k: nat :: k < |v.sends.tasks| && v.sends.tasks[k].end <= MinTail(v.w.tails) ==>
              Everywhere(v.w, v.sends.tasks[k].end)
  {
    var v := Last(s, run);
    assert Inv(m, v.w) by {
      InitInv(m, s.w);
      ProperRun(m, s, run);
    }
    forall n: nat | n <= MinTail(v.w.tails) ensures Everywhere(v.w, n) { FinishedEverywhere(m, v.w, n); }
  }
}
