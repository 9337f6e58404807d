/** A send leads somewhere: it fills the ring at once, and exactly when it can be acknowledged. */
module UnicastSends {
  import opened Arithmetic
  import opened SequenceNumbers
  import opened Fragmentation
  import opened Packets
  import opened SendRing
  import opened ReceiveRing
  import opened Control
  import opened Endpoint
  import opened Unicast
  import opened UnicastSafety
  import opened UnicastShape
  import opened UnicastProgress
  import opened Runs

  /** The ring with the fragments of a list appended to what is to come. */
  function Queued(c: Config, r: Ring, list: seq<Buffer>): Ring
    requires GoodConfig(c)
  {
    r.(todo := r.todo + CutAll(list, FragmentSize(c)))
  }

  /**
   What a send does to a world: the fragments of the list come last, as many of them enter
   the ring as window and pool allow, and nothing else changes.
   */
  ghost predicate Sends(c: Config, v: World, list: seq<Buffer>, v': World)
    requires GoodConfig(c)
  {
    && v' == v.(snd := v.snd.(ring := v'.snd.ring), frags := v'.frags, sent := v'.sent)
    && v'.frags == v.frags + CutAll(list, FragmentSize(c))
    && FilledFrom(Queued(c, v.snd.ring, list), v'.snd.ring, v.snd.tail)
    && Holds(v'.snd.ring, v.snd.tail, v'.frags)
    && |v.snd.ring.handles| > 0 && Shortage(v'.snd.ring) == Shortage(Queued(c, v.snd.ring, list))
  }

  lemma StateSends(c: Config, v: World, list: seq<Buffer>)
    requires Shape(c, v) && Possible(c, v, Send(list))
    ensures Shaped(v) && Sends(c, v, list, Next(c, v, Send(list)))
  {
    SendShape(c, v, list);
    var f := CutAll(list, FragmentSize(c));
    CutAllLoadable(list, FragmentSize(c));
    assert forall i :: 0 <= i < |f| ==> f[i] in f;
    FillShortage(Queued(c, v.snd.ring, list), v.snd.tail);
  }

  /** From every state of every run, whatever network and applications do. */
  lemma SendFills(c: Config, w: World, run: Run<World, Step>, list: seq<Buffer>)
    requires Init(c, w) && IsRun(Loose(c), w, run) && Possible(c, Last(w, run), Send(list))
    ensures Shaped(Last(w, run)) && Sends(c, Last(w, run), list, Next(c, Last(w, run), Send(list)))
  {
    RunShape(c, w, run);
    StateSends(c, Last(w, run), list);
  }

  /** With an open window and packet buffers for everything that is to come, a send into an empty ring can be sent. */
  lemma SendOpens(c: Config, w: World, run: Run<World, Step>, list: seq<Buffer>)
    requires Init(c, w) && IsRun(Loose(c), w, run) && Possible(c, Last(w, run), Send(list))
    requires CutAll(list, FragmentSize(c)) != []
    requires var v := Last(w, run); v.snd.tail == v.snd.ring.head && |v.snd.ring.handles| > 0
    ensures Shaped(Last(w, run))
    ensures var v := Last(w, run);
            Open(Next(c, v, Send(list))) <==> 1 <= v.snd.win.cwnd && Shortage(Queued(c, v.snd.ring, list)) <= 0
  {
    RunShape(c, w, run);
    StateOpens(c, Last(w, run), list);
  }

  lemma StateOpens(c: Config, v: World, list: seq<Buffer>)
    requires Shape(c, v) && Possible(c, v, Send(list)) && CutAll(list, FragmentSize(c)) != []
    requires v.snd.tail == v.snd.ring.head
    ensures Shaped(v)
    ensures Open(Next(c, v, Send(list))) <==> 1 <= v.snd.win.cwnd && Shortage(Queued(c, v.snd.ring, list)) <= 0
  {
    StateSends(c, v, list);
    var v' := Next(c, v, Send(list));
    if Shortage(v'.snd.ring) <= 0 {
      FilledNotStalled(Queued(c, v.snd.ring, list), v'.snd.ring, v.snd.tail);
      assert v'.snd.ring.todo == v'.frags[v'.snd.ring.head..];
    }
  }

  /** The line after a send: nothing is put on the network yet. */
  ghost function Pushed(c: Config, l: Line, list: seq<Buffer>): Line
    requires GoodConfig(c) && Shaped(l.w) && Possible(c, l.w, Send(list))
  {
    l.(w := Next(c, l.w, Send(list)))
  }

  /**
   When everything before is acknowledged and nothing is under way: a send whose buffers
   are posted can be acknowledged completely if and only if the window is open and the pool
   has a packet buffer for every slot without one that it will use.
   */
  lemma SendCompletesIff(c: Config, l: Line, list: seq<Buffer>)
    requires Live(c, l.w) && Still(l) && Unacked(l.w) == 0 && Enabled(c, l.w, Send(list))
    requires CutAll(list, FragmentSize(c)) != [] && |l.w.frags + CutAll(list, FragmentSize(c))| <= |l.w.posted|
    requires l.w.now + Rounds(|CutAll(list, FragmentSize(c))|, 2 * MAX_RTO) < TWO_64
    ensures Shaped(l.w)
    ensures Completes(c, Pushed(c, l, list)) <==>
              1 <= l.w.snd.win.cwnd && Shortage(Queued(c, l.w.snd.ring, list)) <= 0
  {
    InvShaped(c, l.w);
    LiveKeeps(c, l.w, Send(list));
    AllAcked(c, l.w);
    InvShape(c, l.w);
    StateSends(c, l.w, list);
    StateOpens(c, l.w, list);
    CompletesIff(c, Pushed(c, l, list));
  }

  lemma InvShape(c: Config, w: World)
    requires Inv(c, w)
    ensures Shape(c, w) && Shaped(w)
  {
    InvShaped(c, w);
  }

  lemma {:induction false} NeedsAll(handles: seq<Handle>, i: nat, n: nat)
    requires |handles| > 0 && forall s :: 0 <= s < |handles| ==> handles[s].packet == 0
    ensures Needs(handles, i, n) == n
    decreases n
  {
    if n > 0 { NeedsAll(handles, i + 1, n - 1); }
  }

  /** The first two steps of a session: the receiver posts buffers, then the sender pushes. */
  ghost function Started(c: Config, w: World, posts: seq<Buffer>): World
    requires Init(c, w) && Possible(c, w, Receive(posts))
  {
    Next(c, w, Receive(posts))
  }

  /**
   From the initial state, with buffers posted for it, a first send can be acknowledged
   completely if and only if the pool has a packet buffer for each of its fragments, or for
   every slot of the ring.
   */
  lemma FirstSendCompletesIff(c: Config, w: World, posts: seq<Buffer>, list: seq<Buffer>)
    requires Init(c, w) && Enabled(c, w, Receive(posts)) && Enabled(c, Started(c, w, posts), Send(list))
    requires var f := CutAll(list, FragmentSize(c));
             && f != [] && |f| <= |CutAll(posts, FragmentSize(c))| && w.now + Rounds(|f|, 2 * MAX_RTO) < TWO_64
    ensures Shaped(Started(c, w, posts))
    ensures Completes(c, Pushed(c, Line(Started(c, w, posts), multiset{}, multiset{}), list)) <==>
              Min(|CutAll(list, FragmentSize(c))|, c.capacity) <= |w.snd.ring.free|
  {
    InitInv(c, w);
    LiveKeeps(c, w, Receive(posts));
    var v := Started(c, w, posts);
    InvShaped(c, v);
    FirstShortage(c, w, list);
    SendCompletesIff(c, Line(v, multiset{}, multiset{}), list);
  }

  lemma FirstShortage(c: Config, w: World, list: seq<Buffer>)
    requires Init(c, w)
    ensures Shortage(Queued(c, w.snd.ring, list)) ==
            Min(|CutAll(list, FragmentSize(c))|, c.capacity) - |w.snd.ring.free|
  {
    var r := Queued(c, w.snd.ring, list);
    NeedsAll(r.handles, 0, Min(|r.todo|, |r.handles|));
  }
}
