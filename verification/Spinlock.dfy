/**
 The ticket lock `RWSpinlock`: threads interleave at every load, store and atomic
 instruction of its operations on three 16-bit counters.
 */
module Spinlock {
  import opened Arithmetic
  import opened Runs

  datatype Ticket = Ticket(write: nat, read: nat, users: nat)

  /** How often each counter has been advanced since the lock was made (history, read by no step). */
  datatype Counts = Counts(w: nat, r: nat, u: nat)

  /** Where a thread is in the operations of the lock. */
  datatype Pc =
    | Idle
    | TryLoaded(seen: Ticket)
    | Waiting(val: nat)
    | Writing
    | Unlocking(seen: Ticket)
    | SharedLoaded(seen: Ticket, at: Counts)
    | Reading

  /** History: `done`, the waiting threads in the order they drew (`line`), and tickets nobody holds (`lost`). */
  datatype State = State(t: Ticket, pcs: seq<Pc>, done: Counts, line: seq<nat>, lost: nat)

  datatype Step =
    | LoadTry(p: nat) | CasTry(p: nat)
    | Draw(p: nat) | Enter(p: nat)
    | Downgrade(p: nat)
    | LoadUnlock(p: nat) | StoreUnlock(p: nat)
    | LoadShared(p: nat) | CasShared(p: nat)
    | UnlockShared(p: nat)

  function Low(c: Counts): Ticket { Ticket(U16(c.w), U16(c.r), U16(c.u)) }

  predicate Enabled(s: State, a: Step) {
    && a.p < |s.pcs|
    && match a
       case LoadTry(p) => s.pcs[p].Idle?
       case CasTry(p) => s.pcs[p].TryLoaded?
       case Draw(p) => s.pcs[p].Idle?
       case Enter(p) => s.pcs[p].Waiting?
       case Downgrade(p) => s.pcs[p].Writing?
       case LoadUnlock(p) => s.pcs[p].Writing?
       case StoreUnlock(p) => s.pcs[p].Unlocking?
       case LoadShared(p) => s.pcs[p].Idle?
       case CasShared(p) => s.pcs[p].SharedLoaded?
       case UnlockShared(p) => s.pcs[p].Reading?
  }

  /** What the compare-and-swap of `tryLockShared` compares with. */
  function Expected(seen: Ticket): Ticket { seen.(users := seen.read) }

  /** The step gives its thread the lock. */
  predicate Acquires(s: State, a: Step)
    requires Enabled(s, a)
  {
    match a
    case CasTry(p) => s.t == s.pcs[p].seen
    case Enter(p) => s.pcs[p].val == s.t.write
    case CasShared(p) => s.t == Expected(s.pcs[p].seen)
    case _ => false
  }

  function Next(s: State, a: Step): State
    requires Enabled(s, a)
  {
    var p, t, d := a.p, s.t, s.done;
    match a
    case LoadTry(_) => s.(pcs := s.pcs[p := if t.users == t.write then TryLoaded(t) else Idle])
    case CasTry(_) =>
      if !Acquires(s, a) then s.(pcs := s.pcs[p := Idle])
      else s.(pcs := s.pcs[p := Writing], t := t.(users := U16(t.users + 1)), done := d.(u := d.u + 1))
    case Draw(_) =>
      s.(pcs := s.pcs[p := Waiting(t.users)], t := t.(users := U16(t.users + 1)), done := d.(u := d.u + 1),
         line := s.line + [p])
    case Enter(_) =>
      if !Acquires(s, a) then s
      else s.(pcs := s.pcs[p := Writing], line := if s.line == [] then [] else s.line[1..])
    case Downgrade(_) =>
      s.(pcs := s.pcs[p := Reading], t := t.(read := U16(t.read + 1)), done := d.(r := d.r + 1))
    case LoadUnlock(_) => s.(pcs := s.pcs[p := Unlocking(t)])
    case StoreUnlock(_) =>
      var seen := s.pcs[p].seen;
      s.(pcs := s.pcs[p := Idle], t := t.(write := U16(seen.write + 1), read := U16(seen.read + 1)),
         done := d.(w := d.w + 1, r := d.r + 1))
    case LoadShared(_) => s.(pcs := s.pcs[p := SharedLoaded(t, d)])
    case CasShared(_) =>
      if !Acquires(s, a) then s.(pcs := s.pcs[p := Idle])
      else
        var seen, at := s.pcs[p].seen, s.pcs[p].at;
        var extra := if at.u >= at.r then at.u - at.r else 0;
        s.(pcs := s.pcs[p := Reading], t := Ticket(t.write, U16(seen.read + 1), U16(seen.users + 1)),
           done := d.(r := d.r + 1, u := d.u + 1 + extra), lost := s.lost + extra)
    case UnlockShared(_) =>
      s.(pcs := s.pcs[p := Idle], t := t.(write := U16(t.write + 1)), done := d.(w := d.w + 1))
  }

  /** A shared lock taken on a load that had seen the lock held or drawn for. */
  predicate Stale(s: State, a: Step)
    requires Enabled(s, a)
  {
    a.CasShared? && Acquires(s, a) && s.pcs[a.p].seen.users != s.pcs[a.p].seen.read
  }

  // Counting threads

  datatype Role = Reader | Writer | Waiter | Other

  function RoleOf(pc: Pc): Role {
    match pc
    case Reading => Reader
    case Writing => Writer
    case Unlocking(_) => Writer
    case Waiting(_) => Waiter
    case _ => Other
  }

  function One(b: bool): nat { if b then 1 else 0 }

  function Count(pcs: seq<Pc>, role: Role): nat {
    if pcs == [] then 0 else One(RoleOf(pcs[0]) == role) + Count(pcs[1..], role)
  }

  lemma {:induction false} CountUpdate(pcs: seq<Pc>, p: nat, pc: Pc, role: Role)
    requires p < |pcs|
    ensures Count(pcs[p := pc], role) + One(RoleOf(pcs[p]) == role) == Count(pcs, role) + One(RoleOf(pc) == role)
  {
    if p > 0 {
      CountUpdate(pcs[1..], p - 1, pc, role);
      assert pcs[p := pc][1..] == pcs[1..][p - 1 := pc];
    } else {
      assert pcs[p := pc][1..] == pcs[1..];
    }
  }

  lemma {:induction false} CountAll(pcs: seq<Pc>)
    ensures Count(pcs, Reader) + Count(pcs, Writer) + Count(pcs, Waiter) + Count(pcs, Other) == |pcs|
  {
    if pcs != [] { CountAll(pcs[1..]); }
  }

  lemma {:induction false} CountSome(pcs: seq<Pc>, p: nat, role: Role)
    requires p < |pcs| && RoleOf(pcs[p]) == role
    ensures Count(pcs, role) >= 1
  {
    if p > 0 { CountSome(pcs[1..], p - 1, role); }
  }

  lemma {:induction false} CountTwo(pcs: seq<Pc>, p: nat, q: nat, role: Role)
    requires p < q < |pcs| && RoleOf(pcs[p]) == role == RoleOf(pcs[q])
    ensures Count(pcs, role) >= 2
  {
    if p > 0 { CountTwo(pcs[1..], p - 1, q - 1, role); } else { CountSome(pcs[1..], q - 1, role); }
  }

  // The invariant

  /** The first ticket that is neither used up nor lost. */
  function Base(s: State): nat { s.done.r + Count(s.pcs, Writer) + s.lost }

  ghost predicate Counted(n: nat, s: State) {
    && |s.pcs| == n && Roomy(n, s)
    && s.t == Low(s.done)
    && s.done.r == s.done.w + Count(s.pcs, Reader)
    && s.done.u == Base(s) + |s.line|
    && |s.line| == Count(s.pcs, Waiter)
    && Count(s.pcs, Writer) <= 1
    && (Count(s.pcs, Writer) == 1 ==> Count(s.pcs, Reader) == 0 && s.lost == 0)
  }

  /** The waiting threads hold the tickets from the base on, in the order of the line. */
  ghost predicate Queued(s: State) {
    && (forall k: nat :: k < |s.line| ==> s.line[k] < |s.pcs| && s.pcs[s.line[k]] == Waiting(U16(Base(s) + k)))
    && (forall i: nat :: i < |s.pcs| && s.pcs[i].Waiting? ==> i in s.line)
  }

  ghost predicate SnapshotOk(n: nat, s: State, pc: Pc) {
    match pc
    case TryLoaded(seen) => seen.users == seen.write
    case Unlocking(seen) => seen.write == s.t.write && seen.read == s.t.read
    case SharedLoaded(seen, at) =>
      && seen == Low(at) && at.r <= s.done.r && at.r <= at.u <= s.done.u
      && (s.lost == 0 ==> at.u - at.r < n)
    case _ => true
  }

  ghost predicate Inv(n: nat, s: State) {
    && Counted(n, s) && Queued(s)
    && forall i: nat :: i < |s.pcs| ==> SnapshotOk(n, s, s.pcs[i])
  }

  predicate Init(n: nat, s: State) {
    && s.t == Ticket(0, 0, 0) && s.done == Counts(0, 0, 0) && s.line == [] && s.lost == 0
    && |s.pcs| == n && (forall i :: 0 <= i < n ==> s.pcs[i].Idle?)
  }

  ghost predicate StepTo(s: State, a: Step, s': State) {
    Enabled(s, a) && s' == Next(s, a)
  }

  /** The step relation: any instruction of any thread. */
  ghost function Stepper(): (State, Step, State) -> bool {
    (s, a, v) => StepTo(s, a, v)
  }

  /** Threads and lost tickets together fit the 16-bit counters. */
  predicate Roomy(n: nat, s: State) { n + s.lost < TWO_16 }

  /** Equal counters are equal numbers, because fewer than 2^16 tickets are out. */
  lemma LowEqual(a: nat, b: nat)
    requires a <= b < a + TWO_16 && U16(a) == U16(b)
    ensures a == b
  {}

  lemma LowSum(d: Counts, readers: nat, users: nat)
    requires d.r == d.w + readers && d.u == d.w + users
    ensures Low(d).read == U16(Low(d).write + readers) && Low(d).users == U16(Low(d).write + users)
  {}

  lemma LowNext(x: nat)
    ensures U16(U16(x) + 1) == U16(x + 1)
  {}

  lemma Spread(n: nat, s: State)
    requires Counted(n, s)
    ensures s.done.w <= s.done.r <= s.done.u < s.done.w + TWO_16
  {
    CountAll(s.pcs);
  }

  // What an acquisition finds

  lemma TryFindsFree(n: nat, s: State, p: nat)
    requires Inv(n, s) && Enabled(s, CasTry(p)) && Acquires(s, CasTry(p))
    ensures s.done.w == s.done.u && s.line == [] && s.lost == 0
    ensures Count(s.pcs, Reader) == 0 && Count(s.pcs, Writer) == 0
  {
    Spread(n, s);
    assert SnapshotOk(n, s, s.pcs[p]);
    LowEqual(s.done.w, s.done.u);
  }

  lemma EnterFindsFree(n: nat, s: State, p: nat)
    requires Inv(n, s) && Enabled(s, Enter(p)) && Acquires(s, Enter(p))
    ensures Base(s) == s.done.w && s.line != [] && p == s.line[0] && s.lost == 0
    ensures Count(s.pcs, Reader) == 0 && Count(s.pcs, Writer) == 0
  {
    Spread(n, s);
    assert p in s.line;
    var k :| 0 <= k < |s.line| && s.line[k] == p;
    assert s.pcs[s.line[k]] == Waiting(U16(Base(s) + k));
    LowEqual(s.done.w, Base(s) + k);
  }

  lemma SharedFindsUnwritten(n: nat, s: State, p: nat)
    requires Inv(n, s) && Enabled(s, CasShared(p)) && Acquires(s, CasShared(p))
    ensures s.done.r == s.done.u && s.line == [] && s.lost == 0 && Count(s.pcs, Writer) == 0
    ensures var at := s.pcs[p].at; at.r <= at.u < at.r + n && U16(at.r) == U16(s.done.u)
  {
    Spread(n, s);
    assert SnapshotOk(n, s, s.pcs[p]);
    LowEqual(s.done.r, s.done.u);
  }

  // Every step keeps the invariant

  lemma SnapshotsKept(n: nat, s: State, s': State, p: nat, pc: Pc)
    requires p < |s.pcs| && s'.pcs == s.pcs[p := pc] && SnapshotOk(n, s', pc)
    requires forall i: nat :: i < |s.pcs| ==> SnapshotOk(n, s, s.pcs[i])
    requires s.done.r <= s'.done.r && s.done.u <= s'.done.u && (s'.lost == 0 ==> s.lost == 0)
    requires (s'.t.write == s.t.write && s'.t.read == s.t.read) ||
             forall i: nat :: i < |s.pcs| && i != p ==> !s.pcs[i].Unlocking?
    ensures forall i: nat :: i < |s'.pcs| ==> SnapshotOk(n, s', s'.pcs[i])
  {
    forall i: nat | i < |s'.pcs| ensures SnapshotOk(n, s', s'.pcs[i]) {
      assert SnapshotOk(n, s, s.pcs[i]);
    }
  }

  /** With the base where it was, a thread that does not wait leaves the line alone. */
  lemma QueueKept(s: State, s': State, p: nat, pc: Pc)
    requires p < |s.pcs| && s'.pcs == s.pcs[p := pc] && Queued(s)
    requires !s.pcs[p].Waiting? && !pc.Waiting? && s'.line == s.line && (s.line == [] || Base(s') == Base(s))
    ensures Queued(s')
  {
    forall k: nat | k < |s'.line| ensures s'.line[k] < |s'.pcs| && s'.pcs[s'.line[k]] == Waiting(U16(Base(s') + k)) {
      assert s.pcs[s.line[k]] == Waiting(U16(Base(s) + k));
    }
  }

  lemma NoWriterElse(n: nat, s: State, p: nat)
    requires Counted(n, s) && p < |s.pcs|
    requires RoleOf(s.pcs[p]) == Writer || Count(s.pcs, Writer) == 0
    ensures forall i: nat :: i < |s.pcs| && i != p ==> RoleOf(s.pcs[i]) != Writer
  {
    forall i: nat | i < |s.pcs| && i != p ensures RoleOf(s.pcs[i]) != Writer {
      if RoleOf(s.pcs[i]) == Writer {
        CountSome(s.pcs, i, Writer);
        if i < p { CountTwo(s.pcs, i, p, Writer); } else { CountTwo(s.pcs, p, i, Writer); }
      }
    }
  }

  /** A thread that stays what it is changes no count. */
  lemma SameRole(n: nat, s: State, p: nat, pc: Pc)
    requires Counted(n, s) && Queued(s) && p < |s.pcs| && RoleOf(pc) == RoleOf(s.pcs[p]) != Waiter
    ensures var s' := s.(pcs := s.pcs[p := pc]); Counted(n, s') && Queued(s')
  {
    CountUpdate(s.pcs, p, pc, Reader);
    CountUpdate(s.pcs, p, pc, Writer);
    CountUpdate(s.pcs, p, pc, Waiter);
    QueueKept(s, s.(pcs := s.pcs[p := pc]), p, pc);
  }

  lemma LoadKeeps(n: nat, s: State, a: Step)
    requires Inv(n, s) && Enabled(s, a) && (a.LoadTry? || a.LoadUnlock? || a.LoadShared?)
    ensures Inv(n, Next(s, a))
  {
    var s' := Next(s, a);
    SameRole(n, s, a.p, s'.pcs[a.p]);
    if a.LoadShared? { LoadSharedOk(n, s, a.p); }
    SnapshotsKept(n, s, s', a.p, s'.pcs[a.p]);
  }

  lemma LoadSharedOk(n: nat, s: State, p: nat)
    requires Counted(n, s) && p < |s.pcs| && s.pcs[p].Idle?
    ensures SnapshotOk(n, s, SharedLoaded(s.t, s.done))
  {
    CountAll(s.pcs);
    CountSome(s.pcs, p, Other);
  }

  lemma TryCounted(n: nat, s: State, p: nat)
    requires Inv(n, s) && Enabled(s, CasTry(p)) && Acquires(s, CasTry(p))
    ensures Counted(n, Next(s, CasTry(p)))
  {
    TryFindsFree(n, s, p);
    CountUpdate(s.pcs, p, Writing, Reader);
    CountUpdate(s.pcs, p, Writing, Writer);
    CountUpdate(s.pcs, p, Writing, Waiter);
    LowNext(s.done.u);
  }

  lemma CasTryKeeps(n: nat, s: State, p: nat)
    requires Inv(n, s) && Enabled(s, CasTry(p))
    ensures Inv(n, Next(s, CasTry(p)))
  {
    var s' := Next(s, CasTry(p));
    if Acquires(s, CasTry(p)) {
      TryCounted(n, s, p);
      TryFindsFree(n, s, p);
      QueueKept(s, s', p, Writing);
    } else {
      SameRole(n, s, p, Idle);
    }
    SnapshotsKept(n, s, s', p, s'.pcs[p]);
  }

  lemma DrawKeeps(n: nat, s: State, p: nat)
    requires Inv(n, s) && Enabled(s, Draw(p))
    ensures Inv(n, Next(s, Draw(p)))
  {
    var s' := Next(s, Draw(p));
    DrawCounted(n, s, p);
    SnapshotsKept(n, s, s', p, s'.pcs[p]);
    EndOfLine(n, s, s', p);
  }

  lemma DrawCounted(n: nat, s: State, p: nat)
    requires Counted(n, s) && Enabled(s, Draw(p))
    ensures Counted(n, Next(s, Draw(p))) && Base(Next(s, Draw(p))) == Base(s)
  {
    var pc := Waiting(s.t.users);
    CountUpdate(s.pcs, p, pc, Reader);
    CountUpdate(s.pcs, p, pc, Writer);
    CountUpdate(s.pcs, p, pc, Waiter);
    LowNext(s.done.u);
  }

  /** A thread that draws goes to the end of the line. */
  lemma EndOfLine(n: nat, s: State, s': State, p: nat)
    requires Counted(n, s) && Queued(s) && p < |s.pcs| && !s.pcs[p].Waiting? && Base(s') == Base(s)
    requires s'.pcs == s.pcs[p := Waiting(s.t.users)] && s'.line == s.line + [p]
    ensures Queued(s')
  {
    forall k: nat | k < |s'.line| ensures s'.line[k] < |s'.pcs| && s'.pcs[s'.line[k]] == Waiting(U16(Base(s') + k)) {
      if k < |s.line| { assert s.pcs[s.line[k]] == Waiting(U16(Base(s) + k)); }
    }
    forall i: nat | i < |s'.pcs| && s'.pcs[i].Waiting? ensures i in s'.line {
      if i == p { assert s'.line[|s.line|] == p; }
    }
  }

  lemma EnterKeeps(n: nat, s: State, p: nat)
    requires Inv(n, s) && Enabled(s, Enter(p))
    ensures Inv(n, Next(s, Enter(p)))
  {
    if Acquires(s, Enter(p)) {
      var s' := Next(s, Enter(p));
      EnterFindsFree(n, s, p);
      CountUpdate(s.pcs, p, Writing, Reader);
      CountUpdate(s.pcs, p, Writing, Writer);
      CountUpdate(s.pcs, p, Writing, Waiter);
      SnapshotsKept(n, s, s', p, Writing);
      NextInLine(n, s, s', p);
    }
  }

  /** The rest of the line moves up by one. */
  lemma NextInLine(n: nat, s: State, s': State, p: nat)
    requires Counted(n, s) && Queued(s) && s.line != [] && p == s.line[0]
    requires s'.pcs == s.pcs[p := Writing] && s'.line == s.line[1..] && Base(s') == Base(s) + 1
    ensures Queued(s')
  {
    CountAll(s.pcs);
    assert s.pcs[s.line[0]] == Waiting(U16(Base(s) + 0));
    forall k: nat | k < |s'.line| ensures s'.line[k] < |s'.pcs| && s'.pcs[s'.line[k]] == Waiting(U16(Base(s') + k)) {
      assert s.pcs[s.line[k + 1]] == Waiting(U16(Base(s) + (k + 1)));
      if s.line[k + 1] == p { LowEqual(Base(s), Base(s) + (k + 1)); }
    }
    forall i: nat | i < |s'.pcs| && s'.pcs[i].Waiting? ensures i in s'.line {
      assert i in s.line;
      var k :| 0 <= k < |s.line| && s.line[k] == i;
      assert s'.line[k - 1] == i;
    }
  }

  /** A writer that leaves: as a reader, or altogether. */
  lemma WriterLeaves(n: nat, s: State, a: Step)
    requires Inv(n, s) && Enabled(s, a) && (a.Downgrade? || a.StoreUnlock?)
    ensures Counted(n, Next(s, a)) && Base(Next(s, a)) == Base(s)
  {
    var pc := Next(s, a).pcs[a.p];
    assert SnapshotOk(n, s, s.pcs[a.p]);
    CountSome(s.pcs, a.p, Writer);
    CountUpdate(s.pcs, a.p, pc, Reader);
    CountUpdate(s.pcs, a.p, pc, Writer);
    CountUpdate(s.pcs, a.p, pc, Waiter);
    LowNext(s.done.r);
    LowNext(s.done.w);
  }

  lemma ReaderLeaves(n: nat, s: State, p: nat)
    requires Inv(n, s) && Enabled(s, UnlockShared(p))
    ensures Counted(n, Next(s, UnlockShared(p))) && Base(Next(s, UnlockShared(p))) == Base(s)
  {
    CountSome(s.pcs, p, Reader);
    CountUpdate(s.pcs, p, Idle, Reader);
    CountUpdate(s.pcs, p, Idle, Writer);
    CountUpdate(s.pcs, p, Idle, Waiter);
    LowNext(s.done.w);
  }

  lemma ReleaseKeeps(n: nat, s: State, a: Step)
    requires Inv(n, s) && Enabled(s, a) && (a.Downgrade? || a.StoreUnlock? || a.UnlockShared?)
    ensures Inv(n, Next(s, a))
  {
    var s' := Next(s, a);
    if a.UnlockShared? {
      ReaderLeaves(n, s, a.p);
      CountSome(s.pcs, a.p, Reader);
    } else {
      WriterLeaves(n, s, a);
    }
    NoWriterElse(n, s, a.p);
    QueueKept(s, s', a.p, s'.pcs[a.p]);
    SnapshotsKept(n, s, s', a.p, s'.pcs[a.p]);
  }

  lemma SharedCounted(n: nat, s: State, p: nat)
    requires Inv(n, s) && Enabled(s, CasShared(p)) && Roomy(n, Next(s, CasShared(p)))
    requires Acquires(s, CasShared(p))
    ensures Counted(n, Next(s, CasShared(p)))
  {
    var at := s.pcs[p].at;
    SharedFindsUnwritten(n, s, p);
    assert SnapshotOk(n, s, s.pcs[p]);
    CountUpdate(s.pcs, p, Reading, Reader);
    CountUpdate(s.pcs, p, Reading, Writer);
    CountUpdate(s.pcs, p, Reading, Waiter);
    SharedLow(at, s.done);
    if at.u != at.r && U16(at.u) == U16(at.r) { LowEqual(at.r, at.u); }
  }

  /** The counters a shared lock leaves behind are those of the loaded word, which may be old. */
  lemma SharedLow(at: Counts, d: Counts)
    requires Low(d) == Expected(Low(at)) && at.r <= at.u
    ensures U16(Low(at).read + 1) == U16(d.r + 1) && U16(Low(at).users + 1) == U16(d.u + 1 + (at.u - at.r))
  {}

  lemma CasSharedKeeps(n: nat, s: State, p: nat)
    requires Inv(n, s) && Enabled(s, CasShared(p)) && Roomy(n, Next(s, CasShared(p)))
    ensures Inv(n, Next(s, CasShared(p)))
  {
    var s' := Next(s, CasShared(p));
    assert SnapshotOk(n, s, s.pcs[p]);
    if Acquires(s, CasShared(p)) {
      SharedCounted(n, s, p);
      SharedFindsUnwritten(n, s, p);
      NoWriterElse(n, s, p);
      QueueKept(s, s', p, Reading);
    } else {
      SameRole(n, s, p, Idle);
    }
    SnapshotsKept(n, s, s', p, s'.pcs[p]);
  }

  lemma StepKeeps(n: nat, s: State, a: Step)
    requires Inv(n, s) && Enabled(s, a) && Roomy(n, Next(s, a))
    ensures Inv(n, Next(s, a))
  {
    match a
    case LoadTry(_) => LoadKeeps(n, s, a);
    case CasTry(p) => CasTryKeeps(n, s, p);
    case Draw(p) => DrawKeeps(n, s, p);
    case Enter(p) => EnterKeeps(n, s, p);
    case Downgrade(_) => ReleaseKeeps(n, s, a);
    case LoadUnlock(_) => LoadKeeps(n, s, a);
    case StoreUnlock(_) => ReleaseKeeps(n, s, a);
    case LoadShared(_) => LoadKeeps(n, s, a);
    case CasShared(p) => CasSharedKeeps(n, s, p);
    case UnlockShared(_) => ReleaseKeeps(n, s, a);
  }

  lemma {:induction false} NobodyYet(pcs: seq<Pc>, role: Role)
    requires role != Other && forall i :: 0 <= i < |pcs| ==> pcs[i].Idle?
    ensures Count(pcs, role) == 0
  {
    if pcs != [] { NobodyYet(pcs[1..], role); }
  }

  lemma InitInv(n: nat, s: State)
    requires n < TWO_16 && Init(n, s)
    ensures Inv(n, s)
  {
    NobodyYet(s.pcs, Reader);
    NobodyYet(s.pcs, Writer);
    NobodyYet(s.pcs, Waiter);
  }

  /** Tickets stay lost, so a roomy state has only roomy states behind it. */
  lemma RunKeeps(n: nat, s: State, run: Run<State, Step>)
    requires n < TWO_16 && Init(n, s) && IsRun(Stepper(), s, run)
    ensures Roomy(n, Last(s, run)) ==> Inv(n, Last(s, run))
  {
    InitInv(n, s);
    var inv := v => Roomy(n, v) ==> Inv(n, v);
    forall v, a, v' | inv(v) && Stepper()(v, a, v') ensures inv(v') {
      if Roomy(n, v') { StepKeeps(n, v, a); }
    }
    Invariance(Stepper(), inv, s, run);
  }

  /** With at most 2^15 threads every state of every run is roomy: fewer tickets are lost than there are threads. */
  lemma AlwaysRoomy(n: nat, s: State, run: Run<State, Step>)
    requires n <= 0x8000 && Init(n, s) && IsRun(Stepper(), s, run)
    ensures Roomy(n, Last(s, run)) && Inv(n, Last(s, run))
  {
    InitInv(n, s);
    var inv := v => Inv(n, v) && (v.lost == 0 || v.lost < n);
    forall v, a, v' | inv(v) && Stepper()(v, a, v') ensures inv(v') {
      if a.CasShared? && Acquires(v, a) { SharedFindsUnwritten(n, v, a.p); }
      StepKeeps(n, v, a);
    }
    Invariance(Stepper(), inv, s, run);
  }

  // What the lock promises

  /** The counters tell who holds the lock and who waits. */
  ghost predicate Tells(v: State) {
    var readers, writers, waiters := Count(v.pcs, Reader), Count(v.pcs, Writer), Count(v.pcs, Waiter);
    && readers + writers + waiters + v.lost < TWO_16
    && v.t.read == U16(v.t.write + readers)
    && v.t.users == U16(v.t.write + readers + writers + waiters + v.lost)
  }

  lemma StateTells(n: nat, v: State)
    requires Counted(n, v)
    ensures Tells(v)
  {
    CountAll(v.pcs);
    LowSum(v.done, Count(v.pcs, Reader), v.done.u - v.done.w);
  }

  /** So they do in every roomy state of every run. */
  lemma CountersTell(n: nat, s: State, run: Run<State, Step>)
    requires n < TWO_16 && Init(n, s) && IsRun(Stepper(), s, run) && Roomy(n, Last(s, run))
    ensures Tells(Last(s, run))
  {
    RunKeeps(n, s, run);
    StateTells(n, Last(s, run));
  }

  /** A writer is alone. */
  ghost predicate Exclusive(s: State) {
    forall i: nat, j: nat :: i < |s.pcs| && j < |s.pcs| && i != j && RoleOf(s.pcs[i]) == Writer ==>
      RoleOf(s.pcs[j]) != Writer && RoleOf(s.pcs[j]) != Reader
  }

  lemma InvExclusive(n: nat, v: State)
    requires Inv(n, v)
    ensures Exclusive(v)
  {
    forall i: nat, j: nat | i < |v.pcs| && j < |v.pcs| && i != j && RoleOf(v.pcs[i]) == Writer
      ensures RoleOf(v.pcs[j]) != Writer && RoleOf(v.pcs[j]) != Reader
    {
      NoWriterElse(n, v, i);
      CountSome(v.pcs, i, Writer);
      if RoleOf(v.pcs[j]) == Reader { CountSome(v.pcs, j, Reader); }
    }
  }

  /** Mutual exclusion in every roomy state of every run. */
  lemma MutualExclusion(n: nat, s: State, run: Run<State, Step>)
    requires n < TWO_16 && Init(n, s) && IsRun(Stepper(), s, run) && Roomy(n, Last(s, run))
    ensures Exclusive(Last(s, run))
  {
    RunKeeps(n, s, run);
    InvExclusive(n, Last(s, run));
  }

  /**
   First come, first served: the line is exactly the waiting threads, a new one goes to
   its end, and the lock is entered only from its front.
   */
  lemma TicketOrder(n: nat, s: State, run: Run<State, Step>, p: nat)
    requires n < TWO_16 && Init(n, s) && IsRun(Stepper(), s, run) && Roomy(n, Last(s, run))
    ensures var v := Last(s, run);
            && (forall i: nat :: i < |v.pcs| ==> (v.pcs[i].Waiting? <==> i in v.line))
            && (Enabled(v, Enter(p)) && Acquires(v, Enter(p)) ==>
                  v.line != [] && p == v.line[0] && Next(v, Enter(p)).line == v.line[1..])
            && (Enabled(v, Draw(p)) ==> p !in v.line && Next(v, Draw(p)).line == v.line + [p])
  {
    RunKeeps(n, s, run);
    var v := Last(s, run);
    forall i: nat | i < |v.pcs| && i in v.line ensures v.pcs[i].Waiting? {
      var k :| 0 <= k < |v.line| && v.line[k] == i;
      assert v.pcs[v.line[k]].Waiting?;
    }
    if Enabled(v, Enter(p)) && Acquires(v, Enter(p)) { EnterFindsFree(n, v, p); }
  }

  /** The plain load and the 32-bit store of `unlock` act as one step and overwrite no ticket drawn in between. */
  lemma UnlockIsAtomic(n: nat, s: State, run: Run<State, Step>, p: nat)
    requires n < TWO_16 && Init(n, s) && IsRun(Stepper(), s, run) && Roomy(n, Last(s, run))
    requires Enabled(Last(s, run), StoreUnlock(p))
    ensures var v := Last(s, run);
            Next(v, StoreUnlock(p)).t == Ticket(U16(v.t.write + 1), U16(v.t.read + 1), v.t.users)
  {
    RunKeeps(n, s, run);
    var v := Last(s, run);
    assert SnapshotOk(n, v, v.pcs[p]);
  }

  /** Somebody can take the free lock: the one whose turn it is, or `tryLock`. */
  ghost predicate Available(s: State) {
    || s.t.users == s.t.write
    || exists p: nat :: Enabled(s, Enter(p)) && Acquires(s, Enter(p))
  }

  /** In every state of every run without a holder, the lock can be taken exactly when no ticket is lost. */
  lemma AvailableIff(n: nat, s: State, run: Run<State, Step>)
    requires n < TWO_16 && Init(n, s) && IsRun(Stepper(), s, run) && Roomy(n, Last(s, run))
    requires var v := Last(s, run); Count(v.pcs, Reader) == 0 && Count(v.pcs, Writer) == 0
    ensures var v := Last(s, run); Available(v) <==> v.lost == 0
  {
    RunKeeps(n, s, run);
    var v := Last(s, run);
    Spread(n, v);
    if v.lost == 0 {
      if v.line != [] {
        assert v.pcs[v.line[0]] == Waiting(U16(Base(v) + 0));
        assert Enabled(v, Enter(v.line[0])) && Acquires(v, Enter(v.line[0]));
      }
    } else if Available(v) {
      if v.t.users == v.t.write {
        LowEqual(v.done.w, v.done.u);
      } else {
        var p: nat :| Enabled(v, Enter(p)) && Acquires(v, Enter(p));
        EnterFindsFree(n, v, p);
      }
    }
  }

  // What each operation gives its thread

  function Readers(s: State): nat { Count(s.pcs, Reader) }

  function Writers(s: State): nat { Count(s.pcs, Writer) }

  function Waiters(s: State): nat { Count(s.pcs, Waiter) }

  /** Two instructions of a thread with nothing in between. */
  function BackToBack(s: State, a: Step, b: Step): State
    requires Enabled(s, a) && Enabled(Next(s, a), b)
  {
    Next(Next(s, a), b)
  }

  /**
   The shared lock is shared: in every roomy state of every run, an undisturbed
   `tryLockShared` makes its thread a reader if and only if nobody writes, nobody waits to
   write and no ticket is lost, however many read. It loses no ticket itself.
   */
  lemma SharedIff(n: nat, s: State, run: Run<State, Step>, p: nat)
    requires n < TWO_16 && Init(n, s) && IsRun(Stepper(), s, run) && Roomy(n, Last(s, run))
    requires Enabled(Last(s, run), LoadShared(p))
    ensures var v := Last(s, run);
            && Enabled(Next(v, LoadShared(p)), CasShared(p))
            && var v' := BackToBack(v, LoadShared(p), CasShared(p));
               && v'.pcs == v.pcs[p := v'.pcs[p]] && v'.lost == v.lost && v'.line == v.line
               && v'.pcs[p] == if Writers(v) == 0 && Waiters(v) == 0 && v.lost == 0 then Reading else Idle
  {
    RunKeeps(n, s, run);
    var v := Last(s, run);
    Spread(n, v);
    if v.t.users == v.t.read { LowEqual(v.done.r, v.done.u); }
    assert v.pcs[p := SharedLoaded(v.t, v.done)][p := Reading] == v.pcs[p := Reading];
    assert v.pcs[p := SharedLoaded(v.t, v.done)][p := Idle] == v.pcs[p := Idle];
  }

  /**
   An undisturbed `tryLock` makes its thread the writer if and only if nobody reads, writes or
   waits and none is lost.
   */
  lemma TryIff(n: nat, s: State, run: Run<State, Step>, p: nat)
    requires n < TWO_16 && Init(n, s) && IsRun(Stepper(), s, run) && Roomy(n, Last(s, run))
    requires Enabled(Last(s, run), LoadTry(p))
    ensures var v := Last(s, run);
            var v' := Next(v, LoadTry(p));
            var alone := Readers(v) == 0 && Writers(v) == 0 && Waiters(v) == 0 && v.lost == 0;
            && (alone <==> Enabled(v', CasTry(p)))
            && (alone ==> Next(v', CasTry(p)).pcs == v.pcs[p := Writing])
            && (!alone ==> v' == v)
  {
    RunKeeps(n, s, run);
    var v := Last(s, run);
    Spread(n, v);
    if v.t.users == v.t.write { LowEqual(v.done.w, v.done.u); }
    assert v.pcs[p := TryLoaded(v.t)][p := Writing] == v.pcs[p := Writing];
    assert v.pcs[p := Idle] == v.pcs;
  }

  /** A thread in line gets the lock if and only if it is the first, nobody reads or writes, and no ticket is lost. */
  lemma EnterIff(n: nat, s: State, run: Run<State, Step>, p: nat)
    requires n < TWO_16 && Init(n, s) && IsRun(Stepper(), s, run) && Roomy(n, Last(s, run))
    requires Enabled(Last(s, run), Enter(p))
    ensures var v := Last(s, run);
            var v' := Next(v, Enter(p));
            var turn := v.line != [] && p == v.line[0] && Readers(v) == 0 && Writers(v) == 0 && v.lost == 0;
            if turn then v'.pcs == v.pcs[p := Writing] && v'.line == v.line[1..] else v' == v
  {
    RunKeeps(n, s, run);
    var v := Last(s, run);
    if Acquires(v, Enter(p)) {
      EnterFindsFree(n, v, p);
    } else if v.line != [] && p == v.line[0] {
      assert v.pcs[v.line[0]] == Waiting(U16(Base(v) + 0));
    }
  }

  /** Giving the lock back: a writer becomes a reader or leaves, a reader leaves, and nobody else is touched. */
  lemma LeaveExact(s: State, p: nat)
    ensures Enabled(s, Downgrade(p)) ==> Next(s, Downgrade(p)).pcs == s.pcs[p := Reading]
    ensures Enabled(s, LoadUnlock(p)) ==>
              && Enabled(Next(s, LoadUnlock(p)), StoreUnlock(p))
              && BackToBack(s, LoadUnlock(p), StoreUnlock(p)).pcs == s.pcs[p := Idle]
    ensures Enabled(s, StoreUnlock(p)) ==> Next(s, StoreUnlock(p)).pcs == s.pcs[p := Idle]
    ensures Enabled(s, UnlockShared(p)) ==> Next(s, UnlockShared(p)).pcs == s.pcs[p := Idle]
  {
    if Enabled(s, LoadUnlock(p)) {
      assert s.pcs[p := Unlocking(s.t)][p := Idle] == s.pcs[p := Idle];
    }
  }

  /** The first `k` of `n` threads read. */
  function FirstRead(n: nat, k: nat): State {
    State(Low(Counts(0, k, k)), seq(n, (i: nat) => if i < k then Reading else Idle), Counts(0, k, k), [], 0)
  }

  lemma OneMoreReads(n: nat, k: nat)
    requires k < n
    ensures Leads(Stepper(), FirstRead(n, k), FirstRead(n, k + 1))
  {
    var s := FirstRead(n, k);
    var s1 := Next(s, LoadShared(k));
    var s2 := Next(s1, CasShared(k));
    LowNext(k);
    assert s2.pcs == FirstRead(n, k + 1).pcs;
    assert s2 == FirstRead(n, k + 1);
    LeadsNowhere(Stepper(), s2);
    LeadsByStep(Stepper(), s1, CasShared(k), s2, s2);
    LeadsByStep(Stepper(), s, LoadShared(k), s1, s2);
  }

  /** All threads can read together. */
  lemma AllRead(n: nat, s: State) returns (run: Run<State, Step>)
    requires n < TWO_16 && Init(n, s)
    ensures IsRun(Stepper(), s, run)
    ensures |Last(s, run).pcs| == n && forall i :: 0 <= i < n ==> Last(s, run).pcs[i] == Reading
  {
    assert s.pcs == FirstRead(n, 0).pcs;
    assert s == FirstRead(n, 0);
    var at := (k: nat) => FirstRead(n, k);
    forall k: nat | k < 0 + n ensures Leads(Stepper(), at(k), at(k + 1)) { OneMoreReads(n, k); }
    LeadsThrough(Stepper(), at, 0, n);
    run :| IsRun(Stepper(), s, run) && Last(s, run) == FirstRead(n, n);
  }

  /**
   Tickets are lost by stale shared locks and by nothing else; `read` advanced 2^16 times
   between such a load and its swap.
   */
  lemma LostIffStale(n: nat, s: State, run: Run<State, Step>, a: Step)
    requires n < TWO_16 && Init(n, s) && IsRun(Stepper(), s, run) && Roomy(n, Last(s, run))
    requires Enabled(Last(s, run), a)
    ensures var v := Last(s, run);
            && (Next(v, a).lost != v.lost <==> Stale(v, a))
            && (Stale(v, a) ==> v.lost == 0 && v.done.r >= v.pcs[a.p].at.r + TWO_16)
  {
    RunKeeps(n, s, run);
    var v := Last(s, run);
    if a.CasShared? && Acquires(v, a) {
      SharedFindsUnwritten(n, v, a.p);
      var at := v.pcs[a.p].at;
      assert SnapshotOk(n, v, v.pcs[a.p]);
      if at.u == at.r { assert !Stale(v, a); } else { LostMeansMany(at.r, at.u, v.done.u, n); }
    }
  }

  lemma LostMeansMany(r: nat, u: nat, now: nat, n: nat)
    requires n < TWO_16 && r < u < r + n && u <= now && U16(r) == U16(now)
    ensures U16(u) != U16(r) && now >= r + TWO_16
  {
    if U16(u) == U16(r) { LowEqual(r, u); }
    if now < r + TWO_16 { LowEqual(r, now); }
  }

  /** After a lost ticket, in every run that follows, no operation ever takes the lock again. */
  lemma LostForever(n: nat, s: State, before: Run<State, Step>, after: Run<State, Step>, a: Step)
    requires n < TWO_16 && Init(n, s) && IsRun(Stepper(), s, before)
    requires Last(s, before).lost > 0 && Roomy(n, Last(s, before))
    requires IsRun(Stepper(), Last(s, before), after) && Enabled(Last(Last(s, before), after), a)
    ensures !Acquires(Last(Last(s, before), after), a)
  {
    RunKeeps(n, s, before);
    var dead := v => Inv(n, v) && v.lost > 0;
    forall v, b, v' | dead(v) && Stepper()(v, b, v') ensures dead(v') {
      if b.CasShared? && Acquires(v, b) { SharedFindsUnwritten(n, v, b.p); }
      StepKeeps(n, v, b);
    }
    Invariance(Stepper(), dead, Last(s, before), after);
    var v := Last(Last(s, before), after);
    if Acquires(v, a) {
      match a
      case CasTry(p) => TryFindsFree(n, v, p);
      case Enter(p) => EnterFindsFree(n, v, p);
      case CasShared(p) => SharedFindsUnwritten(n, v, p);
      case _ =>
    }
  }

  // Runs that lose tickets

  /**
   `n` threads: thread 0 at `zero`, those of `(lo, hi]` in line with the tickets from
   `base + lo` on, all others idle.
   */
  function Lined(n: nat, zero: Pc, lo: nat, hi: nat, base: nat, done: Counts, lost: nat): State
    requires lo <= hi
  {
    State(Low(done),
          seq(n, (i: nat) => if i == 0 then zero else if lo < i <= hi then Waiting(U16(base + i - 1)) else Idle),
          done, seq(hi - lo, (i: nat) => lo + 1 + i), lost)
  }

  /** The next thread draws a ticket. */
  lemma DrawOne(n: nat, zero: Pc, j: nat, base: nat, done: Counts, lost: nat)
    requires j + 1 < n && done.u == base + j
    ensures Leads(Stepper(), Lined(n, zero, 0, j, base, done, lost),
                  Lined(n, zero, 0, j + 1, base, done.(u := done.u + 1), lost))
  {
    var s, v := Lined(n, zero, 0, j, base, done, lost), Lined(n, zero, 0, j + 1, base, done.(u := done.u + 1), lost);
    LowNext(done.u);
    assert Next(s, Draw(j + 1)).pcs == v.pcs && Next(s, Draw(j + 1)).line == v.line;
    LeadsNowhere(Stepper(), v);
    LeadsByStep(Stepper(), s, Draw(j + 1), v, v);
  }

  /** The front of the line enters and unlocks. */
  lemma ServeOne(n: nat, zero: Pc, j: nat, k: nat)
    requires j < k < n
    ensures Leads(Stepper(), Lined(n, zero, j, k, 0, Counts(j, j, k), 0),
                  Lined(n, zero, j + 1, k, 0, Counts(j + 1, j + 1, k), 0))
  {
    var s, v := Lined(n, zero, j, k, 0, Counts(j, j, k), 0), Lined(n, zero, j + 1, k, 0, Counts(j + 1, j + 1, k), 0);
    var p := j + 1;
    var a := Next(s, Enter(p));
    var b := Next(a, LoadUnlock(p));
    LowNext(j);
    assert Next(b, StoreUnlock(p)).pcs == v.pcs && Next(b, StoreUnlock(p)).line == v.line;
    LeadsNowhere(Stepper(), v);
    LeadsByStep(Stepper(), b, StoreUnlock(p), v, v);
    LeadsByStep(Stepper(), a, LoadUnlock(p), b, v);
    LeadsByStep(Stepper(), s, Enter(p), a, v);
  }

  /** Nobody waits; thread 1 writes once. */
  lemma LapOne(n: nat, zero: Pc, j: nat)
    requires 1 < n
    ensures Leads(Stepper(), Lined(n, zero, 0, 0, 0, Counts(j, j, j), 0),
                  Lined(n, zero, 0, 0, 0, Counts(j + 1, j + 1, j + 1), 0))
  {
    var s, v := Lined(n, zero, 0, 0, 0, Counts(j, j, j), 0), Lined(n, zero, 0, 0, 0, Counts(j + 1, j + 1, j + 1), 0);
    var a := Next(s, LoadTry(1));
    var b := Next(a, CasTry(1));
    var c := Next(b, LoadUnlock(1));
    LowNext(j);
    assert Next(c, StoreUnlock(1)).pcs == v.pcs && Next(c, StoreUnlock(1)).line == v.line;
    LeadsNowhere(Stepper(), v);
    LeadsByStep(Stepper(), c, StoreUnlock(1), v, v);
    LeadsByStep(Stepper(), b, LoadUnlock(1), c, v);
    LeadsByStep(Stepper(), a, CasTry(1), b, v);
    LeadsByStep(Stepper(), s, LoadTry(1), a, v);
  }

  const NO_COUNTS: Counts := Counts(0, 0, 0)

  lemma DrawMany(n: nat, zero: Pc, j: nat, base: nat, done: Counts, lost: nat)
    requires j < n && done.u == base
    ensures Leads(Stepper(), Lined(n, zero, 0, 0, base, done, lost),
                  Lined(n, zero, 0, j, base, done.(u := base + j), lost))
  {
    var at := (i: nat) => Lined(n, zero, 0, i, base, done.(u := base + i), lost);
    forall i: nat | i < j ensures Leads(Stepper(), at(i), at(i + 1)) {
      DrawOne(n, zero, i, base, done.(u := base + i), lost);
    }
    LeadsThrough(Stepper(), at, 0, j);
  }

  lemma ServeMany(n: nat, zero: Pc, k: nat)
    requires k < n
    ensures Leads(Stepper(), Lined(n, zero, 0, k, 0, Counts(0, 0, k), 0),
                  Lined(n, zero, k, k, 0, Counts(k, k, k), 0))
  {
    var at := (i: nat) => Lined(n, zero, Min(i, k), k, 0, Counts(i, i, k), 0);
    forall i: nat | i < k ensures Leads(Stepper(), at(i), at(i + 1)) {
      ServeOne(n, zero, i, k);
    }
    LeadsThrough(Stepper(), at, 0, k);
  }

  lemma LapMany(n: nat, zero: Pc, j: nat, laps: nat)
    requires 1 < n
    ensures Leads(Stepper(), Lined(n, zero, 0, 0, 0, Counts(j, j, j), 0),
                  Lined(n, zero, 0, 0, 0, Counts(j + laps, j + laps, j + laps), 0))
  {
    var at := (i: nat) => Lined(n, zero, 0, 0, 0, Counts(i, i, i), 0);
    forall i: nat | j <= i < j + laps ensures Leads(Stepper(), at(i), at(i + 1)) {
      LapOne(n, zero, i);
    }
    LeadsThrough(Stepper(), at, j, laps);
  }

  /** Thread 0's load while `k` threads are in line. */
  function Loaded(k: nat): Pc { SharedLoaded(Low(Counts(0, 0, k)), Counts(0, 0, k)) }

  /** Thread 0 reads, and `k` tickets are lost. */
  function Lost(n: nat, k: nat, around: nat): State {
    Lined(n, Reading, 0, 0, around + 1 + k, Counts(around, around + 1, around + 1 + k), k)
  }

  lemma LoadsAmidst(n: nat, k: nat)
    requires 1 <= k < n
    ensures Leads(Stepper(), Lined(n, Idle, 0, k, 0, Counts(0, 0, k), 0),
                  Lined(n, Loaded(k), 0, k, 0, Counts(0, 0, k), 0))
  {
    var s, v := Lined(n, Idle, 0, k, 0, Counts(0, 0, k), 0), Lined(n, Loaded(k), 0, k, 0, Counts(0, 0, k), 0);
    assert Next(s, LoadShared(0)).pcs == v.pcs;
    LeadsNowhere(Stepper(), v);
    LeadsByStep(Stepper(), s, LoadShared(0), v, v);
  }

  lemma SwapsLate(n: nat, k: nat, around: nat)
    requires 1 <= k < n < TWO_16 && around == TWO_16
    ensures Leads(Stepper(), Lined(n, Loaded(k), 0, 0, 0, Counts(around, around, around), 0), Lost(n, k, around))
  {
    var s, v := Lined(n, Loaded(k), 0, 0, 0, Counts(around, around, around), 0), Lost(n, k, around);
    assert Next(s, CasShared(0)).pcs == v.pcs;
    LeadsNowhere(Stepper(), v);
    LeadsByStep(Stepper(), s, CasShared(0), v, v);
  }

  /** An empty line is an empty line, wherever it ended. */
  lemma NobodyInLine(n: nat, zero: Pc, k: nat, done: Counts)
    ensures Lined(n, zero, k, k, 0, done, 0) == Lined(n, zero, 0, 0, 0, done, 0)
  {
    assert Lined(n, zero, k, k, 0, done, 0).pcs == Lined(n, zero, 0, 0, 0, done, 0).pcs;
  }

  lemma LoadsAndServes(n: nat, k: nat)
    requires 1 <= k < n
    ensures Leads(Stepper(), Lined(n, Idle, 0, 0, 0, NO_COUNTS, 0), Lined(n, Loaded(k), 0, 0, 0, Counts(k, k, k), 0))
  {
    var s, drawn := Lined(n, Idle, 0, 0, 0, NO_COUNTS, 0), Lined(n, Idle, 0, k, 0, Counts(0, 0, k), 0);
    var loaded := Lined(n, Loaded(k), 0, k, 0, Counts(0, 0, k), 0);
    DrawMany(n, Idle, k, 0, NO_COUNTS, 0);
    LoadsAmidst(n, k);
    LeadsOn(Stepper(), s, drawn, loaded);
    ServeMany(n, Loaded(k), k);
    NobodyInLine(n, Loaded(k), k, Counts(k, k, k));
    LeadsOn(Stepper(), s, loaded, Lined(n, Loaded(k), 0, 0, 0, Counts(k, k, k), 0));
  }

  lemma GoesAround(n: nat, k: nat, around: nat)
    requires 1 <= k < n < TWO_16 && around == TWO_16
    ensures Leads(Stepper(), Lined(n, Loaded(k), 0, 0, 0, Counts(k, k, k), 0), Lost(n, k, around))
  {
    var s, last := Lined(n, Loaded(k), 0, 0, 0, Counts(k, k, k), 0),
                   Lined(n, Loaded(k), 0, 0, 0, Counts(around, around, around), 0);
    LapMany(n, Loaded(k), k, around - k);
    SwapsLate(n, k, around);
    LeadsOn(Stepper(), s, last, Lost(n, k, around));
  }

  /**
   Any number of tickets below the number of threads can be lost: `k` threads draw, thread
   0 loads, the line is served, the lock is written until the counters have gone around
   once, and then thread 0's compare-and-swap succeeds.
   */
  lemma LosesTickets(n: nat, k: nat, around: nat)
    requires 1 <= k < n < TWO_16 && around == TWO_16
    ensures Leads(Stepper(), Lined(n, Idle, 0, 0, 0, NO_COUNTS, 0), Lost(n, k, around))
    ensures Lost(n, k, around).lost == k
  {
    LoadsAndServes(n, k);
    GoesAround(n, k, around);
    LeadsOn(Stepper(), Lined(n, Idle, 0, 0, 0, NO_COUNTS, 0), Lined(n, Loaded(k), 0, 0, 0, Counts(k, k, k), 0),
            Lost(n, k, around));
  }

  /** After 2^15 lost tickets the rest of the threads can bring `users` around to `write`, and one more writes. */
  lemma WritesBesideReader(n: nat, k: nat, around: nat) returns (v: State)
    requires k == 0x8000 < n < TWO_16 && around == TWO_16
    ensures Leads(Stepper(), Lost(n, k, around), v) && !Exclusive(v)
  {
    var s := Lost(n, k, around);
    var base, more := around + 1 + k, around - 1 - k;
    DrawMany(n, Reading, more, base, s.done, k);
    var w := Lined(n, Reading, 0, more, base, s.done.(u := base + more), k);
    var a := Next(w, LoadTry(k));
    v := Next(a, CasTry(k));
    LeadsNowhere(Stepper(), v);
    LeadsByStep(Stepper(), a, CasTry(k), v, v);
    LeadsByStep(Stepper(), w, LoadTry(k), a, v);
    LeadsOn(Stepper(), s, w, v);
    assert RoleOf(v.pcs[k]) == Writer && RoleOf(v.pcs[0]) == Reader;
  }

  /** Every state of every run of `n` threads is exclusive. */
  ghost predicate AlwaysExclusive(n: nat) {
    forall s, run :: Init(n, s) && IsRun(Stepper(), s, run) ==> Exclusive(Last(s, run))
  }

  /** The exact number of threads up to which the lock excludes: 2^15. */
  lemma ExclusionIff(n: nat)
    requires n < TWO_16
    ensures AlwaysExclusive(n) <==> n <= 0x8000
  {
    if n <= 0x8000 {
      forall s, run | Init(n, s) && IsRun(Stepper(), s, run) ensures Exclusive(Last(s, run)) {
        AlwaysRoomy(n, s, run);
        InvExclusive(n, Last(s, run));
      }
    } else {
      var around: nat, k: nat :| around == TWO_16 && k == 0x8000;
      var s := Lined(n, Idle, 0, 0, 0, NO_COUNTS, 0);
      LosesTickets(n, k, around);
      var v := WritesBesideReader(n, k, around);
      LeadsOn(Stepper(), s, Lost(n, k, around), v);
      var run: Run<State, Step> :| IsRun(Stepper(), s, run) && Last(s, run) == v;
      assert Init(n, s);
    }
  }
}
