/** Finite runs of a step relation, what they keep and how they are put together. */
module Runs {

  /** The steps taken, each with the state it leads to. */
  datatype Run<W, A> = Stop | Go(step: A, after: W, rest: Run<W, A>)

  /** Every step of the run is allowed in the state before it and leads to the state after it. */
  ghost predicate IsRun<W, A>(step: (W, A, W) -> bool, w: W, run: Run<W, A>)
    decreases run
  {
    match run
    case Stop => true
    case Go(a, v, rest) => step(w, a, v) && IsRun(step, v, rest)
  }

  /** The state a run ends in. Every state of a run is the end of a shorter run. */
  function Last<W, A>(w: W, run: Run<W, A>): W
    decreases run
  {
    match run
    case Stop => w
    case Go(_, v, rest) => Last(v, rest)
  }

  function Length<W, A>(run: Run<W, A>): nat {
    match run
    case Stop => 0
    case Go(_, _, rest) => 1 + Length(rest)
  }

  /** What holds at the start and is kept by every step holds in every state of every run. */
  lemma {:induction false} Invariance<W(!new), A(!new)>(step: (W, A, W) -> bool, inv: W -> bool, w: W, run: Run<W, A>)
    requires inv(w) && IsRun(step, w, run)
    requires forall v, a, v' :: inv(v) && step(v, a, v') ==> inv(v')
    ensures inv(Last(w, run))
    decreases run
  {
    match run
    case Stop =>
    case Go(a, v, rest) => Invariance(step, inv, v, rest);
  }

  /** A run of fewer kinds of steps is a run of more. */
  lemma {:induction false} SubRun<W(!new), A(!new)>(
    few: (W, A, W) -> bool, many: (W, A, W) -> bool, w: W, run: Run<W, A>)
    requires IsRun(few, w, run) && forall u, a, v :: few(u, a, v) ==> many(u, a, v)
    ensures IsRun(many, w, run)
    decreases run
  {
    match run
    case Stop =>
    case Go(a, v, rest) => SubRun(few, many, v, rest);
  }

  /** One run after another. */
  function Chain<W, A>(first: Run<W, A>, second: Run<W, A>): Run<W, A> {
    match first
    case Stop => second
    case Go(a, v, rest) => Go(a, v, Chain(rest, second))
  }

  lemma {:induction false} ChainIsRun<W, A>(step: (W, A, W) -> bool, w: W, first: Run<W, A>, second: Run<W, A>)
    requires IsRun(step, w, first) && IsRun(step, Last(w, first), second)
    ensures IsRun(step, w, Chain(first, second)) && Last(w, Chain(first, second)) == Last(Last(w, first), second)
    ensures Length(Chain(first, second)) == Length(first) + Length(second)
    decreases first
  {
    match first
    case Stop =>
    case Go(a, v, rest) => ChainIsRun(step, v, rest, second);
  }

  lemma TwoSteps<W, A>(step: (W, A, W) -> bool, w: W, a: A, v: W, b: A, u: W)
    requires step(w, a, v) && step(v, b, u)
    ensures var run := Go(a, v, Go(b, u, Stop)); IsRun(step, w, run) && Length(run) == 2 && Last(w, run) == u
  {
    var stop: Run<W, A> := Stop;
    var rest := Go(b, u, stop);
    assert IsRun(step, u, stop) && Length(stop) == 0 && Last(u, stop) == u;
    assert IsRun(step, v, rest) && Length(rest) == 1 && Last(v, rest) == u;
  }

  /** From `w` some run of at most `n` steps reaches a state with the property. */
  ghost predicate Reaches<W(!new), A(!new)>(step: (W, A, W) -> bool, w: W, goal: W -> bool, n: nat) {
    exists run: Run<W, A> :: IsRun(step, w, run) && Length(run) <= n && goal(Last(w, run))
  }

  /** The next state in which the measure has gone down. */
  ghost function Below<W>(able: W -> bool, measure: W -> nat, m: nat): W -> bool {
    v => able(v) && measure(v) < m
  }

  lemma ReachesNow<W(!new), A(!new)>(step: (W, A, W) -> bool, w: W, goal: W -> bool)
    requires goal(w)
    ensures Reaches(step, w, goal, 0)
  {
    var run: Run<W, A> := Stop;
    assert IsRun(step, w, run) && Length(run) <= 0 && goal(Last(w, run));
  }

  lemma ReachesVia<W(!new), A(!new)>(step: (W, A, W) -> bool, w: W, first: Run<W, A>, goal: W -> bool, m: nat, n: nat)
    requires IsRun(step, w, first) && Length(first) <= m && Reaches(step, Last(w, first), goal, n)
    ensures Reaches(step, w, goal, m + n)
  {
    var v := Last(w, first);
    var second: Run<W, A> :| IsRun(step, v, second) && Length(second) <= n && goal(Last(v, second));
    ChainIsRun(step, w, first, second);
    var run := Chain(first, second);
    assert IsRun(step, w, run) && Length(run) <= m + n && goal(Last(w, run));
  }

  /** What `n` rounds cost, at `cost` a round. */
  function Rounds(n: nat, cost: nat): nat {
    if n == 0 then 0 else cost + Rounds(n - 1, cost)
  }

  lemma {:induction false} RoundsIsProduct(n: nat, cost: nat)
    ensures Rounds(n, cost) == n * cost
  {
    if n > 0 { RoundsIsProduct(n - 1, cost); }
  }

  lemma {:induction false} FewerRounds(m: nat, n: nat, cost: nat)
    requires m < n
    ensures Rounds(m, cost) + cost <= Rounds(n, cost)
  {
    if m + 1 < n { FewerRounds(m, n - 1, cost); }
  }

  lemma ReachesLater<W(!new), A(!new)>(step: (W, A, W) -> bool, w: W, goal: W -> bool, m: nat, n: nat)
    requires Reaches(step, w, goal, m) && m <= n
    ensures Reaches(step, w, goal, n)
  {
    var run: Run<W, A> :| IsRun(step, w, run) && Length(run) <= m && goal(Last(w, run));
    assert IsRun(step, w, run) && Length(run) <= n && goal(Last(w, run));
  }

  /** If a run of at most `n` steps always brings the measure down, some run brings it to zero. */
  lemma {:induction false} Exhaust<W(!new), A(!new)>(step: (W, A, W) -> bool, able: W -> bool, measure: W -> nat,
                                                     n: nat, w: W)
    requires able(w)
    requires forall v :: able(v) && measure(v) > 0 ==> Reaches(step, v, Below(able, measure, measure(v)), n)
    ensures Reaches(step, w, Below(able, measure, 1), Rounds(measure(w), n))
    decreases measure(w)
  {
    if measure(w) == 0 {
      ReachesNow(step, w, Below(able, measure, 1));
    } else {
      var goal := Below(able, measure, measure(w));
      assert Reaches(step, w, goal, n);
      var first: Run<W, A> :| IsRun(step, w, first) && Length(first) <= n && goal(Last(w, first));
      var v := Last(w, first);
      Exhaust(step, able, measure, n, v);
      FewerRounds(measure(v), measure(w), n);
      ReachesVia(step, w, first, Below(able, measure, 1), n, Rounds(measure(v), n));
      ReachesLater(step, w, Below(able, measure, 1), n + Rounds(measure(v), n), Rounds(measure(w), n));
    }
  }

  /** Some run leads from the one state to the other. */
  ghost predicate Leads<W(!new), A(!new)>(step: (W, A, W) -> bool, w: W, v: W) {
    exists run: Run<W, A> :: IsRun(step, w, run) && Last(w, run) == v
  }

  lemma LeadsByStep<W(!new), A(!new)>(step: (W, A, W) -> bool, w: W, a: A, u: W, v: W)
    requires step(w, a, u) && Leads(step, u, v)
    ensures Leads(step, w, v)
  {
    var rest: Run<W, A> :| IsRun(step, u, rest) && Last(u, rest) == v;
    assert IsRun(step, w, Go(a, u, rest)) && Last(w, Go(a, u, rest)) == v;
  }

  lemma LeadsNowhere<W(!new), A(!new)>(step: (W, A, W) -> bool, w: W)
    ensures Leads(step, w, w)
  {
    var run: Run<W, A> := Stop;
    assert IsRun(step, w, run) && Last(w, run) == w;
  }

  lemma LeadsOn<W(!new), A(!new)>(step: (W, A, W) -> bool, w: W, u: W, v: W)
    requires Leads(step, w, u) && Leads(step, u, v)
    ensures Leads(step, w, v)
  {
    var first: Run<W, A> :| IsRun(step, w, first) && Last(w, first) == u;
    var second: Run<W, A> :| IsRun(step, u, second) && Last(u, second) == v;
    ChainIsRun(step, w, first, second);
    assert IsRun(step, w, Chain(first, second)) && Last(w, Chain(first, second)) == v;
  }

  /** From one state of a sequence to the next, and so to any later one. */
  lemma {:induction false} LeadsThrough<W(!new), A(!new)>(step: (W, A, W) -> bool, at: nat -> W, k: nat, n: nat)
    requires forall i: nat :: k <= i < k + n ==> Leads(step, at(i), at(i + 1))
    ensures Leads(step, at(k), at(k + n))
    decreases n
  {
    if n == 0 {
      LeadsNowhere(step, at(k));
    } else {
      LeadsThrough(step, at, k, n - 1);
      var i := k + (n - 1);
      assert Leads(step, at(i), at(i + 1));
      LeadsOn(step, at(k), at(i), at(i + 1));
    }
  }
}
