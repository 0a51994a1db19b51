/**
  No lost wake-up before the stop: in every reachable pool all pushed tasks can
  be taken and run, without new `enqueue` calls and without spurious wake-ups.
 */
module PoolProgress {
  import opened TaskPool

  /** The steps that a pool takes by itself. */
  predicate OwnStep(a: Act) {
    a.NotifyOne? || a.Lock? || a.Evaluate? || a.Block? || a.Proceed? || a.Finish?
  }

  predicate OwnSteps(acts: seq<Act>) {
    forall a | a in acts :: OwnStep(a)
  }

  /** Everything pushed has been taken and run. */
  predicate AllRun(s: Pool) {
    s.queue == [] && s.taken == s.pushed && forall t | 0 <= t < |s.taken| :: t in s.finished
  }

  // ----- a measure ----------------------------------------------------------------------

  function Weight(w: Worker): nat {
    match w
    case Running(_) => 5
    case Unlocked => 4
    case Checking => 3
    case Dozing => 2
    case Ready => 2
    case Waiting => 1
    case Exited => 0
  }

  function Weights(ws: seq<Worker>): nat {
    if ws == [] then 0 else Weight(ws[0]) + Weights(ws[1..])
  }

  lemma {:induction false} WeightsUpdate(ws: seq<Worker>, i: nat, x: Worker)
    requires i < |ws|
    ensures Weights(ws[i := x]) == Weights(ws) + Weight(x) - Weight(ws[i])
  {
    if i == 0 {
      assert ws[0 := x][1..] == ws[1..];
    } else {
      WeightsUpdate(ws[1..], i - 1, x);
      assert ws[i := x][1..] == ws[1..][i - 1 := x];
    }
  }

  // ----- the next step --------------------------------------------------------------------

  /** The step of a worker that holds the mutex or runs a task. */
  function ActOf(s: Pool, w: nat): Act
    requires w < |s.workers|
  {
    match s.workers[w]
    case Checking => Evaluate(w)
    case Dozing => Block(w)
    case Ready => Proceed(w)
    case Running(_) => Finish(w)
    case _ => Lock(w)
  }

  predicate Smaller(s': Pool, s: Pool) {
    || |s'.queue| < |s.queue|
    || (|s'.queue| == |s.queue| && Owed(s') < Owed(s))
    || (|s'.queue| == |s.queue| && Owed(s') == Owed(s) && Weights(s'.workers) < Weights(s.workers))
  }

  /** What a step of the schedule keeps, and that it brings the pool on. */
  predicate MovesOn(s: Pool, a: Act) {
    var s' := Apply(s, a);
    OwnStep(a) && !s'.stop && s'.pushed == s.pushed && |s'.workers| == |s.workers| && Smaller(s', s)
  }

  lemma WorkerMovesOn(s: Pool, w: nat)
    requires Inv(s) && !s.stop && w < |s.workers|
    requires Holds(s.workers[w]) || s.workers[w].Running? || (s.workers[w].Unlocked? && MutexFree(s))
    ensures MovesOn(s, ActOf(s, w))
  {
    var s' := Apply(s, ActOf(s, w));
    WeightsUpdate(s.workers, w, s'.workers[w]);
  }

  /** With work waiting and every worker asleep, a notification is under way. */
  lemma NotifyMovesOn(s: Pool) returns (a: Act)
    requires Inv(s) && !s.stop && s.queue != [] && s.workers != []
    requires forall i | 0 <= i < |s.workers| :: s.workers[i].Waiting?
    ensures MovesOn(s, a)
  {
    NoneAwake(s.workers);
    assert Owed(s) > 0;
    var p := SomeOwing(Owing(s.producers));
    a := NotifyOne(p, 0);
    OneLessOwed(s, p);
    assert Apply(s, a).producers == Forget(s.producers, p);
  }

  lemma SomeOwing(ps: set<nat>) returns (p: nat)
    requires |ps| > 0
    ensures p in ps
  {
    p :| p in ps;
  }

  lemma {:induction false} NoneAwake(ws: seq<Worker>)
    requires forall i | 0 <= i < |ws| :: ws[i].Waiting?
    ensures Awake(ws) == 0
  {
    if ws == [] {
    } else {
      NoneAwake(ws[1..]);
    }
  }

  lemma NextStep(s: Pool) returns (a: Act)
    requires Inv(s) && !s.stop && s.workers != [] && !AllRun(s)
    ensures MovesOn(s, a)
  {
    if w :| 0 <= w < |s.workers| && (Holds(s.workers[w]) || s.workers[w].Running?) {
      WorkerMovesOn(s, w);
      a := ActOf(s, w);
    } else {
      WorkIsWaiting(s);
      if w :| 0 <= w < |s.workers| && s.workers[w].Unlocked? {
        WorkerMovesOn(s, w);
        a := ActOf(s, w);
      } else {
        a := NotifyMovesOn(s);
      }
    }
  }

  /** With nobody at work, what has not been run is in the queue. */
  lemma WorkIsWaiting(s: Pool)
    requires Inv(s) && !AllRun(s) && forall w | 0 <= w < |s.workers| :: !s.workers[w].Running?
    ensures s.queue != []
  {
  }

  lemma {:induction false} RunsAll(s: Pool) returns (acts: seq<Act>)
    requires Inv(s) && !s.stop && s.workers != []
    ensures OwnSteps(acts) && AllRun(Run(s, acts)) && Run(s, acts).pushed == s.pushed
    decreases |s.queue|, Owed(s), Weights(s.workers)
  {
    if AllRun(s) {
      acts := [];
    } else {
      var a := NextStep(s);
      ApplyKeepsInv(s, a);
      var rest := RunsAll(Apply(s, a));
      acts := [a] + rest;
      RunFirst(s, a, rest);
    }
  }

  /** In every reachable pool with workers, before the stop, everything pushed so far can be run. */
  lemma TasksCanRun(n: nat, acts: seq<Act>)
    requires n > 0 && !Run(Start(n), acts).stop
    ensures var s := Run(Start(n), acts);
            exists more :: OwnSteps(more) && AllRun(Run(s, more)) && Run(s, more).pushed == s.pushed
  {
    ReachablePools(n, acts);
    RunKeepsSize(Start(n), acts);
    var more := RunsAll(Run(Start(n), acts));
  }
}
