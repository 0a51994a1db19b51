/**
  `ThreadPool` as a step system: any number of workers and of concurrent
  `enqueue` calls, one mutex, one condition variable, and a stop flag that is
  set without holding the mutex.
 */
module TaskPool {

  /** A worker runs a task, known by its place among the tasks taken so far. */
  datatype Worker =
    | Unlocked            // wants the mutex
    | Checking            // holds it, before the wait predicate
    | Dozing              // holds it, predicate was false, not yet blocked
    | Waiting             // blocked on the condition variable
    | Ready               // holds it, predicate was true
    | Running(at: nat)
    | Exited

  /** One `enqueue` call: past its stop test, or pushed and about to notify. */
  datatype Producer = Tested(task: nat) | Pushed

  datatype Pool = Pool(
    stop: bool,
    notified: bool,
    /** Some `enqueue` was between its stop test and its push when stop was set. */
    straddled: bool,
    queue: seq<nat>,
    /** Everything ever pushed, in order, and everything ever taken, in order. */
    pushed: seq<nat>,
    taken: seq<nat>,
    /** Places, among the taken tasks, of those that have been run. */
    finished: set<nat>,
    workers: seq<Worker>,
    producers: map<nat, Producer>)

  datatype Act =
    | Test(p: nat, task: nat)
    | Push(p: nat)
    | NotifyOne(p: nat, wakes: nat)
    | Lock(w: nat)
    | Evaluate(w: nat)
    | Block(w: nat)
    | Spurious(w: nat)
    | Proceed(w: nat)
    | Finish(w: nat)
    | SetStop
    | NotifyAll

  predicate Holds(w: Worker) {
    w.Checking? || w.Dozing? || w.Ready?
  }

  predicate MutexFree(s: Pool) {
    forall i | 0 <= i < |s.workers| :: !Holds(s.workers[i])
  }

  /** No `enqueue` is between its stop test and its push. */
  predicate NoneTested(s: Pool) {
    forall p | p in s.producers :: !s.producers[p].Tested?
  }

  function Set(s: Pool, w: nat, x: Worker): Pool
    requires w < |s.workers|
  {
    s.(workers := s.workers[w := x])
  }

  function Forget(m: map<nat, Producer>, p: nat): map<nat, Producer> {
    map q | q in m && q != p :: m[q]
  }

  function WakeAll(ws: seq<Worker>): seq<Worker> {
    seq(|ws|, i requires 0 <= i < |ws| => if ws[i].Waiting? then Unlocked else ws[i])
  }

  function StepWorker(s: Pool, w: nat, a: Act): Pool
    requires w < |s.workers|
  {
    match (a, s.workers[w])
    case (Lock(_), Unlocked) => if MutexFree(s) then Set(s, w, Checking) else s
    case (Evaluate(_), Checking) => Set(s, w, if s.stop || s.queue != [] then Ready else Dozing)
    case (Block(_), Dozing) => Set(s, w, Waiting)
    case (Spurious(_), Waiting) => Set(s, w, Unlocked)
    case (Proceed(_), Ready) =>
      if s.stop && s.queue == [] then Set(s, w, Exited)
      else if s.queue == [] then s
      else Set(s, w, Running(|s.taken|)).(queue := s.queue[1..], taken := s.taken + [s.queue[0]])
    case (Finish(_), Running(t)) => Set(s, w, Unlocked).(finished := s.finished + {t})
    case _ => s
  }

  /** One step; an action that is not enabled changes nothing. */
  function Apply(s: Pool, a: Act): Pool {
    match a
    case Test(p, task) => if s.stop || p in s.producers then s else s.(producers := s.producers[p := Tested(task)])
    case Push(p) =>
      if p in s.producers && s.producers[p].Tested? && MutexFree(s)
      then s.(queue := s.queue + [s.producers[p].task], pushed := s.pushed + [s.producers[p].task],
              producers := s.producers[p := Pushed])
      else s
    case NotifyOne(p, w) =>
      if p !in s.producers || !s.producers[p].Pushed? then s
      else if w < |s.workers| && s.workers[w].Waiting? then Set(s, w, Unlocked).(producers := Forget(s.producers, p))
      else if Waiting !in s.workers then s.(producers := Forget(s.producers, p))
      else s
    case SetStop => if s.stop then s else s.(stop := true, straddled := !NoneTested(s))
    case NotifyAll => if s.stop && !s.notified then s.(notified := true, workers := WakeAll(s.workers)) else s
    case Lock(w) => if w < |s.workers| then StepWorker(s, w, a) else s
    case Evaluate(w) => if w < |s.workers| then StepWorker(s, w, a) else s
    case Block(w) => if w < |s.workers| then StepWorker(s, w, a) else s
    case Spurious(w) => if w < |s.workers| then StepWorker(s, w, a) else s
    case Proceed(w) => if w < |s.workers| then StepWorker(s, w, a) else s
    case Finish(w) => if w < |s.workers| then StepWorker(s, w, a) else s
  }

  function Run(s: Pool, acts: seq<Act>): Pool
    decreases |acts|
  {
    if acts == [] then s else Run(Apply(s, acts[0]), acts[1..])
  }

  function Start(n: nat): Pool {
    Pool(false, false, false, [], [], [], {}, seq(n, _ => Unlocked), map[])
  }

  // ----- counting workers -----------------------------------------------------------

  function Awake(ws: seq<Worker>): nat {
    if ws == [] then 0 else (if ws[0].Waiting? then 0 else 1) + Awake(ws[1..])
  }

  lemma {:induction false} AwakeUpdate(ws: seq<Worker>, i: nat, x: Worker)
    requires i < |ws|
    ensures Awake(ws[i := x]) == Awake(ws) + (if x.Waiting? then 0 else 1) - (if ws[i].Waiting? then 0 else 1)
  {
    if i == 0 {
      assert ws[0 := x][1..] == ws[1..];
    } else {
      AwakeUpdate(ws[1..], i - 1, x);
      assert ws[i := x][1..] == ws[1..][i - 1 := x];
    }
  }

  lemma {:induction false} AllAwake(ws: seq<Worker>)
    requires Waiting !in ws
    ensures Awake(ws) == |ws|
  {
    if ws == [] {
    } else {
      AllAwake(ws[1..]);
    }
  }

  /** The `enqueue` calls that still owe a notification. */
  function Owed(s: Pool): nat {
    |Owing(s.producers)|
  }

  // ----- the invariant ----------------------------------------------------------------

  predicate Sleepless(s: Pool) {
    (if |s.queue| < |s.workers| then |s.queue| else |s.workers|) <= Awake(s.workers) + Owed(s)
  }

  /** Mutual exclusion, and what each program point knows. */
  predicate Disciplined(s: Pool) {
    OneHolder(s) && Knowing(s)
  }

  predicate OneHolder(s: Pool) {
    forall i, j | 0 <= i < j < |s.workers| :: !(Holds(s.workers[i]) && Holds(s.workers[j]))
  }

  predicate Knowing(s: Pool) {
    && (forall i | 0 <= i < |s.workers| :: s.workers[i].Dozing? ==> s.queue == [])
    && (forall i | 0 <= i < |s.workers| :: s.workers[i].Ready? ==> s.stop || s.queue != [])
    && (forall i | 0 <= i < |s.workers| :: s.workers[i].Exited? ==> s.stop && (s.straddled || s.queue == []))
    && (s.stop && !s.straddled ==> NoneTested(s))
    && (s.notified ==> s.stop)
  }

  /** First in, first out, each once: what was pushed was taken or waits, and each taken task is finished or on one worker. */
  predicate Conserved(s: Pool) {
    && s.pushed == s.taken + s.queue
    && (forall t | 0 <= t < |s.taken| :: t in s.finished || Running(t) in s.workers)
    && (forall t | t in s.finished :: t < |s.taken|)
    && (forall i | 0 <= i < |s.workers| && s.workers[i].Running? ::
          s.workers[i].at < |s.taken| && s.workers[i].at !in s.finished)
    && (forall i, j | 0 <= i < j < |s.workers| && s.workers[i].Running? && s.workers[j].Running? ::
          s.workers[i].at != s.workers[j].at)
  }

  predicate Inv(s: Pool) {
    Disciplined(s) && Conserved(s) && Sleepless(s)
  }

  // ----- the invariant is kept, one part and one kind of step at a time -----------------

  lemma WorkerExcludes(s: Pool, w: nat, a: Act)
    requires OneHolder(s) && w < |s.workers|
    ensures OneHolder(StepWorker(s, w, a))
  {
  }

  lemma WorkerKnows(s: Pool, w: nat, a: Act)
    requires OneHolder(s) && Knowing(s) && w < |s.workers|
    ensures Knowing(StepWorker(s, w, a))
  {
  }

  lemma WorkerDisciplined(s: Pool, w: nat, a: Act)
    requires Disciplined(s) && w < |s.workers|
    ensures Disciplined(StepWorker(s, w, a))
  {
    WorkerExcludes(s, w, a);
    WorkerKnows(s, w, a);
  }

  lemma OthersRun(s: Pool, w: nat, x: Worker, t: nat)
    requires w < |s.workers| && Running(t) in s.workers && s.workers[w] != Running(t)
    ensures Running(t) in s.workers[w := x]
  {
    var i :| 0 <= i < |s.workers| && s.workers[i] == Running(t);
    assert s.workers[w := x][i] == Running(t);
  }

  lemma ProceedConserved(s: Pool, w: nat)
    requires Disciplined(s) && Conserved(s) && w < |s.workers| && s.workers[w].Ready? && s.queue != []
    ensures Conserved(StepWorker(s, w, Proceed(w)))
  {
    var s' := StepWorker(s, w, Proceed(w));
    assert s'.taken + s'.queue == s.taken + s.queue;
    assert s'.workers[w] == Running(|s.taken|);
    forall t | 0 <= t < |s'.taken|
      ensures t in s'.finished || Running(t) in s'.workers
    {
      if t < |s.taken| && t !in s'.finished { OthersRun(s, w, s'.workers[w], t); }
    }
  }

  lemma WorkerConserved(s: Pool, w: nat, a: Act)
    requires Disciplined(s) && Conserved(s) && w < |s.workers|
    ensures Conserved(StepWorker(s, w, a))
  {
    var s' := StepWorker(s, w, a);
    if a.Proceed? && s.workers[w].Ready? && s.queue != [] {
      ProceedConserved(s, w);
    } else if s' != s {
      forall t | 0 <= t < |s'.taken|
        ensures t in s'.finished || Running(t) in s'.workers
      {
        if t !in s'.finished { OthersRun(s, w, s'.workers[w], t); }
      }
    }
  }

  lemma WorkerSleepless(s: Pool, w: nat, a: Act)
    requires Disciplined(s) && Sleepless(s) && w < |s.workers|
    ensures Sleepless(StepWorker(s, w, a))
  {
    var s' := StepWorker(s, w, a);
    if s' != s {
      AwakeUpdate(s.workers, w, s'.workers[w]);
    }
  }

  function Owing(m: map<nat, Producer>): set<nat> {
    set p | p in m && m[p].Pushed?
  }

  lemma TestSleepless(s: Pool, p: nat, task: nat)
    requires Sleepless(s)
    ensures Sleepless(Apply(s, Test(p, task)))
  {
    var s' := Apply(s, Test(p, task));
    assert Owing(s'.producers) == Owing(s.producers);
  }

  lemma PushSleepless(s: Pool, p: nat)
    requires Sleepless(s)
    ensures Sleepless(Apply(s, Push(p)))
  {
    var s' := Apply(s, Push(p));
    if s' != s {
      assert Owing(s'.producers) == Owing(s.producers) + {p};
    }
  }

  lemma NotifySleepless(s: Pool, p: nat, w: nat)
    requires Sleepless(s)
    ensures Sleepless(Apply(s, NotifyOne(p, w)))
  {
    var s' := Apply(s, NotifyOne(p, w));
    if s' != s {
      OneLessOwed(s, p);
      if w < |s.workers| && s.workers[w].Waiting? {
        AwakeUpdate(s.workers, w, Unlocked);
      } else {
        AllAwake(s.workers);
      }
    }
  }

  lemma OneLessOwed(s: Pool, p: nat)
    requires p in s.producers && s.producers[p].Pushed?
    ensures Owed(s.(producers := Forget(s.producers, p))) == Owed(s) - 1
  {
    assert Owing(s.producers) == Owing(Forget(s.producers, p)) + {p};
  }

  lemma ProducerSleepless(s: Pool, a: Act)
    requires Sleepless(s) && (a.Test? || a.Push? || a.NotifyOne?)
    ensures Sleepless(Apply(s, a))
  {
    match a {
      case Test(p, task) => TestSleepless(s, p, task);
      case Push(p) => PushSleepless(s, p);
      case NotifyOne(p, w) => NotifySleepless(s, p, w);
    }
  }

  lemma TestRest(s: Pool, p: nat, task: nat)
    requires Disciplined(s) && Conserved(s)
    ensures Disciplined(Apply(s, Test(p, task))) && Conserved(Apply(s, Test(p, task)))
  {
  }

  lemma PushRest(s: Pool, p: nat)
    requires Disciplined(s) && Conserved(s)
    ensures Disciplined(Apply(s, Push(p))) && Conserved(Apply(s, Push(p)))
  {
    var s' := Apply(s, Push(p));
    if s' != s {
      assert s'.taken + s'.queue == s.taken + s.queue + [s.producers[p].task];
    }
  }

  lemma WakeConserved(s: Pool, w: nat)
    requires Conserved(s) && w < |s.workers| && s.workers[w].Waiting?
    ensures Conserved(Set(s, w, Unlocked))
  {
    var s' := Set(s, w, Unlocked);
    forall t | 0 <= t < |s'.taken|
      ensures t in s'.finished || Running(t) in s'.workers
    {
      if t !in s.finished { OthersRun(s, w, Unlocked, t); }
    }
  }

  lemma NotifyConserved(s: Pool, p: nat, w: nat)
    requires Conserved(s)
    ensures Conserved(Apply(s, NotifyOne(p, w)))
  {
    var s' := Apply(s, NotifyOne(p, w));
    if s'.workers != s.workers {
      WakeConserved(s, w);
    }
  }

  lemma NotifyDisciplined(s: Pool, p: nat, w: nat)
    requires Disciplined(s)
    ensures Disciplined(Apply(s, NotifyOne(p, w)))
  {
  }

  lemma ProducerRest(s: Pool, a: Act)
    requires Disciplined(s) && Conserved(s) && (a.Test? || a.Push? || a.NotifyOne?)
    ensures Disciplined(Apply(s, a)) && Conserved(Apply(s, a))
  {
    match a {
      case Test(p, task) => TestRest(s, p, task);
      case Push(p) => PushRest(s, p);
      case NotifyOne(p, w) =>
        NotifyConserved(s, p, w);
        NotifyDisciplined(s, p, w);
    }
  }

  lemma StopKeeps(s: Pool, a: Act)
    requires Inv(s) && (a.SetStop? || a.NotifyAll?)
    ensures Inv(Apply(s, a))
  {
    var s' := Apply(s, a);
    if a.NotifyAll? && s' != s {
      forall t | 0 <= t < |s'.taken|
        ensures t in s'.finished || Running(t) in s'.workers
      {
        if t !in s.finished {
          var i :| 0 <= i < |s.workers| && s.workers[i] == Running(t);
          assert s'.workers[i] == Running(t);
        }
      }
      assert Waiting !in s'.workers;
      AllAwake(s'.workers);
    }
  }

  lemma ApplyKeepsInv(s: Pool, a: Act)
    requires Inv(s)
    ensures Inv(Apply(s, a))
  {
    if a.Test? || a.Push? || a.NotifyOne? {
      ProducerSleepless(s, a);
      ProducerRest(s, a);
    } else if a.SetStop? || a.NotifyAll? {
      StopKeeps(s, a);
    } else if a.w < |s.workers| {
      WorkerDisciplined(s, a.w, a);
      WorkerConserved(s, a.w, a);
      WorkerSleepless(s, a.w, a);
    }
  }

  lemma {:induction false} RunKeepsInv(s: Pool, acts: seq<Act>)
    requires Inv(s)
    ensures Inv(Run(s, acts))
    decreases |acts|
  {
    if acts == [] {
    } else {
      ApplyKeepsInv(s, acts[0]);
      RunKeepsInv(Apply(s, acts[0]), acts[1..]);
    }
  }

  predicate AllExited(s: Pool) {
    forall i | 0 <= i < |s.workers| :: s.workers[i].Exited?
  }

  // ----- the results ------------------------------------------------------------------

  /**
    Any number of workers, any schedule: tasks are taken first in first out, run
    at most once, and sleeping workers never outnumber what the queue and the
    notifications still under way allow.
   */
  lemma ReachablePools(n: nat, acts: seq<Act>)
    ensures Inv(Run(Start(n), acts))
  {
    assert Waiting !in Start(n).workers;
    AllAwake(Start(n).workers);
    RunKeepsInv(Start(n), acts);
  }

  /** When all workers have exited and no `enqueue` straddled the stop, every pushed task has been run. */
  lemma DrainedOnExit(n: nat, acts: seq<Act>)
    requires var s := Run(Start(n), acts); n > 0 && AllExited(s) && !s.straddled
    ensures var s := Run(Start(n), acts);
            s.queue == [] && s.taken == s.pushed && forall t | 0 <= t < |s.pushed| :: t in s.finished
  {
    ReachablePools(n, acts);
    var s := Run(Start(n), acts);
    assert s.workers[0].Exited? by { RunKeepsSize(Start(n), acts); }
    assert s.taken + s.queue == s.taken;
  }

  lemma ApplyKeepsSize(s: Pool, a: Act)
    ensures |Apply(s, a).workers| == |s.workers|
  {
  }

  lemma {:induction false} RunKeepsSize(s: Pool, acts: seq<Act>)
    ensures |Run(s, acts).workers| == |s.workers|
    decreases |acts|
  {
    if acts == [] {
    } else {
      ApplyKeepsSize(s, acts[0]);
      RunKeepsSize(Apply(s, acts[0]), acts[1..]);
    }
  }

  /**
    The other case: an `enqueue` that passed its stop test before the stop and
    pushes after the last worker has gone. Its task stays in the queue through
    every continuation and is never run.
   */
  lemma {:induction false} LateTaskIsLost(s: Pool, acts: seq<Act>)
    requires AllExited(s) && s.queue != []
    ensures var r := Run(s, acts); AllExited(r) && r.taken == s.taken && r.finished == s.finished && s.queue <= r.queue
    decreases |acts|
  {
    if acts == [] {
    } else {
      LateTaskIsLost(Apply(s, acts[0]), acts[1..]);
    }
  }

  lemma {:induction false} StaysEmpty(s: Pool, acts: seq<Act>)
    requires AllExited(s) && s.stop && NoneTested(s) && s.queue == []
    ensures Run(s, acts).queue == []
    decreases |acts|
  {
    if acts == [] {
    } else {
      StaysEmpty(Apply(s, acts[0]), acts[1..]);
    }
  }

  ghost predicate NothingLeftEver(s: Pool) {
    forall acts :: Run(s, acts).queue == []
  }

  /** After the last exit from a drained queue, a task can still be lost exactly when some `enqueue` is past its stop test. */
  lemma LostExactly(s: Pool)
    requires AllExited(s) && s.stop && s.queue == []
    ensures NothingLeftEver(s) <==> NoneTested(s)
  {
    if NoneTested(s) {
      forall acts: seq<Act>
        ensures Run(s, acts).queue == []
      {
        StaysEmpty(s, acts);
      }
    } else {
      var p :| p in s.producers && s.producers[p].Tested?;
      RunFirst(s, Push(p), []);
      assert [Push(p)] + [] == [Push(p)];
      assert Run(s, [Push(p)]).queue != [];
    }
  }

  /** One worker; stop falls between the test and the push of the only `enqueue`. */
  function Straddled(task: nat): Pool {
    var stopped := Apply(Apply(Start(1), Test(0, task)), SetStop);
    var exited := Apply(Apply(Apply(stopped, Lock(0)), Evaluate(0)), Proceed(0));
    Apply(exited, Push(0))
  }

  lemma StraddledLosesItsTask(task: nat)
    ensures var s := Straddled(task);
            AllExited(s) && s.straddled && s.queue == [task] && s.pushed == [task] && s.finished == {}
  {
    var stopped := Pool(true, false, true, [], [], [], {}, [Unlocked], map[0 := Tested(task)]);
    assert Apply(Apply(Start(1), Test(0, task)), SetStop) == stopped by {
      var tested := Apply(Start(1), Test(0, task));
      assert tested.producers[0].Tested?;
      assert tested.workers == [Unlocked];
    }
    WorkerLeaves(stopped);
  }

  /** A single worker that finds the pool stopped and empty exits. */
  lemma WorkerLeaves(s: Pool)
    requires s.stop && s.queue == [] && s.workers == [Unlocked]
    ensures Apply(Apply(Apply(s, Lock(0)), Evaluate(0)), Proceed(0)) == s.(workers := [Exited])
  {
    var locked := Apply(s, Lock(0));
    assert locked == s.(workers := [Checking]);
    var ready := Apply(locked, Evaluate(0));
    assert ready == s.(workers := [Ready]);
  }

  lemma RunFirst(s: Pool, a: Act, rest: seq<Act>)
    ensures Run(s, [a] + rest) == Run(Apply(s, a), rest)
  {
    assert ([a] + rest)[1..] == rest;
  }

  // ----- shutdown -------------------------------------------------------------------

  predicate Asleep(s: Pool) {
    exists i :: 0 <= i < |s.workers| && s.workers[i].Waiting?
  }

  predicate NobodyDozing(s: Pool) {
    forall i | 0 <= i < |s.workers| :: !s.workers[i].Dozing?
  }

  ghost predicate NeverAsleep(s: Pool) {
    forall acts :: !Asleep(Run(s, acts))
  }

  lemma {:induction false} StaysAwake(s: Pool, acts: seq<Act>)
    requires s.stop && s.notified && NobodyDozing(s) && !Asleep(s)
    ensures !Asleep(Run(s, acts))
    decreases |acts|
  {
    if acts == [] {
    } else {
      StaysAwake(Apply(s, acts[0]), acts[1..]);
    }
  }

  /**
    The stop flag is set without the mutex, so a worker that has just found
    nothing to do can fall asleep after the wake-up call. Exactly then, when some
    worker is between its predicate and its block at `notify_all`, can a worker
    be asleep afterwards (and the destructor's `join` wait for it).
   */
  lemma WakeUpIsLostExactly(s: Pool)
    requires s.stop && !s.notified
    ensures NeverAsleep(Apply(s, NotifyAll)) <==> NobodyDozing(s)
  {
    var r := Apply(s, NotifyAll);
    if NobodyDozing(s) {
      assert NobodyDozing(r) && !Asleep(r);
      forall acts: seq<Act>
        ensures !Asleep(Run(r, acts))
      {
        StaysAwake(r, acts);
      }
    } else {
      var i :| 0 <= i < |s.workers| && s.workers[i].Dozing?;
      var r' := Apply(r, Block(i));
      assert r'.workers[i].Waiting?;
      RunFirst(r, Block(i), []);
      assert [Block(i)] + [] == [Block(i)] && Run(r', []) == r';
      assert Asleep(Run(r, [Block(i)]));
    }
  }

  /** A spurious wake-up is what it takes: the worker can then exit. */
  lemma SpuriousWakeUpEndsIt(s: Pool, w: nat)
    requires s.stop && s.queue == [] && MutexFree(s) && w < |s.workers| && s.workers[w].Waiting?
    ensures Run(s, [Spurious(w), Lock(w), Evaluate(w), Proceed(w)]).workers == s.workers[w := Exited]
  {
    var s1 := Apply(s, Spurious(w));
    assert s1.workers == s.workers[w := Unlocked] && MutexFree(s1);
    var s2 := Apply(s1, Lock(w));
    assert s2.workers == s.workers[w := Checking];
    var s3 := Apply(s2, Evaluate(w));
    assert s3.workers == s.workers[w := Ready];
    var s4 := Apply(s3, Proceed(w));
    assert s4.workers == s.workers[w := Exited];
    RunFirst(s3, Proceed(w), []);
    RunFirst(s2, Evaluate(w), [Proceed(w)]);
    RunFirst(s1, Lock(w), [Evaluate(w), Proceed(w)]);
    RunFirst(s, Spurious(w), [Lock(w), Evaluate(w), Proceed(w)]);
    assert [Proceed(w)] == [Proceed(w)] + [] && [Evaluate(w), Proceed(w)] == [Evaluate(w)] + [Proceed(w)];
    assert [Lock(w), Evaluate(w), Proceed(w)] == [Lock(w)] + [Evaluate(w), Proceed(w)];
    assert [Spurious(w), Lock(w), Evaluate(w), Proceed(w)] == [Spurious(w)] + [Lock(w), Evaluate(w), Proceed(w)];
  }

  /** A worker left asleep after the wake-up call, with no `enqueue` under way, sleeps on until a spurious wake-up. */
  lemma {:induction false} SleepsOn(s: Pool, acts: seq<Act>, w: nat)
    requires s.stop && s.notified && s.producers == map[] && w < |s.workers| && s.workers[w].Waiting?
    requires forall i | 0 <= i < |acts| :: !acts[i].Spurious?
    ensures |Run(s, acts).workers| == |s.workers| && Run(s, acts).workers[w].Waiting?
    decreases |acts|
  {
    if acts == [] {
    } else {
      var a, s' := acts[0], Apply(s, acts[0]);
      assert s'.producers == map[] && s'.stop && s'.notified && s'.workers[w].Waiting?;
      SleepsOn(s', acts[1..], w);
    }
  }
}
