/**
  The event loop of `startServer` with its pool: which descriptors are marked as
  being processed, and who is working on them. A task closes its connection
  before it removes the mark, so the system may hand the number out again first.
 */
module Dispatch {
  import opened Basics

  type Fd = nat

  datatype Worker = Free | Handling(fd: Fd) | Closed(fd: Fd)

  datatype State = State(
    open: set<Fd>,
    /** Accepted connections that no task has been made for. */
    unseen: set<Fd>,
    processing: set<Fd>,
    /** What the event loop has marked and is about to push. */
    enqueuing: Option<Fd>,
    queue: seq<Fd>,
    workers: seq<Worker>)

  datatype Act =
    | Accept(fd: Fd)
    | Readable(fd: Fd)
    | Hangup(fd: Fd)
    | Push
    | Take(w: nat)
    | Close(w: nat)
    | Unmark(w: nat)

  /** One step; an action that is not enabled changes nothing. */
  function Apply(s: State, a: Act): State {
    match a
    case Accept(fd) => if fd in s.open || s.enqueuing.Some? then s else s.(open := s.open + {fd}, unseen := s.unseen + {fd})
    case Readable(fd) =>
      if fd !in s.open || s.enqueuing.Some? then s
      else if fd in s.processing then s
      else s.(processing := s.processing + {fd}, enqueuing := Some(fd), unseen := s.unseen - {fd})
    case Hangup(fd) =>
      if fd !in s.open || s.enqueuing.Some? then s else s.(open := s.open - {fd}, unseen := s.unseen - {fd})
    case Push =>
      if s.enqueuing.None? then s else s.(queue := s.queue + [s.enqueuing.value], enqueuing := None)
    case Take(w) =>
      if w >= |s.workers| || !s.workers[w].Free? || s.queue == [] then s
      else s.(queue := s.queue[1..], workers := s.workers[w := Handling(s.queue[0])])
    case Close(w) =>
      if w >= |s.workers| || !s.workers[w].Handling? then s
      else
        var fd := s.workers[w].fd;
        s.(open := s.open - {fd}, unseen := s.unseen - {fd}, workers := s.workers[w := Closed(fd)])
    case Unmark(w) =>
      if w >= |s.workers| || !s.workers[w].Closed? then s
      else s.(processing := s.processing - {s.workers[w].fd}, workers := s.workers[w := Free])
  }

  function Run(s: State, acts: seq<Act>): State
    decreases |acts|
  {
    if acts == [] then s else Run(Apply(s, acts[0]), acts[1..])
  }

  function Start(n: nat): State {
    State({}, {}, {}, None, [], seq(n, _ => Free))
  }

  // ----- one task per marked descriptor ------------------------------------------------

  predicate WorksOn(w: Worker, fd: Fd) {
    !w.Free? && w.fd == fd
  }

  function WorkersOn(ws: seq<Worker>, fd: Fd): nat {
    if ws == [] then 0 else (if WorksOn(ws[0], fd) then 1 else 0) + WorkersOn(ws[1..], fd)
  }

  /** The tasks for a descriptor: being enqueued, queued or running. */
  function Tasks(s: State, fd: Fd): nat {
    (if s.enqueuing == Some(fd) then 1 else 0) + multiset(s.queue)[fd] + WorkersOn(s.workers, fd)
  }

  /** A descriptor is marked exactly while it has a task, and it never has two. */
  ghost predicate Exclusive(s: State) {
    forall fd :: Tasks(s, fd) == if fd in s.processing then 1 else 0
  }

  lemma {:induction false} WorkersUpdate(ws: seq<Worker>, i: nat, x: Worker, fd: Fd)
    requires i < |ws|
    ensures WorkersOn(ws[i := x], fd)
            == WorkersOn(ws, fd) + (if WorksOn(x, fd) then 1 else 0) - (if WorksOn(ws[i], fd) then 1 else 0)
  {
    if i == 0 {
      assert ws[0 := x][1..] == ws[1..];
    } else {
      WorkersUpdate(ws[1..], i - 1, x, fd);
      assert ws[i := x][1..] == ws[1..][i - 1 := x];
    }
  }

  lemma {:induction false} NobodyWorks(ws: seq<Worker>, fd: Fd)
    requires forall i | 0 <= i < |ws| :: ws[i].Free?
    ensures WorkersOn(ws, fd) == 0
  {
    if ws == [] {
    } else {
      NobodyWorks(ws[1..], fd);
    }
  }

  lemma {:induction false} SomebodyWorks(ws: seq<Worker>, fd: Fd)
    ensures WorkersOn(ws, fd) > 0 <==> exists i :: 0 <= i < |ws| && WorksOn(ws[i], fd)
  {
    if ws == [] {
    } else {
      SomebodyWorks(ws[1..], fd);
      if WorkersOn(ws[1..], fd) > 0 {
        var i :| 0 <= i < |ws[1..]| && WorksOn(ws[1..][i], fd);
        assert WorksOn(ws[i + 1], fd);
      }
      if i :| 0 < i < |ws| && WorksOn(ws[i], fd) {
        assert WorksOn(ws[1..][i - 1], fd);
      }
    }
  }

  lemma TasksMove(s: State, a: Act, fd: Fd)
    requires Exclusive(s)
    ensures Tasks(Apply(s, a), fd) == if fd in Apply(s, a).processing then 1 else 0
  {
    assert Tasks(s, fd) == if fd in s.processing then 1 else 0;
    var s' := Apply(s, a);
    match a {
      case Take(w) =>
        if s' != s {
          assert s.queue == [s.queue[0]] + s.queue[1..];
          WorkersUpdate(s.workers, w, s'.workers[w], fd);
        }
      case Close(w) => if s' != s { WorkersUpdate(s.workers, w, s'.workers[w], fd); }
      case Unmark(w) => if s' != s { WorkersUpdate(s.workers, w, s'.workers[w], fd); }
      case _ =>
    }
  }

  lemma ApplyKeepsExclusive(s: State, a: Act)
    requires Exclusive(s)
    ensures Exclusive(Apply(s, a))
  {
    forall fd: Fd
      ensures Tasks(Apply(s, a), fd) == if fd in Apply(s, a).processing then 1 else 0
    {
      TasksMove(s, a, fd);
    }
  }

  lemma {:induction false} RunKeepsExclusive(s: State, acts: seq<Act>)
    requires Exclusive(s)
    ensures Exclusive(Run(s, acts))
    decreases |acts|
  {
    if acts == [] {
    } else {
      ApplyKeepsExclusive(s, acts[0]);
      RunKeepsExclusive(Apply(s, acts[0]), acts[1..]);
    }
  }

  /** In every reachable state the marked descriptors are exactly those with a task, one task each. */
  lemma OneTaskEach(n: nat, acts: seq<Act>)
    ensures Exclusive(Run(Start(n), acts))
  {
    forall fd: Fd
      ensures Tasks(Start(n), fd) == 0
    {
      NobodyWorks(Start(n).workers, fd);
    }
    RunKeepsExclusive(Start(n), acts);
  }

  /** A worker's descriptor belongs to no other task. */
  lemma OnlyTask(s: State, w: nat)
    requires Exclusive(s) && w < |s.workers| && !s.workers[w].Free?
    ensures var fd := s.workers[w].fd;
            && s.enqueuing != Some(fd) && fd !in s.queue && fd in s.processing
            && forall i | 0 <= i < |s.workers| && i != w :: !WorksOn(s.workers[i], fd)
  {
    var fd := s.workers[w].fd;
    assert Tasks(s, fd) <= 1;
    WorkersUpdate(s.workers, w, Free, fd);
    SomebodyWorks(s.workers[w := Free], fd);
    forall i | 0 <= i < |s.workers| && i != w
      ensures !WorksOn(s.workers[i], fd)
    {
      assert s.workers[w := Free][i] == s.workers[i];
    }
  }

  // ----- tasks of earlier connections -------------------------------------------------------

  /** A task for this number that has yet to close the connection it finds under it. */
  predicate OldTask(s: State, fd: Fd) {
    s.enqueuing == Some(fd) || fd in s.queue || Handling(fd) in s.workers
  }

  lemma RunLast(s: State, acts: seq<Act>, j: nat)
    requires j < |acts|
    ensures Run(s, acts[..j + 1]) == Apply(Run(s, acts[..j]), acts[j])
    decreases j
  {
    if j == 0 {
      assert acts[..1] == [acts[0]] && acts[..0] == [];
      assert Run(Apply(s, acts[0]), []) == Apply(s, acts[0]);
    } else {
      assert acts[..j + 1][1..] == acts[1..][..j] && acts[..j][1..] == acts[1..][..j - 1];
      RunLast(Apply(s, acts[0]), acts[1..], j - 1);
    }
  }

  /** A task that has yet to close meets no connection, or one that it was not made for. */
  predicate Stranded(s: State, fd: Fd) {
    OldTask(s, fd) && (fd !in s.open || fd in s.unseen)
  }

  /** Only an event makes a task. */
  lemma PendingBefore(s: State, a: Act, fd: Fd)
    ensures a != Readable(fd) && OldTask(Apply(s, a), fd) ==> OldTask(s, fd)
  {
    match a {
      case Take(w) =>
        if Apply(s, a) != s { HandlersUpdate(s.workers, w, Handling(s.queue[0]), fd); }
      case Close(w) =>
        if Apply(s, a) != s { HandlersUpdate(s.workers, w, Closed(s.workers[w].fd), fd); }
      case Unmark(w) =>
        if Apply(s, a) != s { HandlersUpdate(s.workers, w, Free, fd); }
      case _ =>
    }
  }

  lemma CloseEndsIt(s: State, w: nat, fd: Fd)
    requires Exclusive(s) && w < |s.workers| && s.workers[w] == Handling(fd)
    ensures !OldTask(Apply(s, Close(w)), fd)
  {
    OnlyTask(s, w);
    HandlersUpdate(s.workers, w, Closed(fd), fd);
  }

  /** Only a hang-up of its own connection strands a task. */
  lemma StrandedByHangup(s: State, a: Act, fd: Fd)
    requires Exclusive(s) && Stranded(Apply(s, a), fd) && !Stranded(s, fd)
    ensures a == Hangup(fd) && OldTask(s, fd)
  {
    PendingBefore(s, a, fd);
    if a.Close? && a.w < |s.workers| && s.workers[a.w] == Handling(fd) {
      CloseEndsIt(s, a.w, fd);
    }
  }

  lemma HandlersUpdate(ws: seq<Worker>, w: nat, x: Worker, fd: Fd)
    requires w < |ws|
    ensures Handling(fd) in ws[w := x] ==> x == Handling(fd) || exists i :: 0 <= i < |ws| && i != w && ws[i] == Handling(fd)
  {
    if Handling(fd) in ws[w := x] {
      var i :| 0 <= i < |ws| && ws[w := x][i] == Handling(fd);
      assert i == w || ws[i] == Handling(fd);
    }
  }

  /** The peer hung up at step `i` while the task was pending, and the task has been pending since. */
  predicate PendingSince(n: nat, acts: seq<Act>, fd: Fd, i: nat) {
    && i < |acts| && acts[i] == Hangup(fd)
    && forall j | i <= j <= |acts| :: OldTask(Run(Start(n), acts[..j]), fd)
  }

  /**
    A new connection meets a task that has yet to close exactly when an earlier
    peer of that number hung up with its task pending, and the task still is.
   */
  lemma OldTaskOutlivesAHangup(n: nat, acts: seq<Act>, fd: Fd)
    requires fd in Run(Start(n), acts).unseen
    ensures OldTask(Run(Start(n), acts), fd) <==> exists i :: PendingSince(n, acts, fd, i)
  {
    assert acts[..|acts|] == acts;
    if OldTask(Run(Start(n), acts), fd) {
      var i := StrandedSince(n, acts, fd, |acts|);
      assert PendingSince(n, acts, fd, i);
    }
    if i :| PendingSince(n, acts, fd, i) {
      assert OldTask(Run(Start(n), acts[..|acts|]), fd);
    }
  }

  lemma {:induction false} StrandedSince(n: nat, acts: seq<Act>, fd: Fd, m: nat) returns (i: nat)
    requires m <= |acts| && Stranded(Run(Start(n), acts[..m]), fd)
    ensures i < m && acts[i] == Hangup(fd)
    ensures forall j | i <= j <= m :: OldTask(Run(Start(n), acts[..j]), fd)
    decreases m
  {
    if m == 0 {
      assert false;
    } else {
      var s := Run(Start(n), acts[..m - 1]);
      RunLast(Start(n), acts, m - 1);
      if Stranded(s, fd) {
        i := StrandedSince(n, acts, fd, m - 1);
      } else {
        OneTaskEach(n, acts[..m - 1]);
        StrandedByHangup(s, acts[m - 1], fd);
        i := m - 1;
      }
    }
  }

  /** Some task is still for this number: about to be pushed, queued, or with a worker. */
  predicate HasTask(s: State, fd: Fd) {
    || s.enqueuing == Some(fd) || fd in s.queue
    || exists i :: 0 <= i < |s.workers| && WorksOn(s.workers[i], fd)
  }

  /**
    The first event of a new connection is skipped exactly when a task for an
    earlier connection of the same number is still there. Events are
    edge-triggered, so a skipped one does not come again for the same data.
   */
  lemma FirstEventIsSkippedExactly(n: nat, acts: seq<Act>, fd: Fd)
    requires var s := Run(Start(n), acts); fd in s.unseen && s.enqueuing.None?
    ensures var s := Run(Start(n), acts);
            Apply(s, Readable(fd)) == s <==> HasTask(s, fd)
  {
    OneTaskEach(n, acts);
    RunKeepsUnseen(Start(n), acts);
    var s := Run(Start(n), acts);
    assert Tasks(s, fd) == if fd in s.processing then 1 else 0;
    SomebodyWorks(s.workers, fd);
  }

  lemma {:induction false} RunKeepsUnseen(s: State, acts: seq<Act>)
    requires s.unseen <= s.open
    ensures Run(s, acts).unseen <= Run(s, acts).open
    decreases |acts|
  {
    if acts == [] {
    } else {
      RunKeepsUnseen(Apply(s, acts[0]), acts[1..]);
    }
  }

  /** If its number never hung up, that task has closed the earlier connection and only its mark is left. */
  lemma WithoutHangupsOnlyTheMarkIsLeft(n: nat, acts: seq<Act>, fd: Fd)
    requires Hangup(fd) !in acts
    requires fd in Run(Start(n), acts).unseen
    ensures var s := Run(Start(n), acts);
            HasTask(s, fd) <==> Closed(fd) in s.workers
  {
    OldTaskOutlivesAHangup(n, acts, fd);
    var s := Run(Start(n), acts);
    if i :| 0 <= i < |s.workers| && WorksOn(s.workers[i], fd) {
      assert s.workers[i] in s.workers;
    }
    if Closed(fd) in s.workers {
      var i :| 0 <= i < |s.workers| && s.workers[i] == Closed(fd);
      assert WorksOn(s.workers[i], fd);
    }
  }

  // ----- who closes a new connection ------------------------------------------------------

  /** Nothing arrives for the number: no hang-up of its peer, and no event that would make a task. */
  predicate Quiet(acts: seq<Act>, fd: Fd) {
    forall a | a in acts :: a != Hangup(fd) && a != Readable(fd)
  }

  /** Left alone by its peer and by old tasks, a connection stays open. */
  lemma {:induction false} StaysOpen(s: State, acts: seq<Act>, fd: Fd)
    requires fd in s.open && !OldTask(s, fd) && Quiet(acts, fd)
    ensures fd in Run(s, acts).open
    decreases |acts|
  {
    if acts == [] {
    } else {
      assert acts[0] in acts;
      StaysUntouched(s, acts[0], fd);
      assert Quiet(acts[1..], fd) by {
        assert forall a | a in acts[1..] :: a in acts;
      }
      StaysOpen(Apply(s, acts[0]), acts[1..], fd);
    }
  }

  lemma StaysUntouched(s: State, a: Act, fd: Fd)
    requires fd in s.open && !OldTask(s, fd) && a != Hangup(fd) && a != Readable(fd)
    ensures fd in Apply(s, a).open && !OldTask(Apply(s, a), fd)
  {
    PendingBefore(s, a, fd);
    if a.Close? && a.w < |s.workers| {
      assert s.workers[a.w] in s.workers;
    }
  }

  function Rank(w: Worker): nat {
    match w
    case Free => 0
    case Closed(_) => 1
    case Handling(_) => 2
  }

  /** What brings a pending task on: the event loop pushes, the first worker finishes and takes the next. */
  function NextStep(s: State): Act
    requires s.workers != []
  {
    if s.enqueuing.Some? then Push
    else match s.workers[0]
         case Free => Take(0)
         case Closed(_) => Unmark(0)
         case Handling(_) => Close(0)
  }

  /** An old task comes to its close, with nothing but the server's own steps. */
  lemma {:induction false} ClosesInTheEnd(s: State, fd: Fd) returns (acts: seq<Act>)
    requires OldTask(s, fd) && s.workers != []
    ensures Quiet(acts, fd) && fd !in Run(s, acts).open
    decreases s.enqueuing.Some?, |s.queue|, Rank(s.workers[0])
  {
    if Handling(fd) in s.workers {
      var w :| 0 <= w < |s.workers| && s.workers[w] == Handling(fd);
      acts := [Close(w)];
      assert Run(s, acts) == Run(Apply(s, Close(w)), []) by { assert acts[1..] == []; }
    } else {
      var a := NextStep(s);
      assert OldTask(Apply(s, a), fd) by { StaysPending(s, fd); }
      var rest := ClosesInTheEnd(Apply(s, a), fd);
      acts := [a] + rest;
      assert acts[1..] == rest;
    }
  }

  lemma StaysPending(s: State, fd: Fd)
    requires s.workers != [] && (s.enqueuing == Some(fd) || fd in s.queue)
    ensures OldTask(Apply(s, NextStep(s)), fd)
  {
    var s' := Apply(s, NextStep(s));
    if NextStep(s).Push? {
      assert s'.queue[|s.queue|] == s.enqueuing.value;
    } else if NextStep(s).Take? {
      assert s.queue == [s.queue[0]] + s.queue[1..];
      assert s'.workers[0] == Handling(s.queue[0]);
    }
  }

  lemma {:induction false} KeepWorkers(s: State, acts: seq<Act>)
    ensures |Run(s, acts).workers| == |s.workers|
    decreases |acts|
  {
    if acts == [] {
    } else {
      KeepWorkers(Apply(s, acts[0]), acts[1..]);
    }
  }

  /**
    A new connection whose peer sends nothing and stays can be closed by the
    server exactly when a task for an earlier connection of the number has yet to
    close. That task was not made for it.
   */
  lemma OldTaskClosesTheNewConnection(n: nat, before: seq<Act>, fd: Fd)
    requires n > 0 && fd in Run(Start(n), before).unseen
    ensures var s := Run(Start(n), before);
            (exists acts :: Quiet(acts, fd) && fd !in Run(s, acts).open) <==> OldTask(s, fd)
  {
    var s := Run(Start(n), before);
    RunKeepsUnseen(Start(n), before);
    KeepWorkers(Start(n), before);
    if OldTask(s, fd) {
      var acts := ClosesInTheEnd(s, fd);
    } else {
      forall acts | Quiet(acts, fd)
        ensures fd in Run(s, acts).open
      {
        StaysOpen(s, acts, fd);
      }
    }
  }

  /** One worker; the peer of descriptor 5 hangs up while its task is queued, and the number is handed out again. */
  function TakenOver(): State {
    var queued := Apply(Apply(Apply(Start(1), Accept(5)), Readable(5)), Push);
    Apply(Apply(Apply(queued, Hangup(5)), Accept(5)), Take(0))
  }

  /** There the old task has the new connection, whose first event is skipped and which is closed without a task of its own. */
  lemma TakenOverIsClosed()
    ensures 5 in TakenOver().unseen && TakenOver().workers == [Handling(5)]
    ensures Apply(TakenOver(), Readable(5)) == TakenOver()
    ensures 5 !in Apply(TakenOver(), Close(0)).open
  {
    var queued := Apply(Apply(Apply(Start(1), Accept(5)), Readable(5)), Push);
    assert queued.queue == [5] && queued.processing == {5} && queued.open == {5};
    var again := Apply(Apply(queued, Hangup(5)), Accept(5));
    assert again.open == {5} && again.unseen == {5} && again.queue == [5];
  }

  // ----- a run -----------------------------------------------------------------------------

  /** One worker; descriptor 5 is served, closed and handed out again before its mark is gone. */
  function Reused(): State {
    var marked := Apply(Apply(Start(1), Accept(5)), Readable(5));
    var running := Apply(Apply(marked, Push), Take(0));
    Apply(Apply(running, Close(0)), Accept(5))
  }

  /** There the new connection's first event is skipped, and removing the mark does not make up for it. */
  lemma ReusedIsSkipped()
    ensures 5 in Reused().unseen && Apply(Reused(), Readable(5)) == Reused()
    ensures 5 in Apply(Apply(Reused(), Readable(5)), Unmark(0)).unseen
  {
    var marked := Apply(Apply(Start(1), Accept(5)), Readable(5));
    var running := Apply(Apply(marked, Push), Take(0));
    assert running.workers == [Handling(5)] && running.processing == {5};
    assert Apply(running, Close(0)).workers == [Closed(5)];
  }
}
