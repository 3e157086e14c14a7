/**
 The database task queue (server/src/databasetasks.cpp, server/src/thread_holder_base.h): a list
 under a mutex and a condition variable, one worker, and any number of threads that add tasks,
 flush, or shut down. Threads interleave between any two steps; waking may be spurious.
 */
module DatabaseTasks {
  import opened Basics

  type Task = nat
  type Tid = nat

  const WORKER: Tid := 0

  datatype ThreadState = Running | Closing | Terminated

  /** Where a thread is. Numbers count the tasks ever taken from the queue. */
  datatype Pc =
    // threadMain
    | Check | Enter | Decide | Waiting | Woken | Take | RunTask(n: nat) | Exited
    // addTask
    | Idle | Adding(task: Task) | Admitted(task: Task) | Notify
    // flush, on its own or as the last act of shutdown
    | Flushing(last: bool) | FlushRun(n: nat, last: bool) | Relock(last: bool)
    // shutdown
    | Shutting | ShutNotify

  datatype LockOp = Keep | Acquire | Release
  datatype QueueOp = Nothing | Push(task: Task) | Pop | Ran(n: nat)
  datatype Mark = Unmarked | Down | Flushed

  /** What a step does besides moving its thread. */
  datatype Act = Act(lock: LockOp, queue: QueueOp, notify: bool, mark: Mark)

  function Does(lock: LockOp, queue: QueueOp): Act
  {
    Act(lock, queue, false, Unmarked)
  }

  /** The steps of the program, by where the thread is, given the thread state and the queue. */
  predicate Moves(p: Pc, p': Pc, a: Act, state: ThreadState, empty: bool, next: nat)
  {
    match p
    case Check => a == Does(Keep, Nothing) && p' == if state == Terminated then Exited else Enter
    case Enter => a == Does(Acquire, Nothing) && p' == Decide
    case Decide =>
      if empty then a == Does(Release, Nothing) && p' == Waiting else a == Does(Keep, Nothing) && p' == Take
    case Waiting => a == Does(Keep, Nothing) && p' == Woken
    case Woken => a == Does(Acquire, Nothing) && p' == Take
    case Take =>
      if empty then a == Does(Release, Nothing) && p' == Check else a == Does(Release, Pop) && p' == RunTask(next)
    case RunTask(n) => a == Does(Keep, Ran(n)) && p' == Check
    case Exited => false
    case Idle => a == Does(Acquire, Nothing) && (p'.Adding? || p' == Flushing(false) || p' == Shutting)
    case Adding(task) =>
      if state == Running then a == Does(Keep, Nothing) && p' == Admitted(task)
      else a == Does(Release, Nothing) && p' == Idle
    case Admitted(task) => a == Does(Release, Push(task)) && p' == if empty then Notify else Idle
    case Notify => a == Act(Keep, Nothing, true, Unmarked) && p' == Idle
    case Flushing(last) =>
      if !empty then a == Does(Release, Pop) && p' == FlushRun(next, last)
      else if last then a == Act(Release, Nothing, false, Flushed) && p' == ShutNotify
      else a == Does(Release, Nothing) && p' == Idle
    case FlushRun(n, last) => a == Does(Keep, Ran(n)) && p' == Relock(last)
    case Relock(last) => a == Does(Acquire, Nothing) && p' == Flushing(last)
    case Shutting => a == Act(Release, Nothing, false, Down) && p' == Relock(true)
    case ShutNotify => a == Act(Keep, Nothing, true, Unmarked) && p' == Idle
  }

  /**
   `state`, `lock`, `tasks` and `pc` are the program's; the rest is history: what was accepted
   and popped, who popped it, which of it ran, whether shutdown began and whether its flush ended,
   and what every call of addTask offered and saw under the lock.
   */
  datatype State = State(
    state: ThreadState, lock: Option<Tid>, tasks: seq<Task>, pc: map<Tid, Pc>,
    accepted: seq<Task>, popped: seq<Task>, owner: seq<Tid>, ran: set<nat>, down: bool, flushed: bool,
    offers: seq<Offer>)

  /** A task handed to addTask, and the thread state that its check of it saw. */
  datatype Offer = Offer(task: Task, seen: ThreadState)

  ghost predicate Init(s: State)
  {
    && s.state == Running && s.lock == None && s.tasks == [] && WORKER in s.pc && s.pc[WORKER] == Check
    && (forall t <- s.pc :: t != WORKER ==> s.pc[t] == Idle)
    && s.accepted == [] && s.popped == [] && s.owner == [] && s.ran == {} && !s.down && !s.flushed
    && s.offers == []
  }

  function AfterLock(s: State, t: Tid, op: LockOp): Option<Tid>
  {
    match op
    case Keep => s.lock
    case Acquire => Some(t)
    case Release => None
  }

  /** notify_one: at most the worker waits. */
  function AfterPc(s: State, t: Tid, p': Pc, notify: bool): map<Tid, Pc>
  {
    var pc := s.pc[t := p'];
    if notify && WORKER in pc && pc[WORKER] == Waiting then pc[WORKER := Woken] else pc
  }

  function AfterQueue(s: State, t: Tid, op: QueueOp): State
  {
    match op
    case Nothing => s
    case Push(task) => s.(tasks := s.tasks + [task], accepted := s.accepted + [task])
    case Pop =>
      if s.tasks == [] then s
      else s.(tasks := s.tasks[1..], popped := s.popped + [s.tasks[0]], owner := s.owner + [t])
    case Ran(n) => s.(ran := s.ran + {n})
  }

  function Apply(s: State, t: Tid, p': Pc, a: Act): State
  {
    AfterQueue(s, t, a.queue).(
      lock := AfterLock(s, t, a.lock), pc := AfterPc(s, t, p', a.notify),
      state := if a.mark == Down then Terminated else s.state,
      down := s.down || a.mark == Down, flushed := s.flushed || a.mark == Flushed,
      offers := s.offers + Checked(s, t))
  }

  /** Leaving `Adding` is the check of the thread state. */
  function Checked(s: State, t: Tid): seq<Offer>
  {
    if t in s.pc && s.pc[t].Adding? then [Offer(s.pc[t].task, s.state)] else []
  }

  ghost predicate Step(s: State, t: Tid, p': Pc, a: Act)
  {
    && t in s.pc && Moves(s.pc[t], p', a, s.state, s.tasks == [], |s.popped|)
    && (a.lock == Acquire ==> s.lock == None)
  }

  /** One step of some thread, or a stop(), which takes no lock. */
  ghost predicate Next(s: State, s': State)
  {
    || (exists t, p', a :: Step(s, t, p', a) && s' == Apply(s, t, p', a))
    || s' == s.(state := Closing)
  }

  // ----- What every step keeps -----

  predicate HoldsLock(p: Pc)
  {
    p.Decide? || p.Take? || p.Adding? || p.Admitted? || p.Flushing? || p.Shutting?
  }

  predicate WorkerPc(p: Pc)
  {
    p.Check? || p.Enter? || p.Decide? || p.Waiting? || p.Woken? || p.Take? || p.RunTask? || p.Exited?
  }

  /** The task the thread is running. */
  function Job(p: Pc): Option<nat>
  {
    if p.RunTask? || p.FlushRun? then Some(p.n) else None
  }

  predicate LastFlush(p: Pc)
  {
    (p.Relock? || p.Flushing? || p.FlushRun?) && p.last
  }

  ghost predicate Roles(s: State)
  {
    WORKER in s.pc && forall t <- s.pc :: WorkerPc(s.pc[t]) <==> t == WORKER
  }

  /** The queue is what was accepted and not yet popped, in order. */
  ghost predicate Fifo(s: State)
  {
    s.accepted == s.popped + s.tasks && |s.owner| == |s.popped|
  }

  /** The mutex is held by the one thread that is between taking and releasing it. */
  ghost predicate Locked(s: State)
  {
    forall t <- s.pc :: HoldsLock(s.pc[t]) <==> s.lock == Some(t)
  }

  /** Each popped task is in the hands of the one thread that popped it until that thread has run it. */
  ghost predicate Handed(s: State)
  {
    Jobs(s) && Owners(s)
  }

  ghost predicate Jobs(s: State)
  {
    && |s.owner| == |s.popped|
    && (forall n <- s.ran :: n < |s.owner|)
    && (forall t <- s.pc :: Job(s.pc[t]).Some? ==>
          Job(s.pc[t]).value < |s.owner| && s.owner[Job(s.pc[t]).value] == t)
  }

  ghost predicate Owners(s: State)
  {
    forall n {:trigger s.owner[n]} | 0 <= n < |s.owner| ::
      s.owner[n] in s.pc && (n in s.ran <==> Job(s.pc[s.owner[n]]) != Some(n))
  }

  /** A waiting worker and a queue with something in it: somebody is about to notify. */
  ghost predicate WakeUpComing(s: State)
  {
    WORKER in s.pc && s.pc[WORKER] == Waiting && s.tasks != [] ==> exists t :: t in s.pc && s.pc[t] == Notify
  }

  ghost predicate Shut(s: State)
  {
    && (s.state == Running ==> !s.down)
    && (forall t <- s.pc :: s.pc[t].Admitted? ==> !s.down)
    && (forall t <- s.pc :: LastFlush(s.pc[t]) ==> s.down)
    && (s.flushed ==> s.down && s.tasks == [])
  }

  /** The tasks offered while the queue was running, in the order of the checks. */
  function Wanted(offers: seq<Offer>): seq<Task>
  {
    if offers == [] then []
    else
      var last := offers[|offers| - 1];
      Wanted(offers[..|offers| - 1]) + if last.seen == Running then [last.task] else []
  }

  /** The task that has passed its check and is about to be queued. */
  function InFlight(s: State): seq<Task>
  {
    if s.lock.Some? && s.lock.value in s.pc && s.pc[s.lock.value].Admitted? then [s.pc[s.lock.value].task] else []
  }

  /** Accepted is exactly what was offered while running, but for a task in flight. */
  ghost predicate Answered(s: State)
  {
    Wanted(s.offers) == s.accepted + InFlight(s)
  }

  ghost predicate Inv(s: State)
  {
    Roles(s) && Fifo(s) && Locked(s) && Handed(s) && WakeUpComing(s) && Shut(s) && Answered(s)
  }

  lemma InitInv(s: State)
    requires Init(s)
    ensures Inv(s)
  {
  }

  // ----- What the table of steps says about each of these -----

  lemma LockMoves(p: Pc, p': Pc, a: Act, state: ThreadState, empty: bool, next: nat)
    requires Moves(p, p', a, state, empty, next)
    ensures WorkerPc(p) <==> WorkerPc(p')
    ensures HoldsLock(p') <==> a.lock == Acquire || (a.lock == Keep && HoldsLock(p))
    ensures a.lock == Release ==> HoldsLock(p)
    ensures a.queue.Push? || a.queue.Pop? || a.mark != Unmarked ==> HoldsLock(p)
    ensures a.queue.Pop? ==> !empty
  {
  }

  lemma RunMoves(p: Pc, p': Pc, a: Act, state: ThreadState, empty: bool, next: nat)
    requires Moves(p, p', a, state, empty, next)
    ensures match Job(p) case Some(n) => a.queue == Ran(n) case None => !a.queue.Ran?
    ensures Job(p') == if a.queue.Pop? then Some(next) else None
  {
  }

  lemma WakeMoves(p: Pc, p': Pc, a: Act, state: ThreadState, empty: bool, next: nat)
    requires Moves(p, p', a, state, empty, next)
    ensures p' == Waiting ==> empty && !a.queue.Push? && !a.notify
    ensures a.queue.Push? && empty ==> p' == Notify
    ensures p == Notify ==> a.notify
  {
  }

  lemma ShutMoves(p: Pc, p': Pc, a: Act, state: ThreadState, empty: bool, next: nat)
    requires Moves(p, p', a, state, empty, next)
    ensures a.queue.Push? ==> p.Admitted?
    ensures p'.Admitted? ==> state == Running && a.mark == Unmarked
    ensures LastFlush(p') ==> LastFlush(p) || a.mark == Down
    ensures a.mark == Flushed ==> LastFlush(p) && empty && a.queue == Nothing
  {
  }

  lemma AddMoves(p: Pc, p': Pc, a: Act, state: ThreadState, empty: bool, next: nat)
    requires Moves(p, p', a, state, empty, next)
    ensures p.Adding? && state == Running ==> p' == Admitted(p.task) && a.lock == Keep && a.queue == Nothing
    ensures p.Admitted? ==> a.lock == Release && a.queue == Push(p.task)
    ensures !(p.Adding? && state == Running) ==> !p'.Admitted?
    ensures !p.Admitted? ==> !a.queue.Push?
  {
  }

  /** A step moves its own thread; a notified worker changes nothing that matters here. */
  lemma PcAfter(s: State, t: Tid, p': Pc, notify: bool)
    requires t in s.pc
    ensures AfterPc(s, t, p', notify).Keys == s.pc.Keys
    ensures forall u {:trigger AfterPc(s, t, p', notify)[u]} | u in s.pc ::
              var q, q' := if u == t then p' else s.pc[u], AfterPc(s, t, p', notify)[u];
              Job(q') == Job(q) && q'.Admitted? == q.Admitted? && LastFlush(q') == LastFlush(q)
  {
  }

  lemma StepRoles(s: State, t: Tid, p': Pc, a: Act)
    requires Roles(s) && Step(s, t, p', a)
    ensures Roles(Apply(s, t, p', a)) && Apply(s, t, p', a).pc.Keys == s.pc.Keys
  {
    hide Moves;
    LockMoves(s.pc[t], p', a, s.state, s.tasks == [], |s.popped|);
  }

  lemma StepFifo(s: State, t: Tid, p': Pc, a: Act)
    requires Fifo(s) && Step(s, t, p', a)
    ensures Fifo(Apply(s, t, p', a))
  {
    hide Moves, AfterPc, AfterLock;
    if s.tasks != [] {
      assert s.popped + s.tasks == (s.popped + [s.tasks[0]]) + s.tasks[1..];
    }
    if a.queue.Push? {
      assert s.popped + (s.tasks + [a.queue.task]) == s.accepted + [a.queue.task];
    }
  }

  lemma StepLocked(s: State, t: Tid, p': Pc, a: Act)
    requires Locked(s) && Step(s, t, p', a)
    ensures Locked(Apply(s, t, p', a))
  {
    hide Moves;
    LockMoves(s.pc[t], p', a, s.state, s.tasks == [], |s.popped|);
  }

  lemma StepHanded(s: State, t: Tid, p': Pc, a: Act)
    requires Handed(s) && Step(s, t, p', a)
    ensures Handed(Apply(s, t, p', a))
  {
    StepJobs(s, t, p', a);
    StepOwners(s, t, p', a);
  }

  lemma StepJobs(s: State, t: Tid, p': Pc, a: Act)
    requires Handed(s) && Step(s, t, p', a)
    ensures Jobs(Apply(s, t, p', a))
  {
    hide Moves, AfterPc, AfterLock, Job;
    PcAfter(s, t, p', a.notify);
    LockMoves(s.pc[t], p', a, s.state, s.tasks == [], |s.popped|);
    RunMoves(s.pc[t], p', a, s.state, s.tasks == [], |s.popped|);
  }

  lemma StepOwners(s: State, t: Tid, p': Pc, a: Act)
    requires Handed(s) && Step(s, t, p', a)
    ensures Owners(Apply(s, t, p', a))
  {
    hide Moves, AfterPc, AfterLock, Job;
    PcAfter(s, t, p', a.notify);
    LockMoves(s.pc[t], p', a, s.state, s.tasks == [], |s.popped|);
    RunMoves(s.pc[t], p', a, s.state, s.tasks == [], |s.popped|);
    var s' := Apply(s, t, p', a);
    forall n | 0 <= n < |s'.owner|
      ensures s'.owner[n] in s'.pc && (n in s'.ran <==> Job(s'.pc[s'.owner[n]]) != Some(n))
    {
      if n < |s.owner| {
        assert s'.owner[n] == s.owner[n];
      }
    }
  }

  lemma StepWakes(s: State, t: Tid, p': Pc, a: Act)
    requires Roles(s) && WakeUpComing(s) && Step(s, t, p', a)
    ensures WakeUpComing(Apply(s, t, p', a))
  {
    hide Moves;
    var s' := Apply(s, t, p', a);
    LockMoves(s.pc[t], p', a, s.state, s.tasks == [], |s.popped|);
    WakeMoves(s.pc[t], p', a, s.state, s.tasks == [], |s.popped|);
    if s'.pc[WORKER] == Waiting && s'.tasks != [] {
      if s.tasks == [] {
        assert s'.pc[t] == Notify;
      } else {
        var u :| u in s.pc && s.pc[u] == Notify;
        assert s'.pc[u] == Notify;
      }
    }
  }

  lemma StepShut(s: State, t: Tid, p': Pc, a: Act)
    requires Locked(s) && Shut(s) && Step(s, t, p', a)
    ensures Shut(Apply(s, t, p', a))
  {
    hide Moves, AfterPc, AfterLock, LastFlush;
    PcAfter(s, t, p', a.notify);
    LockMoves(s.pc[t], p', a, s.state, s.tasks == [], |s.popped|);
    ShutMoves(s.pc[t], p', a, s.state, s.tasks == [], |s.popped|);
  }

  lemma StepAnswered(s: State, t: Tid, p': Pc, a: Act)
    requires Locked(s) && Answered(s) && Step(s, t, p', a)
    ensures Answered(Apply(s, t, p', a))
  {
    hide Moves;
    var s' := Apply(s, t, p', a);
    LockMoves(s.pc[t], p', a, s.state, s.tasks == [], |s.popped|);
    AddMoves(s.pc[t], p', a, s.state, s.tasks == [], |s.popped|);
    WantedMore(s, t);
    if s.lock == Some(t) {
      assert s'.lock == None || s'.lock == Some(t);
      assert s'.lock == Some(t) ==> s'.pc[t] == p';
      if s.pc[t].Admitted? {
        assert s'.accepted == s.accepted + [s.pc[t].task] && InFlight(s) == [s.pc[t].task] && InFlight(s') == [];
      } else {
        assert s'.accepted == s.accepted && InFlight(s) == [];
        assert InFlight(s') == if p'.Admitted? then [p'.task] else [];
      }
    } else {
      OtherInFlight(s, t, p', a);
    }
  }

  /** The step of a thread without the lock leaves the task in flight alone. */
  lemma OtherInFlight(s: State, t: Tid, p': Pc, a: Act)
    requires Locked(s) && Step(s, t, p', a) && s.lock != Some(t)
    ensures InFlight(Apply(s, t, p', a)) == InFlight(s) && Apply(s, t, p', a).accepted == s.accepted
    ensures !s.pc[t].Adding?
  {
    hide Moves;
    LockMoves(s.pc[t], p', a, s.state, s.tasks == [], |s.popped|);
    AddMoves(s.pc[t], p', a, s.state, s.tasks == [], |s.popped|);
    assert !HoldsLock(s.pc[t]);
  }

  lemma WantedMore(s: State, t: Tid)
    ensures Wanted(s.offers + Checked(s, t))
         == Wanted(s.offers) + if t in s.pc && s.pc[t].Adding? && s.state == Running then [s.pc[t].task] else []
  {
    var more := s.offers + Checked(s, t);
    if t in s.pc && s.pc[t].Adding? {
      assert more[..|more| - 1] == s.offers;
    } else {
      assert more == s.offers;
    }
  }

  /** A flush, its own or that of a shutdown, returns only when it has seen the queue empty. */
  lemma FlushReturnsEmpty(s: State, t: Tid, p': Pc, a: Act)
    requires Step(s, t, p', a) && s.pc[t].Flushing?
    ensures p'.FlushRun? <==> s.tasks != []
    ensures s.tasks == [] ==> p' == (if s.pc[t].last then ShutNotify else Idle) && a.queue == Nothing
  {
  }

  lemma NextInv(s: State, s': State)
    requires Inv(s) && Next(s, s')
    ensures Inv(s') && s'.pc.Keys == s.pc.Keys
  {
    hide Step, Apply, Roles, Fifo, Locked, Handed, WakeUpComing, Shut, Answered;
    if t, p', a :| Step(s, t, p', a) && s' == Apply(s, t, p', a) {
      StepRoles(s, t, p', a);
      StepFifo(s, t, p', a);
      StepLocked(s, t, p', a);
      StepHanded(s, t, p', a);
      StepWakes(s, t, p', a);
      StepShut(s, t, p', a);
      StepAnswered(s, t, p', a);
    } else {
      StopInv(s);
    }
  }

  lemma StopInv(s: State)
    requires Inv(s)
    ensures Inv(s.(state := Closing))
  {
    var s' := s.(state := Closing);
    if s'.pc[WORKER] == Waiting && s'.tasks != [] {
      var u :| u in s.pc && s.pc[u] == Notify;
      assert s'.pc[u] == Notify;
    }
  }

  // ----- Whole runs -----

  ghost predicate Run(trace: seq<State>)
  {
    && trace != [] && Init(trace[0])
    && forall i | 0 <= i < |trace| - 1 :: Next(trace[i], trace[i + 1])
  }

  lemma {:induction false} RunInv(trace: seq<State>, i: nat)
    requires Run(trace) && i < |trace|
    ensures Inv(trace[i])
  {
    hide Inv, Next, Init;
    if i == 0 {
      InitInv(trace[0]);
    } else {
      RunInv(trace, i - 1);
      assert Next(trace[i - 1], trace[i - 1 + 1]);
      NextInv(trace[i - 1], trace[i]);
    }
  }

  /** History only grows; nothing is accepted once shutdown has begun. */
  ghost predicate Later(s: State, s': State)
  {
    && s.accepted <= s'.accepted && s.popped <= s'.popped && s.owner <= s'.owner && s.ran <= s'.ran
    && s.offers <= s'.offers && (s.down ==> s'.down && s'.accepted == s.accepted)
    && (s.flushed ==> s'.flushed)
  }

  lemma StepLater(s: State, t: Tid, p': Pc, a: Act)
    requires Shut(s) && Step(s, t, p', a)
    ensures Later(s, Apply(s, t, p', a))
  {
    hide Moves;
    ShutMoves(s.pc[t], p', a, s.state, s.tasks == [], |s.popped|);
  }

  lemma {:induction false} RunLater(trace: seq<State>, i: nat, j: nat)
    requires Run(trace) && i <= j < |trace|
    ensures Later(trace[i], trace[j])
    decreases j
  {
    hide Next, Init, Step, Apply;
    if i < j {
      RunLater(trace, i, j - 1);
      var s, s' := trace[j - 1], trace[j];
      RunInv(trace, j - 1);
      assert Next(trace[j - 1], trace[j - 1 + 1]);
      NextLater(s, s');
    }
  }

  lemma NextLater(s: State, s': State)
    requires Shut(s) && Next(s, s')
    ensures Later(s, s')
  {
    hide Step, Apply;
    if t, p', a :| Step(s, t, p', a) && s' == Apply(s, t, p', a) {
      StepLater(s, t, p', a);
    }
  }

  /**
   In every run each accepted task is popped at most once and in the order of acceptance, by one
   thread, which runs it once; and after shutdown nothing more is accepted.
   */
  lemma {:induction false} PoppedInOrder(trace: seq<State>, i: nat, j: nat)
    requires Run(trace) && i <= j < |trace|
    ensures trace[i].popped <= trace[j].popped <= trace[j].accepted
    ensures trace[j].popped + trace[j].tasks == trace[j].accepted
    ensures trace[i].down ==> trace[j].accepted == trace[i].accepted
    ensures forall t <- trace[j].pc :: Job(trace[j].pc[t]).Some? ==>
              var n := Job(trace[j].pc[t]).value;
              n < |trace[j].owner| && trace[j].owner[n] == t && n !in trace[j].ran
  {
    RunLater(trace, i, j);
    RunInv(trace, j);
  }

  /** Once the flush of shutdown has returned, the queue is empty, and stays so. */
  lemma {:induction false} EmptyForGood(trace: seq<State>, i: nat, j: nat)
    requires Run(trace) && i <= j < |trace| && trace[i].flushed
    ensures trace[j].tasks == [] && trace[j].popped == trace[j].accepted == trace[i].accepted
  {
    RunLater(trace, i, j);
    RunInv(trace, i);
    RunInv(trace, j);
  }

  /** No wake-up is lost: when every other thread is idle and the worker waits, everything accepted has run. */
  lemma {:induction false} NothingForgotten(trace: seq<State>, i: nat)
    requires Run(trace) && i < |trace|
    requires WORKER in trace[i].pc && trace[i].pc[WORKER] == Waiting
    requires forall t <- trace[i].pc :: t != WORKER ==> trace[i].pc[t] == Idle
    ensures trace[i].tasks == [] && trace[i].popped == trace[i].accepted
    ensures forall n | 0 <= n < |trace[i].accepted| :: n in trace[i].ran
  {
    RunInv(trace, i);
    var s := trace[i];
    forall n | 0 <= n < |s.accepted| ensures n in s.ran {
      assert s.owner[n] in s.pc;
    }
  }

  /**
   In every run the accepted tasks are exactly those whose addTask saw the queue running, in the
   order of the lock, but for one that is in flight; a task is turned away only when its check saw
   another state.
   */
  lemma {:induction false} AcceptedExactly(trace: seq<State>, i: nat, j: nat)
    requires Run(trace) && i <= j < |trace|
    ensures Wanted(trace[j].offers) == trace[j].accepted + InFlight(trace[j])
    ensures (forall t <- trace[j].pc :: !trace[j].pc[t].Admitted?) ==> Wanted(trace[j].offers) == trace[j].accepted
    ensures trace[i].offers <= trace[j].offers
  {
    RunInv(trace, j);
    RunLater(trace, i, j);
  }

  // ----- What a call gets done when it is let through -----

  /** `n` steps lead from `s` to `s'`. */
  ghost predicate Reaches(s: State, s': State, n: nat)
    decreases n
  {
    if n == 0 then s == s' else exists m :: Next(s, m) && Reaches(m, s', n - 1)
  }

  lemma Goes(s: State, m: State, s': State, n: nat)
    requires Next(s, m) && Reaches(m, s', n)
    ensures Reaches(s, s', n + 1)
  {
  }

  lemma {:induction false} GoesOn(s: State, m: State, s': State, n: nat, k: nat)
    requires Reaches(s, m, n) && Reaches(m, s', k)
    ensures Reaches(s, s', n + k)
    decreases n
  {
    if n > 0 {
      var x :| Next(s, x) && Reaches(x, m, n - 1);
      GoesOn(x, m, s', n - 1, k);
      Goes(s, x, s', n - 1 + k);
    }
  }

  lemma There(s: State)
    ensures Reaches(s, s, 0)
  {
  }

  lemma Takes(s: State, t: Tid, p': Pc, a: Act) returns (s': State)
    requires Step(s, t, p', a)
    ensures Next(s, s') && s' == Apply(s, t, p', a)
  {
    s' := Apply(s, t, p', a);
  }

  /** addTask, undisturbed and while the queue is running, queues its task and is to notify if it was empty. */
  lemma AddTaskRuns(s: State, t: Tid, task: Task) returns (s': State)
    requires t in s.pc && s.pc[t] == Idle && s.lock == None && s.state == Running
    ensures Reaches(s, s', 3)
    ensures s'.accepted == s.accepted + [task] && s'.tasks == s.tasks + [task] && s'.lock == None
    ensures s'.pc == s.pc[t := if s.tasks == [] then Notify else Idle]
  {
    hide Next, Reaches;
    var s1 := Takes(s, t, Adding(task), Does(Acquire, Nothing));
    var s2 := Takes(s1, t, Admitted(task), Does(Keep, Nothing));
    s' := Takes(s2, t, if s.tasks == [] then Notify else Idle, Does(Release, Push(task)));
    There(s');
    Goes(s2, s', s', 0);
    Goes(s1, s2, s', 1);
    Goes(s, s1, s', 2);
  }

  /** The worker, undisturbed, pops the oldest task and runs it. */
  lemma WorkerRuns(s: State) returns (s': State)
    requires WORKER in s.pc && s.pc[WORKER] == Check && s.lock == None && s.state != Terminated && s.tasks != []
    ensures Reaches(s, s', 5)
    ensures s'.popped == s.popped + [s.tasks[0]] && s'.tasks == s.tasks[1..] && s'.ran == s.ran + {|s.popped|}
    ensures s'.pc == s.pc && s'.lock == None
  {
    hide Next, Reaches;
    var n := |s.popped|;
    var s1 := Takes(s, WORKER, Enter, Does(Keep, Nothing));
    var s2 := Takes(s1, WORKER, Decide, Does(Acquire, Nothing));
    var s3 := Takes(s2, WORKER, Take, Does(Keep, Nothing));
    var s4 := Takes(s3, WORKER, RunTask(n), Does(Release, Pop));
    s' := Takes(s4, WORKER, Check, Does(Keep, Ran(n)));
    There(s');
    Goes(s4, s', s', 0);
    Goes(s3, s4, s', 1);
    Goes(s2, s3, s', 2);
    Goes(s1, s2, s', 3);
    Goes(s, s1, s', 4);
  }

  /** The worker goes to sleep on an empty queue, and a thread that is to notify wakes it. */
  lemma WorkerSleepsAndWakes(s: State, t: Tid) returns (asleep: State, awake: State)
    requires WORKER in s.pc && s.pc[WORKER] == Enter && s.lock == None && s.tasks == []
    requires t in s.pc && t != WORKER && s.pc[t] == Notify
    ensures Reaches(s, asleep, 2) && asleep.pc == s.pc[WORKER := Waiting] && asleep.lock == None
    ensures Reaches(asleep, awake, 1) && awake.pc == s.pc[WORKER := Woken][t := Idle] && awake.lock == None
  {
    hide Next, Reaches;
    var s1 := Takes(s, WORKER, Decide, Does(Acquire, Nothing));
    asleep := Takes(s1, WORKER, Waiting, Does(Release, Nothing));
    awake := Takes(asleep, t, Idle, Act(Keep, Nothing, true, Unmarked));
    There(asleep);
    Goes(s1, asleep, asleep, 0);
    Goes(s, s1, asleep, 1);
    There(awake);
    Goes(asleep, awake, awake, 0);
  }

  /** One turn of a flush, undisturbed, pops the oldest task and runs it. */
  lemma FlushRuns(s: State, t: Tid) returns (s': State)
    requires t in s.pc && s.pc[t].Flushing? && s.lock == Some(t) && s.tasks != []
    ensures Reaches(s, s', 3)
    ensures s'.popped == s.popped + [s.tasks[0]] && s'.tasks == s.tasks[1..] && s'.ran == s.ran + {|s.popped|}
    ensures s'.pc == s.pc && s'.lock == s.lock
  {
    hide Next, Reaches;
    var n, last := |s.popped|, s.pc[t].last;
    var s1 := Takes(s, t, FlushRun(n, last), Does(Release, Pop));
    var s2 := Takes(s1, t, Relock(last), Does(Keep, Ran(n)));
    s' := Takes(s2, t, Flushing(last), Does(Acquire, Nothing));
    There(s');
    Goes(s2, s', s', 0);
    Goes(s1, s2, s', 1);
    Goes(s, s1, s', 2);
  }

  /** A flush, undisturbed, runs every queued task in order and returns. */
  lemma {:induction false} FlushEmpties(s: State, t: Tid) returns (s': State)
    requires t in s.pc && s.pc[t] == Flushing(false) && s.lock == Some(t)
    ensures Reaches(s, s', 3 * |s.tasks| + 1)
    ensures s'.tasks == [] && s'.popped == s.popped + s.tasks && s'.lock == None && s'.pc == s.pc[t := Idle]
    ensures forall n | |s.popped| <= n < |s'.popped| :: n in s'.ran
    ensures s.ran <= s'.ran
    decreases |s.tasks|
  {
    hide Next, Reaches;
    if s.tasks == [] {
      s' := Takes(s, t, Idle, Does(Release, Nothing));
      There(s');
      Goes(s, s', s', 0);
    } else {
      var m := FlushRuns(s, t);
      s' := FlushEmpties(m, t);
      GoesOn(s, m, s', 3, 3 * |m.tasks| + 1);
      assert s.tasks == [s.tasks[0]] + s.tasks[1..];
    }
  }

  /** A shutdown, undisturbed, terminates the queue and comes to its flush. */
  lemma ShutdownRuns(s: State, t: Tid) returns (s': State)
    requires t in s.pc && s.pc[t] == Idle && s.lock == None
    ensures Reaches(s, s', 3)
    ensures s'.state == Terminated && s'.down && s'.tasks == s.tasks && s'.pc == s.pc[t := Flushing(true)]
    ensures s'.lock == Some(t)
  {
    hide Next, Reaches;
    var s1 := Takes(s, t, Shutting, Does(Acquire, Nothing));
    var s2 := Takes(s1, t, Relock(true), Act(Release, Nothing, false, Down));
    s' := Takes(s2, t, Flushing(true), Does(Acquire, Nothing));
    There(s');
    Goes(s2, s', s', 0);
    Goes(s1, s2, s', 1);
    Goes(s, s1, s', 2);
  }
}
