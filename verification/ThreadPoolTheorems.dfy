/** The promises of the pool, for every run, and the runs that show where they end. */
module ThreadPoolTheorems {
  import opened Common
  import opened ThreadPools
  import opened ThreadPoolSafety

  // ----- statuses -----

  /** BLOCKED never reaches the check at the top of the loop, so the "undefined status" error is never thrown. */
  lemma NeverUndefined(s: Pool, acts: seq<Action>, w: nat)
    requires Inv(s) && Run(s, acts).Some? && w < |Run(s, acts).value.workers|
    ensures var k := Run(s, acts).value.workers[w];
            !k.pc.Threw? && (k.pc.Top? ==> k.status != WBlocked) && (k.pc.Exited? <==> k.status == WTerminated)
  {
    RunInv(s, acts);
    assert WorkerOk(Run(s, acts).value.workers[w], Run(s, acts).value.owner == Some(w));
  }

  /** While nobody has the status lock to itself the pool is running, paused or terminated. */
  lemma SettledStatus(s: Pool, acts: seq<Action>)
    requires Inv(s) && Run(s, acts).Some? && Run(s, acts).value.control == NoControl
    ensures Run(s, acts).value.status in {Running, Paused, Terminated}
  {
    RunInv(s, acts);
  }

  lemma TerminatedStep(s: Pool, a: Action)
    requires Inv(s) && s.status == Terminated && Step(s, a).Some?
    ensures Step(s, a).value.status == Terminated && Step(s, a).value.accepted == s.accepted
    ensures |Step(s, a).value.workers| == |s.workers|
    ensures forall w :: 0 <= w < |s.workers| && s.workers[w].pc.Exited? ==> Step(s, a).value.workers[w] == s.workers[w]
  {
    if a.WorkerStep? {
      WorkerStepFrame(s, a.w);
    }
  }

  /** A terminated pool stays terminated, accepts nothing, and a worker that has left stays gone. */
  lemma {:induction false} TerminatedForever(s: Pool, acts: seq<Action>)
    requires Inv(s) && s.status == Terminated && Run(s, acts).Some?
    ensures Run(s, acts).value.status == Terminated && Run(s, acts).value.accepted == s.accepted
    ensures |Run(s, acts).value.workers| == |s.workers|
    ensures forall w :: 0 <= w < |s.workers| && s.workers[w].pc.Exited? ==> Run(s, acts).value.workers[w] == s.workers[w]
    decreases |acts|
  {
    if acts != [] {
      StepInv(s, acts[0]);
      TerminatedStep(s, acts[0]);
      TerminatedForever(Step(s, acts[0]).value, acts[1..]);
    }
  }

  // ----- pausing -----

  /** A worker stopped at its semaphore whose status is no longer PAUSED finds a permit there. */
  lemma NoLostResume(s: Pool, acts: seq<Action>, w: nat)
    requires Inv(s) && Run(s, acts).Some? && w < |Run(s, acts).value.workers|
    requires AtSem(Run(s, acts).value.workers[w].pc) && Run(s, acts).value.workers[w].status != WPaused
    ensures Step(Run(s, acts).value, WorkerStep(w)).Some?
  {
    RunInv(s, acts);
    assert WorkerOk(Run(s, acts).value.workers[w], Run(s, acts).value.owner == Some(w));
  }

  /** However many permits are left over, a paused worker that is not past its check does not get past it. */
  lemma StalePermitsDoNotPass(s: Pool, w: nat)
    requires WorkersOk(s) && w < |s.workers| && s.workers[w].status == WPaused && Credit(s.workers[w].pc) == 0
    requires StepWorker(s, w).Some?
    ensures var t := StepWorker(s, w).value;
            Credit(t.workers[w].pc) == 0 && t.taken == s.taken && t.workers[w].status == WPaused
  {
    WorkerStepFrame(s, w);
    assert Held(s.workers[w]);
  }

  /** After `pause` has returned, and until another lifecycle call changes it, a worker takes at most one more task
      and all of them together at most one each. */
  lemma PauseBound(s: Pool, acts: seq<Action>)
    requires Inv(s) && Run(s, acts).Some?
    requires Run(s, acts).value.status == Paused && Run(s, acts).value.control == NoControl
    ensures var t := Run(s, acts).value;
            && |t.taken| <= t.mark + |t.workers|
            && forall w :: 0 <= w < |t.workers| ==> t.workers[w].pops <= 1
  {
    RunInv(s, acts);
    var t := Run(s, acts).value;
    forall w | 0 <= w < |t.workers| ensures t.workers[w].pops <= 1 {
      assert WorkerOk(t.workers[w], t.owner == Some(w)) && Held(t.workers[w]);
    }
  }

  // ----- tasks -----

  /** Tasks are taken in the order of acceptance, none twice and none that was not accepted. */
  lemma TakenInOrder(s: Pool, acts: seq<Action>)
    requires Inv(s) && Run(s, acts).Some?
    ensures Run(s, acts).value.taken <= Run(s, acts).value.accepted
  {
    RunInv(s, acts);
  }

  /** With S clients the queue and the submitters past the check never exceed max - 1 + S. */
  lemma {:induction false} Overshoot(s: Pool, acts: seq<Action>)
    requires Inv(s) && Run(s, acts).Some? && s.max > 0
    ensures var t := Run(s, acts).value; |t.queue| + PassedCount(t.clients) <= s.max - 1 + |s.clients|
    decreases |acts|
  {
    if acts != [] {
      StepInv(s, acts[0]);
      SameShape(s, acts[0]);
      Overshoot(Step(s, acts[0]).value, acts[1..]);
    }
  }

  lemma SameShape(s: Pool, a: Action)
    requires WorkersOk(s) && Step(s, a).Some?
    ensures Step(s, a).value.max == s.max && |Step(s, a).value.clients| == |s.clients|
    ensures s.sealed.Some? && Inv(s) ==> Step(s, a).value.sealed == s.sealed
  {
    if a.WorkerStep? {
      WorkerStepFrame(s, a.w);
    }
  }

  /** Once SHUTDOWN was set nothing more is accepted, whatever runs. */
  lemma {:induction false} NothingAfterShutdown(s: Pool, acts: seq<Action>)
    requires Inv(s) && s.sealed.Some? && Run(s, acts).Some?
    ensures Run(s, acts).value.sealed == s.sealed && Run(s, acts).value.accepted == s.accepted == s.sealed.value
    decreases |acts|
  {
    if acts != [] {
      StepInv(s, acts[0]);
      SameShape(s, acts[0]);
      NothingAfterShutdown(Step(s, acts[0]).value, acts[1..]);
    }
  }

  /** When `shutdown` has reached TERMINATED every accepted task has been taken, exactly once and in order. */
  lemma GracefulShutdown(s: Pool, acts: seq<Action>)
    requires Inv(s) && Run(s, acts).Some?
    requires Run(s, acts).value.sealed.Some? && Run(s, acts).value.status == Terminated
    ensures Run(s, acts).value.queue == [] && Run(s, acts).value.taken == Run(s, acts).value.accepted == Run(s, acts).value.sealed.value
  {
    RunInv(s, acts);
  }

  // ----- wake-ups -----

  /** Tasks wait while every worker is asleep, unnotified, and nobody is about to notify one. */
  ghost predicate Stuck(s: Pool) {
    && s.status == Running && s.control == NoControl && s.queue != [] && s.workers != []
    && (forall w :: 0 <= w < |s.workers| ==> s.workers[w].pc == Sleeping(false))
    && forall c :: 0 <= c < |s.clients| ==> s.clients[c] == Idle
  }

  /** No `pause` has touched the pool, and no `remove_thread` is under way. */
  ghost predicate Unpaused(s: Pool) {
    && s.removal == NoRemoval && s.status != Paused && !s.control.Pausing? && !s.control.Resuming?
    && forall w :: 0 <= w < |s.workers| ==> NeverPaused(s.workers[w])
  }

  predicate NeverPaused(k: Worker) {
    k.status != WPaused && k.pc !in {TopSem, BeforeSem, BeforeLock, AfterSem, AfterLock}
  }

  predicate Awake(k: Worker) {
    k.pc != Sleeping(false) && !k.pc.Exited?
  }

  /** Whoever is about to wait saw the queue empty under the lock it still has, and a task in the queue of a running
      pool has an awake worker or a submitter about to wake one. */
  ghost predicate WakeOk(s: Pool) {
    && (forall w :: 0 <= w < |s.workers| && (s.workers[w].pc.Before? || s.workers[w].pc.Waiting?) ==> s.queue == [])
    && (s.queue != [] && s.workers != [] && s.status in {Running, Shutdown} ==>
          (exists w :: 0 <= w < |s.workers| && Awake(s.workers[w])) || exists c :: 0 <= c < |s.clients| && s.clients[c].Notifying?)
  }

  predicate NoPause(acts: seq<Action>) {
    forall i :: 0 <= i < |acts| ==> acts[i] != Begin(PauseCall) && !acts[i].RemoveThread?
  }

  /** A worker's step: it is awake afterwards, unless it waits, and then the queue is empty. */
  lemma WakeWorkerStep(s: Pool, w: nat)
    requires Inv(s) && Unpaused(s) && WakeOk(s) && w < |s.workers| && StepWorker(s, w).Some?
    ensures Unpaused(StepWorker(s, w).value) && WakeOk(StepWorker(s, w).value)
  {
    var t := StepWorker(s, w).value;
    WorkerStepFrame(s, w);
    assert NeverPaused(s.workers[w]);
    assert NeverPaused(t.workers[w]);
    assert forall v :: 0 <= v < |t.workers| && v != w ==> t.workers[v] == s.workers[v];
    if t.queue != [] && s.status in {Running, Shutdown} {
      assert Live(s.workers[w]) && WorkerOk(s.workers[w], s.owner == Some(w));
      assert Awake(t.workers[w]);
    }
  }

  lemma WakeClientStep(s: Pool, a: Action)
    requires Inv(s) && Unpaused(s) && WakeOk(s) && Step(s, a).Some?
    requires a.SubmitEnter? || a.SubmitCheck? || a.WaitEnter? || a.WaitLeave?
    ensures Unpaused(Step(s, a).value) && WakeOk(Step(s, a).value)
  {
    var t := Step(s, a).value;
    assert forall c :: 0 <= c < |s.clients| && s.clients[c].Notifying? ==> t.clients[c] == s.clients[c];
  }

  lemma WakePushStep(s: Pool, c: nat)
    requires Inv(s) && Unpaused(s) && WakeOk(s) && c < |s.clients| && s.clients[c].Passed? && QueueFree(s)
    ensures Unpaused(Push(s, c)) && WakeOk(Push(s, c))
  {
    forall w | 0 <= w < |s.workers| ensures !s.workers[w].pc.Before? && !s.workers[w].pc.Waiting? {
      assert WorkerOk(s.workers[w], s.owner == Some(w));
    }
    assert Push(s, c).clients[c].Notifying?;
  }

  lemma WakeNotifyStep(s: Pool, c: nat, w: nat)
    requires Inv(s) && Unpaused(s) && WakeOk(s) && c < |s.clients| && s.clients[c].Notifying? && NotifyOne(s, c, w).Some?
    ensures Unpaused(NotifyOne(s, c, w).value) && WakeOk(NotifyOne(s, c, w).value)
  {
    var t := NotifyOne(s, c, w).value;
    if w < |s.workers| && s.workers[w].pc == Sleeping(false) {
      assert NeverPaused(s.workers[w]);
      assert Awake(t.workers[w]);
    } else if s.queue != [] && s.workers != [] && s.status in {Running, Shutdown} {
      assert Live(s.workers[0]) && WorkerOk(s.workers[0], s.owner == Some(0));
      assert Awake(t.workers[0]);
    }
  }

  lemma WakeControlStep(s: Pool)
    requires Inv(s) && Unpaused(s) && WakeOk(s) && StepControl(s).Some?
    ensures Unpaused(StepControl(s).value) && WakeOk(StepControl(s).value)
  {
    var t := StepControl(s).value;
    assert |t.workers| == |s.workers| && t.queue == s.queue;
    forall w | 0 <= w < |s.workers|
      ensures NeverPaused(t.workers[w]) && (t.workers[w].pc.Before? ==> s.workers[w].pc.Before?)
              && (t.workers[w].pc.Waiting? ==> s.workers[w].pc.Waiting?)
    {
      assert NeverPaused(s.workers[w]);
    }
  }

  lemma WakeStep(s: Pool, a: Action)
    requires Inv(s) && Unpaused(s) && WakeOk(s) && a != Begin(PauseCall) && !a.RemoveThread? && Step(s, a).Some?
    ensures Unpaused(Step(s, a).value) && WakeOk(Step(s, a).value)
  {
    match a
    case WorkerStep(w) => WakeWorkerStep(s, w);
    case SubmitPush(c) => WakePushStep(s, c);
    case SubmitNotify(c, w) => WakeNotifyStep(s, c, w);
    case AddThread =>
      if s.status == Running || s.status == Shutdown {
        assert Awake(Step(s, a).value.workers[|s.workers|]);
      }
    case Begin(call) =>
    case RemoveStep =>
    case ControlStep => WakeControlStep(s);
    case _ => WakeClientStep(s, a);
  }

  /** As long as nobody calls `pause` or `remove_thread` no wake-up is lost: no run leaves a task waiting for workers that all sleep. */
  lemma {:induction false} NoLostWakeup(s: Pool, acts: seq<Action>)
    requires Inv(s) && Unpaused(s) && WakeOk(s) && NoPause(acts) && Run(s, acts).Some?
    ensures !Stuck(Run(s, acts).value)
    decreases |acts|
  {
    if acts != [] {
      StepInv(s, acts[0]);
      WakeStep(s, acts[0]);
      NoLostWakeup(Step(s, acts[0]).value, acts[1..]);
    }
  }

  lemma NewPoolWakes(workers: nat, clients: nat, max: nat)
    ensures Unpaused(NewPool(workers, clients, max)) && WakeOk(NewPool(workers, clients, max))
  {
  }

  // ----- runs that show where the promises end -----

  lemma {:induction false} RunThen(s: Pool, acts: seq<Action>, a: Action)
    requires Run(s, acts).Some?
    ensures Run(s, acts + [a]) == Step(Run(s, acts).value, a)
    decreases |acts|
  {
    if acts == [] {
      assert [a][1..] == [];
      assert acts + [a] == [a];
      var t := Step(s, a);
      assert t.Some? ==> Run(t.value, []) == t;
    } else {
      assert (acts + [a])[1..] == acts[1..] + [a];
      RunThen(Step(s, acts[0]).value, acts[1..], a);
    }
  }

  lemma {:induction false} RunAppend(s: Pool, first: seq<Action>, second: seq<Action>)
    requires Run(s, first).Some?
    ensures Run(s, first + second) == Run(Run(s, first).value, second)
    decreases |second|
  {
    if second == [] {
      assert first + second == first;
    } else {
      assert first + second == (first + [second[0]]) + second[1..];
      RunThen(s, first, second[0]);
      if Step(Run(s, first).value, second[0]).Some? {
        RunAppend(s, first + [second[0]], second[1..]);
      } else {
        RunFails(s, first + [second[0]], second[1..]);
      }
    }
  }

  lemma {:induction false} RunFails(s: Pool, first: seq<Action>, second: seq<Action>)
    requires Run(s, first).None?
    ensures Run(s, first + second).None?
    decreases |first|
  {
    assert (first + second)[1..] == first[1..] + second;
    if Step(s, first[0]).Some? {
      RunFails(Step(s, first[0]).value, first[1..], second);
    }
  }

  const W0: Action := WorkerStep(0)

  /** A pool of one worker and one client. */
  function One(status: PoolStatus, k: Worker, client: Client, control: Control, owner: Option<nat>, max: nat, tasks: seq<nat>): Pool {
    Pool(status, [k], [client], control, NoRemoval, owner, tasks, max, tasks, [], None, 0)
  }

  /** `path` are the states a run goes through. */
  ghost predicate Path(path: seq<Pool>, acts: seq<Action>) {
    |path| == |acts| + 1 && forall i :: 0 <= i < |acts| ==> Step(path[i], acts[i]) == Some(path[i + 1])
  }

  lemma {:induction false} PathRuns(path: seq<Pool>, acts: seq<Action>)
    requires Path(path, acts)
    ensures Run(path[0], acts) == Some(path[|acts|])
    decreases |acts|
  {
    if acts != [] {
      assert Step(path[0], acts[0]) == Some(path[1]);
      PathRuns(path[1..], acts[1..]);
    }
  }

  /** With `pause` the wake-up can be lost: the worker looks into the empty queue, is paused before it waits, and
      after it was resumed it waits without looking again, although a task has come meanwhile. */
  lemma WakeupLostByPause(max: nat, task: nat) returns (acts: seq<Action>)
    ensures Run(NewPool(1, 1, max), acts).Some? && Stuck(Run(NewPool(1, 1, max), acts).value)
  {
    var s0 := NewPool(1, 1, max);
    var look := LooksIntoTheQueue(max);
    var pause := PausedBeforeWaiting(max);
    RunAppend(s0, look, pause);
    var resume := ResumedBeforeWaiting(max);
    RunAppend(s0, look + pause, resume);
    var submit := WaitsAgain(max, task);
    RunAppend(s0, look + pause + resume, submit);
    acts := look + pause + resume + submit;
  }

  const LOOKED: Worker := Worker(WRunning, Before, 0, 0)
  const HELD: Worker := Worker(WPaused, BeforeSem, 0, 0)
  const RELEASED: Worker := Worker(WRunning, BeforeLock, 0, 0)

  lemma Swapped(s: Pool, t: Pool)
    requires |s.workers| == |t.workers| == |s.clients| == |t.clients| == 1
    ensures s.workers[0 := t.workers[0]] == t.workers && s.clients[0 := t.clients[0]] == t.clients
  {
  }

  lemma LooksIntoTheQueue(max: nat) returns (acts: seq<Action>)
    ensures Run(NewPool(1, 1, max), acts) == Some(One(Running, LOOKED, Idle, NoControl, Some(0), max, []))
  {
    var s0 := One(Running, NEW_WORKER, Idle, NoControl, None, max, []);
    assert s0 == NewPool(1, 1, max);
    var s1 := One(Running, Worker(WRunning, LockQueue, 0, 0), Idle, NoControl, None, max, []);
    Swapped(s0, s1);
    assert Step(s0, W0) == Some(s1);
    var s2 := One(Running, Worker(WRunning, Empty, 0, 0), Idle, NoControl, Some(0), max, []);
    Swapped(s1, s2);
    assert Step(s1, W0) == Some(s2);
    var s3 := One(Running, LOOKED, Idle, NoControl, Some(0), max, []);
    Swapped(s2, s3);
    assert Step(s2, W0) == Some(s3);
    acts := [W0, W0, W0];
    PathRuns([s0, s1, s2, s3], acts);
  }

  lemma PausedBeforeWaiting(max: nat) returns (acts: seq<Action>)
    ensures Run(One(Running, LOOKED, Idle, NoControl, Some(0), max, []), acts)
            == Some(One(Paused, HELD, Idle, NoControl, None, max, []))
  {
    var s0 := One(Running, LOOKED, Idle, NoControl, Some(0), max, []);
    var s1 := One(Paused, LOOKED, Idle, Pausing(0), Some(0), max, []);
    Swapped(s0, s1);
    assert Step(s0, Begin(PauseCall)) == Some(s1);
    var s2 := One(Paused, Worker(WPaused, Before, 0, 0), Idle, Pausing(1), Some(0), max, []);
    Swapped(s1, s2);
    assert Step(s1, ControlStep) == Some(s2);
    var s3 := One(Paused, Worker(WPaused, Before, 0, 0), Idle, NoControl, Some(0), max, []);
    Swapped(s2, s3);
    assert Step(s2, ControlStep) == Some(s3);
    var s4 := One(Paused, HELD, Idle, NoControl, None, max, []);
    Swapped(s3, s4);
    assert Step(s3, W0) == Some(s4);
    acts := [Begin(PauseCall), ControlStep, ControlStep, W0];
    PathRuns([s0, s1, s2, s3, s4], acts);
  }

  lemma ResumedBeforeWaiting(max: nat) returns (acts: seq<Action>)
    ensures Run(One(Paused, HELD, Idle, NoControl, None, max, []), acts)
            == Some(One(Running, RELEASED, Idle, NoControl, None, max, []))
  {
    var s0 := One(Paused, HELD, Idle, NoControl, None, max, []);
    var s1 := One(Running, HELD, Idle, Resuming(0, false), None, max, []);
    Swapped(s0, s1);
    assert Step(s0, Begin(ResumeCall)) == Some(s1);
    var s2 := One(Running, Worker(WRunning, BeforeSem, 1, 0), Idle, Resuming(1, false), None, max, []);
    Swapped(s1, s2);
    assert Step(s1, ControlStep) == Some(s2);
    var s3 := One(Running, Worker(WRunning, BeforeSem, 1, 0), Idle, NoControl, None, max, []);
    Swapped(s2, s3);
    assert Step(s2, ControlStep) == Some(s3);
    var s4 := One(Running, RELEASED, Idle, NoControl, None, max, []);
    Swapped(s3, s4);
    assert Step(s3, W0) == Some(s4);
    acts := [Begin(ResumeCall), ControlStep, ControlStep, W0];
    PathRuns([s0, s1, s2, s3, s4], acts);
  }

  lemma WaitsAgain(max: nat, task: nat) returns (acts: seq<Action>)
    ensures Run(One(Running, RELEASED, Idle, NoControl, None, max, []), acts)
            == Some(One(Running, Worker(WBlocked, Sleeping(false), 0, 0), Idle, NoControl, None, max, [task]))
  {
    var s0 := One(Running, RELEASED, Idle, NoControl, None, max, []);
    var s1 := One(Running, RELEASED, Entered(task), NoControl, None, max, []);
    Swapped(s0, s1);
    assert Step(s0, SubmitEnter(0, task)) == Some(s1);
    var s2 := One(Running, RELEASED, Passed(task), NoControl, None, max, []);
    Swapped(s1, s2);
    assert Step(s1, SubmitCheck(0)) == Some(s2);
    var s3 := One(Running, RELEASED, Notifying, NoControl, None, max, [task]);
    Swapped(s2, s3);
    assert [] + [task] == [task];
    assert Step(s2, SubmitPush(0)) == Some(s3);
    var s4 := One(Running, RELEASED, Idle, NoControl, None, max, [task]);
    Swapped(s3, s4);
    assert Step(s3, SubmitNotify(0, 0)) == Some(s4);
    var s5 := One(Running, LOOKED, Idle, NoControl, Some(0), max, [task]);
    Swapped(s4, s5);
    assert Step(s4, W0) == Some(s5);
    var s6 := One(Running, Worker(WBlocked, Waiting, 0, 0), Idle, NoControl, Some(0), max, [task]);
    Swapped(s5, s6);
    assert Step(s5, W0) == Some(s6);
    var s7 := One(Running, Worker(WBlocked, Sleeping(false), 0, 0), Idle, NoControl, None, max, [task]);
    Swapped(s6, s7);
    assert Step(s6, W0) == Some(s7);
    acts := [SubmitEnter(0, task), SubmitCheck(0), SubmitPush(0), SubmitNotify(0, 0), W0, W0, W0];
    PathRuns([s0, s1, s2, s3, s4, s5, s6, s7], acts);
  }

  const W1: Action := WorkerStep(1)
  const ASLEEP: Worker := Worker(WBlocked, Sleeping(false), 0, 0)

  /** A running pool of two workers and one client. */
  function Two(k0: Worker, k1: Worker, client: Client, removal: Removal, owner: Option<nat>, max: nat, tasks: seq<nat>): Pool {
    Pool(Running, [k0, k1], [client], NoControl, removal, owner, tasks, max, tasks, [], None, 0)
  }

  lemma SwappedTwo(s: Pool, t: Pool)
    requires |s.workers| == |t.workers| == 2 && |s.clients| == |t.clients| == 1
    ensures s.workers[1] == t.workers[1] ==> s.workers[0 := t.workers[0]] == t.workers
    ensures s.workers[0] == t.workers[0] ==> s.workers[1 := t.workers[1]] == t.workers
    ensures s.clients[0 := t.clients[0]] == t.clients
    ensures t.workers == [Notified(s.workers[0]), Notified(s.workers[1])] ==> NotifyAll(s.workers) == t.workers
  {
  }

  /** So can `remove_thread`: it notifies everybody while the worker to be removed is just about to wait. That worker
      sleeps on, is the one that is woken for the next task, and leaves without taking it. */
  lemma WakeupLostByRemoval(max: nat, task: nat) returns (acts: seq<Action>)
    ensures Run(NewPool(2, 1, max), acts).Some? && Stuck(Run(NewPool(2, 1, max), acts).value)
  {
    var s0 := NewPool(2, 1, max);
    assert s0 == Two(NEW_WORKER, NEW_WORKER, Idle, NoRemoval, None, max, []);
    var first := OneSleeps(max);
    var second := OtherAboutToWait(max);
    RunAppend(s0, first, second);
    var third := NotifiedTooEarly(max);
    RunAppend(s0, first + second, third);
    var fourth := SleepsAgain(max);
    RunAppend(s0, first + second + third, fourth);
    var fifth := WrongWorkerWoken(max, task);
    RunAppend(s0, first + second + third + fourth, fifth);
    var before := first + second + third + fourth + fifth;
    JoinsAndSticks(max, task);
    RunAppend(s0, before, [RemoveStep]);
    acts := before + [RemoveStep];
  }

  const GONE: Worker := Worker(WTerminated, Exited, 0, 0)

  /** The removed worker has left, `remove_thread` ends, and the other worker sleeps on. */
  lemma JoinsAndSticks(max: nat, task: nat)
    ensures Run(Two(ASLEEP, GONE, Idle, Joining(1), None, max, [task]), [RemoveStep])
            == Some(One(Running, ASLEEP, Idle, NoControl, None, max, [task]))
    ensures Stuck(One(Running, ASLEEP, Idle, NoControl, None, max, [task]))
  {
    var s, t := Two(ASLEEP, GONE, Idle, Joining(1), None, max, [task]), One(Running, ASLEEP, Idle, NoControl, None, max, [task]);
    assert s.workers[..1] == t.workers;
    assert Step(s, RemoveStep) == Some(t);
    PathRuns([s, t], [RemoveStep]);
  }

  lemma OneSleeps(max: nat) returns (acts: seq<Action>)
    ensures Run(Two(NEW_WORKER, NEW_WORKER, Idle, NoRemoval, None, max, []), acts)
            == Some(Two(ASLEEP, NEW_WORKER, Idle, NoRemoval, None, max, []))
  {
    var s0 := Two(NEW_WORKER, NEW_WORKER, Idle, NoRemoval, None, max, []);
    var s1 := Two(Worker(WRunning, LockQueue, 0, 0), NEW_WORKER, Idle, NoRemoval, None, max, []);
    SwappedTwo(s0, s1);
    assert Step(s0, W0) == Some(s1);
    var s2 := Two(Worker(WRunning, Empty, 0, 0), NEW_WORKER, Idle, NoRemoval, Some(0), max, []);
    SwappedTwo(s1, s2);
    assert Step(s1, W0) == Some(s2);
    var s3 := Two(Worker(WRunning, Before, 0, 0), NEW_WORKER, Idle, NoRemoval, Some(0), max, []);
    SwappedTwo(s2, s3);
    assert Step(s2, W0) == Some(s3);
    var s4 := Two(Worker(WBlocked, Waiting, 0, 0), NEW_WORKER, Idle, NoRemoval, Some(0), max, []);
    SwappedTwo(s3, s4);
    assert Step(s3, W0) == Some(s4);
    var s5 := Two(ASLEEP, NEW_WORKER, Idle, NoRemoval, None, max, []);
    SwappedTwo(s4, s5);
    assert Step(s4, W0) == Some(s5);
    acts := [W0, W0, W0, W0, W0];
    PathRuns([s0, s1, s2, s3, s4, s5], acts);
  }

  lemma OtherAboutToWait(max: nat) returns (acts: seq<Action>)
    ensures Run(Two(ASLEEP, NEW_WORKER, Idle, NoRemoval, None, max, []), acts)
            == Some(Two(ASLEEP, Worker(WBlocked, Waiting, 0, 0), Idle, NoRemoval, Some(1), max, []))
  {
    var s0 := Two(ASLEEP, NEW_WORKER, Idle, NoRemoval, None, max, []);
    var s1 := Two(ASLEEP, Worker(WRunning, LockQueue, 0, 0), Idle, NoRemoval, None, max, []);
    SwappedTwo(s0, s1);
    assert Step(s0, W1) == Some(s1);
    var s2 := Two(ASLEEP, Worker(WRunning, Empty, 0, 0), Idle, NoRemoval, Some(1), max, []);
    SwappedTwo(s1, s2);
    assert Step(s1, W1) == Some(s2);
    var s3 := Two(ASLEEP, Worker(WRunning, Before, 0, 0), Idle, NoRemoval, Some(1), max, []);
    SwappedTwo(s2, s3);
    assert Step(s2, W1) == Some(s3);
    var s4 := Two(ASLEEP, Worker(WBlocked, Waiting, 0, 0), Idle, NoRemoval, Some(1), max, []);
    SwappedTwo(s3, s4);
    assert Step(s3, W1) == Some(s4);
    acts := [W1, W1, W1, W1];
    PathRuns([s0, s1, s2, s3, s4], acts);
  }

  lemma NotifiedTooEarly(max: nat) returns (acts: seq<Action>)
    ensures Run(Two(ASLEEP, Worker(WBlocked, Waiting, 0, 0), Idle, NoRemoval, Some(1), max, []), acts)
            == Some(Two(Worker(WBlocked, Sleeping(true), 0, 0), Worker(WTerminating, Sleeping(false), 0, 0), Idle, Joining(1), None, max, []))
  {
    var s0 := Two(ASLEEP, Worker(WBlocked, Waiting, 0, 0), Idle, NoRemoval, Some(1), max, []);
    var s1 := Two(ASLEEP, Worker(WBlocked, Waiting, 0, 0), Idle, Removing(1, 2), Some(1), max, []);
    SwappedTwo(s0, s1);
    assert Step(s0, RemoveThread(1)) == Some(s1);
    var s2 := Two(ASLEEP, Worker(WTerminating, Waiting, 0, 0), Idle, Removing(1, 1), Some(1), max, []);
    SwappedTwo(s1, s2);
    assert Step(s1, RemoveStep) == Some(s2);
    var s3 := Two(Worker(WBlocked, Sleeping(true), 0, 0), Worker(WTerminating, Waiting, 0, 0), Idle, Joining(1), Some(1), max, []);
    SwappedTwo(s2, s3);
    assert Step(s2, RemoveStep) == Some(s3);
    var s4 := Two(Worker(WBlocked, Sleeping(true), 0, 0), Worker(WTerminating, Sleeping(false), 0, 0), Idle, Joining(1), None, max, []);
    SwappedTwo(s3, s4);
    assert Step(s3, W1) == Some(s4);
    acts := [RemoveThread(1), RemoveStep, RemoveStep, W1];
    PathRuns([s0, s1, s2, s3, s4], acts);
  }

  lemma SleepsAgain(max: nat) returns (acts: seq<Action>)
    ensures Run(Two(Worker(WBlocked, Sleeping(true), 0, 0), Worker(WTerminating, Sleeping(false), 0, 0), Idle, Joining(1), None, max, []), acts)
            == Some(Two(ASLEEP, Worker(WTerminating, Sleeping(false), 0, 0), Idle, Joining(1), None, max, []))
  {
    var s0 := Two(Worker(WBlocked, Sleeping(true), 0, 0), Worker(WTerminating, Sleeping(false), 0, 0), Idle, Joining(1), None, max, []);
    var s1 := Two(Worker(WBlocked, After, 0, 0), Worker(WTerminating, Sleeping(false), 0, 0), Idle, Joining(1), Some(0), max, []);
    SwappedTwo(s0, s1);
    assert Step(s0, W0) == Some(s1);
    var s2 := Two(Worker(WRunning, Empty, 0, 0), Worker(WTerminating, Sleeping(false), 0, 0), Idle, Joining(1), Some(0), max, []);
    SwappedTwo(s1, s2);
    assert Step(s1, W0) == Some(s2);
    var s3 := Two(Worker(WRunning, Before, 0, 0), Worker(WTerminating, Sleeping(false), 0, 0), Idle, Joining(1), Some(0), max, []);
    SwappedTwo(s2, s3);
    assert Step(s2, W0) == Some(s3);
    var s4 := Two(Worker(WBlocked, Waiting, 0, 0), Worker(WTerminating, Sleeping(false), 0, 0), Idle, Joining(1), Some(0), max, []);
    SwappedTwo(s3, s4);
    assert Step(s3, W0) == Some(s4);
    var s5 := Two(ASLEEP, Worker(WTerminating, Sleeping(false), 0, 0), Idle, Joining(1), None, max, []);
    SwappedTwo(s4, s5);
    assert Step(s4, W0) == Some(s5);
    acts := [W0, W0, W0, W0, W0];
    PathRuns([s0, s1, s2, s3, s4, s5], acts);
  }

  lemma WrongWorkerWoken(max: nat, task: nat) returns (acts: seq<Action>)
    ensures Run(Two(ASLEEP, Worker(WTerminating, Sleeping(false), 0, 0), Idle, Joining(1), None, max, []), acts)
            == Some(Two(ASLEEP, GONE, Idle, Joining(1), None, max, [task]))
  {
    var s0 := Two(ASLEEP, Worker(WTerminating, Sleeping(false), 0, 0), Idle, Joining(1), None, max, []);
    var s1 := Two(ASLEEP, Worker(WTerminating, Sleeping(false), 0, 0), Entered(task), Joining(1), None, max, []);
    SwappedTwo(s0, s1);
    assert Step(s0, SubmitEnter(0, task)) == Some(s1);
    var s2 := Two(ASLEEP, Worker(WTerminating, Sleeping(false), 0, 0), Passed(task), Joining(1), None, max, []);
    SwappedTwo(s1, s2);
    assert Step(s1, SubmitCheck(0)) == Some(s2);
    var s3 := Two(ASLEEP, Worker(WTerminating, Sleeping(false), 0, 0), Notifying, Joining(1), None, max, [task]);
    SwappedTwo(s2, s3);
    assert [] + [task] == [task];
    assert Step(s2, SubmitPush(0)) == Some(s3);
    var s4 := Two(ASLEEP, Worker(WTerminating, Sleeping(true), 0, 0), Idle, Joining(1), None, max, [task]);
    SwappedTwo(s3, s4);
    assert Step(s3, SubmitNotify(0, 1)) == Some(s4);
    var s5 := Two(ASLEEP, Worker(WTerminating, After, 0, 0), Idle, Joining(1), Some(1), max, [task]);
    SwappedTwo(s4, s5);
    assert Step(s4, W1) == Some(s5);
    var s6 := Two(ASLEEP, GONE, Idle, Joining(1), None, max, [task]);
    SwappedTwo(s5, s6);
    assert Step(s5, W1) == Some(s6);
    acts := [SubmitEnter(0, task), SubmitCheck(0), SubmitPush(0), SubmitNotify(0, 1), W1, W1];
    PathRuns([s0, s1, s2, s3, s4, s5, s6], acts);
  }

  // ----- waiting for a paused pool -----

  /** A client waits for an empty queue, in a paused pool with more tasks than workers that may still take one. */
  ghost predicate WaitsInVain(s: Pool) {
    && s.status == Paused && s.control == NoControl && |s.queue| > Credits(s.workers)
    && exists c :: 0 <= c < |s.clients| && s.clients[c].AwaitingEmpty?
  }

  lemma PausedWorkerStep(s: Pool, w: nat)
    requires Inv(s) && s.status == Paused && s.control == NoControl && w < |s.workers| && StepWorker(s, w).Some?
    ensures |StepWorker(s, w).value.queue| - Credits(StepWorker(s, w).value.workers) >= |s.queue| - Credits(s.workers)
  {
    var t := StepWorker(s, w).value;
    WorkerStepFrame(s, w);
    assert Held(s.workers[w]);
    CreditsSet(s.workers, w, t.workers[w]);
  }

  lemma VainStep(s: Pool, a: Action)
    requires Inv(s) && WaitsInVain(s) && Step(s, a).Some?
    ensures WaitsInVain(Step(s, a).value)
  {
    var c :| 0 <= c < |s.clients| && s.clients[c].AwaitingEmpty?;
    var t := Step(s, a).value;
    if a.WorkerStep? {
      WorkerStepFrame(s, a.w);
      PausedWorkerStep(s, a.w);
    } else if a.SubmitNotify? {
      NotifyKeepsCredits(s, a.c, a.woken);
    }
    assert t.clients[c].AwaitingEmpty?;
  }

  lemma NotifyKeepsCredits(s: Pool, c: nat, w: nat)
    requires c < |s.clients| && NotifyOne(s, c, w).Some?
    ensures Credits(NotifyOne(s, c, w).value.workers) == Credits(s.workers)
  {
    if w < |s.workers| && s.workers[w].pc == Sleeping(false) {
      CreditsSet(s.workers, w, Notified(s.workers[w]));
    }
  }

  /** `wait` holds the pool's status lock shared while it waits, so then neither `resume` nor any other lifecycle call
      can begin, and the pool is paused for ever. */
  lemma {:induction false} WaitsForever(s: Pool, acts: seq<Action>)
    requires Inv(s) && WaitsInVain(s) && Run(s, acts).Some?
    ensures WaitsInVain(Run(s, acts).value)
    ensures forall call :: Step(Run(s, acts).value, Begin(call)) == None
    decreases |acts|
  {
    if acts != [] {
      VainStep(s, acts[0]);
      StepInv(s, acts[0]);
      WaitsForever(Step(s, acts[0]).value, acts[1..]);
    }
  }

  /** The pool is paused, and the workers that may still take a task are enough for the queue. */
  ghost predicate Draining(s: Pool) {
    Inv(s) && s.status == Paused && s.control == NoControl && |s.queue| <= Credits(s.workers)
  }

  lemma DrainingStep(s: Pool, w: nat)
    requires Draining(s) && w < |s.workers| && StepWorker(s, w).Some?
    ensures Draining(StepWorker(s, w).value)
    ensures |StepWorker(s, w).value.queue| <= |s.queue| && StepWorker(s, w).value.clients == s.clients
  {
    var t := StepWorker(s, w).value;
    WorkerStepInv(s, w);
    WorkerStepFrame(s, w);
    assert Held(s.workers[w]);
    CreditsSet(s.workers, w, t.workers[w]);
    KeepsPace(s, w);
  }

  /** A paused worker gives up its credit only for a task, or when there is none. */
  lemma KeepsPace(s: Pool, w: nat)
    requires WorkersOk(s) && w < |s.workers| && s.workers[w].status == WPaused && StepWorker(s, w).Some?
    ensures var t := StepWorker(s, w).value;
            t.queue == [] || |t.queue| - Credit(t.workers[w].pc) <= |s.queue| - Credit(s.workers[w].pc)
  {
  }

  /** The worker that has the queue lock gives it back. */
  lemma {:induction false} FreesLock(s: Pool) returns (acts: seq<Action>)
    requires Draining(s)
    ensures Run(s, acts).Some? && Drained(s, Run(s, acts).value) && Run(s, acts).value.owner == None
    decreases if s.owner.Some? && s.owner.value < |s.workers| then (if s.workers[s.owner.value].pc.Empty? then 2 else 1) else 0
  {
    if s.owner == None {
      acts := [];
    } else {
      var w := s.owner.value;
      HolderStep(s, w);
      DrainingStep(s, w);
      var rest := FreesLock(StepWorker(s, w).value);
      acts := [WorkerStep(w)] + rest;
      assert acts[1..] == rest;
    }
  }

  /** The tasks have become no more, and no client has moved. */
  ghost predicate Drained(s: Pool, t: Pool) {
    Draining(t) && |t.queue| <= |s.queue| && t.clients == s.clients
  }

  lemma HolderStep(s: Pool, w: nat)
    requires Draining(s) && s.owner == Some(w)
    ensures w < |s.workers| && StepWorker(s, w).Some?
    ensures var t := StepWorker(s, w).value;
            t.owner == None || (t.owner == Some(w) && s.workers[w].pc.Empty? && w < |t.workers| && !t.workers[w].pc.Empty?)
  {
    assert WorkerOk(s.workers[w], true) && Held(s.workers[w]);
  }

  lemma {:induction false} SomeCredit(ks: seq<Worker>) returns (w: nat)
    requires Credits(ks) > 0
    ensures w < |ks| && Credit(ks[w].pc) == 1
  {
    if Credit(ks[0].pc) == 1 {
      w := 0;
    } else {
      var v := SomeCredit(ks[1..]);
      w := v + 1;
    }
  }

  /** A worker with a credit locks the queue and takes a task. */
  lemma TakesOne(s: Pool) returns (acts: seq<Action>)
    requires Draining(s) && s.owner == None && s.queue != []
    ensures Run(s, acts).Some? && Drained(s, Run(s, acts).value) && |Run(s, acts).value.queue| < |s.queue|
  {
    var w := SomeCredit(s.workers);
    assert WorkerOk(s.workers[w], false) && s.workers[w].pc == LockQueue;
    var t := StepWorker(s, w).value;
    DrainingStep(s, w);
    var u := StepWorker(t, w).value;
    DrainingStep(t, w);
    assert t.workers[w].pc == Empty && t.queue == s.queue;
    acts := [WorkerStep(w), WorkerStep(w)];
    PathRuns([s, t, u], acts);
  }

  lemma {:induction false} DrainsQueue(s: Pool) returns (acts: seq<Action>)
    requires Draining(s)
    ensures Run(s, acts).Some? && Drained(s, Run(s, acts).value)
    ensures Run(s, acts).value.queue == [] && Run(s, acts).value.owner == None
    decreases |s.queue|
  {
    var first := FreesLock(s);
    var t := Run(s, first).value;
    if t.queue == [] {
      acts := first;
    } else {
      var second := TakesOne(t);
      RunAppend(s, first, second);
      var rest := DrainsQueue(Run(t, second).value);
      RunAppend(s, first + second, rest);
      acts := first + second + rest;
    }
  }

  /** One client leaves: it notifies, or finds the queue empty. */
  lemma ClientLeaves(s: Pool, c: nat) returns (acts: seq<Action>)
    requires Draining(s) && s.queue == [] && s.owner == None && c < |s.clients|
    ensures Run(s, acts).Some? && Draining(Run(s, acts).value)
    ensures Run(s, acts).value.queue == [] && Run(s, acts).value.owner == None && Run(s, acts).value.clients == s.clients[c := Idle]
  {
    if s.clients[c] == Idle {
      acts := [];
    } else if s.clients[c].AwaitingEmpty? {
      var t := WithClient(s, c, Idle);
      StepInv(s, WaitLeave(c));
      acts := [WaitLeave(c)];
      PathRuns([s, t], acts);
    } else {
      var w := Wakes(s);
      StepInv(s, SubmitNotify(c, w));
      NotifyKeepsCredits(s, c, w);
      acts := [SubmitNotify(c, w)];
      PathRuns([s, NotifyOne(s, c, w).value], acts);
    }
  }

  /** Somebody that `notify_one` may wake, or anybody if nobody sleeps. */
  lemma Wakes(s: Pool) returns (w: nat)
    ensures forall c: nat :: c < |s.clients| ==> NotifyOne(s, c, w).Some?
  {
    w := 0;
    if v :| 0 <= v < |s.workers| && s.workers[v].pc == Sleeping(false) {
      w := v;
    }
  }

  lemma {:induction false} AllLeave(s: Pool, c: nat) returns (acts: seq<Action>)
    requires Draining(s) && s.queue == [] && s.owner == None && c <= |s.clients|
    requires forall d :: 0 <= d < c ==> s.clients[d] == Idle
    ensures Run(s, acts).Some? && Draining(Run(s, acts).value) && NoSharer(Run(s, acts).value)
    decreases |s.clients| - c
  {
    if c == |s.clients| {
      acts := [];
    } else {
      var first := ClientLeaves(s, c);
      var rest := AllLeave(Run(s, first).value, c + 1);
      RunAppend(s, first, rest);
      acts := first + rest;
    }
  }

  /** Some run comes to a state in which every lifecycle call can begin. */
  lemma CallsCanBegin(s: Pool) returns (acts: seq<Action>)
    requires Draining(s)
    ensures Run(s, acts).Some? && forall call :: Step(Run(s, acts).value, Begin(call)).Some?
  {
    var first := DrainsQueue(s);
    var rest := AllLeave(Run(s, first).value, 0);
    RunAppend(s, first, rest);
    acts := first + rest;
  }

  ghost predicate Blocked(s: Pool, acts: seq<Action>) {
    Run(s, acts).Some? ==> forall call :: Step(Run(s, acts).value, Begin(call)) == None
  }

  /** `wait` on a paused pool keeps `resume` and every other lifecycle call from ever beginning exactly when there are
      more tasks than workers that may still take one. */
  lemma WaitBlocksResume(s: Pool)
    requires Inv(s) && s.status == Paused && s.control == NoControl
    requires exists c :: 0 <= c < |s.clients| && s.clients[c].AwaitingEmpty?
    ensures (forall acts :: Blocked(s, acts)) <==> |s.queue| > Credits(s.workers)
  {
    if |s.queue| > Credits(s.workers) {
      forall acts ensures Blocked(s, acts) {
        if Run(s, acts).Some? {
          WaitsForever(s, acts);
        }
      }
    } else {
      var acts := CallsCanBegin(s);
      assert Step(Run(s, acts).value, Begin(ResumeCall)).Some?;
      assert !Blocked(s, acts);
    }
  }

  /** It takes one task, a `pause` and a `wait`. */
  lemma WaitInVainHappens(max: nat, task: nat) returns (acts: seq<Action>)
    ensures Run(NewPool(1, 1, max), acts).Some? && WaitsInVain(Run(NewPool(1, 1, max), acts).value)
  {
    var first := SubmitsOne(max, task);
    var second := PausesAndWaits(max, task);
    RunAppend(NewPool(1, 1, max), first, second);
    acts := first + second;
    assert Run(NewPool(1, 1, max), acts).value.clients[0].AwaitingEmpty?;
  }

  const HELD_AT_TOP: Worker := Worker(WPaused, Top, 0, 0)

  lemma SubmitsOne(max: nat, task: nat) returns (acts: seq<Action>)
    ensures Run(NewPool(1, 1, max), acts) == Some(One(Running, NEW_WORKER, Idle, NoControl, None, max, [task]))
  {
    var s0 := One(Running, NEW_WORKER, Idle, NoControl, None, max, []);
    assert s0 == NewPool(1, 1, max);
    var s1 := One(Running, NEW_WORKER, Entered(task), NoControl, None, max, []);
    Swapped(s0, s1);
    assert Step(s0, SubmitEnter(0, task)) == Some(s1);
    var s2 := One(Running, NEW_WORKER, Passed(task), NoControl, None, max, []);
    Swapped(s1, s2);
    assert Step(s1, SubmitCheck(0)) == Some(s2);
    var s3 := One(Running, NEW_WORKER, Notifying, NoControl, None, max, [task]);
    Swapped(s2, s3);
    assert [] + [task] == [task];
    assert Step(s2, SubmitPush(0)) == Some(s3);
    var s4 := One(Running, NEW_WORKER, Idle, NoControl, None, max, [task]);
    Swapped(s3, s4);
    assert Step(s3, SubmitNotify(0, 0)) == Some(s4);
    acts := [SubmitEnter(0, task), SubmitCheck(0), SubmitPush(0), SubmitNotify(0, 0)];
    PathRuns([s0, s1, s2, s3, s4], acts);
  }

  lemma PausesAndWaits(max: nat, task: nat) returns (acts: seq<Action>)
    ensures Run(One(Running, NEW_WORKER, Idle, NoControl, None, max, [task]), acts) == Some(One(Paused, HELD_AT_TOP, AwaitingEmpty, NoControl, None, max, [task]))
  {
    var s0 := One(Running, NEW_WORKER, Idle, NoControl, None, max, [task]);
    var s1 := One(Paused, NEW_WORKER, Idle, Pausing(0), None, max, [task]);
    Swapped(s0, s1);
    assert Step(s0, Begin(PauseCall)) == Some(s1);
    var s2 := One(Paused, HELD_AT_TOP, Idle, Pausing(1), None, max, [task]);
    Swapped(s1, s2);
    assert Step(s1, ControlStep) == Some(s2);
    var s3 := One(Paused, HELD_AT_TOP, Idle, NoControl, None, max, [task]);
    Swapped(s2, s3);
    assert Step(s2, ControlStep) == Some(s3);
    var s4 := One(Paused, HELD_AT_TOP, AwaitingEmpty, NoControl, None, max, [task]);
    Swapped(s3, s4);
    assert Step(s3, WaitEnter(0)) == Some(s4);
    acts := [Begin(PauseCall), ControlStep, ControlStep, WaitEnter(0)];
    PathRuns([s0, s1, s2, s3, s4], acts);
  }

  /** `pause` and `resume` leave a permit behind each time the worker is not at its semaphore: any number can pile up. */
  lemma {:induction false} PermitsPileUp(max: nat, n: nat) returns (acts: seq<Action>)
    ensures Run(NewPool(1, 1, max), acts) == Some(One(Running, Worker(WRunning, Top, n, 0), Idle, NoControl, None, max, []))
  {
    if n == 0 {
      acts := [];
      NewPoolIs(max);
    } else {
      var before := PermitsPileUp(max, n - 1);
      var again := OneMorePermit(max, n - 1);
      acts := before + again;
      RunAppend(NewPool(1, 1, max), before, again);
    }
  }

  lemma NewPoolIs(max: nat)
    ensures NewPool(1, 1, max) == One(Running, NEW_WORKER, Idle, NoControl, None, max, [])
  {
  }

  lemma OneMorePermit(max: nat, n: nat) returns (acts: seq<Action>)
    ensures Run(One(Running, Worker(WRunning, Top, n, 0), Idle, NoControl, None, max, []), acts)
            == Some(One(Running, Worker(WRunning, Top, n + 1, 0), Idle, NoControl, None, max, []))
  {
    var s0 := One(Running, Worker(WRunning, Top, n, 0), Idle, NoControl, None, max, []);
    var s1 := One(Paused, Worker(WRunning, Top, n, 0), Idle, Pausing(0), None, max, []);
    assert Step(s0, Begin(PauseCall)) == Some(s1);
    var s2 := One(Paused, Worker(WPaused, Top, n, 0), Idle, Pausing(1), None, max, []);
    Swapped(s1, s2);
    assert Step(s1, ControlStep) == Some(s2);
    var s3 := One(Paused, Worker(WPaused, Top, n, 0), Idle, NoControl, None, max, []);
    assert Step(s2, ControlStep) == Some(s3);
    var s4 := One(Running, Worker(WPaused, Top, n, 0), Idle, Resuming(0, false), None, max, []);
    assert Step(s3, Begin(ResumeCall)) == Some(s4);
    var s5 := One(Running, Worker(WRunning, Top, n + 1, 0), Idle, Resuming(1, false), None, max, []);
    Swapped(s4, s5);
    assert Step(s4, ControlStep) == Some(s5);
    var s6 := One(Running, Worker(WRunning, Top, n + 1, 0), Idle, NoControl, None, max, []);
    assert Step(s5, ControlStep) == Some(s6);
    acts := [Begin(PauseCall), ControlStep, ControlStep, Begin(ResumeCall), ControlStep, ControlStep];
    PathRuns([s0, s1, s2, s3, s4, s5, s6], acts);
  }

  /** The workers that execute a task go on executing it. */
  ghost predicate SameTasks(s: Pool, t: Pool) {
    |s.workers| == |t.workers|
    && forall w :: 0 <= w < |s.workers| && s.workers[w].pc.Executing? ==> t.workers[w].pc == s.workers[w].pc
  }

  /** `shutdown` waits for the queue, not for the tasks: it reaches TERMINATED while they are still executing. */
  lemma ShutdownLeavesTasksExecuting(s: Pool) returns (acts: seq<Action>)
    requires s.status == Running && s.control == NoControl && NoSharer(s) && s.owner == None && s.queue == []
    ensures Run(s, acts).Some? && Run(s, acts).value.status == Terminated && Run(s, acts).value.control == NoControl
    ensures SameTasks(s, Run(s, acts).value)
    ensures forall i :: 0 <= i < |acts| ==> !acts[i].WorkerStep?
  {
    var waiting := Sealing(s);
    var ending := Became(waiting, Terminating, ShutTerm(0));
    assert Step(s, Begin(ShutdownCall)) == Some(waiting) && Step(waiting, ControlStep) == Some(ending);
    PathRuns([s, waiting, ending], [Begin(ShutdownCall), ControlStep]);
    var rest := TerminatesAll(ending, 0);
    acts := [Begin(ShutdownCall), ControlStep] + rest;
    RunAppend(s, [Begin(ShutdownCall), ControlStep], rest);
  }

  lemma {:induction false} TerminatesAll(s: Pool, i: nat) returns (acts: seq<Action>)
    requires s.control == ShutTerm(i) && i <= |s.workers|
    ensures Run(s, acts).Some? && Run(s, acts).value.status == Terminated && Run(s, acts).value.control == NoControl
    ensures SameTasks(s, Run(s, acts).value)
    ensures forall k :: 0 <= k < |acts| ==> acts[k] == ControlStep
    decreases |s.workers| - i
  {
    var t := StepControl(s).value;
    assert Step(s, ControlStep) == Some(t) && SameTasks(s, t);
    var rest: seq<Action> := [];
    if i < |s.workers| {
      rest := TerminatesAll(t, i + 1);
    } else {
      assert Run(t, []) == Some(t);
    }
    acts := [ControlStep] + rest;
    assert acts[1..] == rest;
  }
}
