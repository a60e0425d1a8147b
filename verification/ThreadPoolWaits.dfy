/** Calls and workers when nobody wakes up without a notification: when `shutdown` returns, and who leaves the pool. */
module ThreadPoolWaits {
  import opened Common
  import opened ThreadPools
  import opened ThreadPoolSafety
  import opened ThreadPoolTheorems
  import opened ThreadPoolProgress
  import opened ThreadPoolCalls

  // ----- whether `shutdown` returns -----

  /** A worker that comes to the queue without sleeping, or has been notified. */
  predicate Serving(k: Worker) {
    match k.pc
    case Before => false
    case BeforeSem => false
    case BeforeLock => false
    case Waiting => false
    case Sleeping(woken) => woken
    case Exited => false
    case Threw => false
    case _ => true
  }

  predicate Shutting(s: Pool) {
    s.control == ShutWait || (s.control.Resuming? && s.control.shutting)
  }

  /** The queue has tasks, and every worker is asleep or on its way there. */
  ghost predicate Unserved(s: Pool) {
    Shutting(s) && s.queue != [] && forall w :: 0 <= w < |s.workers| ==> !Serving(s.workers[w])
  }

  lemma UnservedStep(s: Pool, a: Action)
    requires Inv(s) && Unserved(s) && Quiet(s, a) && Step(s, a).Some?
    ensures Unserved(Step(s, a).value)
  {
    if a.WorkerStep? {
      WorkerStepFrame(s, a.w);
      assert WorkerOk(s.workers[a.w], s.owner == Some(a.w)) && !Serving(s.workers[a.w]);
      assert Live(s.workers[a.w]) || Held(s.workers[a.w]);
    }
  }

  lemma {:induction false} UnservedForever(s: Pool, acts: seq<Action>)
    requires Inv(s) && Unserved(s) && QuietRun(s, acts) && Run(s, acts).Some?
    ensures Unserved(Run(s, acts).value)
    decreases |acts|
  {
    if acts != [] {
      UnservedStep(s, acts[0]);
      StepInv(s, acts[0]);
      UnservedForever(Step(s, acts[0]).value, acts[1..]);
    }
  }

  lemma ServesOn(s: Pool, w: nat)
    requires Inv(s) && w < |s.workers| && Live(s.workers[w]) && Serving(s.workers[w]) && s.queue != [] && StepWorker(s, w).Some?
    ensures Quiet(s, WorkerStep(w)) && w < |StepWorker(s, w).value.workers| && Serving(StepWorker(s, w).value.workers[w])
  {
    assert WorkerOk(s.workers[w], s.owner == Some(w));
  }

  /** A serving worker takes a task, and goes on serving. */
  lemma {:induction false} Serves(s: Pool, w: nat) returns (acts: seq<Action>)
    requires Inv(s) && w < |s.workers| && Live(s.workers[w]) && Serving(s.workers[w]) && s.queue != [] && !s.control.ShutTerm?
    requires s.owner == None || s.owner == Some(w)
    ensures QuietRun(s, acts) && Run(s, acts).Some? && WorkersRan(s, Run(s, acts).value)
    ensures |Run(s, acts).value.queue| < |s.queue| && Serving(Run(s, acts).value.workers[w])
    decreases Away(s.workers[w].pc)
  {
    Approaches(s, w);
    ServesOn(s, w);
    OneWorker(s, w);
    var t := StepWorker(s, w).value;
    if |t.queue| < |s.queue| {
      acts := [WorkerStep(w)];
      PathRuns([s, t], acts);
    } else {
      var rest := Serves(t, w);
      acts := [WorkerStep(w)] + rest;
      assert acts[1..] == rest;
      RanTwice(s, t, Run(t, rest).value);
    }
  }

  /** The queue lock is free, or the worker's own. */
  lemma OthersFree(s: Pool, w: nat) returns (acts: seq<Action>)
    requires Inv(s) && w < |s.workers|
    ensures QuietRun(s, acts) && Run(s, acts).Some? && WorkersRan(s, Run(s, acts).value)
    ensures var t := Run(s, acts).value; (t.owner == None || t.owner == Some(w)) && t.workers[w] == s.workers[w]
  {
    if s.owner == Some(w) {
      acts := [];
    } else {
      acts := QueueFreed(s);
    }
  }

  lemma {:induction false} ServesAll(s: Pool, w: nat) returns (acts: seq<Action>)
    requires Inv(s) && s.control == ShutWait && w < |s.workers| && Serving(s.workers[w])
    ensures QuietRun(s, acts) && Run(s, acts).Some? && WorkersRan(s, Run(s, acts).value) && Run(s, acts).value.queue == []
    decreases |s.queue|
  {
    var first := OthersFree(s, w);
    var t := Run(s, first).value;
    if t.queue == [] {
      acts := first;
    } else {
      assert Live(t.workers[w]);
      var second := Serves(t, w);
      var u := Run(t, second).value;
      var rest := ServesAll(u, w);
      RanTwice(t, u, Run(u, rest).value);
      Joins(t, second, rest);
      RanTwice(s, t, Run(u, rest).value);
      Joins(s, first, second + rest);
      acts := first + (second + rest);
    }
  }

  lemma Joins(s: Pool, first: seq<Action>, second: seq<Action>)
    requires Run(s, first).Some? && QuietRun(s, first) && QuietRun(Run(s, first).value, second)
    ensures Run(s, first + second) == Run(Run(s, first).value, second) && QuietRun(s, first + second)
  {
    RunAppend(s, first, second);
    QuietAppend(s, first, second);
  }

  lemma EmptyQueueReturns(s: Pool) returns (acts: seq<Action>)
    requires Inv(s) && s.control == ShutWait && s.queue == []
    ensures QuietRun(s, acts) && Returns(s, acts)
  {
    var first := QueueFreed(s);
    var t := Run(s, first).value;
    var u := Became(t, Terminating, ShutTerm(0));
    assert Step(t, ControlStep) == Some(u);
    StepInv(t, ControlStep);
    var last := LoopEnds(u);
    assert ([ControlStep] + last)[1..] == last;
    Joins(s, first, [ControlStep] + last);
    acts := first + ([ControlStep] + last);
  }

  lemma WaitReturns(s: Pool) returns (acts: seq<Action>)
    requires Inv(s) && s.control == ShutWait && !Unserved(s)
    ensures QuietRun(s, acts) && Returns(s, acts)
  {
    if s.queue == [] {
      acts := EmptyQueueReturns(s);
    } else {
      var w :| 0 <= w < |s.workers| && Serving(s.workers[w]);
      var first := ServesAll(s, w);
      var last := EmptyQueueReturns(Run(s, first).value);
      Joins(s, first, last);
      acts := first + last;
    }
  }

  ghost predicate ReturnsQuietly(s: Pool, acts: seq<Action>) {
    QuietRun(s, acts) && Returns(s, acts)
  }

  /** Without wake-ups that no notification caused, a `shutdown` can return exactly when the queue is empty or some worker
      is not asleep, nor on its way there past its last look at the queue. */
  lemma ShutdownReturnsExactly(s: Pool)
    requires Inv(s) && Shutting(s)
    ensures (exists acts :: ReturnsQuietly(s, acts)) <==> !Unserved(s)
  {
    if Unserved(s) {
      forall acts ensures !ReturnsQuietly(s, acts) {
        if ReturnsQuietly(s, acts) {
          UnservedForever(s, acts);
        }
      }
    } else if s.control == ShutWait {
      var acts := WaitReturns(s);
      assert ReturnsQuietly(s, acts);
    } else {
      var first := LoopEnds(s);
      var t := Run(s, first).value;
      if s.queue != [] {
        var w :| 0 <= w < |s.workers| && Serving(s.workers[w]);
        assert Serving(t.workers[w]);
      }
      var last := WaitReturns(t);
      Joins(s, first, last);
      assert ReturnsQuietly(s, first + last);
    }
  }

  // ----- who leaves a terminated pool -----

  /** About to wait, or waiting and not notified. */
  predicate Behind(k: Worker) {
    k.pc == Waiting || k.pc == Sleeping(false)
  }

  ghost predicate NoneBehind(s: Pool) {
    forall w :: 0 <= w < |s.workers| ==> !Behind(s.workers[w])
  }

  /** Nobody is left who could notify. */
  ghost predicate Over(s: Pool) {
    Inv(s) && s.status == Terminated && s.control == NoControl && NoSharer(s)
  }

  lemma OverStep(s: Pool, a: Action)
    requires Over(s) && Step(s, a).Some?
    ensures Over(Step(s, a).value) && |Step(s, a).value.workers| == |s.workers|
    ensures !a.WorkerStep? ==> Step(s, a).value.workers == s.workers
  {
    StepInv(s, a);
    TerminatedStep(s, a);
    if a.WorkerStep? {
      WorkerStepFrame(s, a.w);
    }
  }

  lemma BehindStep(s: Pool, a: Action, w: nat)
    requires Over(s) && w < |s.workers| && Behind(s.workers[w]) && Quiet(s, a) && Step(s, a).Some?
    ensures w < |Step(s, a).value.workers| && Behind(Step(s, a).value.workers[w])
  {
    OverStep(s, a);
    if a.WorkerStep? {
      WorkerStepFrame(s, a.w);
    }
  }

  lemma {:induction false} BehindForever(s: Pool, acts: seq<Action>, w: nat)
    requires Over(s) && w < |s.workers| && Behind(s.workers[w]) && QuietRun(s, acts) && Run(s, acts).Some?
    ensures w < |Run(s, acts).value.workers| && Behind(Run(s, acts).value.workers[w])
    decreases |acts|
  {
    if acts != [] {
      OverStep(s, acts[0]);
      BehindStep(s, acts[0], w);
      BehindForever(Step(s, acts[0]).value, acts[1..], w);
    }
  }

  /** A worker whose status is over does not begin to wait. */
  lemma AheadStep(s: Pool, w: nat)
    requires Over(s) && NoneBehind(s) && w < |s.workers| && StepWorker(s, w).Some?
    ensures Over(StepWorker(s, w).value) && NoneBehind(StepWorker(s, w).value) && Quiet(s, WorkerStep(w))
    ensures |StepWorker(s, w).value.workers| == |s.workers|
    ensures forall v :: 0 <= v < |s.workers| && s.workers[v].pc.Exited? ==> StepWorker(s, w).value.workers[v] == s.workers[v]
  {
    OverStep(s, WorkerStep(w));
    WorkerStepFrame(s, w);
    assert Ended(s.workers[w]) && WorkerOk(s.workers[w], s.owner == Some(w));
  }

  /** More workers have left, and none is behind. */
  ghost predicate Emptier(s: Pool, t: Pool) {
    && Over(t) && NoneBehind(t) && |t.workers| == |s.workers|
    && forall v :: 0 <= v < |s.workers| && s.workers[v].pc.Exited? ==> t.workers[v].pc.Exited?
  }

  /** The worker with the queue lock, if it is another one, goes first. */
  lemma {:induction false} WayIsFree(s: Pool, w: nat) returns (acts: seq<Action>)
    requires Over(s) && NoneBehind(s) && w < |s.workers|
    ensures QuietRun(s, acts) && Run(s, acts).Some? && Emptier(s, Run(s, acts).value)
    ensures Run(s, acts).value.owner == None || Run(s, acts).value.owner == Some(w)
    decreases if s.owner.Some? && s.owner.value < |s.workers| then 1 + Hold(s.workers[s.owner.value].pc) else 0
  {
    if s.owner == None || s.owner == Some(w) {
      acts := [];
    } else {
      var v := s.owner.value;
      HolderGoesOn(s, v);
      AheadStep(s, v);
      var rest := WayIsFree(StepWorker(s, v).value, w);
      acts := [WorkerStep(v)] + rest;
      assert acts[1..] == rest;
    }
  }

  lemma {:induction false} WalksOut(s: Pool, w: nat) returns (acts: seq<Action>)
    requires Over(s) && NoneBehind(s) && w < |s.workers| && (s.owner == None || s.owner == Some(w))
    ensures QuietRun(s, acts) && Run(s, acts).Some? && Emptier(s, Run(s, acts).value) && Run(s, acts).value.workers[w].pc.Exited?
    decreases Leaving(s.workers[w].pc)
  {
    if s.workers[w].pc.Exited? {
      acts := [];
    } else {
      assert Ended(s.workers[w]);
      ComesToLeave(s, w);
      AheadStep(s, w);
      var rest := WalksOut(StepWorker(s, w).value, w);
      acts := [WorkerStep(w)] + rest;
      assert acts[1..] == rest;
    }
  }

  lemma {:induction false} AllWalkOut(s: Pool, n: nat) returns (acts: seq<Action>)
    requires Over(s) && NoneBehind(s) && n <= |s.workers|
    ensures QuietRun(s, acts) && Run(s, acts).Some? && Emptier(s, Run(s, acts).value)
    ensures forall w :: 0 <= w < n ==> Run(s, acts).value.workers[w].pc.Exited?
  {
    if n == 0 {
      acts := [];
    } else {
      var first := AllWalkOut(s, n - 1);
      var t := Run(s, first).value;
      var second := WayIsFree(t, n - 1);
      var u := Run(t, second).value;
      var third := WalksOut(u, n - 1);
      Joins(t, second, third);
      Joins(s, first, second + third);
      acts := first + (second + third);
    }
  }

  ghost predicate AllExited(s: Pool) {
    forall w :: 0 <= w < |s.workers| ==> s.workers[w].pc.Exited?
  }

  ghost predicate EmptiesQuietly(s: Pool, acts: seq<Action>) {
    QuietRun(s, acts) && Run(s, acts).Some? && AllExited(Run(s, acts).value)
  }

  /** Without wake-ups that no notification caused, the workers of a terminated pool can all leave exactly when none of
      them is waiting, or about to wait, unnotified; such a worker never leaves, and joining it never ends. */
  lemma PoolEmptiesExactly(s: Pool)
    requires Over(s)
    ensures (exists acts :: EmptiesQuietly(s, acts)) <==> NoneBehind(s)
  {
    if NoneBehind(s) {
      var acts := AllWalkOut(s, |s.workers|);
      assert EmptiesQuietly(s, acts);
    } else {
      var w :| 0 <= w < |s.workers| && Behind(s.workers[w]);
      forall acts ensures !EmptiesQuietly(s, acts) {
        if EmptiesQuietly(s, acts) {
          BehindForever(s, acts, w);
        }
      }
    }
  }

  // ----- `shutdown` and `terminate` -----

  /** What a `shutdown` has ended is not ended by `terminate`, and has left nobody behind. */
  ghost predicate GracefulOk(s: Pool) {
    s.sealed.Some? ==> !s.control.Term? && (s.status == Terminated ==> NoneBehind(s))
  }

  lemma GracefulStep(s: Pool, a: Action)
    requires Inv(s) && GracefulOk(s) && Step(s, a).Some?
    ensures GracefulOk(Step(s, a).value)
  {
    if a.WorkerStep? {
      GracefulWorkerStep(s, a.w);
    } else if a.ControlStep? && s.control.ShutTerm? {
      NobodyWaits(s);
    } else if a.SubmitNotify? {
      GracefulNotify(s, a.c, a.woken);
    }
  }

  lemma GracefulNotify(s: Pool, c: nat, w: nat)
    requires GracefulOk(s) && c < |s.clients| && NotifyOne(s, c, w).Some?
    ensures GracefulOk(NotifyOne(s, c, w).value)
  {
  }

  lemma GracefulWorkerStep(s: Pool, w: nat)
    requires Inv(s) && GracefulOk(s) && w < |s.workers| && StepWorker(s, w).Some?
    ensures GracefulOk(StepWorker(s, w).value)
  {
    WorkerStepFrame(s, w);
    if s.sealed.Some? && s.status == Terminated {
      assert Ended(s.workers[w]) && WorkerOk(s.workers[w], s.owner == Some(w));
    }
  }

  lemma NobodyWaits(s: Pool)
    requires Inv(s) && s.control.ShutTerm?
    ensures NoneBehind(TerminateReturns(s))
  {
    forall w | 0 <= w < |s.workers| ensures !Behind(NotifyAll(s.workers)[w]) {
      assert WorkerOk(s.workers[w], s.owner == Some(w));
    }
  }

  /** A pool that `shutdown` has terminated leaves no worker behind, whatever the run. */
  lemma {:induction false} ShutdownLeavesNobody(s: Pool, acts: seq<Action>)
    requires Inv(s) && s.sealed == None && Run(s, acts).Some?
    ensures Run(s, acts).value.sealed.Some? && Run(s, acts).value.status == Terminated ==> NoneBehind(Run(s, acts).value)
  {
    GracefulRun(s, acts);
  }

  lemma {:induction false} GracefulRun(s: Pool, acts: seq<Action>)
    requires Inv(s) && GracefulOk(s) && Run(s, acts).Some?
    ensures GracefulOk(Run(s, acts).value)
    decreases |acts|
  {
    if acts != [] {
      GracefulStep(s, acts[0]);
      StepInv(s, acts[0]);
      GracefulRun(Step(s, acts[0]).value, acts[1..]);
    }
  }

  /** One that `terminate` has terminated may: the worker has looked at its status, and waits after the notification. */
  lemma TerminateLeavesBehind(max: nat) returns (acts: seq<Action>)
    ensures Run(NewPool(1, 1, max), acts).Some? && Over(Run(NewPool(1, 1, max), acts).value)
    ensures !NoneBehind(Run(NewPool(1, 1, max), acts).value)
  {
    var first := LooksIntoTheQueue(max);
    var last := TerminatedBeforeWaiting(max);
    NewPoolInv(1, 1, max);
    RunAppend(NewPool(1, 1, max), first, last);
    acts := first + last;
    RunInv(NewPool(1, 1, max), acts);
    assert Behind(Run(NewPool(1, 1, max), acts).value.workers[0]);
  }

  const LATE: Worker := Worker(WTerminating, Waiting, 0, 0)

  lemma TerminatedBeforeWaiting(max: nat) returns (acts: seq<Action>)
    ensures Run(One(Running, LOOKED, Idle, NoControl, Some(0), max, []), acts) == Some(One(Terminated, LATE, Idle, NoControl, Some(0), max, []))
  {
    var s0 := One(Running, LOOKED, Idle, NoControl, Some(0), max, []);
    var s1 := One(Running, Worker(WBlocked, Waiting, 0, 0), Idle, NoControl, Some(0), max, []);
    Swapped(s0, s1);
    assert Step(s0, W0) == Some(s1);
    var s2 := One(Terminating, Worker(WBlocked, Waiting, 0, 0), Idle, Term(0), Some(0), max, []);
    assert Step(s1, Begin(TerminateCall)) == Some(s2);
    var s3 := One(Terminating, LATE, Idle, Term(1), Some(0), max, []);
    Swapped(s2, s3);
    assert Step(s2, ControlStep) == Some(s3);
    var s4 := One(Terminated, LATE, Idle, NoControl, Some(0), max, []);
    assert NotifyAll([LATE]) == [LATE];
    assert Step(s3, ControlStep) == Some(s4);
    acts := [W0, Begin(TerminateCall), ControlStep, ControlStep];
    PathRuns([s0, s1, s2, s3, s4], acts);
  }
}
