/** What a lifecycle call and a removal of workers come to, in every run, and when they can come to an end. */
module ThreadPoolCalls {
  import opened Common
  import opened ThreadPools
  import opened ThreadPoolSafety
  import opened ThreadPoolTheorems
  import opened ThreadPoolProgress

  // ----- what a call comes to -----

  /** `pause` pauses a running pool, `resume` runs a paused one, the other two terminate any; in any other case a call
      leaves the pool as it is. */
  function Outcome(status: PoolStatus, call: Call): PoolStatus {
    match call
    case PauseCall => if status == Running then Paused else status
    case ResumeCall => if status == Paused then Running else status
    case ShutdownCall => Terminated
    case TerminateCall => Terminated
  }

  /** The status with which the call under way returns. */
  function Comes(s: Pool): PoolStatus {
    match s.control
    case NoControl => s.status
    case Pausing(_) => Paused
    case Resuming(_, shutting) => if shutting then Terminated else Running
    case ShutWait => Terminated
    case ShutTerm(_) => Terminated
    case Term(_) => Terminated
  }

  /** The call that has begun has not returned before the end of the run. */
  ghost predicate OneCall(s: Pool, acts: seq<Action>)
    decreases |acts|
  {
    acts != [] ==> s.control != NoControl && (Step(s, acts[0]).Some? ==> OneCall(Step(s, acts[0]).value, acts[1..]))
  }

  lemma StepComes(s: Pool, a: Action)
    requires Inv(s) && s.control != NoControl && Step(s, a).Some?
    ensures Comes(Step(s, a).value) == Comes(s)
  {
    if a.WorkerStep? {
      WorkerStepFrame(s, a.w);
    }
  }

  lemma {:induction false} RunComes(s: Pool, acts: seq<Action>)
    requires Inv(s) && OneCall(s, acts) && Run(s, acts).Some?
    ensures Comes(Run(s, acts).value) == Comes(s) && Inv(Run(s, acts).value)
    decreases |acts|
  {
    if acts != [] {
      StepComes(s, acts[0]);
      StepInv(s, acts[0]);
      RunComes(Step(s, acts[0]).value, acts[1..]);
    }
  }

  ghost predicate AllAre(s: Pool, p: Worker -> bool) {
    forall w :: 0 <= w < |s.workers| ==> p(s.workers[w])
  }

  /** Whatever runs beside it, a call returns with its status, and every worker's status is the one that belongs to it. */
  lemma CallOutcome(s: Pool, call: Call, acts: seq<Action>)
    requires Inv(s) && Step(s, Begin(call)).Some?
    requires OneCall(BeginCall(s, call), acts) && Run(BeginCall(s, call), acts).Some?
    requires Run(BeginCall(s, call), acts).value.control == NoControl
    ensures var t := Run(BeginCall(s, call), acts).value;
            && t.status == Outcome(s.status, call)
            && match t.status
               case Paused => AllAre(t, Held)
               case Running => AllAre(t, Live)
               case Terminated => AllAre(t, Ended)
               case _ => false
  {
    StepInv(s, Begin(call));
    RunComes(BeginCall(s, call), acts);
    var t := Run(BeginCall(s, call), acts).value;
    if t.status == Running {
      NoRemovalAfter(BeginCall(s, call), acts);
    }
  }

  lemma NoRemovalStep(s: Pool, a: Action)
    requires Inv(s) && s.control != NoControl && Step(s, a).Some?
    ensures Step(s, a).value.removal == NoRemoval
  {
    if a.WorkerStep? {
      WorkerStepFrame(s, a.w);
    }
  }

  lemma {:induction false} NoRemovalAfter(s: Pool, acts: seq<Action>)
    requires Inv(s) && OneCall(s, acts) && Run(s, acts).Some? && s.removal == NoRemoval
    ensures Run(s, acts).value.removal == NoRemoval
    decreases |acts|
  {
    if acts != [] {
      NoRemovalStep(s, acts[0]);
      StepInv(s, acts[0]);
      NoRemovalAfter(Step(s, acts[0]).value, acts[1..]);
    }
  }

  // ----- whether a call can return -----

  /** `shutdown` waits for a queue that nobody empties. */
  ghost predicate Stalled(s: Pool) {
    s.workers == [] && s.queue != [] && (s.control == ShutWait || (s.control.Resuming? && s.control.shutting))
  }

  lemma StalledStep(s: Pool, a: Action)
    requires Inv(s) && Stalled(s) && Step(s, a).Some?
    ensures Stalled(Step(s, a).value)
  {
  }

  lemma {:induction false} StalledForever(s: Pool, acts: seq<Action>)
    requires Inv(s) && Stalled(s) && Run(s, acts).Some?
    ensures Stalled(Run(s, acts).value)
    decreases |acts|
  {
    if acts != [] {
      StalledStep(s, acts[0]);
      StepInv(s, acts[0]);
      StalledForever(Step(s, acts[0]).value, acts[1..]);
    }
  }

  /** How far a live worker is from taking a task. */
  function Away(pc: Pc): nat {
    match pc
    case Empty => 1
    case LockQueue => 2
    case After => 2
    case Top => 3
    case AfterLock => 3
    case Sleeping(_) => 3
    case TopSem => 4
    case AfterSem => 4
    case Executing(_) => 4
    case Waiting => 4
    case Before => 5
    case BeforeLock => 6
    case BeforeSem => 7
    case Exited => 0
    case Threw => 0
  }

  /** A live worker that finds the queue unlocked, or has it locked itself, comes closer to a task, or takes it. */
  lemma Approaches(s: Pool, w: nat)
    requires Inv(s) && w < |s.workers| && Live(s.workers[w]) && s.queue != [] && !s.control.ShutTerm?
    requires s.owner == None || s.owner == Some(w)
    ensures StepWorker(s, w).Some? && Nearer(s, StepWorker(s, w).value, w)
  {
    if s.owner == Some(w) {
      HolderApproaches(s, w);
    } else {
      OtherApproaches(s, w);
    }
  }

  ghost predicate Nearer(s: Pool, t: Pool, w: nat)
    requires w < |s.workers|
  {
    && w < |t.workers| && Live(t.workers[w]) && (t.owner == None || t.owner == Some(w))
    && (|t.queue| < |s.queue| || (t.queue == s.queue && Away(t.workers[w].pc) < Away(s.workers[w].pc)))
  }

  lemma HolderApproaches(s: Pool, w: nat)
    requires Inv(s) && w < |s.workers| && Live(s.workers[w]) && s.queue != [] && s.owner == Some(w)
    ensures StepWorker(s, w).Some? && Nearer(s, StepWorker(s, w).value, w)
  {
    assert WorkerOk(s.workers[w], true);
  }

  lemma OtherApproaches(s: Pool, w: nat)
    requires Inv(s) && w < |s.workers| && Live(s.workers[w]) && s.queue != [] && !s.control.ShutTerm? && s.owner == None
    ensures StepWorker(s, w).Some? && Nearer(s, StepWorker(s, w).value, w)
  {
    assert WorkerOk(s.workers[w], false);
  }

  lemma {:induction false} TakesTask(s: Pool, w: nat) returns (acts: seq<Action>)
    requires Inv(s) && w < |s.workers| && Live(s.workers[w]) && s.queue != [] && !s.control.ShutTerm?
    requires s.owner == None || s.owner == Some(w)
    ensures Run(s, acts).Some? && WorkersRan(s, Run(s, acts).value) && |Run(s, acts).value.queue| < |s.queue|
    decreases Away(s.workers[w].pc)
  {
    Approaches(s, w);
    OneWorker(s, w);
    var t := StepWorker(s, w).value;
    if |t.queue| < |s.queue| {
      acts := [WorkerStep(w)];
      PathRuns([s, t], acts);
    } else {
      var rest := TakesTask(t, w);
      acts := [WorkerStep(w)] + rest;
      assert acts[1..] == rest;
      RanTwice(s, t, Run(t, rest).value);
    }
  }

  /** While `shutdown` waits, any one worker can empty the queue. */
  lemma {:induction false} EmptiesQueue(s: Pool) returns (acts: seq<Action>)
    requires Inv(s) && s.control == ShutWait && (s.queue == [] || s.workers != [])
    ensures Run(s, acts).Some? && WorkersRan(s, Run(s, acts).value)
    ensures Run(s, acts).value.queue == [] && Run(s, acts).value.owner == None
    decreases |s.queue|
  {
    acts := QueueFreed(s);
    var t := Run(s, acts).value;
    if t.queue != [] {
      assert Live(t.workers[0]);
      var more := TakesTask(t, 0);
      var u := Run(t, more).value;
      RanTwice(s, t, u);
      var rest := EmptiesQueue(u);
      RanTwice(s, u, Run(u, rest).value);
      RunAppend(s, acts, more);
      RunAppend(s, acts + more, rest);
      acts := acts + more + rest;
    }
  }

  ghost predicate Returns(s: Pool, acts: seq<Action>) {
    Run(s, acts).Some? && Run(s, acts).value.control == NoControl
  }

  function LoopLeft(s: Pool): int {
    match s.control
    case Pausing(i) => |s.workers| - i
    case Resuming(i, _) => |s.workers| - i
    case ShutTerm(i) => |s.workers| - i
    case Term(i) => |s.workers| - i
    case _ => 0
  }

  /** The loop over the workers runs to its end. */
  lemma {:induction false} LoopEnds(s: Pool) returns (acts: seq<Action>)
    requires Inv(s) && s.control != NoControl && s.control != ShutWait
    ensures Run(s, acts).Some? && Inv(Run(s, acts).value) && |Run(s, acts).value.workers| == |s.workers| && QuietRun(s, acts)
    ensures s.control.Resuming? ==> forall w :: 0 <= w < |s.workers| ==> Run(s, acts).value.workers[w].pc == s.workers[w].pc
    ensures var t := Run(s, acts).value;
            t.queue == s.queue && t.control == if s.control.Resuming? && s.control.shutting then ShutWait else NoControl
    decreases LoopLeft(s) + 1
  {
    var t := Step(s, ControlStep).value;
    StepInv(s, ControlStep);
    if LoopLeft(s) == 0 {
      acts := [ControlStep];
      PathRuns([s, t], acts);
    } else {
      var rest := LoopEnds(t);
      acts := [ControlStep] + rest;
      assert acts[1..] == rest;
    }
  }

  lemma ShutdownReturns(s: Pool) returns (acts: seq<Action>)
    requires Inv(s) && s.control == ShutWait && (s.queue == [] || s.workers != [])
    ensures Returns(s, acts)
  {
    var first := EmptiesQueue(s);
    var t := Run(s, first).value;
    var u := Step(t, ControlStep).value;
    assert u == Became(t, Terminating, ShutTerm(0));
    StepInv(t, ControlStep);
    var last := LoopEnds(u);
    PathRuns([t, u], [ControlStep]);
    RunAppend(t, [ControlStep], last);
    RunAppend(s, first, [ControlStep] + last);
    acts := first + ([ControlStep] + last);
  }

  lemma CallReturns(s: Pool) returns (acts: seq<Action>)
    requires Inv(s) && s.control != NoControl && !Stalled(s)
    ensures Returns(s, acts)
  {
    if s.control == ShutWait {
      acts := ShutdownReturns(s);
    } else {
      acts := LoopEnds(s);
      var t := Run(s, acts).value;
      if t.control == ShutWait {
        var last := ShutdownReturns(t);
        RunAppend(s, acts, last);
        acts := acts + last;
      }
    }
  }

  /** A lifecycle call can return exactly when it is not a `shutdown` of a pool without workers whose queue has tasks. */
  lemma CallCanReturn(s: Pool)
    requires Inv(s) && s.control != NoControl
    ensures (exists acts :: Returns(s, acts)) <==> !Stalled(s)
  {
    if Stalled(s) {
      forall acts ensures !Returns(s, acts) {
        if Returns(s, acts) {
          StalledForever(s, acts);
        }
      }
    } else {
      var acts := CallReturns(s);
    }
  }

  // ----- leaving -----

  /** How far an ended worker is from having left. */
  function Leaving(pc: Pc): nat {
    match pc
    case Exited => 0
    case Top => 1
    case Before => 1
    case After => 1
    case TopSem => 2
    case Executing(_) => 2
    case BeforeLock => 2
    case AfterLock => 2
    case Sleeping(_) => 2
    case Empty => 3
    case Waiting => 3
    case BeforeSem => 3
    case AfterSem => 3
    case LockQueue => 4
    case Threw => 0
  }

  lemma ComesToLeave(s: Pool, w: nat)
    requires Inv(s) && w < |s.workers| && Ended(s.workers[w]) && !s.workers[w].pc.Exited? && !s.control.ShutTerm?
    requires s.owner == None || s.owner == Some(w)
    ensures StepWorker(s, w).Some?
    ensures var t := StepWorker(s, w).value;
            && w < |t.workers| && Ended(t.workers[w]) && (t.owner == None || t.owner == Some(w))
            && Leaving(t.workers[w].pc) < Leaving(s.workers[w].pc)
  {
    assert WorkerOk(s.workers[w], s.owner == Some(w));
  }

  /** One worker leaves, and those that have left stay gone. */
  ghost predicate MoreGone(s: Pool, t: Pool) {
    WorkersRan(s, t) && forall v :: 0 <= v < |s.workers| && s.workers[v].pc.Exited? ==> t.workers[v].pc.Exited?
  }

  lemma GoneTwice(s: Pool, t: Pool, u: Pool)
    requires MoreGone(s, t) && MoreGone(t, u)
    ensures MoreGone(s, u)
  {
    RanTwice(s, t, u);
  }

  lemma {:induction false} Leaves(s: Pool, w: nat) returns (acts: seq<Action>)
    requires Inv(s) && w < |s.workers| && Ended(s.workers[w]) && !s.control.ShutTerm? && (s.owner == None || s.owner == Some(w))
    ensures Run(s, acts).Some? && MoreGone(s, Run(s, acts).value) && Run(s, acts).value.workers[w].pc.Exited?
    decreases Leaving(s.workers[w].pc)
  {
    if s.workers[w].pc.Exited? {
      acts := [];
    } else {
      ComesToLeave(s, w);
      OneWorker(s, w);
      var t := StepWorker(s, w).value;
      var rest := Leaves(t, w);
      acts := [WorkerStep(w)] + rest;
      assert acts[1..] == rest;
      RanTwice(s, t, Run(t, rest).value);
    }
  }

  lemma FreesAndLeaves(s: Pool, w: nat) returns (acts: seq<Action>)
    requires Inv(s) && w < |s.workers| && Ended(s.workers[w]) && !s.control.ShutTerm?
    ensures Run(s, acts).Some? && MoreGone(s, Run(s, acts).value) && Run(s, acts).value.workers[w].pc.Exited?
  {
    var first := QueueFreed(s);
    var t := Run(s, first).value;
    forall v | 0 <= v < |s.workers| && s.workers[v].pc.Exited? ensures t.workers[v].pc.Exited? {
      assert WorkerOk(s.workers[v], s.owner == Some(v));
    }
    var last := Leaves(t, w);
    RanTwice(s, t, Run(t, last).value);
    RunAppend(s, first, last);
    acts := first + last;
  }

  ghost predicate EndedFrom(s: Pool, from: nat) {
    forall w :: from <= w < |s.workers| ==> Ended(s.workers[w])
  }

  ghost predicate GoneFrom(s: Pool, from: nat) {
    forall w :: from <= w < |s.workers| ==> s.workers[w].pc.Exited?
  }

  lemma OneMoreGone(s: Pool, t: Pool, u: Pool, from: nat)
    requires from < |s.workers| && MoreGone(s, t) && MoreGone(t, u) && t.workers[from].pc.Exited? && GoneFrom(u, from + 1)
    ensures MoreGone(s, u) && GoneFrom(u, from)
  {
    GoneTwice(s, t, u);
  }

  lemma StillEnded(s: Pool, t: Pool, from: nat)
    requires WorkersRan(s, t) && EndedFrom(s, from)
    ensures EndedFrom(t, from + 1)
  {
  }

  /** All ended workers from the given one on can leave. */
  lemma {:induction false} AllGone(s: Pool, from: nat) returns (acts: seq<Action>)
    requires Inv(s) && from <= |s.workers| && EndedFrom(s, from) && !s.control.ShutTerm?
    ensures Run(s, acts).Some? && MoreGone(s, Run(s, acts).value) && GoneFrom(Run(s, acts).value, from)
    decreases |s.workers| - from
  {
    if from == |s.workers| {
      acts := [];
    } else {
      var first := FreesAndLeaves(s, from);
      var t := Run(s, first).value;
      StillEnded(s, t, from);
      var rest := AllGone(t, from + 1);
      OneMoreGone(s, t, Run(t, rest).value, from);
      RunAppend(s, first, rest);
      acts := first + rest;
    }
  }

  // ----- adding and removing workers -----

  /** An added worker is one more, and can take a task from a queue that nobody else serves. */
  lemma AddedWorkerTakes(s: Pool) returns (acts: seq<Action>)
    requires Inv(s) && s.status == Running && s.control == NoControl && s.removal == NoRemoval
    ensures Step(s, AddThread).Some? && |Step(s, AddThread).value.workers| == |s.workers| + 1
    ensures s.queue != [] ==> Run(s, [AddThread] + acts).Some? && |Run(s, [AddThread] + acts).value.queue| < |s.queue|
  {
    var t := Step(s, AddThread).value;
    StepInv(s, AddThread);
    var w := |s.workers|;
    acts := QueueFreed(t);
    var u := Run(t, acts).value;
    if u.queue != [] {
      assert Live(t.workers[w]) && Live(u.workers[w]);
      var more := TakesTask(u, w);
      RunAppend(t, acts, more);
      acts := acts + more;
    }
    assert ([AddThread] + acts)[1..] == acts;
  }


  function Keeps(s: Pool): nat {
    match s.removal case NoRemoval => |s.workers| case Removing(keep, _) => keep case Joining(keep) => keep
  }

  /** The removal that has begun is not over before the end of the run. */
  ghost predicate OneRemoval(s: Pool, acts: seq<Action>)
    decreases |acts|
  {
    acts != [] ==> s.removal != NoRemoval && (Step(s, acts[0]).Some? ==> OneRemoval(Step(s, acts[0]).value, acts[1..]))
  }

  lemma StepKeeps(s: Pool, a: Action)
    requires Inv(s) && s.removal != NoRemoval && Step(s, a).Some?
    ensures Keeps(Step(s, a).value) == Keeps(s)
  {
    if a.WorkerStep? {
      WorkerStepFrame(s, a.w);
    }
  }

  lemma {:induction false} RunKeeps(s: Pool, acts: seq<Action>)
    requires Inv(s) && OneRemoval(s, acts) && Run(s, acts).Some?
    ensures Keeps(Run(s, acts).value) == Keeps(s)
    decreases |acts|
  {
    if acts != [] {
      StepKeeps(s, acts[0]);
      StepInv(s, acts[0]);
      RunKeeps(Step(s, acts[0]).value, acts[1..]);
    }
  }

  /** Whatever runs beside it, when a removal from a running pool is over that many workers are gone, or all of them. */
  lemma RemovalCounts(s: Pool, count: nat, acts: seq<Action>)
    requires Inv(s) && s.status == Running && Step(s, RemoveThread(count)).Some?
    requires OneRemoval(BeginRemoval(s, count), acts) && Run(BeginRemoval(s, count), acts).Some?
    requires Run(BeginRemoval(s, count), acts).value.removal == NoRemoval
    ensures |Run(BeginRemoval(s, count), acts).value.workers| == if count < |s.workers| then |s.workers| - count else 0
  {
    StepInv(s, RemoveThread(count));
    RunKeeps(BeginRemoval(s, count), acts);
  }

  ghost predicate RemovalOver(s: Pool, t: Pool) {
    t.removal == NoRemoval && |t.workers| == Keeps(s)
  }

  /** And it can always come to that. */
  lemma {:induction false} RemovalCanFinish(s: Pool) returns (acts: seq<Action>)
    requires Inv(s) && s.removal != NoRemoval
    ensures Run(s, acts).Some? && RemovalOver(s, Run(s, acts).value)
    decreases match s.removal case NoRemoval => 0 case Removing(_, i) => i + 2 case Joining(_) => 1
  {
    if s.removal.Removing? {
      var t := StepRemoval(s).value;
      StepInv(s, RemoveStep);
      var rest := RemovalCanFinish(t);
      acts := [RemoveStep] + rest;
      assert acts[1..] == rest;
    } else {
      var keep := s.removal.keep;
      var first := AllGone(s, keep);
      var t := Run(s, first).value;
      assert Step(t, RemoveStep) == Some(Joined(t, keep));
      PathRuns([t, Joined(t, keep)], [RemoveStep]);
      RunAppend(s, first, [RemoveStep]);
      acts := first + [RemoveStep];
    }
  }
}
