/** The thread pool as a state machine: one step per atomic action of a worker, a client or a lifecycle call. */
module ThreadPools {
  import opened Common

  datatype WorkerStatus = WTerminated | WTerminating | WRunning | WPaused | WBlocked

  datatype PoolStatus = Terminated | Terminating | Running | Paused | Shutdown

  /** Where a worker is in its loop. The three checks of its status are one step each: they happen under its status
      lock, in which nobody waits. */
  datatype Pc =
    | Top                    // before the check at the top of the loop
    | TopSem                 // waiting for a permit there
    | LockQueue              // about to lock the queue
    | Empty                  // with the queue lock, about to look whether the queue is empty
    | Before                 // with the queue lock, before the check that precedes the wait
    | BeforeSem | BeforeLock // paused there: waiting for a permit, then for the queue lock
    | Waiting                // with the queue lock, about to wait for the condition
    | Sleeping(woken: bool)  // waiting for the condition, notified or not
    | After                  // with the queue lock, before the check that follows the wait
    | AfterSem | AfterLock   // paused there
    | Executing(task: nat)
    | Exited
    | Threw

  /** `pops` counts the tasks taken since the worker was last paused. */
  datatype Worker = Worker(status: WorkerStatus, pc: Pc, permits: nat, pops: nat)

  /** A thread that calls `submit` or `wait`; it has the pool's status lock shared unless it is idle. */
  datatype Client = Idle | Entered(task: nat) | Passed(task: nat) | Notifying | AwaitingEmpty

  /** The lifecycle call that has the pool's status lock to itself, and the worker its loop has come to.
      `Resuming(i, true)` is the resumption inside `shutdown`; `ShutTerm` still has the queue lock shared. */
  datatype Control = NoControl | Pausing(i: nat) | Resuming(i: nat, shutting: bool) | ShutWait | ShutTerm(i: nat) | Term(i: nat)

  /** A `remove_thread` that has the pool's status lock shared and the worker list to itself: it terminates the workers
      from the end down to `keep`, notifies everybody, and then joins them. */
  datatype Removal = NoRemoval | Removing(keep: nat, i: nat) | Joining(keep: nat)

  /** `accepted` and `taken` list all tasks pushed and all tasks popped so far; `sealed` is `accepted` at the moment
      the pool was set to SHUTDOWN; `mark` the number taken when the last `pause` returned. */
  datatype Pool = Pool(status: PoolStatus, workers: seq<Worker>, clients: seq<Client>, control: Control,
                       removal: Removal, owner: Option<nat>, queue: seq<nat>, max: nat,
                       accepted: seq<nat>, taken: seq<nat>, sealed: Option<seq<nat>>, mark: nat)

  datatype Call = PauseCall | ResumeCall | ShutdownCall | TerminateCall

  datatype Action =
    | WorkerStep(w: nat)
    | SubmitEnter(c: nat, task: nat) | SubmitCheck(c: nat) | SubmitPush(c: nat) | SubmitNotify(c: nat, woken: nat)
    | WaitEnter(c: nat) | WaitLeave(c: nat)
    | AddThread | RemoveThread(count: nat) | RemoveStep
    | Begin(call: Call) | ControlStep

  const NEW_WORKER: Worker := Worker(WRunning, Top, 0, 0)

  function NewPool(workers: nat, clients: nat, max: nat): Pool {
    Pool(Running, seq(workers, _ => NEW_WORKER), seq(clients, _ => Idle), NoControl, NoRemoval, None, [], max, [], [], None, 0)
  }

  // ----- what one worker does -----

  /** No one has the queue lock, not even shared. */
  predicate QueueFree(s: Pool) {
    s.owner == None && !s.control.ShutTerm?
  }

  function Moved(s: Pool, w: nat, k: Worker, owner: Option<nat>): Pool
    requires w < |s.workers|
  {
    s.(workers := s.workers[w := k], owner := owner)
  }

  /** The thread function returns: its status is TERMINATED and its locks are released. */
  function Leave(k: Worker): Worker {
    k.(status := WTerminated, pc := Exited)
  }

  function At(k: Worker, pc: Pc): Worker {
    k.(pc := pc)
  }

  /** A permit of the pause semaphore is taken. */
  function Acquired(k: Worker, pc: Pc): Worker
    requires k.permits > 0
  {
    k.(permits := k.permits - 1, pc := pc)
  }

  function Take(s: Pool, w: nat): Pool
    requires w < |s.workers| && s.queue != []
  {
    var k := s.workers[w];
    Pool(s.status, s.workers[w := Worker(k.status, Executing(s.queue[0]), k.permits, k.pops + 1)], s.clients, s.control,
         s.removal, None, s.queue[1..], s.max, s.accepted, s.taken + [s.queue[0]], s.sealed, s.mark)
  }

  function StepWorker(s: Pool, w: nat): Option<Pool>
    requires w < |s.workers|
  {
    var k := s.workers[w];
    match k.pc
    case Top =>
      (match k.status
       case WTerminating => Some(Moved(s, w, Leave(k), s.owner))
       case WTerminated => Some(Moved(s, w, Leave(k), s.owner))
       case WRunning => Some(Moved(s, w, At(k, LockQueue), s.owner))
       case WPaused => Some(Moved(s, w, At(k, TopSem), s.owner))
       case WBlocked => Some(Moved(s, w, At(k, Threw), s.owner)))
    case TopSem => if k.permits > 0 then Some(Moved(s, w, Acquired(k, Top), s.owner)) else None
    case LockQueue => if QueueFree(s) then Some(Moved(s, w, At(k, Empty), Some(w))) else None
    case Empty => if s.queue == [] then Some(Moved(s, w, At(k, Before), s.owner)) else Some(Take(s, w))
    case Before =>
      (match k.status
       case WTerminating => Some(Moved(s, w, Leave(k), None))
       case WTerminated => Some(Moved(s, w, Leave(k), None))
       case WPaused => Some(Moved(s, w, At(k, BeforeSem), None))
       case WRunning => Some(Moved(s, w, Worker(WBlocked, Waiting, k.permits, k.pops), s.owner))
       case WBlocked => Some(Moved(s, w, At(k, Waiting), s.owner)))
    case BeforeSem => if k.permits > 0 then Some(Moved(s, w, Acquired(k, BeforeLock), s.owner)) else None
    case BeforeLock => if QueueFree(s) then Some(Moved(s, w, At(k, Before), Some(w))) else None
    case Waiting => Some(Moved(s, w, At(k, Sleeping(false)), None))
    case Sleeping(_) => if QueueFree(s) then Some(Moved(s, w, At(k, After), Some(w))) else None
    case After =>
      (match k.status
       case WTerminating => Some(Moved(s, w, Leave(k), None))
       case WTerminated => Some(Moved(s, w, Leave(k), None))
       case WPaused => Some(Moved(s, w, At(k, AfterSem), None))
       case WBlocked => Some(Moved(s, w, Worker(WRunning, Empty, k.permits, k.pops), s.owner))
       case WRunning => Some(Moved(s, w, At(k, Empty), s.owner)))
    case AfterSem => if k.permits > 0 then Some(Moved(s, w, Acquired(k, AfterLock), s.owner)) else None
    case AfterLock => if QueueFree(s) then Some(Moved(s, w, At(k, After), Some(w))) else None
    case Executing(_) => Some(Moved(s, w, At(k, Top), s.owner))
    case Exited => None
    case Threw => None
  }

  // ----- what is done to one worker -----

  function PauseWorker(k: Worker): Worker {
    match k.status
    case WTerminated => k
    case WTerminating => k
    case WPaused => k
    case WBlocked => Worker(WPaused, k.pc, k.permits, 0)
    case WRunning => Worker(WPaused, k.pc, k.permits, 0)
  }

  function ResumeWorker(k: Worker): Worker {
    if k.status == WPaused then Worker(WRunning, k.pc, k.permits + 1, k.pops) else k
  }

  function TerminateWorker(k: Worker): Worker {
    match k.status
    case WTerminated => k
    case WTerminating => k
    case WRunning => Worker(WTerminating, k.pc, k.permits, k.pops)
    case WBlocked => Worker(WTerminating, k.pc, k.permits, k.pops)
    case WPaused => Worker(WTerminating, k.pc, k.permits + 1, k.pops)
  }

  function Notified(k: Worker): Worker {
    if k.pc.Sleeping? then At(k, Sleeping(true)) else k
  }

  function NotifyAll(ks: seq<Worker>): (r: seq<Worker>)
    ensures |r| == |ks| && forall w :: 0 <= w < |ks| ==> r[w] == Notified(ks[w])
  {
    seq(|ks|, w requires 0 <= w < |ks| => Notified(ks[w]))
  }

  // ----- clients -----

  function WithClient(s: Pool, c: nat, k: Client): Pool
    requires c < |s.clients|
  {
    s.(clients := s.clients[c := k])
  }

  function Push(s: Pool, c: nat): Pool
    requires c < |s.clients| && s.clients[c].Passed?
  {
    var t := s.clients[c].task;
    Pool(s.status, s.workers, s.clients[c := Notifying], s.control, s.removal, s.owner, s.queue + [t], s.max,
         s.accepted + [t], s.taken, s.sealed, s.mark)
  }

  /** `notify_one`: a sleeping worker that was not notified yet, if there is one. */
  function NotifyOne(s: Pool, c: nat, w: nat): Option<Pool>
    requires c < |s.clients|
  {
    if w < |s.workers| && s.workers[w].pc == Sleeping(false) then
      Some(WithClient(Moved(s, w, Notified(s.workers[w]), s.owner), c, Idle))
    else if forall v :: 0 <= v < |s.workers| ==> s.workers[v].pc != Sleeping(false) then Some(WithClient(s, c, Idle))
    else None
  }

  // ----- lifecycle calls -----

  function Became(s: Pool, status: PoolStatus, control: Control): Pool {
    s.(status := status, control := control)
  }

  /** SHUTDOWN is set: from here on the accepted tasks are those there are. */
  function Sealing(s: Pool): Pool {
    s.(status := Shutdown, control := ShutWait, sealed := Some(s.accepted))
  }

  function BeginCall(s: Pool, call: Call): Pool {
    match call
    case PauseCall => if s.status == Running then Became(s, Paused, Pausing(0)) else s
    case ResumeCall =>
      if s.status == Paused then Became(s, Running, Resuming(0, false))
      else if s.status == Shutdown then Became(s, Shutdown, Resuming(0, false)) else s
    case ShutdownCall =>
      if s.status == Paused then Became(s, Running, Resuming(0, true))
      else if s.status == Running then Sealing(s) else s
    case TerminateCall => if s.status == Terminated then s else Became(s, Terminating, Term(0))
  }

  function SetWorker(s: Pool, w: nat, k: Worker, control: Control): Pool
    requires w < |s.workers|
  {
    s.(workers := s.workers[w := k], control := control)
  }

  function PauseReturns(s: Pool): Pool {
    s.(control := NoControl, mark := |s.taken|)
  }

  function TerminateReturns(s: Pool): Pool {
    s.(status := Terminated, control := NoControl, workers := NotifyAll(s.workers))
  }

  function StepControl(s: Pool): Option<Pool> {
    match s.control
    case NoControl => None
    case Pausing(i) =>
      if i < |s.workers| then Some(SetWorker(s, i, PauseWorker(s.workers[i]), Pausing(i + 1))) else Some(PauseReturns(s))
    case Resuming(i, shutting) =>
      if i < |s.workers| then Some(SetWorker(s, i, ResumeWorker(s.workers[i]), Resuming(i + 1, shutting)))
      else if shutting then Some(Sealing(s)) else Some(Became(s, s.status, NoControl))
    case ShutWait => if s.owner == None && s.queue == [] then Some(Became(s, Terminating, ShutTerm(0))) else None
    case ShutTerm(i) =>
      if i < |s.workers| then Some(SetWorker(s, i, TerminateWorker(s.workers[i]), ShutTerm(i + 1))) else Some(TerminateReturns(s))
    case Term(i) =>
      if i < |s.workers| then Some(SetWorker(s, i, TerminateWorker(s.workers[i]), Term(i + 1))) else Some(TerminateReturns(s))
  }

  // ----- removing workers -----

  function BeginRemoval(s: Pool, count: nat): Pool {
    s.(removal := Removing(if count < |s.workers| then |s.workers| - count else 0, |s.workers|))
  }

  function TerminateLast(s: Pool, keep: nat, w: nat): Pool
    requires w < |s.workers|
  {
    s.(workers := s.workers[w := TerminateWorker(s.workers[w])], removal := Removing(keep, w))
  }

  function NotifyRemoved(s: Pool, keep: nat): Pool {
    s.(workers := NotifyAll(s.workers), removal := Joining(keep))
  }

  /** The removed workers have been joined. */
  function Joined(s: Pool, keep: nat): Pool
    requires keep <= |s.workers|
  {
    s.(workers := s.workers[..keep], removal := NoRemoval)
  }

  function StepRemoval(s: Pool): Option<Pool> {
    match s.removal
    case NoRemoval => None
    case Removing(keep, i) =>
      if keep < i <= |s.workers| then Some(TerminateLast(s, keep, i - 1)) else Some(NotifyRemoved(s, keep))
    case Joining(keep) =>
      if keep <= |s.workers| && forall w :: keep <= w < |s.workers| ==> s.workers[w].pc.Exited? then Some(Joined(s, keep)) else None
  }

  // ----- steps -----

  /** Nobody has the pool's status lock shared. */
  predicate NoSharer(s: Pool) {
    s.removal == NoRemoval && forall c :: 0 <= c < |s.clients| ==> s.clients[c] == Idle
  }

  function Step(s: Pool, a: Action): Option<Pool> {
    match a
    case WorkerStep(w) => if w < |s.workers| then StepWorker(s, w) else None
    case SubmitEnter(c, t) =>
      if c < |s.clients| && s.clients[c] == Idle && s.control == NoControl then
        Some(if s.status == Running then WithClient(s, c, Entered(t)) else s)
      else None
    case SubmitCheck(c) =>
      if c < |s.clients| && s.clients[c].Entered? && s.owner == None then
        Some(WithClient(s, c, if s.max > 0 && |s.queue| >= s.max then Idle else Passed(s.clients[c].task)))
      else None
    case SubmitPush(c) => if c < |s.clients| && s.clients[c].Passed? && QueueFree(s) then Some(Push(s, c)) else None
    case SubmitNotify(c, w) => if c < |s.clients| && s.clients[c].Notifying? then NotifyOne(s, c, w) else None
    case WaitEnter(c) =>
      if c < |s.clients| && s.clients[c] == Idle && s.control == NoControl then
        Some(if s.status == Terminated then s else WithClient(s, c, AwaitingEmpty))
      else None
    case WaitLeave(c) =>
      if c < |s.clients| && s.clients[c].AwaitingEmpty? && s.owner == None && s.queue == [] then Some(WithClient(s, c, Idle)) else None
    case AddThread =>
      if s.control == NoControl && s.removal == NoRemoval then
        (if s.status == Running || s.status == Shutdown then Some(s.(workers := s.workers + [NEW_WORKER])) else Some(s))
      else None
    case RemoveThread(count) =>
      if s.control == NoControl && s.removal == NoRemoval then
        (if s.status == Running || s.status == Shutdown then Some(BeginRemoval(s, count)) else Some(s))
      else None
    case RemoveStep => StepRemoval(s)
    case Begin(call) => if s.control == NoControl && NoSharer(s) then Some(BeginCall(s, call)) else None
    case ControlStep => StepControl(s)
  }

  /** The state after a list of actions, if each of them can happen when its turn comes. */
  function Run(s: Pool, acts: seq<Action>): Option<Pool>
    decreases |acts|
  {
    if acts == [] then Some(s)
    else match Step(s, acts[0])
      case None => None
      case Some(t) => Run(t, acts[1..])
  }
}
