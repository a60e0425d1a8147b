/** What every reachable state of the pool keeps. */
module ThreadPoolSafety {
  import opened Common
  import opened ThreadPools

  predicate HasQueueLock(pc: Pc) {
    pc.Empty? || pc.Before? || pc.Waiting? || pc.After?
  }

  predicate AtSem(pc: Pc) {
    pc.TopSem? || pc.BeforeSem? || pc.AfterSem?
  }

  /** 1 for a worker that is past its last check of the status and may still take a task. */
  function Credit(pc: Pc): nat {
    if pc.LockQueue? || pc.Empty? then 1 else 0
  }

  ghost predicate WorkerOk(k: Worker, owns: bool) {
    && (owns <==> HasQueueLock(k.pc))
    && (k.status == WBlocked ==> k.pc.Waiting? || k.pc.Sleeping? || k.pc.After?)
    && (k.status == WTerminated <==> k.pc.Exited?)
    && !k.pc.Threw?
    && (AtSem(k.pc) && k.status != WPaused ==> k.permits > 0)
    && (k.status == WPaused ==> k.pops + Credit(k.pc) <= 1)
  }

  ghost predicate WorkersOk(s: Pool) {
    && (s.owner.Some? ==> s.owner.value < |s.workers|)
    && forall w :: 0 <= w < |s.workers| ==> WorkerOk(s.workers[w], s.owner == Some(w))
  }

  predicate Live(k: Worker) {
    k.status == WRunning || k.status == WBlocked
  }

  predicate Ended(k: Worker) {
    k.status == WTerminating || k.status == WTerminated
  }

  predicate Held(k: Worker) {
    k.status == WPaused
  }

  ghost predicate AllFrom(ks: seq<Worker>, from: nat, to: nat, p: Worker -> bool) {
    forall w :: from <= w < to && w < |ks| ==> p(ks[w])
  }

  /** The workers that `remove_thread` has come to are ended, all others are at work. */
  ghost predicate RemovalOk(s: Pool) {
    var n := |s.workers|;
    match s.removal
    case NoRemoval => AllFrom(s.workers, 0, n, Live)
    case Removing(keep, i) => keep <= i <= n && AllFrom(s.workers, 0, i, Live) && AllFrom(s.workers, i, n, Ended)
    case Joining(keep) => keep <= n && AllFrom(s.workers, 0, keep, Live) && AllFrom(s.workers, keep, n, Ended)
  }

  /** The pool status, the lifecycle call and the workers' statuses belong together. */
  ghost predicate PhaseOk(s: Pool) {
    var n := |s.workers|;
    match s.control
    case NoControl =>
      && (s.status == Running ==> RemovalOk(s))
      && (s.removal != NoRemoval ==> s.status == Running)
      && (s.status == Paused ==> AllFrom(s.workers, 0, n, Held))
      && (s.status == Terminated ==> AllFrom(s.workers, 0, n, Ended))
      && s.status != Terminating && s.status != Shutdown
    case Pausing(i) => s.status == Paused && i <= n && AllFrom(s.workers, 0, i, Held) && AllFrom(s.workers, i, n, Live)
    case Resuming(i, _) => s.status == Running && i <= n && AllFrom(s.workers, 0, i, Live) && AllFrom(s.workers, i, n, Held)
    case ShutWait => s.status == Shutdown && AllFrom(s.workers, 0, n, Live)
    case ShutTerm(i) => s.status == Terminating && i <= n && AllFrom(s.workers, 0, i, Ended) && s.owner == None
    case Term(i) => s.status == Terminating && i <= n && AllFrom(s.workers, 0, i, Ended)
  }

  ghost predicate ClientsOk(s: Pool) {
    && (s.control != NoControl ==> NoSharer(s))
    && forall c :: 0 <= c < |s.clients| && (s.clients[c].Entered? || s.clients[c].Passed?) ==> s.status == Running
  }

  /** Every accepted task was taken or is in the queue, once, in the order of acceptance. */
  ghost predicate FifoOk(s: Pool) {
    s.accepted == s.taken + s.queue
  }

  /** After SHUTDOWN was set nothing is accepted, and the pool goes on only when the queue has run empty. */
  ghost predicate SealOk(s: Pool) {
    && (s.sealed.Some? ==> s.accepted == s.sealed.value && s.status in {Shutdown, Terminating, Terminated})
    && (s.sealed.Some? && s.status != Shutdown ==> s.queue == [])
    && (s.status == Shutdown || s.control.ShutTerm? ==> s.sealed.Some?)
  }

  function Credits(ks: seq<Worker>): nat {
    if ks == [] then 0 else Credit(ks[0].pc) + Credits(ks[1..])
  }

  ghost predicate PauseOk(s: Pool) {
    s.status == Paused && s.control == NoControl ==> |s.taken| + Credits(s.workers) <= s.mark + |s.workers|
  }

  function PassedCount(cs: seq<Client>): nat {
    if cs == [] then 0 else (if cs[0].Passed? then 1 else 0) + PassedCount(cs[1..])
  }

  /** The queue and the submitters that may still push. */
  ghost predicate RoomOk(s: Pool) {
    s.max > 0 ==> |s.queue| + PassedCount(s.clients) <= s.max - 1 + |s.clients|
  }

  ghost predicate Inv(s: Pool) {
    WorkersOk(s) && PhaseOk(s) && ClientsOk(s) && FifoOk(s) && SealOk(s) && PauseOk(s) && RoomOk(s)
  }

  // ----- sums -----

  lemma {:induction false} CreditsSet(ks: seq<Worker>, w: nat, k: Worker)
    requires w < |ks|
    ensures Credits(ks[w := k]) == Credits(ks) - Credit(ks[w].pc) + Credit(k.pc)
  {
    if w > 0 {
      assert ks[w := k][1..] == ks[1..][w - 1 := k];
      CreditsSet(ks[1..], w - 1, k);
    } else {
      assert ks[w := k][1..] == ks[1..];
    }
  }

  lemma {:induction false} CreditsAtMost(ks: seq<Worker>)
    ensures Credits(ks) <= |ks|
  {
    if ks != [] {
      CreditsAtMost(ks[1..]);
    }
  }

  lemma {:induction false} PassedSet(cs: seq<Client>, c: nat, k: Client)
    requires c < |cs|
    ensures PassedCount(cs[c := k]) == PassedCount(cs) - (if cs[c].Passed? then 1 else 0) + if k.Passed? then 1 else 0
  {
    if c > 0 {
      assert cs[c := k][1..] == cs[1..][c - 1 := k];
      PassedSet(cs[1..], c - 1, k);
    } else {
      assert cs[c := k][1..] == cs[1..];
    }
  }

  lemma {:induction false} PassedAtMost(cs: seq<Client>)
    ensures PassedCount(cs) <= |cs|
  {
    if cs != [] {
      PassedAtMost(cs[1..]);
    }
  }

  // ----- steps of workers -----

  /** What a worker's step can change: itself, the queue lock, and one task from the front of the queue. */
  lemma WorkerStepFrame(s: Pool, w: nat)
    requires WorkersOk(s) && w < |s.workers| && StepWorker(s, w).Some?
    ensures var t := StepWorker(s, w).value;
            && |t.workers| == |s.workers| && t.workers == s.workers[w := t.workers[w]]
            && t.status == s.status && t.clients == s.clients && t.control == s.control && t.removal == s.removal && t.max == s.max
            && t.accepted == s.accepted && t.sealed == s.sealed && t.mark == s.mark
            && (Live(s.workers[w]) ==> Live(t.workers[w])) && (Held(s.workers[w]) ==> Held(t.workers[w]))
            && (Ended(s.workers[w]) ==> Ended(t.workers[w]))
            && (t.owner == s.owner || t.owner == None || t.owner == Some(w))
            && (s.owner == None && s.control.ShutTerm? ==> t.owner == None)
            && (if s.workers[w].pc.Empty? && s.queue != [] then t.queue == s.queue[1..] && t.taken == s.taken + [s.queue[0]]
                else t.queue == s.queue && t.taken == s.taken)
            && (Held(s.workers[w]) ==> |t.taken| + Credit(t.workers[w].pc) <= |s.taken| + Credit(s.workers[w].pc))
  {
  }

  lemma WorkerStepWorkers(s: Pool, w: nat)
    requires WorkersOk(s) && w < |s.workers| && StepWorker(s, w).Some?
    ensures WorkersOk(StepWorker(s, w).value)
  {
    var t := StepWorker(s, w).value;
    WorkerStepFrame(s, w);
    forall v | 0 <= v < |t.workers| ensures WorkerOk(t.workers[v], t.owner == Some(v)) {
      assert WorkerOk(s.workers[v], s.owner == Some(v));
      assert WorkerOk(s.workers[w], s.owner == Some(w));
    }
  }

  lemma AllFromSet(ks: seq<Worker>, w: nat, k: Worker, from: nat, to: nat, p: Worker -> bool)
    requires w < |ks| && AllFrom(ks, from, to, p) && (p(ks[w]) ==> p(k))
    ensures AllFrom(ks[w := k], from, to, p)
  {
  }

  lemma WorkerStepPhase(s: Pool, w: nat)
    requires WorkersOk(s) && PhaseOk(s) && w < |s.workers| && StepWorker(s, w).Some?
    ensures PhaseOk(StepWorker(s, w).value)
  {
    WorkerStepFrame(s, w);
    var k, n := StepWorker(s, w).value.workers[w], |s.workers|;
    forall from, to, p: Worker -> bool | p in {Live, Held, Ended} && AllFrom(s.workers, from, to, p)
      ensures AllFrom(s.workers[w := k], from, to, p)
    {
      AllFromSet(s.workers, w, k, from, to, p);
    }
  }

  lemma WorkerStepInv(s: Pool, w: nat)
    requires Inv(s) && w < |s.workers| && StepWorker(s, w).Some?
    ensures Inv(StepWorker(s, w).value)
  {
    var t := StepWorker(s, w).value;
    WorkerStepFrame(s, w);
    WorkerStepWorkers(s, w);
    WorkerStepPhase(s, w);
    CreditsSet(s.workers, w, t.workers[w]);
    if s.workers[w].pc.Empty? && s.queue != [] {
      assert s.queue == [s.queue[0]] + s.queue[1..];
    }
  }

  // ----- steps of clients -----

  lemma ClientSetInv(s: Pool, c: nat, k: Client)
    requires Inv(s) && c < |s.clients|
    requires s.control != NoControl ==> k == Idle
    requires k.Entered? || k.Passed? ==> s.status == Running
    requires k.Passed? && !s.clients[c].Passed? ==> s.max > 0 ==> |s.queue| < s.max
    ensures Inv(WithClient(s, c, k))
  {
    PassedSet(s.clients, c, k);
    PassedAtMost(s.clients[c := k]);
  }

  lemma PushInv(s: Pool, c: nat)
    requires Inv(s) && c < |s.clients| && s.clients[c].Passed?
    ensures Inv(Push(s, c))
  {
    PassedSet(s.clients, c, Notifying);
    assert s.status == Running && s.control == NoControl;
  }

  lemma NotifyInv(s: Pool, w: nat)
    requires Inv(s) && w < |s.workers|
    ensures Inv(Moved(s, w, Notified(s.workers[w]), s.owner))
  {
    var k := Notified(s.workers[w]);
    CreditsSet(s.workers, w, k);
    forall v | 0 <= v < |s.workers| ensures WorkerOk(s.workers[w := k][v], s.owner == Some(v)) {
      assert WorkerOk(s.workers[v], s.owner == Some(v));
    }
  }

  // ----- steps of lifecycle calls -----

  lemma SetWorkerOk(s: Pool, w: nat, k: Worker)
    requires WorkersOk(s) && w < |s.workers| && k in {PauseWorker(s.workers[w]), ResumeWorker(s.workers[w]), TerminateWorker(s.workers[w])}
    ensures forall v :: 0 <= v < |s.workers| ==> WorkerOk(s.workers[w := k][v], s.owner == Some(v))
  {
    forall v | 0 <= v < |s.workers| ensures WorkerOk(s.workers[w := k][v], s.owner == Some(v)) {
      assert WorkerOk(s.workers[v], s.owner == Some(v));
      assert WorkerOk(s.workers[w], s.owner == Some(w));
    }
  }

  lemma PausingInv(s: Pool, i: nat)
    requires Inv(s) && s.control == Pausing(i)
    ensures Inv(StepControl(s).value)
  {
    if i < |s.workers| {
      SetWorkerOk(s, i, PauseWorker(s.workers[i]));
    } else {
      CreditsAtMost(s.workers);
    }
  }

  lemma ResumingInv(s: Pool, i: nat, shutting: bool)
    requires Inv(s) && s.control == Resuming(i, shutting)
    ensures Inv(StepControl(s).value)
  {
    if i < |s.workers| {
      SetWorkerOk(s, i, ResumeWorker(s.workers[i]));
    }
  }

  lemma TerminatingInv(s: Pool, i: nat)
    requires Inv(s) && (s.control == ShutTerm(i) || s.control == Term(i))
    ensures Inv(StepControl(s).value)
  {
    if i < |s.workers| {
      SetWorkerOk(s, i, TerminateWorker(s.workers[i]));
    } else {
      TerminateReturnsInv(s);
    }
  }

  lemma ControlStepInv(s: Pool)
    requires Inv(s) && StepControl(s).Some?
    ensures Inv(StepControl(s).value)
  {
    match s.control
    case Pausing(i) => PausingInv(s, i);
    case Resuming(i, shutting) => ResumingInv(s, i, shutting);
    case ShutWait =>
    case ShutTerm(i) => TerminatingInv(s, i);
    case Term(i) => TerminatingInv(s, i);
  }

  lemma TerminateReturnsInv(s: Pool)
    requires Inv(s) && (s.control == ShutTerm(|s.workers|) || s.control == Term(|s.workers|))
    ensures Inv(TerminateReturns(s))
  {
    NotifyAllOk(s);
  }

  lemma AddThreadInv(s: Pool)
    requires Inv(s) && s.control == NoControl && s.removal == NoRemoval && s.status == Running
    ensures Inv(s.(workers := s.workers + [NEW_WORKER]))
  {
  }

  lemma RemovalStepInv(s: Pool)
    requires Inv(s) && StepRemoval(s).Some?
    ensures Inv(StepRemoval(s).value)
  {
    match s.removal
    case Removing(keep, i) =>
      if keep < i {
        SetWorkerOk(s, i - 1, TerminateWorker(s.workers[i - 1]));
      } else {
        NotifyAllOk(s);
      }
    case Joining(keep) =>
      if s.owner.Some? {
        assert WorkerOk(s.workers[s.owner.value], true);
      }
      forall v | 0 <= v < keep ensures WorkerOk(s.workers[..keep][v], s.owner == Some(v)) {
        assert WorkerOk(s.workers[v], s.owner == Some(v));
      }
  }

  lemma NotifyAllOk(s: Pool)
    requires WorkersOk(s)
    ensures forall v :: 0 <= v < |s.workers| ==> WorkerOk(NotifyAll(s.workers)[v], s.owner == Some(v))
  {
    forall v | 0 <= v < |s.workers| ensures WorkerOk(Notified(s.workers[v]), s.owner == Some(v)) {
      assert WorkerOk(s.workers[v], s.owner == Some(v));
    }
  }

  lemma SubmitStepInv(s: Pool, a: Action)
    requires Inv(s) && Step(s, a).Some? && (a.SubmitEnter? || a.SubmitCheck? || a.SubmitPush?)
    ensures Inv(Step(s, a).value)
  {
    match a
    case SubmitEnter(c, t) =>
      if s.status == Running {
        ClientSetInv(s, c, Entered(t));
      }
    case SubmitCheck(c) =>
      ClientSetInv(s, c, if s.max > 0 && |s.queue| >= s.max then Idle else Passed(s.clients[c].task));
    case SubmitPush(c) => PushInv(s, c);
  }

  lemma NotifyStepInv(s: Pool, c: nat, w: nat)
    requires Inv(s) && c < |s.clients| && s.clients[c].Notifying? && NotifyOne(s, c, w).Some?
    ensures Inv(NotifyOne(s, c, w).value)
  {
    if w < |s.workers| && s.workers[w].pc == Sleeping(false) {
      NotifyInv(s, w);
      ClientSetInv(Moved(s, w, Notified(s.workers[w]), s.owner), c, Idle);
    } else {
      ClientSetInv(s, c, Idle);
    }
  }

  lemma WaitStepInv(s: Pool, a: Action)
    requires Inv(s) && Step(s, a).Some? && (a.WaitEnter? || a.WaitLeave?)
    ensures Inv(Step(s, a).value)
  {
    match a
    case WaitEnter(c) =>
      if s.status != Terminated {
        ClientSetInv(s, c, AwaitingEmpty);
      }
    case WaitLeave(c) => ClientSetInv(s, c, Idle);
  }

  lemma BeginInv(s: Pool, call: Call)
    requires Inv(s) && s.control == NoControl && NoSharer(s)
    ensures Inv(BeginCall(s, call))
  {
  }

  /** Every step keeps the invariant. */
  lemma StepInv(s: Pool, a: Action)
    requires Inv(s) && Step(s, a).Some?
    ensures Inv(Step(s, a).value)
  {
    if a.WorkerStep? {
      WorkerStepInv(s, a.w);
    } else if a.SubmitEnter? || a.SubmitCheck? || a.SubmitPush? {
      SubmitStepInv(s, a);
    } else if a.SubmitNotify? {
      NotifyStepInv(s, a.c, a.woken);
    } else if a.WaitEnter? || a.WaitLeave? {
      WaitStepInv(s, a);
    } else if a.AddThread? {
      if s.status == Running {
        AddThreadInv(s);
      }
    } else if a.RemoveThread? {
    } else if a.RemoveStep? {
      RemovalStepInv(s);
    } else if a.Begin? {
      BeginInv(s, a.call);
    } else {
      ControlStepInv(s);
    }
  }

  lemma NewPoolInv(workers: nat, clients: nat, max: nat)
    ensures Inv(NewPool(workers, clients, max))
  {
    NonePassed(NewPool(workers, clients, max).clients);
  }

  lemma {:induction false} NonePassed(cs: seq<Client>)
    requires forall c :: 0 <= c < |cs| ==> cs[c] == Idle
    ensures PassedCount(cs) == 0
  {
    if cs != [] {
      NonePassed(cs[1..]);
    }
  }

  /** Every state any run reaches keeps the invariant. */
  lemma {:induction false} RunInv(s: Pool, acts: seq<Action>)
    requires Inv(s) && Run(s, acts).Some?
    ensures Inv(Run(s, acts).value)
    decreases |acts|
  {
    if acts != [] {
      StepInv(s, acts[0]);
      RunInv(Step(s, acts[0]).value, acts[1..]);
    }
  }
}
