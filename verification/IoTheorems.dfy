/** The promises of the hand-over, for every interleaving, and where they end. */
module IoTheorems {
  import opened Common
  import opened BlockFile
  import opened TablesSpec
  import opened TwoMaps
  import opened IoProtocol
  import opened IoSafety

  // ----- answers -----

  /** Every answer from the write buffer, from the index, or from a read buffer that was last loaded from the key's
      block is what the two maps gave at one moment of the request. */
  lemma GetsAreLinearizable(s: System, acts: seq<Action>, i: nat) returns (m: nat)
    requires Inv(s) && Run(s, acts).Some? && i < |Run(s, acts).value.log| && Run(s, acts).value.log[i].loaded
    ensures var t := Run(s, acts).value; var r := t.log[i];
            r.since <= m < r.until <= |t.specs| && SpecGet(t.specs[m], r.key) == r.value
  {
    RunInv(s, acts);
    var t := Run(s, acts).value;
    assert ReplyOk(t.specs, t.log[i]);
    m :| t.log[i].since <= m < t.log[i].until && Answers(t.specs[m], t.log[i].key, t.log[i].value);
  }

  /** While no flush has the lock, the buffer is W and the written blocks are D, and their history is a run of the
      specification's operations. */
  lemma HistoryIsSpecRun(s: System, acts: seq<Action>)
    requires Inv(s) && Run(s, acts).Some? && !Run(s, acts).value.lock.HandedOver?
    ensures var t := Run(s, acts).value;
            && SpecRun(t.specs) && t.W == Now(t).W
            && (forall k :: k in Now(t).D <==> k in t.index)
            && forall k :: k in t.index ==> t.index[k] in t.blocks && Now(t).D[k] == Text(t.blocks[t.index[k]], k)
  {
    RunInv(s, acts);
    var t := Run(s, acts).value;
    forall k ensures DiskOk(t, k) && (k in t.index ==> t.index[k] in t.blocks) {
      assert DiskOk(t, k);
      if k in t.index {
        assert KeyOk(t, k);
        UsedIsWritten(t, t.index[k]);
      }
    }
  }

  // ----- from an overflowing PUT to the end of its flush -----

  /** Nothing of the write buffer's side is changed. */
  ghost predicate BufferKept(s: System, t: System) {
    t.W == s.W && t.lock == s.lock && t.blocks == s.blocks && t.index == s.index && t.specs == s.specs
  }

  lemma LoadStepKeeps(s: System, q: nat, key: int32)
    requires q < |s.jobs| == |s.queues| && s.specs != [] && StepIo(s, q, key).Some?
    requires Resting(s.jobs[q]) || s.jobs[q].Loading? || s.jobs[q].Filling? || s.jobs[q].Answering?
    ensures BufferKept(s, StepIo(s, q, key).value)
  {
  }

  /** A request without the write lock moves only itself, and what is for the read buffer. */
  ghost predicate RequestFrame(s: System, t: System, a: Action)
    requires !a.IoStep? && a.t < |s.threads|
  {
    && BufferKept(s, t) && |t.threads| == |s.threads| && t.threads == s.threads[a.t := t.threads[a.t]]
    && (!a.Notify? ==> t.jobs == s.jobs) && (!a.GetClaim? ==> t.readBlock == s.readBlock)
  }

  lemma LookUpKeeps(s: System, a: Action)
    requires a.GetLookup? && a.t < |s.threads| && s.specs != [] && StepRequest(s, a).Some?
    ensures RequestFrame(s, StepRequest(s, a).value, a)
  {
  }

  lemma SearchKeeps(s: System, a: Action)
    requires a.GetSearch? && a.t < |s.threads| && s.specs != [] && StepRequest(s, a).Some?
    ensures RequestFrame(s, StepRequest(s, a).value, a)
  {
  }

  lemma ClaimKeeps(s: System, a: Action)
    requires (a.GetCompare? || a.GetClaim?) && a.t < |s.threads| && s.specs != [] && StepRequest(s, a).Some?
    ensures RequestFrame(s, StepRequest(s, a).value, a)
  {
  }

  lemma SubmitKeeps(s: System, a: Action)
    requires (a.GetSubmit?) && a.t < |s.threads| && s.specs != [] && StepRequest(s, a).Some?
    ensures RequestFrame(s, StepRequest(s, a).value, a)
  {
  }

  lemma ReadKeeps(s: System, a: Action)
    requires a.GetRead? && a.t < |s.threads| && s.specs != [] && StepRequest(s, a).Some?
    ensures RequestFrame(s, StepRequest(s, a).value, a)
  {
  }

  lemma NotifyKeeps(s: System, a: Action)
    requires a.Notify? && a.t < |s.threads| && s.specs != [] && StepRequest(s, a).Some?
    ensures RequestFrame(s, StepRequest(s, a).value, a)
  {
  }

  lemma LeaveKeeps(s: System, c: nat)
    requires c < |s.threads| && s.lock != Kept(c)
    ensures RequestFrame(s, Leave(s, c), PutLeave(c))
  {
  }

  lemma UnlockedStepKeeps(s: System, a: Action)
    requires !a.IoStep? && a.t < |s.threads| && s.specs != [] && StepRequest(s, a).Some?
    requires (s.lock.HandedOver? || s.lock.Kept?) && !HasWriteLock(s.threads[a.t]) && !(a.PutLeave? && s.lock == Kept(a.t))
    ensures RequestFrame(s, StepRequest(s, a).value, a)
  {
    if a.PutLeave? {
      LeaveKeeps(s, a.t);
    } else if a.GetSearch? {
      SearchKeeps(s, a);
    } else if a.GetLookup? {
      LookUpKeeps(s, a);
    } else if a.GetCompare? || a.GetClaim? {
      ClaimKeeps(s, a);
    } else if a.GetSubmit? {
      SubmitKeeps(s, a);
    } else if a.Notify? {
      NotifyKeeps(s, a);
    } else {
      ReadKeeps(s, a);
    }
  }

  /** While a flush has the write lock only its own worker changes the buffer, the lock or the blocks, and no request
      reads the buffer or has the lock. */
  lemma OnlyTheFlush(s: System, a: Action)
    requires Inv(s) && s.lock.HandedOver? && Step(s, a).Some? && !(a.IoStep? && a.q + 1 == s.lock.b)
    ensures BufferKept(s, Step(s, a).value) && NobodyIn(Step(s, a).value)
  {
    if a.IoStep? {
      assert QueueOk(s, a.q);
      LoadStepKeeps(s, a.q, a.key);
    } else {
      assert HasWriteLock(s.threads[a.t]) <==> s.lock == Held(a.t);
      UnlockedStepKeeps(s, a);
    }
    StepInv(s, a);
    HandedOverIsExclusive(Step(s, a).value);
  }

  /** No request has the write lock, shared or not. */
  ghost predicate NobodyIn(s: System) {
    NoReader(s) && forall c :: 0 <= c < |s.threads| ==> !HasWriteLock(s.threads[c])
  }

  lemma HandedOverIsExclusive(s: System)
    requires LockOk(s) && (s.lock.HandedOver? || s.lock.Kept?)
    ensures NobodyIn(s)
  {
  }

  /** And when the flush is over before the PUT that submitted it has returned, nothing but that return does. */
  lemma OnlyThePut(s: System, a: Action)
    requires Inv(s) && s.lock.Kept? && Step(s, a).Some?
    ensures if a == PutLeave(s.lock.t) then Step(s, a).value.lock == Free else BufferKept(s, Step(s, a).value) && NobodyIn(Step(s, a).value)
  {
    StepInv(s, a);
    if a.IoStep? {
      assert QueueOk(s, a.q);
      LoadStepKeeps(s, a.q, a.key);
      HandedOverIsExclusive(Step(s, a).value);
    } else if a != PutLeave(s.lock.t) {
      assert HasWriteLock(s.threads[a.t]) <==> s.lock == Held(a.t);
      UnlockedStepKeeps(s, a);
      HandedOverIsExclusive(Step(s, a).value);
    }
  }

  /** A flush is waiting in the queue of worker q, or the worker is at it. */
  ghost predicate FlushAt(s: System, q: nat)
    requires q < |s.queues| == |s.jobs|
  {
    || (exists i :: 0 <= i < |s.queues[q]| && s.queues[q][i].Flush?)
    || s.jobs[q].Mapping? || s.jobs[q].Storing? || s.jobs[q].Clearing? || s.jobs[q].Releasing?
  }

  ghost predicate SomeCopy(s: System) {
    exists c :: 0 <= c < |s.threads| && HasCopy(s.threads[c])
  }

  /** There is never more than one flush, and there is one exactly while the lock is handed over to a block; after
      that the lock is kept exactly as long as the PUT that submitted the flush has not returned. */
  lemma OneFlush(s: System, acts: seq<Action>, q: nat)
    requires Inv(s) && Run(s, acts).Some? && q < IO_WORKERS
    ensures var t := Run(s, acts).value;
            && |t.queues| == |t.jobs| == IO_WORKERS && (FlushAt(t, q) <==> t.lock == HandedOver(q + 1))
            && (t.lock.Kept? <==> !t.lock.HandedOver? && SomeCopy(t))
  {
    RunInv(s, acts);
    var t := Run(s, acts).value;
    assert QueueOk(t, q);
    if t.lock == HandedOver(q + 1) && Resting(t.jobs[q]) {
      assert t.queues[q][0].Flush?;
    }
  }

  lemma HandedStep(s: System, a: Action, b: nat)
    requires Inv(s) && Step(s, a).Some? && b in s.handed
    ensures b in Step(s, a).value.handed && Step(s, a).value.handed[b] == s.handed[b]
  {
    if a.PutHandOver? {
      assert HasWriteLock(s.threads[a.t]) <==> s.lock == Held(a.t);
      NewlyHanded(s);
    } else {
      HandedKept(s, a);
    }
  }

  lemma NewlyHanded(s: System)
    requires Inv(s) && s.lock.Held?
    ensures FirstFree(s.used, 0) !in s.handed
  {
    FirstFreeIs(s.used, 0);
  }

  lemma HandedKept(s: System, a: Action)
    requires Step(s, a).Some? && !a.PutHandOver?
    ensures Step(s, a).value.handed == s.handed
  {
    if a.IoStep? {
      HandedKeptByIo(s, a.q, a.key);
    } else if a.GetSubmit? || a.Notify? || a.GetLookup? {
      HandedKeptLate(s, a);
    }
  }

  lemma HandedKeptLate(s: System, a: Action)
    requires Step(s, a).Some? && (a.GetSubmit? || a.Notify? || a.GetLookup?)
    ensures Step(s, a).value.handed == s.handed
  {
  }

  lemma HandedKeptByIo(s: System, q: nat, key: int32)
    requires q < |s.jobs| == |s.queues| && s.specs != [] && StepIo(s, q, key).Some?
    ensures StepIo(s, q, key).value.handed == s.handed
  {
  }

  lemma {:induction false} HandedFixed(s: System, acts: seq<Action>, b: nat)
    requires Inv(s) && Run(s, acts).Some? && b in s.handed
    ensures b in Run(s, acts).value.handed && Run(s, acts).value.handed[b] == s.handed[b]
    decreases |acts|
  {
    if acts != [] {
      HandedStep(s, acts[0], b);
      StepInv(s, acts[0]);
      HandedFixed(Step(s, acts[0]).value, acts[1..], b);
    }
  }

  /** Whatever else runs, the block gets exactly what the buffer held at the overflowing PUT, and keeps it; until then
      the buffer is unchanged. */
  lemma SnapshotStored(s: System, c: nat, acts: seq<Action>)
    requires Inv(s) && c < |s.threads| && s.threads[c].PutDone? && Run(HandOver(s, c), acts).Some?
    ensures var b := FirstFree(s.used, 0); var t := Run(HandOver(s, c), acts).value;
            && (b in t.blocks ==> t.blocks[b] == s.W)
            && (t.lock == HandedOver(b) && b !in t.blocks ==> t.W == s.W)
  {
    HandOverInv(s, c);
    assert FirstFree(s.used, 0) in HandOver(s, c).handed;
    HandedFixed(HandOver(s, c), acts, FirstFree(s.used, 0));
    RunInv(HandOver(s, c), acts);
  }

  ghost predicate LoadOk(s: System, q: nat, b: nat, k: int32) {
    && b == q + 1 && b in s.blocks && b in s.handed && s.blocks[b] == s.handed[b]
    && k in s.blocks[b] && s.lock != HandedOver(b)
  }

  lemma LoadingOk(s: System, q: nat)
    requires Inv(s) && q < IO_WORKERS && (s.jobs[q].Loading? || s.jobs[q].Filling?)
    ensures LoadOk(s, q, s.jobs[q].b, s.jobs[q].key)
  {
    assert QueueOk(s, q);
    assert KeyOk(s, s.jobs[q].key);
  }

  /** A load finds its block completely written, and its key in it. */
  lemma LoadsFindTheirBlock(s: System, acts: seq<Action>, q: nat)
    requires Inv(s) && Run(s, acts).Some? && q < |Run(s, acts).value.jobs|
    requires Run(s, acts).value.jobs[q].Loading? || Run(s, acts).value.jobs[q].Filling?
    ensures LoadOk(Run(s, acts).value, q, Run(s, acts).value.jobs[q].b, Run(s, acts).value.jobs[q].key)
  {
    RunInv(s, acts);
    LoadingOk(Run(s, acts).value, q);
  }

  // ----- whether the flush is ever run -----

  /** The kinds of steps a flush still has to make. */
  function Remaining(job: Job): nat {
    match job
    case Sleeping(_) => 6
    case Looking => 5
    case Mapping(_, _) => 4
    case Storing(_) => 3
    case Clearing(_) => 2
    case Releasing(_) => 1
    case _ => 0
  }

  function Todo(job: Job): nat {
    if job.Mapping? then |job.todo| else 0
  }

  ghost predicate Advances(s: System, t: System, b: nat) {
    && 0 < b <= |s.jobs| == |t.jobs|
    && var job, next := s.jobs[b - 1], t.jobs[b - 1];
       if job.Releasing? then t.lock == Dropped(s.threads) && b in t.blocks && t.W == map[]
       else t.lock == s.lock && next != Sleeping(false)
            && (Remaining(next) < Remaining(job) || (Remaining(next) == Remaining(job) && Todo(next) < Todo(job)))
  }

  lemma MappingGoesOn(s: System, b: nat) returns (key: int32)
    requires Shaped(s) && s.lock == HandedOver(b) && 0 < b < NUM_BLOCKS && s.jobs[b - 1].Mapping?
    ensures Step(s, IoStep(b - 1, key)).Some? && Advances(s, Step(s, IoStep(b - 1, key)).value, b)
  {
    key := 0;
    var todo := s.jobs[b - 1].todo;
    if todo != {} {
      key :| key in todo;
      assert |todo - {key}| < |todo|;
    }
  }

  lemma StoringGoesOn(s: System, b: nat)
    requires Shaped(s) && s.lock == HandedOver(b) && 0 < b < NUM_BLOCKS && FlushingOk(s, b, s.queues[b - 1], s.jobs[b - 1])
    requires !s.jobs[b - 1].Mapping? && s.jobs[b - 1] != Sleeping(false)
    ensures Step(s, IoStep(b - 1, 0)).Some? && Advances(s, Step(s, IoStep(b - 1, 0)).value, b)
  {
  }

  /** The worker of a flush, unless it sleeps unnotified, can go on, and comes closer to its end. */
  lemma FlushGoesOn(s: System, b: nat) returns (key: int32)
    requires Inv(s) && s.lock == HandedOver(b) && 0 < b < NUM_BLOCKS && s.jobs[b - 1] != Sleeping(false)
    ensures Step(s, IoStep(b - 1, key)).Some? && Advances(s, Step(s, IoStep(b - 1, key)).value, b)
  {
    assert QueueOk(s, b - 1);
    if s.jobs[b - 1].Mapping? {
      key := MappingGoesOn(s, b);
    } else {
      key := 0;
      StoringGoesOn(s, b);
    }
  }

  /** What the worker of a flush leaves alone. */
  ghost predicate Beside(s: System, t: System, q: nat) {
    && t.threads == s.threads && t.used == s.used && t.handed == s.handed && t.log == s.log
    && t.readBlock == s.readBlock && t.readBuf == s.readBuf && t.readFrom == s.readFrom
    && |t.jobs| == |s.jobs| && (forall p :: 0 <= p < |s.jobs| && p != q ==> t.jobs[p] == s.jobs[p])
    && q < |t.queues| == |s.queues| && (forall p :: 0 <= p < |s.queues| && p != q ==> t.queues[p] == s.queues[p])
    && forall x :: x in t.queues[q] ==> x in s.queues[q]
  }

  lemma FetchBeside(s: System, q: nat)
    requires q < |s.jobs| == |s.queues| && s.queues[q] != []
    ensures Beside(s, Fetch(s, q), q)
  {
  }

  lemma MapBeside(s: System, q: nat, key: int32)
    requires q < |s.jobs| == |s.queues| && s.jobs[q].Mapping?
    ensures Beside(s, MapKey(s, q, key), q)
  {
  }

  lemma EarlyBeside(s: System, q: nat, key: int32)
    requires q < |s.jobs| == |s.queues| && s.specs != [] && StepIo(s, q, key).Some?
    requires Resting(s.jobs[q]) || s.jobs[q].Mapping?
    ensures Beside(s, StepIo(s, q, key).value, q)
  {
    if s.jobs[q].Mapping? {
      MapBeside(s, q, key);
    } else if s.jobs[q].Looking? && s.queues[q] != [] {
      FetchBeside(s, q);
    }
  }

  lemma LateBeside(s: System, q: nat, key: int32)
    requires q < |s.jobs| == |s.queues| && s.specs != [] && StepIo(s, q, key).Some?
    requires s.jobs[q].Storing? || s.jobs[q].Clearing? || s.jobs[q].Releasing?
    ensures Beside(s, StepIo(s, q, key).value, q)
    ensures s.jobs[q].Releasing? ==> StepIo(s, q, key).value.jobs[q] == Looking
  {
  }

  lemma FlushStepBeside(s: System, q: nat, key: int32)
    requires q < |s.jobs| == |s.queues| && s.specs != [] && StepIo(s, q, key).Some?
    requires !s.jobs[q].Loading? && !s.jobs[q].Filling? && !s.jobs[q].Answering?
    ensures Beside(s, StepIo(s, q, key).value, q)
    ensures s.jobs[q].Releasing? ==> StepIo(s, q, key).value.jobs[q] == Looking
  {
    if Resting(s.jobs[q]) || s.jobs[q].Mapping? {
      EarlyBeside(s, q, key);
    } else {
      LateBeside(s, q, key);
    }
  }

  ghost predicate OnlyWorker(acts: seq<Action>, q: nat) {
    forall i :: 0 <= i < |acts| ==> acts[i].IoStep? && acts[i].q == q
  }

  /** The flush of b is over: its copy of the lock dropped, block written, buffer empty, and nothing else touched. */
  ghost predicate Finished(s: System, t: System, b: nat) {
    && t.lock == Dropped(s.threads) && b in t.blocks && t.W == map[]
    && 0 < b <= |t.jobs| && t.jobs[b - 1] == Looking && Beside(s, t, b - 1)
  }

  lemma OneStep(s: System, a: Action, t: System)
    requires Step(s, a) == Some(t)
    ensures Run(s, [a]) == Some(t)
  {
    PathRuns([s, t], [a]);
  }

  /** From every state in which it does not sleep unnotified, the flush's worker alone can finish the flush. */
  lemma {:induction false} FlushFinishes(s: System, b: nat) returns (acts: seq<Action>)
    requires Inv(s) && s.lock == HandedOver(b) && 0 < b < NUM_BLOCKS && s.jobs[b - 1] != Sleeping(false)
    ensures OnlyWorker(acts, b - 1) && Run(s, acts).Some? && Finished(s, Run(s, acts).value, b)
    decreases Remaining(s.jobs[b - 1]), Todo(s.jobs[b - 1])
  {
    var key := FlushGoesOn(s, b);
    var t := Step(s, IoStep(b - 1, key)).value;
    StepInv(s, IoStep(b - 1, key));
    FlushBeside(s, b, key);
    var rest: seq<Action> := [];
    if s.jobs[b - 1].Releasing? {
      assert Run(t, []) == Some(t);
    } else {
      rest := FlushFinishes(t, b);
      FinishedAfter(s, t, Run(t, rest).value, b);
    }
    acts := [IoStep(b - 1, key)] + rest;
    RunOne(s, IoStep(b - 1, key), rest);
  }

  lemma FlushBeside(s: System, b: nat, key: int32)
    requires Inv(s) && s.lock == HandedOver(b) && 0 < b < NUM_BLOCKS && Step(s, IoStep(b - 1, key)).Some?
    ensures Beside(s, Step(s, IoStep(b - 1, key)).value, b - 1)
    ensures s.jobs[b - 1].Releasing? ==> Step(s, IoStep(b - 1, key)).value.jobs[b - 1] == Looking
  {
    assert QueueOk(s, b - 1);
    FlushStepBeside(s, b - 1, key);
  }

  lemma FinishedAfter(s: System, t: System, u: System, b: nat)
    requires 0 < b && Beside(s, t, b - 1) && Finished(t, u, b)
    ensures Finished(s, u, b)
  {
  }

  ghost predicate Releases(s: System, acts: seq<Action>) {
    Run(s, acts).Some? && Run(s, acts).value.lock == Free
  }

  ghost predicate EndsFlush(s: System, acts: seq<Action>) {
    Run(s, acts).Some? && !Run(s, acts).value.lock.HandedOver?
  }

  /** The worker alone can end its flush exactly when it is awake or has been notified, and release the lock exactly
      when, besides, the PUT that submitted the flush has returned. */
  lemma FlushNeedsItsWorker(s: System, b: nat)
    requires Inv(s) && s.lock == HandedOver(b) && 0 < b < NUM_BLOCKS
    ensures (exists acts :: OnlyWorker(acts, b - 1) && EndsFlush(s, acts)) <==> s.jobs[b - 1] != Sleeping(false)
    ensures (exists acts :: OnlyWorker(acts, b - 1) && Releases(s, acts)) <==> s.jobs[b - 1] != Sleeping(false) && !SomeCopy(s)
  {
    if s.jobs[b - 1] != Sleeping(false) {
      var acts := FlushFinishes(s, b);
      KeeperIs(s.threads, 0);
      assert EndsFlush(s, acts) && (!SomeCopy(s) ==> Releases(s, acts));
    } else {
      forall acts | OnlyWorker(acts, b - 1) ensures !EndsFlush(s, acts) && !Releases(s, acts) {
        assert acts != [] ==> Step(s, acts[0]) == None;
      }
    }
    forall acts | OnlyWorker(acts, b - 1) && SomeCopy(s) ensures !Releases(s, acts) {
      if Releases(s, acts) {
        RunInv(s, acts);
        WorkerKeepsThreads(s, acts, b - 1);
      }
    }
  }

  lemma {:induction false} WorkerKeepsThreads(s: System, acts: seq<Action>, q: nat)
    requires Run(s, acts).Some? && OnlyWorker(acts, q)
    ensures Run(s, acts).value.threads == s.threads
    decreases |acts|
  {
    if acts != [] {
      IoKeepsThreads(s, acts[0]);
      WorkerKeepsThreads(Step(s, acts[0]).value, acts[1..], q);
    }
  }

  lemma IoKeepsThreads(s: System, a: Action)
    requires a.IoStep? && Step(s, a).Some?
    ensures Step(s, a).value.threads == s.threads
  {
  }

  /** The PUT that keeps the lock can return, whatever the workers do. */
  lemma KeeperReturns(s: System) returns (acts: seq<Action>)
    requires Inv(s) && s.lock.Kept?
    ensures Releases(s, acts)
  {
    var c := s.lock.t;
    if s.threads[c].Leaving? {
      acts := LeavingReturns(s, c);
    } else {
      var q := SomeSleeper(s);
      var t := Step(s, Notify(c, q)).value;
      var rest := LeavingReturns(t, c);
      acts := [Notify(c, q)] + rest;
      RunOne(s, Notify(c, q), rest);
    }
  }

  lemma LeavingReturns(s: System, c: nat) returns (acts: seq<Action>)
    requires s.specs != [] && |s.jobs| == |s.queues| && s.lock == Kept(c) && c < |s.threads| && s.threads[c].Leaving?
    ensures Releases(s, acts)
  {
    assert Step(s, PutLeave(c)) == Some(Leave(s, c));
    acts := [PutLeave(c)];
    PathRuns([s, Leave(s, c)], acts);
  }

  /** A worker that a notification goes to, if any sleeps. */
  lemma SomeSleeper(s: System) returns (q: nat)
    ensures (q < |s.jobs| && s.jobs[q] == Sleeping(false)) || forall p :: 0 <= p < |s.jobs| ==> s.jobs[p] != Sleeping(false)
  {
    if p: nat :| 0 <= p < |s.jobs| && s.jobs[p] == Sleeping(false) {
      q := p;
    } else {
      q := 0;
    }
  }

  /** A request on its way to `notify_one`: it has pushed, or it goes on to claim the read buffer and to push. */
  predicate WillNotify(s: System, pc: Thread) {
    match pc
    case Notifying => true
    case HandingOver => true
    case GetSubmitting(_, _, _) => true
    case GetClaiming(_, _, _) => true
    case GetMapped(_, _, b) => b != s.readBlock
    case GetMissed(k, _) => k in s.index && s.index[k] != s.readBlock
    case _ => false
  }

  /** The flush of b waits for a worker that sleeps, and nobody is on the way to notify anybody. */
  ghost predicate Deaf(s: System, b: nat) {
    && s.lock == HandedOver(b) && 0 < b <= |s.jobs| && s.jobs[b - 1] == Sleeping(false)
    && forall c :: 0 <= c < |s.threads| ==> !WillNotify(s, s.threads[c])
  }

  lemma StaysQuiet(s: System, a: Action)
    requires !a.IoStep? && a.t < |s.threads| && s.specs != [] && StepRequest(s, a).Some?
    requires s.lock.HandedOver? && !HasWriteLock(s.threads[a.t]) && !WillNotify(s, s.threads[a.t]) && NoReader(s)
    ensures !a.Notify? && !a.GetClaim? && !WillNotify(s, StepRequest(s, a).value.threads[a.t])
  {
  }

  lemma DeafRequestStep(s: System, b: nat, a: Action)
    requires Inv(s) && Deaf(s, b) && !a.IoStep? && Step(s, a).Some?
    ensures Deaf(Step(s, a).value, b)
  {
    var t := Step(s, a).value;
    assert HasWriteLock(s.threads[a.t]) <==> s.lock == Held(a.t);
    UnlockedStepKeeps(s, a);
    StaysQuiet(s, a);
    forall c | 0 <= c < |t.threads| ensures !WillNotify(t, t.threads[c]) {
      assert !WillNotify(s, s.threads[c]);
      assert c != a.t ==> t.threads[c] == s.threads[c];
      assert WillNotify(t, t.threads[c]) <==> WillNotify(s, t.threads[c]);
    }
  }

  lemma LoadStepBeside(s: System, q: nat, key: int32)
    requires q < |s.jobs| == |s.queues| && s.specs != [] && StepIo(s, q, key).Some?
    requires Resting(s.jobs[q]) || s.jobs[q].Loading? || s.jobs[q].Filling? || s.jobs[q].Answering?
    ensures var t := StepIo(s, q, key).value;
            && t.threads == s.threads && t.readBlock == s.readBlock && |t.jobs| == |s.jobs|
            && (forall p :: 0 <= p < |s.jobs| && p != q ==> t.jobs[p] == s.jobs[p])
            && s.jobs[q] != Sleeping(false)
  {
  }

  lemma DeafIoStep(s: System, b: nat, q: nat, key: int32)
    requires Inv(s) && Deaf(s, b) && q < IO_WORKERS && StepIo(s, q, key).Some?
    ensures Deaf(StepIo(s, q, key).value, b)
  {
    var t := StepIo(s, q, key).value;
    assert QueueOk(s, q);
    LoadStepKeeps(s, q, key);
    LoadStepBeside(s, q, key);
    forall c | 0 <= c < |t.threads| ensures !WillNotify(t, t.threads[c]) {
      assert !WillNotify(s, s.threads[c]);
    }
  }

  /** Then the flush is never run and the write lock never released, whatever else happens. */
  lemma {:induction false} DeafForever(s: System, b: nat, acts: seq<Action>)
    requires Inv(s) && Deaf(s, b) && Run(s, acts).Some?
    ensures Deaf(Run(s, acts).value, b)
    decreases |acts|
  {
    if acts != [] {
      StepInv(s, acts[0]);
      if acts[0].IoStep? {
        DeafIoStep(s, b, acts[0].q, acts[0].key);
      } else {
        DeafRequestStep(s, b, acts[0]);
      }
      DeafForever(Step(s, acts[0]).value, b, acts[1..]);
    }
  }

  /** A request that will notify comes to it without touching the lock or a worker. */
  lemma {:induction false} ComesToNotify(s: System, c: nat) returns (acts: seq<Action>)
    requires Inv(s) && c < |s.threads| && WillNotify(s, s.threads[c])
    ensures Run(s, acts).Some? && Inv(Run(s, acts).value) && AtNotify(s, Run(s, acts).value, c)
    decreases Stage(s.threads[c])
  {
    if s.threads[c].Notifying? || s.threads[c].HandingOver? {
      acts := [];
    } else {
      var a := NextOf(s.threads[c], c);
      NextStage(s, c);
      StepInv(s, a);
      var rest := ComesToNotify(Step(s, a).value, c);
      acts := [a] + rest;
      RunOne(s, a, rest);
    }
  }

  ghost predicate AtNotify(s: System, t: System, c: nat) {
    t.lock == s.lock && t.jobs == s.jobs && |t.threads| == |s.threads| && c < |t.threads|
    && (t.threads[c] == Notifying || t.threads[c] == HandingOver)
  }

  function Stage(pc: Thread): nat {
    if pc.GetMissed? then 4 else if pc.GetMapped? then 3 else if pc.GetClaiming? then 2 else if pc.GetSubmitting? then 1 else 0
  }

  lemma NextStage(s: System, c: nat)
    requires Shaped(s) && c < |s.threads| && WillNotify(s, s.threads[c]) && !s.threads[c].Notifying? && !s.threads[c].HandingOver?
    ensures var t := Step(s, NextOf(s.threads[c], c));
            && t.Some? && t.value.lock == s.lock && t.value.jobs == s.jobs && |t.value.threads| == |s.threads|
            && WillNotify(t.value, t.value.threads[c]) && Stage(t.value.threads[c]) < Stage(s.threads[c])
  {
  }

  function NextOf(pc: Thread, c: nat): Action {
    if pc.GetMissed? then GetLookup(c) else if pc.GetMapped? then GetCompare(c)
    else if pc.GetClaiming? then GetClaim(c) else GetSubmit(c)
  }

  /** The write lock can be released exactly when the flush's worker is awake or notified, or some request is on its
      way to a `notify_one` that may wake it; the PUT that submitted it can always return. */
  lemma FlushCanFinish(s: System, b: nat)
    requires Inv(s) && s.lock == HandedOver(b) && 0 < b < NUM_BLOCKS
    ensures (exists acts :: Releases(s, acts)) <==> !Deaf(s, b)
  {
    if Deaf(s, b) {
      forall acts ensures !Releases(s, acts) {
        if Releases(s, acts) {
          DeafForever(s, b, acts);
        }
      }
    } else {
      var acts := FlushIsWoken(s, b);
      assert Releases(s, acts);
    }
  }

  lemma FlushIsWoken(s: System, b: nat) returns (acts: seq<Action>)
    requires Inv(s) && s.lock == HandedOver(b) && 0 < b < NUM_BLOCKS && !Deaf(s, b)
    ensures Releases(s, acts)
  {
    if s.jobs[b - 1] != Sleeping(false) {
      acts := FlushReleased(s, b);
    } else {
      var c :| 0 <= c < |s.threads| && WillNotify(s, s.threads[c]);
      var first := ComesToNotify(s, c);
      var t := Run(s, first).value;
      var last := NotifiesFlush(t, b, c);
      RunAppend(s, first, last);
      acts := first + last;
    }
  }

  /** The flush ends, and then its PUT returns if it has not done so. */
  lemma FlushReleased(s: System, b: nat) returns (acts: seq<Action>)
    requires Inv(s) && s.lock == HandedOver(b) && 0 < b < NUM_BLOCKS && s.jobs[b - 1] != Sleeping(false)
    ensures Releases(s, acts)
  {
    acts := FlushFinishes(s, b);
    RunInv(s, acts);
    if !Releases(s, acts) {
      var last := KeeperReturns(Run(s, acts).value);
      RunAppend(s, acts, last);
      acts := acts + last;
    }
  }

  lemma NotifiesFlush(s: System, b: nat, c: nat) returns (acts: seq<Action>)
    requires Inv(s) && s.lock == HandedOver(b) && 0 < b < NUM_BLOCKS && s.jobs[b - 1] == Sleeping(false)
    requires AtNotify(s, s, c)
    ensures Releases(s, acts)
  {
    var a := Notify(c, b - 1);
    StepInv(s, a);
    var rest := FlushReleased(Step(s, a).value, b);
    acts := [a] + rest;
    RunOne(s, a, rest);
  }

  lemma RunOne(s: System, a: Action, rest: seq<Action>)
    requires Step(s, a).Some?
    ensures Run(s, [a] + rest) == Run(Step(s, a).value, rest)
  {
    assert ([a] + rest)[1..] == rest;
  }

  lemma {:induction false} RunAppend(s: System, first: seq<Action>, second: seq<Action>)
    requires Run(s, first).Some?
    ensures Run(s, first + second) == Run(Run(s, first).value, second)
    decreases |first|
  {
    if first == [] {
      assert first + second == second;
    } else {
      assert (first + second)[1..] == first[1..] + second;
      RunAppend(Step(s, first[0]).value, first[1..], second);
    }
  }

  /** `path` are the states a run goes through. */
  ghost predicate Path(path: seq<System>, acts: seq<Action>) {
    |path| == |acts| + 1 && forall i :: 0 <= i < |acts| ==> Step(path[i], acts[i]) == Some(path[i + 1])
  }

  lemma {:induction false} PathRuns(path: seq<System>, acts: seq<Action>)
    requires Path(path, acts)
    ensures Run(path[0], acts) == Some(path[|acts|])
    decreases |acts|
  {
    if acts != [] {
      assert Step(path[0], acts[0]) == Some(path[1]);
      PathRuns(path[1..], acts[1..]);
    }
  }

  // ----- no free block -----

  /** The flush of an overflowing PUT is never run exactly when every block is used. */
  lemma JamsExactlyWhenFull(s: System, c: nat)
    requires Inv(s) && c < |s.threads| && s.threads[c].PutDone?
    ensures HandOver(s, c).lock == HandedOver(NPOS) <==> forall b :: 0 <= b < NUM_BLOCKS ==> s.used[b]
  {
    FirstFreeIs(s.used, 0);
    QueueServed(FirstFree(s.used, 0));
  }

  /** And then the write lock is never released: no PUT, DEL or GET touches the write buffer again. */
  lemma {:induction false} JammedForever(s: System, acts: seq<Action>)
    requires Inv(s) && s.lock == HandedOver(NPOS) && Run(s, acts).Some?
    ensures var t := Run(s, acts).value;
            t.lock == HandedOver(NPOS) && BufferKept(s, t) && NobodyIn(t)
    decreases |acts|
  {
    if acts == [] {
      HandedOverIsExclusive(s);
    } else {
      assert !(acts[0].IoStep? && acts[0].q + 1 == NPOS);
      OnlyTheFlush(s, acts[0]);
      StepInv(s, acts[0]);
      JammedForever(Step(s, acts[0]).value, acts[1..]);
    }
  }
}
