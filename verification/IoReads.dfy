/** When a GET that goes through the read buffer answers rightly, and the runs in which it does not. */
module IoReads {
  import opened Common
  import opened BlockFile
  import opened TablesSpec
  import opened TwoMaps
  import opened IoProtocol
  import opened IoSafety
  import opened IoTheorems

  /** The answer is what the two maps gave at one moment of the request. */
  ghost predicate Right(s: System, r: Reply) {
    exists m :: r.since <= m < r.until && m < |s.specs| && Answers(s.specs[m], r.key, r.value)
  }

  // ----- one GET at a time past the index -----

  /** Where a GET can be after the index has named its block. */
  datatype Place = OfThread(t: nat) | OfTask(q: nat, i: nat) | OfJob(q: nat)

  predicate PastIndex(pc: Thread) {
    pc.GetMapped? || pc.GetClaiming? || pc.GetSubmitting? || pc.GetReading?
  }

  predicate AtLoad(job: Job) {
    job.Loading? || job.Filling? || job.Answering?
  }

  predicate InFlight(s: System, p: Place) {
    match p
    case OfThread(t) => t < |s.threads| && PastIndex(s.threads[t])
    case OfTask(q, i) => q < |s.queues| && i < |s.queues[q]| && s.queues[q][i].Load?
    case OfJob(q) => q < |s.jobs| && AtLoad(s.jobs[q])
  }

  ghost predicate AtMostOne(s: System) {
    forall p, r :: InFlight(s, p) && InFlight(s, r) ==> p == r
  }

  ghost predicate NoneInFlight(s: System) {
    forall p :: !InFlight(s, p)
  }

  predicate ThreadFits(s: System, pc: Thread) {
    match pc
    case GetMapped(_, _, _) => s.readBlock == s.readFrom
    case GetClaiming(_, _, _) => s.readBlock == s.readFrom
    case GetSubmitting(_, _, b) => s.readBlock == b
    case GetReading(_, _, b) => s.readBlock == s.readFrom == b
    case _ => true
  }

  predicate JobFits(s: System, job: Job) {
    match job
    case Loading(b, _, _) => s.readBlock == b
    case Filling(b, _, _) => s.readBlock == b
    case Answering(b, _, _) => s.readBlock == s.readFrom == b
    case _ => true
  }

  /** The read buffer is declared and loaded as the GET at this place expects it. */
  predicate Fitting(s: System, p: Place)
    requires InFlight(s, p)
  {
    match p
    case OfThread(t) => ThreadFits(s, s.threads[t])
    case OfTask(q, i) => s.readBlock == s.queues[q][i].b
    case OfJob(q) => JobFits(s, s.jobs[q])
  }

  /** With nobody past the index the read buffer holds the block it is declared to hold. */
  ghost predicate Orderly(s: System) {
    && AtMostOne(s) && (forall p :: InFlight(s, p) ==> Fitting(s, p))
    && (NoneInFlight(s) ==> s.readBlock == s.readFrom)
  }

  ghost predicate NewLoaded(s: System, t: System) {
    |s.log| <= |t.log| && forall i :: |s.log| <= i < |t.log| ==> t.log[i].loaded
  }

  /** A step that no GET in flight takes part in. */
  lemma AsideKeeps(s: System, t: System)
    requires Orderly(s) && t.readBlock == s.readBlock && t.readFrom == s.readFrom && NewLoaded(s, t)
    requires |t.threads| == |s.threads| && |t.jobs| == |s.jobs| && |t.queues| == |s.queues|
    requires forall c :: 0 <= c < |s.threads| ==> t.threads[c] == s.threads[c] || (!PastIndex(s.threads[c]) && !PastIndex(t.threads[c]))
    requires forall q :: 0 <= q < |s.jobs| ==> t.jobs[q] == s.jobs[q] || (!AtLoad(s.jobs[q]) && !AtLoad(t.jobs[q]))
    requires forall q :: 0 <= q < |s.queues| ==> SameLoads(s.queues[q], t.queues[q])
    ensures Orderly(t)
  {
    forall p ensures InFlight(t, p) <==> InFlight(s, p) {
    }
    forall p | InFlight(t, p) ensures Fitting(t, p) {
      assert InFlight(s, p) && Fitting(s, p);
    }
  }

  /** The loads of a queue stay where they are. */
  ghost predicate SameLoads(a: seq<Task>, b: seq<Task>) {
    && (forall i :: 0 <= i < |a| && a[i].Load? ==> i < |b| && b[i] == a[i])
    && forall i :: 0 <= i < |b| && b[i].Load? ==> i < |a| && b[i] == a[i]
  }

  /** The one GET in flight moves from p to r. */
  lemma Moves(s: System, t: System, p: Place, r: Place)
    requires Orderly(s) && AtMostOne(t) && InFlight(s, p) && InFlight(t, r) && Fitting(t, r)
    ensures Orderly(t)
  {
    assert !NoneInFlight(t);
  }

  /** The one GET in flight ends. */
  lemma Ends(s: System, t: System, p: Place)
    requires Orderly(s) && InFlight(s, p) && t.readBlock == t.readFrom
    requires forall r :: InFlight(t, r) ==> InFlight(s, r) && r != p
    ensures Orderly(t)
  {
  }

  lemma LookUpOrderly(s: System, c: nat)
    requires Orderly(s) && c < |s.threads| && s.threads[c].GetMissed? && AtMostOne(LookUp(s, c))
    ensures Orderly(LookUp(s, c)) && NewLoaded(s, LookUp(s, c))
  {
    var t := LookUp(s, c);
    if s.threads[c].key in s.index {
      assert InFlight(t, OfThread(c));
      forall p ensures !InFlight(s, p) {
        assert InFlight(s, p) ==> p != OfThread(c) && InFlight(t, p);
      }
      forall p | InFlight(t, p) ensures Fitting(t, p) {
        assert p == OfThread(c);
      }
    } else {
      AsideKeeps(s, t);
    }
  }

  /** A GET that is past the index goes on or reads. */
  lemma PastIndexOrderly(s: System, a: Action)
    requires Orderly(s) && (a.GetCompare? || a.GetClaim? || a.GetRead?)
    requires a.t < |s.threads| && s.specs != [] && StepRequest(s, a).Some? && AtMostOne(StepRequest(s, a).value)
    ensures Orderly(StepRequest(s, a).value) && NewLoaded(s, StepRequest(s, a).value)
  {
    var t, p := StepRequest(s, a).value, OfThread(a.t);
    assert InFlight(s, p) && Fitting(s, p);
    if a.GetRead? {
      forall r | InFlight(t, r) ensures InFlight(s, r) && r != p {
      }
      Ends(s, t, p);
    } else {
      assert InFlight(t, p) && Fitting(t, p);
      Moves(s, t, p, p);
    }
  }

  lemma SubmitOrderly(s: System, c: nat)
    requires Inv(s) && Orderly(s) && c < |s.threads| && s.threads[c].GetSubmitting? && AtMostOne(SubmitLoad(s, c))
    ensures Orderly(SubmitLoad(s, c)) && NewLoaded(s, SubmitLoad(s, c))
  {
    var t, b := SubmitLoad(s, c), s.threads[c].b;
    assert ThreadOk(s, s.threads[c]) && KeyOk(s, s.threads[c].key);
    QueueServed(b);
    assert InFlight(s, OfThread(c)) && Fitting(s, OfThread(c));
    var r := OfTask(QueueOf(b), |s.queues[QueueOf(b)]|);
    assert InFlight(t, r) && Fitting(t, r);
    Moves(s, t, OfThread(c), r);
  }

  lemma FetchOrderly(s: System, q: nat)
    requires Inv(s) && Orderly(s) && q < |s.jobs| && s.jobs[q].Looking? && s.queues[q] != [] && AtMostOne(Fetch(s, q))
    ensures Orderly(Fetch(s, q)) && NewLoaded(s, Fetch(s, q))
  {
    var t := Fetch(s, q);
    assert QueueOk(s, q);
    if s.queues[q][0].Load? {
      assert InFlight(s, OfTask(q, 0)) && Fitting(s, OfTask(q, 0));
      assert InFlight(t, OfJob(q)) && Fitting(t, OfJob(q));
      Moves(s, t, OfTask(q, 0), OfJob(q));
    } else {
      assert t.queues[q] == [];
      AsideKeeps(s, t);
    }
  }

  lemma LoadOrderly(s: System, q: nat, key: int32)
    requires Orderly(s) && q < |s.jobs| == |s.queues| && s.specs != [] && AtLoad(s.jobs[q]) && AtMostOne(StepIo(s, q, key).value)
    ensures Orderly(StepIo(s, q, key).value) && NewLoaded(s, StepIo(s, q, key).value)
  {
    var t, p := StepIo(s, q, key).value, OfJob(q);
    assert InFlight(s, p) && Fitting(s, p);
    if s.jobs[q].Answering? {
      forall r | InFlight(t, r) ensures InFlight(s, r) && r != p {
      }
      Ends(s, t, p);
    } else {
      assert InFlight(t, p) && Fitting(t, p);
      Moves(s, t, p, p);
    }
  }

  lemma LockOrderly(s: System, a: Action)
    requires Orderly(s) && (a.PutLock? || a.DelLock? || a.GetLock?) && a.t < |s.threads| && s.specs != [] && StepRequest(s, a).Some?
    ensures Orderly(StepRequest(s, a).value) && NewLoaded(s, StepRequest(s, a).value)
  {
    AsideKeeps(s, StepRequest(s, a).value);
  }

  lemma WriteOrderly(s: System, a: Action)
    requires Orderly(s) && (a.PutInsert? || a.PutReturn? || a.PutLeave? || a.DelErase?) && a.t < |s.threads| && s.specs != [] && StepRequest(s, a).Some?
    ensures Orderly(StepRequest(s, a).value) && NewLoaded(s, StepRequest(s, a).value)
  {
    AsideKeeps(s, StepRequest(s, a).value);
  }

  lemma SearchOrderly(s: System, c: nat)
    requires Orderly(s) && c < |s.threads| && s.threads[c].GetLocked?
    ensures Orderly(Search(s, c)) && NewLoaded(s, Search(s, c))
  {
    AsideKeeps(s, Search(s, c));
  }

  /** Requests that are not past the index. */
  lemma EarlyOrderly(s: System, a: Action)
    requires Orderly(s) && !a.IoStep? && a.t < |s.threads| && s.specs != [] && StepRequest(s, a).Some?
    requires !PastIndex(s.threads[a.t]) && !s.threads[a.t].GetMissed? && !a.PutHandOver? && !a.Notify?
    ensures Orderly(StepRequest(s, a).value) && NewLoaded(s, StepRequest(s, a).value)
  {
    if a.PutLock? || a.DelLock? || a.GetLock? {
      LockOrderly(s, a);
    } else if a.GetSearch? {
      SearchOrderly(s, a.t);
    } else {
      WriteOrderly(s, a);
    }
  }

  lemma HandOverOrderly(s: System, c: nat)
    requires Orderly(s) && c < |s.threads| && s.threads[c].PutDone?
    ensures Orderly(HandOver(s, c)) && NewLoaded(s, HandOver(s, c))
  {
    AsideKeeps(s, HandOver(s, c));
  }

  lemma NotifyOrderly(s: System, c: nat, q: nat)
    requires Orderly(s) && c < |s.threads| && (s.threads[c].Notifying? || s.threads[c].HandingOver?) && NotifyOne(s, c, q).Some?
    ensures Orderly(NotifyOne(s, c, q).value) && NewLoaded(s, NotifyOne(s, c, q).value)
  {
    AsideKeeps(s, NotifyOne(s, c, q).value);
  }

  lemma RestOrderly(s: System, q: nat, job: Job)
    requires Orderly(s) && q < |s.jobs| && Resting(s.jobs[q]) && Resting(job)
    ensures Orderly(Work(s, q, job)) && NewLoaded(s, Work(s, q, job))
  {
    AsideKeeps(s, Work(s, q, job));
  }

  lemma MappingOrderly(s: System, q: nat, key: int32)
    requires Orderly(s) && q < |s.jobs| == |s.queues| && s.jobs[q].Mapping?
    ensures Orderly(MapKey(s, q, key)) && NewLoaded(s, MapKey(s, q, key))
    ensures Orderly(Work(s, q, Storing(s.jobs[q].b))) && NewLoaded(s, Work(s, q, Storing(s.jobs[q].b)))
  {
    AsideKeeps(s, MapKey(s, q, key));
    AsideKeeps(s, Work(s, q, Storing(s.jobs[q].b)));
  }

  lemma StoringOrderly(s: System, q: nat, key: int32)
    requires Orderly(s) && q < |s.jobs| == |s.queues| && s.specs != []
    requires s.jobs[q].Storing? || s.jobs[q].Clearing? || s.jobs[q].Releasing?
    ensures Orderly(StepIo(s, q, key).value) && NewLoaded(s, StepIo(s, q, key).value)
  {
    AsideKeeps(s, StepIo(s, q, key).value);
  }

  lemma FlushOrderly(s: System, q: nat, key: int32)
    requires Orderly(s) && q < |s.jobs| == |s.queues| && s.specs != [] && StepIo(s, q, key).Some?
    requires !AtLoad(s.jobs[q]) && !Resting(s.jobs[q])
    ensures Orderly(StepIo(s, q, key).value) && NewLoaded(s, StepIo(s, q, key).value)
  {
    if s.jobs[q].Mapping? {
      MappingOrderly(s, q, key);
    } else {
      StoringOrderly(s, q, key);
    }
  }

  lemma RequestOrderly(s: System, a: Action)
    requires Inv(s) && Orderly(s) && !a.IoStep? && Step(s, a).Some? && AtMostOne(Step(s, a).value)
    ensures Orderly(Step(s, a).value) && NewLoaded(s, Step(s, a).value)
  {
    match a
    case GetLookup(t) => LookUpOrderly(s, t);
    case GetCompare(t) => PastIndexOrderly(s, a);
    case GetClaim(t) => PastIndexOrderly(s, a);
    case GetRead(t) => PastIndexOrderly(s, a);
    case GetSubmit(t) => SubmitOrderly(s, t);
    case PutHandOver(t) => HandOverOrderly(s, t);
    case Notify(t, q) => NotifyOrderly(s, t, q);
    case _ => EarlyOrderly(s, a);
  }

  lemma OrderlyStep(s: System, a: Action)
    requires Inv(s) && Orderly(s) && Step(s, a).Some? && AtMostOne(Step(s, a).value)
    ensures Orderly(Step(s, a).value) && NewLoaded(s, Step(s, a).value)
  {
    if !a.IoStep? {
      RequestOrderly(s, a);
    } else if AtLoad(s.jobs[a.q]) {
      LoadOrderly(s, a.q, a.key);
    } else if s.jobs[a.q].Looking? && s.queues[a.q] != [] {
      FetchOrderly(s, a.q);
    } else if Resting(s.jobs[a.q]) {
      RestOrderly(s, a.q, if s.jobs[a.q].Looking? then Sleeping(false) else Looking);
    } else {
      FlushOrderly(s, a.q, a.key);
    }
  }

  /** In no state of the run are two GETs past the index. */
  ghost predicate OneAtATime(s: System, acts: seq<Action>)
    decreases |acts|
  {
    AtMostOne(s) && (acts != [] && Step(s, acts[0]).Some? ==> OneAtATime(Step(s, acts[0]).value, acts[1..]))
  }

  lemma {:induction false} OrderlyRun(s: System, acts: seq<Action>)
    requires Inv(s) && Orderly(s) && OneAtATime(s, acts) && Run(s, acts).Some?
    ensures Orderly(Run(s, acts).value) && NewLoaded(s, Run(s, acts).value)
    decreases |acts|
  {
    if acts != [] {
      var t := Step(s, acts[0]).value;
      assert OneAtATime(t, acts[1..]);
      StepInv(s, acts[0]);
      OrderlyStep(s, acts[0]);
      OrderlyRun(t, acts[1..]);
      LogKept(t, acts[1..]);
    }
  }

  /** What is in the log stays there. */
  lemma {:induction false} LogKept(s: System, acts: seq<Action>)
    requires Run(s, acts).Some?
    ensures |s.log| <= |Run(s, acts).value.log|
    ensures forall i :: 0 <= i < |s.log| ==> Run(s, acts).value.log[i] == s.log[i]
    decreases |acts|
  {
    if acts != [] {
      LogStep(s, acts[0]);
      LogKept(Step(s, acts[0]).value, acts[1..]);
    }
  }

  lemma LogStep(s: System, a: Action)
    requires Step(s, a).Some?
    ensures var t := Step(s, a).value; |s.log| <= |t.log| && forall i :: 0 <= i < |s.log| ==> t.log[i] == s.log[i]
  {
    if a.IoStep? {
      LogIoStep(s, a.q, a.key);
    }
  }

  lemma LogIoStep(s: System, q: nat, key: int32)
    requires q < |s.jobs| == |s.queues| && s.specs != [] && StepIo(s, q, key).Some?
    ensures var t := StepIo(s, q, key).value; |s.log| <= |t.log| && forall i :: 0 <= i < |s.log| ==> t.log[i] == s.log[i]
  {
  }

  /** As long as GETs go past the index one at a time, every one of them, and every other GET beside it, answers what
      the two maps gave at one moment of the request; it does not matter who writes, flushes or sleeps meanwhile. */
  lemma OneAtATimeIsRight(s: System, acts: seq<Action>, i: nat)
    requires Inv(s) && Orderly(s) && OneAtATime(s, acts) && Run(s, acts).Some? && |s.log| <= i < |Run(s, acts).value.log|
    ensures Right(Run(s, acts).value, Run(s, acts).value.log[i])
  {
    OrderlyRun(s, acts);
    var m := GetsAreLinearizable(s, acts, i);
    assert Answers(Run(s, acts).value.specs[m], Run(s, acts).value.log[i].key, Run(s, acts).value.log[i].value);
  }

  lemma NewSystemOrderly(threads: nat)
    ensures Orderly(NewSystem(threads))
  {
    assert NoneInFlight(NewSystem(threads));
  }

  // ----- a block declared and not loaded -----

  /** Only the disk has the key, and the thread can ask for it. */
  ghost predicate OnDiskOnly(s: System, k: int32, c: nat) {
    && Inv(s) && s.lock == Free && c < |s.threads| && s.threads[c] == Idle
    && Text(s.W, k) == [] && k in s.index
  }

  /** What D has for the key now. */
  ghost function DiskText(s: System, k: int32): Value
    requires s.specs != []
  {
    Text(Now(s).D, k)
  }

  lemma AnswerNow(s: System, k: int32)
    requires Inv(s) && s.lock == Free && Text(s.W, k) == []
    ensures SpecGet(Now(s), k) == DiskText(s, k)
    ensures k in s.index && s.readFrom == s.index[k] ==> Text(s.readBuf, k) == DiskText(s, k)
  {
    assert DiskOk(s, k);
    if k in s.index {
      assert KeyOk(s, k);
      UsedIsWritten(s, s.index[k]);
    }
  }

  /** An answer of v in the present state is right exactly when D has it. */
  lemma RightNow(s: System, t: System, k: int32, v: Value, loaded: bool)
    requires Inv(s) && s.lock == Free && Text(s.W, k) == [] && t.specs == s.specs
    ensures Right(t, Reply(k, v, |s.specs| - 1, |s.specs|, loaded)) <==> v == DiskText(s, k)
  {
    AnswerNow(s, k);
    if v == DiskText(s, k) {
      assert Answers(t.specs[|s.specs| - 1], k, v);
    }
  }

  lemma AtAgain(s: System, c: nat, x: Thread, y: Thread)
    requires c < |s.threads|
    ensures At(At(s, c, x), c, y) == At(s, c, y)
  {
  }

  ghost predicate NoIo(acts: seq<Action>) {
    forall i :: 0 <= i < |acts| ==> !acts[i].IoStep?
  }

  /** The way of a GET to the index. */
  lemma {:induction false} ComesToIndex(s: System, k: int32, c: nat) returns (acts: seq<Action>)
    requires OnDiskOnly(s, k, c)
    ensures NoIo(acts) && Run(s, acts) == Some(At(s, c, GetMapped(k, |s.specs| - 1, s.index[k])))
  {
    var s2, s3 := At(s, c, GetMissed(k, |s.specs| - 1)), At(s, c, GetMapped(k, |s.specs| - 1, s.index[k]));
    var first := Misses(s, k, c);
    AtAgain(s, c, s2.threads[c], s3.threads[c]);
    assert Step(s2, GetLookup(c)) == Some(s3);
    acts := ThenOne(s, first, s2, GetLookup(c), s3);
  }

  lemma ThenOne(s: System, first: seq<Action>, t: System, a: Action, u: System) returns (acts: seq<Action>)
    requires Run(s, first) == Some(t) && Step(t, a) == Some(u)
    ensures acts == first + [a] && Run(s, acts) == Some(u)
  {
    acts := first + [a];
    PathRuns([t, u], [a]);
    RunAppend(s, first, [a]);
  }

  /** The write buffer has nothing. */
  lemma Misses(s: System, k: int32, c: nat) returns (acts: seq<Action>)
    requires OnDiskOnly(s, k, c)
    ensures NoIo(acts) && Run(s, acts) == Some(At(s, c, GetMissed(k, |s.specs| - 1)))
  {
    var s1, s2 := At(s, c, GetLocked(k, |s.specs| - 1)), At(s, c, GetMissed(k, |s.specs| - 1));
    assert Step(s, GetLock(c, k)) == Some(s1);
    AtAgain(s, c, s1.threads[c], s2.threads[c]);
    assert Step(s1, GetSearch(c)) == Some(s2);
    acts := [GetLock(c, k), GetSearch(c)];
    PathRuns([s, s1, s2], acts);
  }

  /** And to the comparison. */
  lemma Compares(s: System, k: int32, c: nat) returns (acts: seq<Action>)
    requires OnDiskOnly(s, k, c)
    ensures NoIo(acts)
    ensures var since, b := |s.specs| - 1, s.index[k];
            Run(s, acts) == Some(At(s, c, if b == s.readBlock then GetReading(k, since, b) else GetClaiming(k, since, b)))
  {
    var since, b := |s.specs| - 1, s.index[k];
    var first := ComesToIndex(s, k, c);
    var u := At(s, c, GetMapped(k, since, b));
    var t := At(s, c, if b == s.readBlock then GetReading(k, since, b) else GetClaiming(k, since, b));
    AtAgain(s, c, u.threads[c], t.threads[c]);
    assert Step(u, GetCompare(c)) == Some(t);
    acts := ThenOne(s, first, u, GetCompare(c), t);
  }

  /** A GET that finds its block declared answers without a load. Run through, it is right exactly when the block has
      been loaded, or the texts happen to agree. */
  lemma DeclaredRead(s: System, k: int32, c: nat) returns (acts: seq<Action>)
    requires OnDiskOnly(s, k, c) && s.index[k] == s.readBlock
    ensures NoIo(acts)
    ensures Run(s, acts) == Some(Answered(s, k, Text(s.readBuf, k), |s.specs| - 1, s.readFrom == s.readBlock))
    ensures var t := Run(s, acts).value;
            Right(t, t.log[|s.log|]) <==> s.readFrom == s.readBlock || Text(s.readBuf, k) == DiskText(s, k)
  {
    var since, b := |s.specs| - 1, s.index[k];
    var first := Compares(s, k, c);
    ReadsDeclared(s, k, c);
    RunAppend(s, first, [GetRead(c)]);
    acts := first + [GetRead(c)];
    AnswerNow(s, k);
    RightNow(s, Answered(s, k, Text(s.readBuf, k), since, s.readFrom == b), k, Text(s.readBuf, k), s.readFrom == b);
  }

  lemma ReadsDeclared(s: System, k: int32, c: nat)
    requires OnDiskOnly(s, k, c)
    ensures Run(At(s, c, GetReading(k, |s.specs| - 1, s.index[k])), [GetRead(c)])
            == Some(Answered(s, k, Text(s.readBuf, k), |s.specs| - 1, s.readFrom == s.index[k]))
  {
    var since, b := |s.specs| - 1, s.index[k];
    var u, t := At(s, c, GetReading(k, since, b)), Answered(s, k, Text(s.readBuf, k), since, s.readFrom == b);
    AtAgain(s, c, GetReading(k, since, b), Idle);
    assert At(u, c, Idle) == s;
    assert Step(u, GetRead(c)) == Some(t);
    PathRuns([u, t], [GetRead(c)]);
  }

  /** The state after a GET has declared its block and submitted the load. */
  ghost function Submitted(s: System, k: int32, c: nat): System
    requires c < |s.threads| && k in s.index && 0 < s.index[k] <= |s.queues| && s.specs != []
  {
    var b := s.index[k];
    s.(readBlock := b, threads := s.threads[c := Notifying],
       queues := s.queues[b - 1 := s.queues[b - 1] + [Load(b, k, |s.specs| - 1)]])
  }

  lemma ClaimsAndSubmits(s: System, k: int32, c: nat)
    requires Shaped(s) && c < |s.threads| && k in s.index && 0 < s.index[k] < NUM_BLOCKS
    ensures Run(At(s, c, GetClaiming(k, |s.specs| - 1, s.index[k])), [GetClaim(c), GetSubmit(c)]) == Some(Submitted(s, k, c))
  {
    var since, b := |s.specs| - 1, s.index[k];
    QueueServed(b);
    assert QueueOf(b) == b - 1;
    var u := At(s, c, GetClaiming(k, since, b));
    var v := At(s, c, GetSubmitting(k, since, b)).(readBlock := b);
    AtAgain(s, c, GetClaiming(k, since, b), GetSubmitting(k, since, b));
    assert Step(u, GetClaim(c)) == Some(v);
    AtAgain(s, c, GetSubmitting(k, since, b), Notifying);
    assert v.threads[c := Notifying] == s.threads[c := Notifying];
    assert Step(v, GetSubmit(c)) == Some(Submitted(s, k, c));
    PathRuns([u, v, Submitted(s, k, c)], [GetClaim(c), GetSubmit(c)]);
  }

  /** A GET that finds another block declared declares its own and submits the load. */
  lemma ClaimingGet(s: System, k: int32, c: nat) returns (acts: seq<Action>)
    requires OnDiskOnly(s, k, c) && s.index[k] != s.readBlock
    ensures NoIo(acts) && 0 < s.index[k] < NUM_BLOCKS && Run(s, acts) == Some(Submitted(s, k, c))
  {
    assert KeyOk(s, k);
    var first := Compares(s, k, c);
    ClaimsAndSubmits(s, k, c);
    RunAppend(s, first, [GetClaim(c), GetSubmit(c)]);
    acts := first + [GetClaim(c), GetSubmit(c)];
  }

  /** Some worker that sleeps, or any number if none does. */
  lemma Notifies(s: System, c: nat) returns (q: nat)
    requires c < |s.threads| && s.threads[c] == Notifying && s.specs != [] && |s.jobs| == |s.queues|
    ensures Step(s, Notify(c, q)).Some?
    ensures var t := Step(s, Notify(c, q)).value; t.threads == s.threads[c := Idle] && t == s.(threads := t.threads, jobs := t.jobs)
  {
    q := 0;
    if w :| 0 <= w < |s.jobs| && s.jobs[w] == Sleeping(false) {
      q := w;
    }
  }

  /** The state once the thread has asked for the key, and the I/O pool has done nothing. */
  ghost predicate Asked(s: System, t: System, k: int32, c: nat) {
    && OnDiskOnly(t, k, c) && t.specs == s.specs && t.readFrom == s.readFrom && t.readBuf == s.readBuf
    && k in s.index && t.index[k] == s.index[k] == t.readBlock
  }

  lemma FirstGet(s: System, k: int32, c: nat) returns (acts: seq<Action>)
    requires OnDiskOnly(s, k, c)
    ensures NoIo(acts) && Run(s, acts).Some? && Asked(s, Run(s, acts).value, k, c)
  {
    if s.index[k] == s.readBlock {
      acts := [];
    } else {
      var first := ClaimingGet(s, k, c);
      var t := Submitted(s, k, c);
      RunInv(s, first);
      var q := Notifies(t, c);
      var u := Step(t, Notify(c, q)).value;
      StepInv(t, Notify(c, q));
      PathRuns([t, u], [Notify(c, q)]);
      RunAppend(s, first, [Notify(c, q)]);
      acts := first + [Notify(c, q)];
    }
  }

  /** The last answer is what the read buffer of s has for the key, and is right exactly when that buffer was last loaded
      from the key's block, or the texts happen to agree. */
  ghost predicate AnswersFromBuffer(s: System, t: System, k: int32)
    requires k in s.index && s.specs != []
  {
    t.log != [] && var r := t.log[|t.log| - 1];
      && r.key == k && r.value == Text(s.readBuf, k)
      && (Right(t, r) <==> s.readFrom == s.index[k] || Text(s.readBuf, k) == DiskText(s, k))
  }

  lemma SecondGet(s: System, t: System, k: int32, c: nat) returns (acts: seq<Action>)
    requires s.specs != [] && Asked(s, t, k, c)
    ensures NoIo(acts) && Run(t, acts).Some? && AnswersFromBuffer(s, Run(t, acts).value, k)
  {
    acts := DeclaredRead(t, k, c);
    assert Now(t) == Now(s);
    var u := Run(t, acts).value;
    assert u.log[|u.log| - 1] == u.log[|t.log|];
  }

  /** One thread is enough: it asks for a key twice, and the I/O pool does nothing in between. */
  lemma BackToBack(s: System, k: int32, c: nat) returns (acts: seq<Action>)
    requires OnDiskOnly(s, k, c)
    ensures NoIo(acts) && Run(s, acts).Some? && AnswersFromBuffer(s, Run(s, acts).value, k)
  {
    var first := FirstGet(s, k, c);
    var second := SecondGet(s, Run(s, first).value, k, c);
    RunAppend(s, first, second);
    acts := first + second;
  }

  // ----- a read buffer replaced -----

  /** The worker behind queue q gets to a load that is the only task there. */
  lemma LoadRuns(s: System, q: nat, k: int32, since: nat) returns (acts: seq<Action>)
    requires s.specs != [] && |s.jobs| == |s.queues| && q < |s.jobs| && s.jobs[q] == Looking && s.queues[q] == [Load(q + 1, k, since)]
    ensures Run(s, acts) == Some(s.(readBuf := BlockTexts(s, q + 1), readFrom := q + 1,
                                    jobs := s.jobs[q := Answering(q + 1, k, since)], queues := s.queues[q := []]))
  {
    var s1 := s.(jobs := s.jobs[q := Loading(q + 1, k, since)], queues := s.queues[q := []]);
    assert [Load(q + 1, k, since)][1..] == [];
    assert Step(s, IoStep(q, 0)) == Some(s1);
    var s2 := s1.(readBuf := map[], readFrom := NPOS, jobs := s.jobs[q := Filling(q + 1, k, since)]);
    assert s1.jobs[q := Filling(q + 1, k, since)] == s2.jobs;
    assert Step(s1, IoStep(q, 0)) == Some(s2);
    var s3 := s.(readBuf := BlockTexts(s, q + 1), readFrom := q + 1,
                 jobs := s.jobs[q := Answering(q + 1, k, since)], queues := s.queues[q := []]);
    assert s2.jobs[q := Answering(q + 1, k, since)] == s3.jobs;
    assert Step(s2, IoStep(q, 0)) == Some(s3);
    acts := [IoStep(q, 0), IoStep(q, 0), IoStep(q, 0)];
    PathRuns([s, s1, s2, s3], acts);
  }

  /** Thread c stands where it stood, and the read buffer has come to hold block b. */
  ghost predicate LoadedUnder(s: System, t: System, b: nat, c: nat) {
    && t.specs == s.specs && |t.jobs| == |t.queues| && c < |t.threads| == |s.threads| && t.threads[c] == s.threads[c]
    && t.readBuf == BlockTexts(s, b) && t.readFrom == b
  }

  /** The worker of key j has nothing else to do. */
  predicate Unburdened(s: System, j: int32) {
    && j in s.index && 0 < s.index[j] <= |s.jobs| == |s.queues|
    && s.jobs[s.index[j] - 1] == Looking && s.queues[s.index[j] - 1] == []
  }

  /** The read buffer is loaded for key j while thread c is between its comparison and its search. */
  lemma ReplacedUnder(s: System, j: int32, c: nat, d: nat) returns (acts: seq<Action>)
    requires OnDiskOnly(s, j, d) && c < |s.threads| && c != d && s.index[j] != s.readBlock && Unburdened(s, j)
    ensures Run(s, acts).Some? && LoadedUnder(s, Run(s, acts).value, s.index[j], c)
  {
    var first := ClaimingGet(s, j, d);
    var second := LoadsSubmitted(s, j, c, d);
    RunAppend(s, first, second);
    acts := first + second;
  }

  lemma LoadsSubmitted(s: System, j: int32, c: nat, d: nat) returns (acts: seq<Action>)
    requires s.specs != [] && c < |s.threads| && d < |s.threads| && c != d && Unburdened(s, j)
    ensures Run(Submitted(s, j, d), acts).Some? && LoadedUnder(s, Run(Submitted(s, j, d), acts).value, s.index[j], c)
  {
    var since, b := |s.specs| - 1, s.index[j];
    assert s.queues[b - 1] + [Load(b, j, since)] == [Load(b, j, since)];
    acts := LoadRuns(Submitted(s, j, d), b - 1, j, since);
  }

  /** The last answer is v, and is right exactly when D has v. */
  ghost predicate AnswersLast(s: System, t: System, k: int32, v: Value)
    requires s.specs != []
  {
    t.log != [] && var r := t.log[|t.log| - 1]; r.key == k && r.value == v && (Right(t, r) <==> v == DiskText(s, k))
  }

  /** Nor does it help that the block is declared and loaded: when another GET claims the buffer and loads its block
      between the comparison and the search, the answer comes from that block. */
  lemma Replaced(s: System, k: int32, j: int32, c: nat, d: nat) returns (acts: seq<Action>)
    requires OnDiskOnly(s, k, c) && OnDiskOnly(s, j, d) && c != d && s.index[k] == s.readBlock && s.index[j] != s.readBlock
    requires Unburdened(s, j)
    ensures Run(s, acts).Some? && AnswersLast(s, Run(s, acts).value, k, Text(BlockTexts(s, s.index[j]), k))
  {
    var first := Compares(s, k, c);
    RunInv(s, first);
    var u := At(s, c, GetReading(k, |s.specs| - 1, s.index[k]));
    var second := ReplacedUnder(u, j, c, d);
    RunAppend(s, first, second);
    var last := ReadsBuffer(s, Run(u, second).value, k, c);
    RunAppend(s, first + second, last);
    acts := first + second + last;
  }

  lemma ReadsBuffer(s: System, v: System, k: int32, c: nat) returns (acts: seq<Action>)
    requires OnDiskOnly(s, k, c) && c < |v.threads| && v.threads[c] == GetReading(k, |s.specs| - 1, s.index[k])
    requires v.specs == s.specs && |v.jobs| == |v.queues|
    ensures Run(v, acts) == Some(ReadBuffer(v, c)) && AnswersLast(s, ReadBuffer(v, c), k, Text(v.readBuf, k))
  {
    var a := GetRead(c);
    assert Step(v, a) == Some(ReadBuffer(v, c));
    OneStep(v, a, ReadBuffer(v, c));
    ReadIsLast(s, v, k, c);
    acts := [a];
  }

  lemma ReadIsLast(s: System, v: System, k: int32, c: nat)
    requires OnDiskOnly(s, k, c) && c < |v.threads| && v.threads[c] == GetReading(k, |s.specs| - 1, s.index[k]) && v.specs == s.specs
    ensures AnswersLast(s, ReadBuffer(v, c), k, Text(v.readBuf, k))
  {
    RightNow(s, ReadBuffer(v, c), k, Text(v.readBuf, k), v.readFrom == s.index[k]);
  }
}
