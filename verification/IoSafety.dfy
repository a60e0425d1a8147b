/** What every reachable state of the write lock's protocol keeps. */
module IoSafety {
  import opened Common
  import opened BlockFile
  import opened TablesSpec
  import opened TwoMaps
  import opened IoProtocol

  // ----- runs of the two maps -----

  datatype SpecOp = SpecPut(key: int32, value: Value) | SpecDel(key: int32) | SpecSpill

  function Apply(sp: Spec, op: SpecOp): Spec {
    match op
    case SpecPut(k, v) => Spec(sp.W[k := v], sp.D)
    case SpecDel(k) => Spec(sp.W - {k}, sp.D)
    case SpecSpill => SpecFlush(sp)
  }

  ghost predicate Follows(a: Spec, b: Spec, op: SpecOp) {
    b == Apply(a, op)
  }

  ghost predicate SpecNext(a: Spec, b: Spec) {
    exists op :: Follows(a, b, op)
  }

  /** Each state of the two maps comes from the one before by an operation of the specification. */
  ghost predicate SpecRun(specs: seq<Spec>) {
    specs != [] && forall i :: 0 < i < |specs| ==> SpecNext(specs[i - 1], specs[i])
  }

  ghost predicate Answers(sp: Spec, k: int32, v: Value) {
    SpecGet(sp, k) == v
  }

  ghost predicate Lacks(sp: Spec, k: int32) {
    k !in sp.W || sp.W[k] == []
  }

  /** At some moment since then W had nothing for the key. */
  ghost predicate Missed(specs: seq<Spec>, k: int32, since: nat) {
    exists i :: since <= i < |specs| && Lacks(specs[i], k)
  }

  /** The answer is what the two maps gave at some moment between the start and the end of the request. */
  ghost predicate ReplyOk(specs: seq<Spec>, r: Reply) {
    r.until <= |specs| && (r.loaded ==> exists i :: r.since <= i < r.until && Answers(specs[i], r.key, r.value))
  }

  /** D only grows: what was missing from W and is in D now was answered at a moment in between. */
  lemma {:induction false} DiskGrows(specs: seq<Spec>, i: nat, j: nat, k: int32)
    requires SpecRun(specs) && i <= j < |specs| && k in specs[i].D
    ensures k in specs[j].D && specs[j].D[k] == specs[i].D[k]
    decreases j - i
  {
    if i < j {
      DiskGrows(specs, i, j - 1, k);
      assert SpecNext(specs[j - 1], specs[j]);
      var op :| Follows(specs[j - 1], specs[j], op);
    }
  }

  /** The moment at which a GET that missed W and reads D can be said to happen. */
  lemma {:induction false} Justified(specs: seq<Spec>, i: nat, j: nat, k: int32) returns (m: nat)
    requires SpecRun(specs) && i <= j < |specs| && Lacks(specs[i], k)
    ensures i <= m <= j && SpecGet(specs[m], k) == if k in specs[j].D then specs[j].D[k] else []
    decreases j - i
  {
    if k !in specs[j].D || k in specs[i].D {
      m := i;
      if k in specs[i].D {
        DiskGrows(specs, i, j, k);
      }
    } else {
      assert SpecNext(specs[j - 1], specs[j]);
      var op :| Follows(specs[j - 1], specs[j], op);
      if k in specs[j - 1].D {
        m := Justified(specs, i, j - 1, k);
        DiskGrows(specs, j - 1, j, k);
      } else {
        m := j;
      }
    }
  }

  // ----- the invariant -----

  ghost predicate Shaped(s: System) {
    |s.queues| == |s.jobs| == IO_WORKERS && |s.used| == NUM_BLOCKS && s.used[0] && SpecRun(s.specs)
  }

  /** At most one request has the write lock, and then nobody reads; a flush has it from its submission to its end. */
  ghost predicate LockOk(s: System) {
    && (forall t :: 0 <= t < |s.threads| ==> (HasWriteLock(s.threads[t]) <==> s.lock == Held(t)))
    && (s.lock.Held? ==> s.lock.t < |s.threads|)
    && (s.lock != Free ==> NoReader(s))
    && (forall t, u :: 0 <= t < |s.threads| && 0 <= u < |s.threads| && HasCopy(s.threads[t]) && HasCopy(s.threads[u]) ==> t == u)
    && (forall t :: 0 <= t < |s.threads| && HasCopy(s.threads[t]) ==> s.lock.HandedOver? || s.lock == Kept(t))
    && (s.lock.Kept? ==> s.lock.t < |s.threads| && HasCopy(s.threads[s.lock.t]))
    && s.unserved == if s.lock == HandedOver(NPOS) then [Flush(NPOS)] else []
  }

  /** A key is mapped to a used block whose flush holds it. */
  ghost predicate KeyOk(s: System, k: int32)
    requires Shaped(s) && k in s.index
  {
    0 < s.index[k] < NUM_BLOCKS && s.used[s.index[k]] && s.index[k] in s.handed && k in s.handed[s.index[k]]
  }

  ghost predicate IndexOk(s: System)
    requires Shaped(s)
  {
    forall k :: k in s.index ==> KeyOk(s, k)
  }

  /** Every block holds exactly what the buffer held when its flush was submitted, and until that flush has stored it
      the buffer holds it unchanged. */
  ghost predicate BlocksOk(s: System)
    requires Shaped(s)
  {
    && (forall b :: b in s.handed ==> if b < NUM_BLOCKS then s.used[b] else b == NPOS && s.lock == HandedOver(NPOS))
    && (forall b :: b in s.blocks ==> 0 < b < NUM_BLOCKS && b in s.handed && s.blocks[b] == s.handed[b])
    && (forall b :: b in s.blocks ==> s.blocks[b].Keys <= s.index.Keys)
    && (s.lock.HandedOver? ==> s.lock.b in s.handed && (s.lock.b !in s.blocks ==> s.W == s.handed[s.lock.b]))
    && s.readBuf == BlockTexts(s, s.readFrom) && (s.readFrom in s.blocks || s.readFrom == NPOS)
  }

  /** A GET past the write buffer: it missed W, and its key is mapped to b. */
  ghost predicate ReadOk(s: System, k: int32, since: nat, b: nat) {
    Missed(s.specs, k, since) && k in s.index && s.index[k] == b
  }

  ghost predicate ThreadOk(s: System, t: Thread) {
    match t
    case GetLocked(_, since) => since < |s.specs|
    case GetMissed(k, since) => Missed(s.specs, k, since)
    case GetMapped(k, since, b) => ReadOk(s, k, since, b)
    case GetClaiming(k, since, b) => ReadOk(s, k, since, b)
    case GetSubmitting(k, since, b) => ReadOk(s, k, since, b)
    case GetReading(k, since, b) => ReadOk(s, k, since, b)
    case _ => true
  }

  ghost predicate ThreadsOk(s: System) {
    forall t :: 0 <= t < |s.threads| ==> ThreadOk(s, s.threads[t])
  }

  ghost predicate LoadsOk(s: System, tasks: seq<Task>, b: nat) {
    forall i :: 0 <= i < |tasks| ==> tasks[i].Load? && tasks[i].b == b && ReadOk(s, tasks[i].key, tasks[i].since, b)
  }

  ghost predicate NotBegun(s: System, b: nat, tasks: seq<Task>) {
    tasks == [Flush(b)] && b !in s.blocks && forall k :: k in s.index ==> s.index[k] != b
  }

  predicate Resting(job: Job) {
    job.Looking? || job.Sleeping?
  }

  /** The worker of the block that is being flushed: the flush is alone in its queue, or its worker is at it and only
      loads wait behind it. */
  ghost predicate FlushingOk(s: System, b: nat, tasks: seq<Task>, job: Job)
    requires b < |s.used|
  {
    s.used[b] &&
    match job
    case Looking => NotBegun(s, b, tasks)
    case Sleeping(_) => NotBegun(s, b, tasks)
    case Mapping(c, todo) => c == b && b !in s.blocks && LoadsOk(s, tasks, b) && todo <= s.W.Keys && s.W.Keys - todo <= s.index.Keys
    case Storing(c) => c == b && b !in s.blocks && LoadsOk(s, tasks, b) && s.W.Keys <= s.index.Keys
    case Clearing(c) => c == b && b in s.blocks && LoadsOk(s, tasks, b)
    case Releasing(c) => c == b && b in s.blocks && LoadsOk(s, tasks, b) && s.W == map[]
    case _ => false
  }

  /** The worker of any other block: only loads, of a block that is written. */
  ghost predicate ServingOk(s: System, b: nat, tasks: seq<Task>, job: Job)
    requires b < |s.used|
  {
    && (s.used[b] <==> b in s.blocks) && LoadsOk(s, tasks, b)
    && match job
       case Looking => true
       case Sleeping(_) => true
       case Loading(c, k, since) => c == b && b in s.blocks && ReadOk(s, k, since, b)
       case Filling(c, k, since) => c == b && b in s.blocks && ReadOk(s, k, since, b)
       case Answering(c, k, since) => c == b && b in s.blocks && ReadOk(s, k, since, b)
       case _ => false
  }

  ghost predicate QueueOk(s: System, q: nat)
    requires Shaped(s) && q < IO_WORKERS
  {
    if s.lock == HandedOver(q + 1) then FlushingOk(s, q + 1, s.queues[q], s.jobs[q])
    else ServingOk(s, q + 1, s.queues[q], s.jobs[q])
  }

  ghost predicate QueuesOk(s: System)
    requires Shaped(s)
  {
    && (s.lock.HandedOver? ==> 0 < s.lock.b < NUM_BLOCKS || s.lock.b == NPOS)
    && forall q :: 0 <= q < IO_WORKERS ==> QueueOk(s, q)
  }

  /** D has a key exactly when the key's block is written, and then what that block has for it. */
  ghost predicate DiskOk(s: System, k: int32)
    requires s.specs != []
  {
    && (k in Now(s).D <==> k in s.index && s.index[k] in s.blocks)
    && (k in Now(s).D ==> Now(s).D[k] == Text(s.blocks[s.index[k]], k))
  }

  /** W as the buffer has it; between its storing and its clearing the buffer's contents belong to D already. */
  function Written(s: System): Texts {
    if s.lock.HandedOver? && s.lock.b in s.blocks then map[] else s.W
  }

  ghost predicate SpecOk(s: System)
    requires Shaped(s)
  {
    Now(s).W == Written(s) && forall k :: DiskOk(s, k)
  }

  ghost predicate LogOk(s: System) {
    forall i :: 0 <= i < |s.log| ==> ReplyOk(s.specs, s.log[i])
  }

  ghost predicate Inv(s: System) {
    Shaped(s) && LockOk(s) && IndexOk(s) && BlocksOk(s) && ThreadsOk(s) && QueuesOk(s) && SpecOk(s) && LogOk(s)
  }

  // ----- more history -----

  /** `t` knows all that `s` knows: the specification's states and the key map only grow. */
  ghost predicate Grows(s: System, t: System) {
    && |s.specs| <= |t.specs| && (forall i :: 0 <= i < |s.specs| ==> t.specs[i] == s.specs[i])
    && forall k :: k in s.index ==> k in t.index && t.index[k] == s.index[k]
  }

  lemma MissedGrows(s: System, t: System, k: int32, since: nat)
    requires Grows(s, t) && Missed(s.specs, k, since)
    ensures Missed(t.specs, k, since)
  {
    var i :| since <= i < |s.specs| && Lacks(s.specs[i], k);
    assert Lacks(t.specs[i], k);
  }

  lemma ThreadGrows(s: System, t: System, pc: Thread)
    requires Grows(s, t) && ThreadOk(s, pc)
    ensures ThreadOk(t, pc)
  {
    if pc.GetMissed? || pc.GetMapped? || pc.GetClaiming? || pc.GetSubmitting? || pc.GetReading? {
      MissedGrows(s, t, pc.key, pc.since);
    }
  }

  lemma LoadsGrow(s: System, t: System, tasks: seq<Task>, b: nat)
    requires Grows(s, t) && LoadsOk(s, tasks, b)
    ensures LoadsOk(t, tasks, b)
  {
    forall i | 0 <= i < |tasks| ensures ReadOk(t, tasks[i].key, tasks[i].since, b) {
      MissedGrows(s, t, tasks[i].key, tasks[i].since);
    }
  }

  lemma LogGrows(s: System, t: System)
    requires Grows(s, t) && LogOk(s) && t.log == s.log
    ensures LogOk(t)
  {
    forall i | 0 <= i < |s.log| ensures ReplyOk(t.specs, s.log[i]) {
      var r := s.log[i];
      if r.loaded {
        var m :| r.since <= m < r.until && Answers(s.specs[m], r.key, r.value);
        assert Answers(t.specs[m], r.key, r.value);
      }
    }
  }

  /** Nothing that concerns a worker has changed. */
  ghost predicate Untouched(s: System, t: System, q: nat)
    requires Shaped(s) && Shaped(t) && q < IO_WORKERS
  {
    && t.jobs[q] == s.jobs[q] && t.queues[q] == s.queues[q] && t.used[q + 1] == s.used[q + 1]
    && (t.lock == HandedOver(q + 1) <==> s.lock == HandedOver(q + 1)) && (q + 1 in t.blocks <==> q + 1 in s.blocks)
    && (s.lock == HandedOver(q + 1) ==> t.W == s.W && t.index == s.index)
  }

  lemma QueueGrows(s: System, t: System, q: nat)
    requires Shaped(s) && Shaped(t) && q < IO_WORKERS && QueueOk(s, q) && Grows(s, t) && Untouched(s, t, q)
    ensures QueueOk(t, q)
  {
    if !(s.lock == HandedOver(q + 1) && Resting(s.jobs[q])) {
      LoadsGrow(s, t, s.queues[q], q + 1);
    }
    if s.jobs[q].Loading? || s.jobs[q].Filling? || s.jobs[q].Answering? {
      MissedGrows(s, t, s.jobs[q].key, s.jobs[q].since);
    }
  }

  lemma OthersGrow(s: System, t: System, q: nat)
    requires Shaped(s) && Shaped(t) && QueuesOk(s) && Grows(s, t) && q < IO_WORKERS && QueueOk(t, q)
    requires forall p :: 0 <= p < IO_WORKERS && p != q ==> Untouched(s, t, p)
    ensures forall p :: 0 <= p < IO_WORKERS ==> QueueOk(t, p)
  {
    forall p | 0 <= p < IO_WORKERS ensures QueueOk(t, p) {
      if p != q {
        QueueGrows(s, t, p);
      }
    }
  }

  /** No worker is touched. */
  lemma QueuesGrow(s: System, t: System)
    requires Shaped(s) && Shaped(t) && QueuesOk(s) && Grows(s, t)
    requires t.jobs == s.jobs && t.queues == s.queues && t.used == s.used && t.blocks == s.blocks
    requires s.lock == t.lock || (!s.lock.HandedOver? && !t.lock.HandedOver?)
    requires s.lock.HandedOver? ==> t.W == s.W && t.index == s.index
    ensures QueuesOk(t)
  {
    forall q | 0 <= q < IO_WORKERS ensures QueueOk(t, q) {
      QueueGrows(s, t, q);
    }
  }

  lemma ThreadsGrow(s: System, t: System, c: nat)
    requires ThreadsOk(s) && Grows(s, t) && c < |s.threads| == |t.threads| && ThreadOk(t, t.threads[c])
    requires forall d :: 0 <= d < |s.threads| && d != c ==> t.threads[d] == s.threads[d]
    ensures ThreadsOk(t)
  {
    forall d | 0 <= d < |t.threads| ensures ThreadOk(t, t.threads[d]) {
      if d != c {
        ThreadGrows(s, t, s.threads[d]);
      }
    }
  }

  lemma ThreadsStay(s: System, t: System)
    requires ThreadsOk(s) && Grows(s, t) && t.threads == s.threads
    ensures ThreadsOk(t)
  {
    forall d | 0 <= d < |t.threads| ensures ThreadOk(t, t.threads[d]) {
      ThreadGrows(s, t, s.threads[d]);
    }
  }

  lemma SpecsGrow(specs: seq<Spec>, op: SpecOp)
    requires SpecRun(specs)
    ensures SpecRun(specs + [Apply(specs[|specs| - 1], op)])
  {
    var more := specs + [Apply(specs[|specs| - 1], op)];
    assert Follows(specs[|specs| - 1], more[|specs|], op);
    forall i | 0 < i < |more| ensures SpecNext(more[i - 1], more[i]) {
      if i < |specs| {
        assert SpecNext(specs[i - 1], specs[i]);
      }
    }
  }

  lemma DiskStays(s: System, t: System)
    requires Shaped(s) && Shaped(t) && SpecOk(s) && t.index == s.index && t.blocks == s.blocks && Now(t).D == Now(s).D
    ensures forall k :: DiskOk(t, k)
  {
    forall k ensures DiskOk(t, k) {
      assert DiskOk(s, k);
    }
  }

  /** The key map and the blocks stay as they are. */
  lemma DataStays(s: System, t: System)
    requires Shaped(s) && Shaped(t) && IndexOk(s) && SpecOk(s) && Now(t).D == Now(s).D
    requires t.index == s.index && t.used == s.used && t.handed == s.handed && t.blocks == s.blocks
    ensures IndexOk(t) && forall k :: DiskOk(t, k)
  {
    forall k | k in t.index ensures KeyOk(t, k) {
      assert KeyOk(s, k);
    }
    DiskStays(s, t);
  }

  // ----- requests -----

  lemma LockingInv(s: System, c: nat, pc: Thread)
    requires Inv(s) && c < |s.threads| && s.threads[c] == Idle && s.lock == Free && NoReader(s) && HasWriteLock(pc)
    ensures Inv(At(s, c, pc).(lock := Held(c)))
  {
    var t := At(s, c, pc).(lock := Held(c));
    ThreadsGrow(s, t, c);
    QueuesGrow(s, t);
    LogGrows(s, t);
    DataStays(s, t);
  }

  lemma PutReturnInv(s: System, c: nat)
    requires Inv(s) && c < |s.threads| && s.threads[c].PutDone?
    ensures Inv(At(s, c, Idle).(lock := Free))
  {
    var t := At(s, c, Idle).(lock := Free);
    assert s.lock == Held(c);
    ThreadsGrow(s, t, c);
    QueuesGrow(s, t);
    LogGrows(s, t);
    DataStays(s, t);
  }

  lemma InsertInv(s: System, c: nat)
    requires Inv(s) && c < |s.threads| && s.threads[c].PutLocked?
    ensures Inv(Insert(s, c))
  {
    var t := Insert(s, c);
    assert s.lock == Held(c);
    SpecsGrow(s.specs, SpecPut(s.threads[c].key, s.threads[c].value));
    ThreadsGrow(s, t, c);
    QueuesGrow(s, t);
    LogGrows(s, t);
    DataStays(s, t);
  }

  lemma EraseInv(s: System, c: nat)
    requires Inv(s) && c < |s.threads| && s.threads[c].DelLocked?
    ensures Inv(Erase(s, c))
  {
    var t := Erase(s, c);
    assert s.lock == Held(c);
    SpecsGrow(s.specs, SpecDel(s.threads[c].key));
    ThreadsGrow(s, t, c);
    QueuesGrow(s, t);
    LogGrows(s, t);
    DataStays(s, t);
  }

  lemma LoadsMapped(s: System, tasks: seq<Task>, b: nat) returns (k: int32)
    requires LoadsOk(s, tasks, b) && tasks != []
    ensures k in s.index && s.index[k] == b
  {
    k := tasks[0].key;
  }

  /** A block just taken has no key, no contents and no task yet. */
  lemma FreshBlock(s: System, b: nat)
    requires Inv(s) && 0 < b < NUM_BLOCKS && !s.used[b] && !s.lock.HandedOver?
    ensures b !in s.blocks && s.queues[b - 1] == [] && Resting(s.jobs[b - 1])
    ensures forall k :: k in s.index ==> s.index[k] != b
  {
    assert QueueOk(s, b - 1);
    forall k | k in s.index ensures s.index[k] != b {
      assert KeyOk(s, k);
    }
    if s.queues[b - 1] != [] {
      var k := LoadsMapped(s, s.queues[b - 1], b);
      assert false;
    }
  }

  lemma HandOverInv(s: System, c: nat)
    requires Inv(s) && c < |s.threads| && s.threads[c].PutDone?
    ensures Inv(HandOver(s, c))
  {
    FirstFreeIs(s.used, 0);
    assert s.lock == Held(c);
    if FirstFree(s.used, 0) == NPOS {
      JamInv(s, c);
    } else {
      SubmitFlushInv(s, c);
    }
  }

  /** A request gives the write lock away. */
  lemma LockGiven(s: System, t: System, c: nat)
    requires LockOk(s) && c < |s.threads| == |t.threads| && s.lock == Held(c) && t.threads == s.threads[c := t.threads[c]] && !t.lock.Held? && !t.lock.Kept?
    requires t.threads[c] == Idle || (t.threads[c] == HandingOver && t.lock.HandedOver?)
    requires t.unserved == if t.lock == HandedOver(NPOS) then [Flush(NPOS)] else []
    ensures LockOk(t)
  {
  }

  /** Submitting the flush of a block that is not written changes neither the key map nor the two maps. */
  lemma HandOverData(s: System, t: System, b: nat)
    requires Inv(s) && Shaped(t) && s.lock.Held? && b !in s.blocks && forall k :: k in s.index ==> s.index[k] != b
    requires t.lock == HandedOver(b) && t.W == s.W && t.index == s.index && t.blocks == s.blocks && t.specs == s.specs
    requires t.readBuf == s.readBuf && t.readFrom == s.readFrom && t.handed == s.handed[b := s.W]
    requires if b < NUM_BLOCKS then t.used == s.used[b := true] else b == NPOS && t.used == s.used
    ensures IndexOk(t) && BlocksOk(t) && SpecOk(t)
  {
    forall k | k in t.index ensures KeyOk(t, k) {
      assert KeyOk(s, k);
    }
    DiskStays(s, t);
  }

  /** No block is free: the flush goes to a queue without a worker. */
  lemma JamInv(s: System, c: nat)
    requires Inv(s) && c < |s.threads| && s.threads[c].PutDone? && FirstFree(s.used, 0) == NPOS
    ensures Inv(HandOver(s, c)) && HandOver(s, c).lock == HandedOver(NPOS)
  {
    var t := HandOver(s, c);
    assert s.lock == Held(c);
    QueueServed(NPOS);
    LockGiven(s, t, c);
    forall k | k in s.index ensures s.index[k] != NPOS {
      assert KeyOk(s, k);
    }
    HandOverData(s, t, NPOS);
    ThreadsGrow(s, t, c);
    LogGrows(s, t);
    forall q | 0 <= q < IO_WORKERS ensures QueueOk(t, q) {
      QueueGrows(s, t, q);
    }
  }

  lemma SubmitFlushInv(s: System, c: nat)
    requires Inv(s) && c < |s.threads| && s.threads[c].PutDone? && FirstFree(s.used, 0) < NUM_BLOCKS
    ensures Inv(HandOver(s, c))
  {
    var t := HandOver(s, c);
    var b := FirstFree(s.used, 0);
    assert s.lock == Held(c);
    FirstFreeIs(s.used, 0);
    QueueServed(b);
    assert QueueOf(b) == b - 1;
    LockGiven(s, t, c);
    FreshBlock(s, b);
    HandOverData(s, t, b);
    ThreadsGrow(s, t, c);
    LogGrows(s, t);
    FlushQueued(s, t, b);
  }

  /** The flush is alone in its queue. */
  lemma FlushQueued(s: System, t: System, b: nat)
    requires Inv(s) && 0 < b < NUM_BLOCKS && !s.used[b] && s.lock.Held? && Shaped(t) && Grows(s, t)
    requires t.lock == HandedOver(b) && t.used == s.used[b := true] && t.queues == s.queues[b - 1 := s.queues[b - 1] + [Flush(b)]]
    requires t.jobs == s.jobs && t.blocks == s.blocks && t.index == s.index
    ensures QueuesOk(t)
  {
    FreshBlock(s, b);
    assert t.queues[b - 1] == [Flush(b)];
    OthersGrow(s, t, b - 1);
  }

  /** A GET that goes on, or ends with an answer. */
  lemma GetMoves(s: System, t: System, c: nat)
    requires Inv(s) && c < |s.threads| && !HasWriteLock(s.threads[c])
    requires |t.threads| == |s.threads| && t.threads == s.threads[c := t.threads[c]] && ThreadOk(s, t.threads[c]) && !HasWriteLock(t.threads[c])
    requires HasCopy(t.threads[c]) <==> HasCopy(s.threads[c])
    requires t.threads[c].GetLocked? ==> s.lock == Free
    requires t == System(s.W, s.lock, t.threads, s.index, s.used, s.blocks, s.queues, s.unserved, s.jobs, t.readBlock,
                         s.readBuf, s.readFrom, s.handed, s.specs, t.log) && LogOk(t)
    ensures Inv(t)
  {
    ThreadGrows(s, t, t.threads[c]);
    ThreadsGrow(s, t, c);
    QueuesGrow(s, t);
    DataStays(s, t);
  }

  /** One more answer, and a moment at which the two maps gave it. */
  lemma AnswerOk(s: System, t: System, r: Reply, m: nat)
    requires LogOk(s) && t.log == s.log + [r] && t.specs == s.specs && r.until == |s.specs|
    requires r.loaded ==> r.since <= m < |s.specs| && SpecGet(s.specs[m], r.key) == r.value
    ensures LogOk(t)
  {
    assert r.loaded ==> Answers(t.specs[m], r.key, r.value);
    forall i | 0 <= i < |t.log| ensures ReplyOk(t.specs, t.log[i]) {
      if i < |s.log| {
        assert ReplyOk(s.specs, s.log[i]);
      }
    }
  }

  lemma SearchInv(s: System, c: nat)
    requires Inv(s) && c < |s.threads| && s.threads[c].GetLocked?
    ensures Inv(Search(s, c))
  {
    var t, k, since := Search(s, c), s.threads[c].key, s.threads[c].since;
    assert ThreadOk(s, s.threads[c]);
    assert s.lock == Free;
    if Text(s.W, k) != [] {
      AnswerOk(s, t, Reply(k, Text(s.W, k), since, |s.specs|, true), |s.specs| - 1);
    } else {
      assert Lacks(Now(s), k);
    }
    GetMoves(s, t, c);
  }

  lemma LookUpInv(s: System, c: nat)
    requires Inv(s) && c < |s.threads| && s.threads[c].GetMissed?
    ensures Inv(LookUp(s, c))
  {
    var t, k, since := LookUp(s, c), s.threads[c].key, s.threads[c].since;
    assert ThreadOk(s, s.threads[c]);
    if k !in s.index {
      var m := ReadJustified(s, k, since);
      assert DiskOk(s, k);
      AnswerOk(s, t, Reply(k, [], since, |s.specs|, true), m);
    }
    GetMoves(s, t, c);
  }

  /** A GET that missed W may answer what D has now. */
  lemma ReadJustified(s: System, k: int32, since: nat) returns (m: nat)
    requires Shaped(s) && SpecOk(s) && Missed(s.specs, k, since)
    ensures since <= m < |s.specs| && SpecGet(s.specs[m], k) == if k in Now(s).D then Now(s).D[k] else []
  {
    var i :| since <= i < |s.specs| && Lacks(s.specs[i], k);
    m := Justified(s.specs, i, |s.specs| - 1, k);
  }

  lemma ReadBufferInv(s: System, c: nat)
    requires Inv(s) && c < |s.threads| && s.threads[c].GetReading?
    ensures Inv(ReadBuffer(s, c))
  {
    var t, k, since, b := ReadBuffer(s, c), s.threads[c].key, s.threads[c].since, s.threads[c].b;
    assert ThreadOk(s, s.threads[c]);
    var m := BufferJustified(s, k, since, b);
    AnswerOk(s, t, Reply(k, Text(s.readBuf, k), since, |s.specs|, s.readFrom == b), m);
    GetMoves(s, t, c);
  }

  /** What the read buffer has for a key whose block it was last loaded from is what D has for it. */
  lemma BufferJustified(s: System, k: int32, since: nat, b: nat) returns (m: nat)
    requires Inv(s) && ReadOk(s, k, since, b)
    ensures s.readFrom == b ==> since <= m < |s.specs| && SpecGet(s.specs[m], k) == Text(s.readBuf, k)
  {
    m := ReadJustified(s, k, since);
    assert DiskOk(s, k);
  }


  // ----- workers -----

  /** A worker goes on without touching the buffer, the key map or the blocks. */
  lemma JobMoves(s: System, t: System, q: nat)
    requires Inv(s) && q < IO_WORKERS && Shaped(t) && QueueOk(t, q)
    requires |t.jobs| == |t.queues| == IO_WORKERS && t.jobs == s.jobs[q := t.jobs[q]] && t.queues == s.queues[q := t.queues[q]]
    requires t == System(s.W, s.lock, s.threads, s.index, s.used, s.blocks, t.queues, s.unserved, t.jobs, s.readBlock,
                         t.readBuf, t.readFrom, s.handed, s.specs, s.log)
    requires t.readBuf == BlockTexts(t, t.readFrom) && (t.readFrom in t.blocks || t.readFrom == NPOS)
    ensures Inv(t)
  {
    ThreadsStay(s, t);
    LogGrows(s, t);
    DataStays(s, t);
    OthersGrow(s, t, q);
  }

  lemma SubmitLoadInv(s: System, c: nat)
    requires Inv(s) && c < |s.threads| && s.threads[c].GetSubmitting?
    ensures Inv(SubmitLoad(s, c))
  {
    var k, since, b := s.threads[c].key, s.threads[c].since, s.threads[c].b;
    assert ThreadOk(s, s.threads[c]);
    assert KeyOk(s, k);
    QueueServed(b);
    assert QueueOf(b) == b - 1;
    GetMoves(s, At(s, c, Notifying), c);
    LoadQueued(At(s, c, Notifying), k, since, b);
  }

  lemma LoadQueued(s: System, k: int32, since: nat, b: nat)
    requires Inv(s) && 0 < b < NUM_BLOCKS && ReadOk(s, k, since, b)
    ensures Inv(s.(queues := s.queues[b - 1 := s.queues[b - 1] + [Load(b, k, since)]]))
  {
    var t := s.(queues := s.queues[b - 1 := s.queues[b - 1] + [Load(b, k, since)]]);
    assert QueueOk(s, b - 1);
    JobMoves(s, t, b - 1);
  }

  lemma NotifyInv(s: System, c: nat, q: nat)
    requires Inv(s) && c < |s.threads| && (s.threads[c].Notifying? || s.threads[c].HandingOver?) && NotifyOne(s, c, q).Some?
    ensures Inv(NotifyOne(s, c, q).value)
  {
    GetMoves(s, At(s, c, Notified(s.threads[c])), c);
    if q < |s.jobs| && s.jobs[q] == Sleeping(false) {
      RestInv(At(s, c, Notified(s.threads[c])), q, Sleeping(true));
    }
  }

  /** A PUT that handed its lock over returns. */
  lemma LeaveInv(s: System, c: nat)
    requires Inv(s) && c < |s.threads| && s.threads[c].Leaving?
    ensures Inv(Leave(s, c))
  {
    var t := Leave(s, c);
    ThreadsGrow(s, t, c);
    QueuesGrow(s, t);
    LogGrows(s, t);
    DataStays(s, t);
  }

  /** A GET that changes nothing but itself, and what the read buffer is declared to hold. */
  lemma GetGoesInv(s: System, a: Action)
    requires Inv(s) && (a.GetLock? || a.GetCompare? || a.GetClaim?) && a.t < |s.threads| && StepRequest(s, a).Some?
    ensures Inv(StepRequest(s, a).value)
  {
    assert ThreadOk(s, s.threads[a.t]);
    GetMoves(s, StepRequest(s, a).value, a.t);
  }

  /** What a GET does, and a notification. */
  lemma GetInv(s: System, a: Action)
    requires Inv(s) && !a.IoStep? && a.t < |s.threads| && StepRequest(s, a).Some?
    requires a.GetLock? || a.GetSearch? || a.GetLookup? || a.GetCompare? || a.GetClaim? || a.GetSubmit? || a.GetRead? || a.Notify?
    ensures Inv(StepRequest(s, a).value)
  {
    match a
    case GetLock(t, k) => GetGoesInv(s, a);
    case GetSearch(t) => SearchInv(s, t);
    case GetLookup(t) => LookUpInv(s, t);
    case GetCompare(t) => GetGoesInv(s, a);
    case GetClaim(t) => GetGoesInv(s, a);
    case GetSubmit(t) => SubmitLoadInv(s, t);
    case GetRead(t) => ReadBufferInv(s, t);
    case Notify(t, q) => NotifyInv(s, t, q);
    case _ =>
  }

  /** What a request does keeps the invariant. */
  lemma RequestInv(s: System, a: Action)
    requires Inv(s) && !a.IoStep? && a.t < |s.threads| && StepRequest(s, a).Some?
    ensures Inv(StepRequest(s, a).value)
  {
    match a
    case PutLock(t, k, v) => LockingInv(s, t, PutLocked(k, v));
    case PutInsert(t) => InsertInv(s, t);
    case PutReturn(t) => PutReturnInv(s, t);
    case PutHandOver(t) => HandOverInv(s, t);
    case PutLeave(t) => LeaveInv(s, t);
    case DelLock(t, k) => LockingInv(s, t, DelLocked(k));
    case DelErase(t) => EraseInv(s, t);
    case _ => GetInv(s, a);
  }

  lemma FetchInv(s: System, q: nat)
    requires Inv(s) && q < IO_WORKERS && s.jobs[q].Looking? && s.queues[q] != []
    ensures Inv(Fetch(s, q))
  {
    assert QueueOk(s, q);
    assert QueueOk(Fetch(s, q), q);
    JobMoves(s, Fetch(s, q), q);
  }

  /** Falling asleep, being notified and waking up. */
  lemma RestInv(s: System, q: nat, job: Job)
    requires Inv(s) && q < IO_WORKERS && Resting(s.jobs[q]) && Resting(job)
    ensures Inv(Work(s, q, job))
  {
    assert QueueOk(s, q);
    JobMoves(s, Work(s, q, job), q);
  }

  lemma MapKeyInv(s: System, q: nat, k: int32)
    requires Inv(s) && q < IO_WORKERS && s.jobs[q].Mapping? && k in s.jobs[q].todo
    ensures Inv(MapKey(s, q, k))
  {
    var t := MapKey(s, q, k);
    assert QueueOk(s, q);
    MapKeyQueues(s, q, k);
    ThreadsStay(s, t);
    LogGrows(s, t);
    MapKeyIndex(s, q, k);
  }

  lemma MapKeyQueues(s: System, q: nat, k: int32)
    requires Shaped(s) && QueuesOk(s) && q < IO_WORKERS && s.jobs[q].Mapping? && k in s.jobs[q].todo
    ensures QueuesOk(MapKey(s, q, k))
  {
    var t := MapKey(s, q, k);
    assert QueueOk(s, q);
    LoadsGrow(s, t, s.queues[q], q + 1);
    assert QueueOk(t, q);
    OthersGrow(s, t, q);
  }

  lemma MapKeyIndex(s: System, q: nat, k: int32)
    requires Shaped(s) && IndexOk(s) && BlocksOk(s) && SpecOk(s) && q < IO_WORKERS && s.jobs[q].Mapping? && k in s.jobs[q].todo
    requires s.lock == HandedOver(q + 1) && s.jobs[q].b == q + 1 && q + 1 !in s.blocks && s.used[q + 1] && s.jobs[q].todo <= s.W.Keys
    ensures IndexOk(MapKey(s, q, k)) && SpecOk(MapKey(s, q, k))
  {
    var t := MapKey(s, q, k);
    forall j | j in t.index ensures KeyOk(t, j) {
      if j in s.index {
        assert KeyOk(s, j);
      }
    }
    forall j ensures DiskOk(t, j) {
      assert DiskOk(s, j);
    }
  }

  lemma MappedInv(s: System, q: nat)
    requires Inv(s) && q < IO_WORKERS && s.jobs[q].Mapping? && s.jobs[q].todo == {}
    ensures Inv(Work(s, q, Storing(s.jobs[q].b)))
  {
    assert QueueOk(s, q);
    JobMoves(s, Work(s, q, Storing(s.jobs[q].b)), q);
  }

  /** The block gets what the buffer has, and W goes under D. */
  lemma StoreInv(s: System, q: nat)
    requires Inv(s) && q < IO_WORKERS && s.jobs[q].Storing?
    ensures Inv(Store(s, q, s.jobs[q].b))
  {
    var t := Store(s, q, s.jobs[q].b);
    assert QueueOk(s, q);
    SpecsGrow(s.specs, SpecSpill);
    StoreQueues(s, q);
    ThreadsStay(s, t);
    LogGrows(s, t);
    forall k | k in t.index ensures KeyOk(t, k) {
      assert KeyOk(s, k);
    }
    StoreData(s, q);
    assert LockOk(t);
  }

  lemma StoreQueues(s: System, q: nat)
    requires Shaped(s) && QueuesOk(s) && q < IO_WORKERS && s.jobs[q].Storing? && Shaped(Store(s, q, s.jobs[q].b))
    ensures QueuesOk(Store(s, q, s.jobs[q].b))
  {
    var t := Store(s, q, s.jobs[q].b);
    assert QueueOk(s, q);
    LoadsGrow(s, t, s.queues[q], q + 1);
    assert QueueOk(t, q);
    OthersGrow(s, t, q);
  }

  lemma StoreData(s: System, q: nat)
    requires Shaped(s) && IndexOk(s) && BlocksOk(s) && QueuesOk(s) && SpecOk(s) && q < IO_WORKERS && s.jobs[q].Storing? && Shaped(Store(s, q, s.jobs[q].b))
    ensures BlocksOk(Store(s, q, s.jobs[q].b)) && SpecOk(Store(s, q, s.jobs[q].b))
  {
    var t := Store(s, q, s.jobs[q].b);
    assert QueueOk(s, q);
    StoredDisk(s, t, q + 1);
  }

  /** A used block is written, unless its flush is under way. */
  lemma UsedIsWritten(s: System, b: nat)
    requires Shaped(s) && QueuesOk(s) && 0 < b < NUM_BLOCKS && s.used[b] && s.lock != HandedOver(b)
    ensures b in s.blocks
  {
    assert QueueOk(s, b - 1);
  }

  lemma StoredDisk(s: System, t: System, b: nat)
    requires Shaped(s) && IndexOk(s) && BlocksOk(s) && QueuesOk(s) && SpecOk(s)
    requires s.lock == HandedOver(b) && b !in s.blocks && s.W.Keys <= s.index.Keys
    requires t.index == s.index && t.blocks == s.blocks[b := s.W] && t.specs != [] && Now(t).D == s.W + Now(s).D
    ensures forall k :: DiskOk(t, k)
  {
    forall k ensures DiskOk(t, k) {
      assert DiskOk(s, k);
      if k in s.index {
        assert KeyOk(s, k);
        if s.index[k] != b {
          UsedIsWritten(s, s.index[k]);
        }
      }
    }
  }

  lemma ClearInv(s: System, q: nat)
    requires Inv(s) && q < IO_WORKERS && s.jobs[q].Clearing?
    ensures Inv(s.(W := map[], jobs := s.jobs[q := Releasing(s.jobs[q].b)]))
  {
    var t := s.(W := map[], jobs := s.jobs[q := Releasing(s.jobs[q].b)]);
    assert QueueOk(s, q);
    ThreadsStay(s, t);
    LogGrows(s, t);
    DataStays(s, t);
    LoadsGrow(s, t, s.queues[q], q + 1);
    assert QueueOk(t, q);
    OthersGrow(s, t, q);
  }

  lemma {:induction false} KeeperIs(ts: seq<Thread>, i: nat)
    requires i <= |ts|
    ensures Keeper(ts, i) == None <==> forall t :: i <= t < |ts| ==> !HasCopy(ts[t])
    ensures Keeper(ts, i).Some? ==> i <= Keeper(ts, i).value < |ts| && HasCopy(ts[Keeper(ts, i).value])
    decreases |ts| - i
  {
    if i < |ts| {
      KeeperIs(ts, i + 1);
    }
  }

  /** The flush drops its copy of the lock; the PUT that handed it over may still have one. */
  lemma DroppedLock(s: System, t: System)
    requires LockOk(s) && s.lock.HandedOver? && s.lock.b != NPOS
    requires t.threads == s.threads && t.unserved == s.unserved && t.lock == Dropped(s.threads)
    ensures LockOk(t)
  {
    KeeperIs(s.threads, 0);
  }

  lemma ReleaseInv(s: System, q: nat)
    requires Inv(s) && q < IO_WORKERS && s.jobs[q].Releasing?
    ensures Inv(s.(lock := Dropped(s.threads), jobs := s.jobs[q := Looking]))
  {
    var t := s.(lock := Dropped(s.threads), jobs := s.jobs[q := Looking]);
    assert QueueOk(s, q);
    DroppedLock(s, t);
    ThreadsStay(s, t);
    LogGrows(s, t);
    DataStays(s, t);
    LoadsGrow(s, t, s.queues[q], q + 1);
    assert QueueOk(t, q);
    OthersGrow(s, t, q);
  }

  lemma EmptyInv(s: System, q: nat)
    requires Inv(s) && q < IO_WORKERS && s.jobs[q].Loading?
    ensures Inv(StepIo(s, q, 0).value)
  {
    assert QueueOk(s, q);
    JobMoves(s, StepIo(s, q, 0).value, q);
  }

  lemma FillInv(s: System, q: nat)
    requires Inv(s) && q < IO_WORKERS && s.jobs[q].Filling?
    ensures Inv(StepIo(s, q, 0).value)
  {
    assert QueueOk(s, q);
    JobMoves(s, StepIo(s, q, 0).value, q);
  }

  lemma AnswerInv(s: System, q: nat)
    requires Inv(s) && q < IO_WORKERS && s.jobs[q].Answering?
    ensures Inv(StepIo(s, q, 0).value)
  {
    var k, since, b := s.jobs[q].key, s.jobs[q].since, s.jobs[q].b;
    var r := Reply(k, Text(s.readBuf, k), since, |s.specs|, s.readFrom == b);
    assert QueueOk(s, q);
    var m := BufferJustified(s, k, since, b);
    JobDoneInv(s, q);
    AnswerOk(Work(s, q, Looking), StepIo(s, q, 0).value, r, m);
    LoggedInv(Work(s, q, Looking), s.log + [r]);
  }

  lemma JobDoneInv(s: System, q: nat)
    requires Inv(s) && q < IO_WORKERS && s.jobs[q].Answering?
    ensures Inv(Work(s, q, Looking))
  {
    assert QueueOk(s, q);
    JobMoves(s, Work(s, q, Looking), q);
  }

  lemma LoggedInv(s: System, log: seq<Reply>)
    requires Inv(s) && LogOk(s.(log := log))
    ensures Inv(s.(log := log))
  {
    var t := s.(log := log);
    ThreadsStay(s, t);
    DataStays(s, t);
    QueuesGrow(s, t);
  }

  lemma IoInv(s: System, q: nat, key: int32)
    requires Inv(s) && q < IO_WORKERS && StepIo(s, q, key).Some?
    ensures Inv(StepIo(s, q, key).value)
  {
    match s.jobs[q]
    case Looking =>
      if s.queues[q] == [] {
        RestInv(s, q, Sleeping(false));
      } else {
        FetchInv(s, q);
      }
    case Sleeping(_) => RestInv(s, q, Looking);
    case Mapping(_, todo) =>
      if todo == {} {
        MappedInv(s, q);
      } else {
        MapKeyInv(s, q, key);
      }
    case Storing(b) => StoreInv(s, q);
    case Clearing(b) => ClearInv(s, q);
    case Releasing(b) => ReleaseInv(s, q);
    case Loading(b, k, since) => EmptyInv(s, q);
    case Filling(b, k, since) => FillInv(s, q);
    case Answering(b, k, since) => AnswerInv(s, q);
  }

  /** Every step keeps the invariant, and every state a run reaches has it. */
  lemma StepInv(s: System, a: Action)
    requires Inv(s) && Step(s, a).Some?
    ensures Inv(Step(s, a).value)
  {
    if a.IoStep? {
      IoInv(s, a.q, a.key);
    } else {
      RequestInv(s, a);
    }
  }

  lemma {:induction false} RunInv(s: System, acts: seq<Action>)
    requires Inv(s) && Run(s, acts).Some?
    ensures Inv(Run(s, acts).value)
    decreases |acts|
  {
    if acts != [] {
      StepInv(s, acts[0]);
      RunInv(Step(s, acts[0]).value, acts[1..]);
    }
  }

  lemma NewSystemInv(threads: nat)
    ensures Inv(NewSystem(threads))
  {
    var s := NewSystem(threads);
    forall q | 0 <= q < IO_WORKERS ensures QueueOk(s, q) {
    }
  }
}
