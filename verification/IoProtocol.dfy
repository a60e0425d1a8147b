/** The write lock's way through the I/O pool, one atomic action at a time: requests of many threads, the queue of
    every block, and the workers behind the queues. */
module IoProtocol {
  import opened Common
  import opened BlockFile
  import opened TablesSpec
  import opened TwoMaps

  type Texts = map<int32, Value>

  /** Where a request is. A GET carries the number of the specification state it began in. */
  datatype Thread =
    | Idle
    | PutLocked(key: int32, value: Value)             // has the write lock
    | PutDone                                         // has inserted, before the look at the size
    | DelLocked(key: int32)
    | GetLocked(key: int32, since: nat)               // has the write lock shared
    | GetMissed(key: int32, since: nat)               // the write buffer had nothing
    | GetMapped(key: int32, since: nat, b: nat)       // the index has named block b
    | GetClaiming(key: int32, since: nat, b: nat)     // the read buffer is for another block
    | GetSubmitting(key: int32, since: nat, b: nat)   // has declared the read buffer to be for b
    | GetReading(key: int32, since: nat, b: nat)      // the read buffer is declared to be for b
    | Notifying                                       // has pushed a load, before `notify_one`
    | HandingOver                                     // has pushed a flush with the write lock, before `notify_one`
    | Leaving                                         // has notified, and still has its own copy of that lock

  /** The exclusive owner of the write lock: a request, the flush of a block, or, when that is over, the PUT that
      submitted it and has not returned. The lock is free when both have dropped their copies. */
  datatype Lock = Free | Held(t: nat) | HandedOver(b: nat) | Kept(t: nat)

  datatype Task = Flush(b: nat) | Load(b: nat, key: int32, since: nat)

  /** What a worker of the I/O pool is doing. All workers wait on one condition, each for its own queue: a notification
      goes to any one that sleeps. A load empties the read buffer before it fills it. */
  datatype Job =
    | Looking                 // about to look into its queue
    | Sleeping(woken: bool)   // waiting for the condition, notified or not
    | Mapping(b: nat, todo: set<int32>)
    | Storing(b: nat)
    | Clearing(b: nat)
    | Releasing(b: nat)
    | Loading(b: nat, key: int32, since: nat)
    | Filling(b: nat, key: int32, since: nat)
    | Answering(b: nat, key: int32, since: nat)

  /** An answer to a GET, with the specification states that lie between its start and its end. `loaded` says that
      the read buffer was not asked, or was last loaded from the key's own block. */
  datatype Reply = Reply(key: int32, value: Value, since: nat, until: nat, loaded: bool)

  /** `W`, `index`, `used` and `blocks` are the write buffer, the key map, the usage table and the blocks written;
      `readBlock` is what the read buffer is declared to hold, `readFrom` what it was last loaded from. The history:
      `handed` has what the buffer held when a block's flush was submitted, `specs` the states of the two maps,
      `log` the answers. */
  datatype System = System(W: Texts, lock: Lock, threads: seq<Thread>, index: map<int32, nat>, used: seq<bool>,
                           blocks: map<nat, Texts>, queues: seq<seq<Task>>, unserved: seq<Task>, jobs: seq<Job>,
                           readBlock: nat, readBuf: Texts, readFrom: nat,
                           handed: map<nat, Texts>, specs: seq<Spec>, log: seq<Reply>)

  datatype Action =
    | PutLock(t: nat, key: int32, value: Value) | PutInsert(t: nat) | PutReturn(t: nat) | PutHandOver(t: nat) | PutLeave(t: nat)
    | DelLock(t: nat, key: int32) | DelErase(t: nat)
    | GetLock(t: nat, key: int32) | GetSearch(t: nat) | GetLookup(t: nat) | GetCompare(t: nat)
    | GetClaim(t: nat) | GetSubmit(t: nat) | GetRead(t: nat)
    | Notify(t: nat, woken: nat)
    | IoStep(q: nat, key: int32)

  function NewSystem(threads: nat): System {
    System(map[], Free, seq(threads, _ => Idle), map[], NewTables().used, map[], seq(IO_WORKERS, _ => []), [],
           seq(IO_WORKERS, _ => Looking), NPOS, map[], NPOS, map[], [Spec(map[], map[])], [])
  }

  function Text(m: Texts, k: int32): Value {
    if k in m then m[k] else []
  }

  function BlockTexts(s: System, b: nat): Texts {
    if b in s.blocks then s.blocks[b] else map[]
  }

  predicate HasWriteLock(t: Thread) {
    t.PutLocked? || t.PutDone? || t.DelLocked?
  }

  /** The PUT has a copy of the lock that it handed over. */
  predicate HasCopy(t: Thread) {
    t.HandingOver? || t.Leaving?
  }

  predicate NoReader(s: System) {
    forall t :: 0 <= t < |s.threads| ==> !s.threads[t].GetLocked?
  }

  function At(s: System, t: nat, pc: Thread): System
    requires t < |s.threads|
  {
    s.(threads := s.threads[t := pc])
  }

  /** The state of the two maps after what was done last. */
  function Now(s: System): Spec
    requires s.specs != []
  {
    s.specs[|s.specs| - 1]
  }

  // ----- requests -----

  function Insert(s: System, t: nat): System
    requires t < |s.threads| && s.threads[t].PutLocked? && s.specs != []
  {
    var k, v := s.threads[t].key, s.threads[t].value;
    s.(W := s.W[k := v], threads := s.threads[t := PutDone], specs := s.specs + [Spec(Now(s).W[k := v], Now(s).D)])
  }

  function Erase(s: System, t: nat): System
    requires t < |s.threads| && s.threads[t].DelLocked? && s.specs != []
  {
    var k := s.threads[t].key;
    s.(W := s.W - {k}, lock := Free, threads := s.threads[t := Idle], specs := s.specs + [Spec(Now(s).W - {k}, Now(s).D)])
  }

  /** The buffer is over its size: take a block, submit the flush, and leave the lock to it. */
  function HandOver(s: System, t: nat): System
    requires t < |s.threads|
  {
    var b := FirstFree(s.used, 0);
    if QueueOf(b) < |s.queues| && b < |s.used| then
      s.(lock := HandedOver(b), threads := s.threads[t := HandingOver], used := s.used[b := true],
         queues := s.queues[QueueOf(b) := s.queues[QueueOf(b)] + [Flush(b)]], handed := s.handed[b := s.W])
    else
      s.(lock := HandedOver(b), threads := s.threads[t := HandingOver], unserved := s.unserved + [Flush(b)], handed := s.handed[b := s.W])
  }

  /** The PUT returns: its copy of the lock is gone. */
  function Leave(s: System, t: nat): System
    requires t < |s.threads|
  {
    s.(lock := if s.lock == Kept(t) then Free else s.lock, threads := s.threads[t := Idle])
  }

  /** The first thread from i on that has a copy of the lock handed over. */
  function Keeper(ts: seq<Thread>, i: nat): Option<nat>
    requires i <= |ts|
    decreases |ts| - i
  {
    if i == |ts| then None else if HasCopy(ts[i]) then Some(i) else Keeper(ts, i + 1)
  }

  /** The lock once its flush is over. */
  function Dropped(ts: seq<Thread>): Lock {
    match Keeper(ts, 0) case None => Free case Some(t) => Kept(t)
  }

  function Answered(s: System, k: int32, v: Value, since: nat, loaded: bool): System {
    s.(log := s.log + [Reply(k, v, since, |s.specs|, loaded)])
  }

  function Search(s: System, t: nat): System
    requires t < |s.threads| && s.threads[t].GetLocked?
  {
    var k, since := s.threads[t].key, s.threads[t].since;
    if Text(s.W, k) != [] then Answered(At(s, t, Idle), k, Text(s.W, k), since, true) else At(s, t, GetMissed(k, since))
  }

  function LookUp(s: System, t: nat): System
    requires t < |s.threads| && s.threads[t].GetMissed?
  {
    var k, since := s.threads[t].key, s.threads[t].since;
    if k in s.index then At(s, t, GetMapped(k, since, s.index[k])) else Answered(At(s, t, Idle), k, [], since, true)
  }

  function Compare(s: System, t: nat): System
    requires t < |s.threads| && s.threads[t].GetMapped?
  {
    var k, since, b := s.threads[t].key, s.threads[t].since, s.threads[t].b;
    At(s, t, if b == s.readBlock then GetReading(k, since, b) else GetClaiming(k, since, b))
  }

  function Claim(s: System, t: nat): System
    requires t < |s.threads| && s.threads[t].GetClaiming?
  {
    var k, since, b := s.threads[t].key, s.threads[t].since, s.threads[t].b;
    s.(readBlock := b, threads := s.threads[t := GetSubmitting(k, since, b)])
  }

  function SubmitLoad(s: System, t: nat): System
    requires t < |s.threads| && s.threads[t].GetSubmitting?
  {
    var k, since, b := s.threads[t].key, s.threads[t].since, s.threads[t].b;
    if QueueOf(b) < |s.queues| then
      s.(threads := s.threads[t := Notifying], queues := s.queues[QueueOf(b) := s.queues[QueueOf(b)] + [Load(b, k, since)]])
    else s.(threads := s.threads[t := Notifying], unserved := s.unserved + [Load(b, k, since)])
  }

  function ReadBuffer(s: System, t: nat): System
    requires t < |s.threads| && s.threads[t].GetReading?
  {
    var k, since, b := s.threads[t].key, s.threads[t].since, s.threads[t].b;
    Answered(At(s, t, Idle), k, Text(s.readBuf, k), since, s.readFrom == b)
  }

  function Notified(pc: Thread): Thread {
    if pc.HandingOver? then Leaving else Idle
  }

  /** `notify_one`: a sleeping worker that was not notified yet, if there is one, whichever queue it serves. */
  function NotifyOne(s: System, t: nat, q: nat): Option<System>
    requires t < |s.threads|
  {
    if q < |s.jobs| && s.jobs[q] == Sleeping(false) then Some(Work(At(s, t, Notified(s.threads[t])), q, Sleeping(true)))
    else if forall p :: 0 <= p < |s.jobs| ==> s.jobs[p] != Sleeping(false) then Some(At(s, t, Notified(s.threads[t])))
    else None
  }

  // ----- workers of the I/O pool -----

  function Work(s: System, q: nat, job: Job): System
    requires q < |s.jobs|
  {
    s.(jobs := s.jobs[q := job])
  }

  function Fetch(s: System, q: nat): System
    requires q < |s.jobs| == |s.queues| && s.queues[q] != []
  {
    var job := match s.queues[q][0] case Flush(b) => Mapping(b, s.W.Keys) case Load(b, k, since) => Loading(b, k, since);
    s.(queues := s.queues[q := s.queues[q][1..]], jobs := s.jobs[q := job])
  }

  /** One key of the buffer is mapped to the block, unless it is mapped already. */
  function MapKey(s: System, q: nat, k: int32): System
    requires q < |s.jobs| && s.jobs[q].Mapping?
  {
    s.(index := if k in s.index then s.index else s.index[k := s.jobs[q].b],
       jobs := s.jobs[q := Mapping(s.jobs[q].b, s.jobs[q].todo - {k})])
  }

  function Store(s: System, q: nat, b: nat): System
    requires q < |s.jobs| && s.specs != []
  {
    s.(blocks := s.blocks[b := s.W], jobs := s.jobs[q := Clearing(b)], specs := s.specs + [SpecFlush(Now(s))])
  }

  function StepIo(s: System, q: nat, key: int32): Option<System>
    requires q < |s.jobs| == |s.queues| && s.specs != []
  {
    match s.jobs[q]
    case Looking => Some(if s.queues[q] == [] then Work(s, q, Sleeping(false)) else Fetch(s, q))
    case Sleeping(woken) => if woken then Some(Work(s, q, Looking)) else None
    case Mapping(b, todo) =>
      if todo == {} then Some(Work(s, q, Storing(b))) else if key in todo then Some(MapKey(s, q, key)) else None
    case Storing(b) => Some(Store(s, q, b))
    case Clearing(b) => Some(s.(W := map[], jobs := s.jobs[q := Releasing(b)]))
    case Releasing(b) => Some(s.(lock := Dropped(s.threads), jobs := s.jobs[q := Looking]))
    case Loading(b, k, since) => Some(s.(readBuf := map[], readFrom := NPOS, jobs := s.jobs[q := Filling(b, k, since)]))
    case Filling(b, k, since) =>
      Some(s.(readBuf := BlockTexts(s, b), readFrom := b, jobs := s.jobs[q := Answering(b, k, since)]))
    case Answering(b, k, since) => Some(Answered(Work(s, q, Looking), k, Text(s.readBuf, k), since, s.readFrom == b))
  }

  // ----- steps -----

  function StepRequest(s: System, a: Action): Option<System>
    requires !a.IoStep? && a.t < |s.threads| && s.specs != []
  {
    var pc := s.threads[a.t];
    match a
    case PutLock(t, k, v) =>
      if pc == Idle && s.lock == Free && NoReader(s) then Some(At(s, t, PutLocked(k, v)).(lock := Held(t))) else None
    case PutInsert(t) => if pc.PutLocked? then Some(Insert(s, t)) else None
    case PutReturn(t) => if pc.PutDone? then Some(At(s, t, Idle).(lock := Free)) else None
    case PutHandOver(t) => if pc.PutDone? then Some(HandOver(s, t)) else None
    case PutLeave(t) => if pc.Leaving? then Some(Leave(s, t)) else None
    case DelLock(t, k) =>
      if pc == Idle && s.lock == Free && NoReader(s) then Some(At(s, t, DelLocked(k)).(lock := Held(t))) else None
    case DelErase(t) => if pc.DelLocked? then Some(Erase(s, t)) else None
    case GetLock(t, k) => if pc == Idle && s.lock == Free then Some(At(s, t, GetLocked(k, |s.specs| - 1))) else None
    case GetSearch(t) => if pc.GetLocked? then Some(Search(s, t)) else None
    case GetLookup(t) => if pc.GetMissed? then Some(LookUp(s, t)) else None
    case GetCompare(t) => if pc.GetMapped? then Some(Compare(s, t)) else None
    case GetClaim(t) => if pc.GetClaiming? then Some(Claim(s, t)) else None
    case GetSubmit(t) => if pc.GetSubmitting? then Some(SubmitLoad(s, t)) else None
    case GetRead(t) => if pc.GetReading? then Some(ReadBuffer(s, t)) else None
    case Notify(t, q) => if pc.Notifying? || pc.HandingOver? then NotifyOne(s, t, q) else None
  }

  function Step(s: System, a: Action): Option<System> {
    if s.specs == [] || |s.jobs| != |s.queues| then None
    else if a.IoStep? then (if a.q < |s.jobs| then StepIo(s, a.q, a.key) else None)
    else if a.t < |s.threads| then StepRequest(s, a)
    else None
  }

  function Run(s: System, acts: seq<Action>): Option<System>
    decreases |acts|
  {
    if acts == [] then Some(s)
    else match Step(s, acts[0])
      case None => None
      case Some(t) => Run(t, acts[1..])
  }
}
