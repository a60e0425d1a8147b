/** Runs from a new system in which a GET answers a value its key never had. */
module IoWitnesses {
  import opened Common
  import opened BlockFile
  import opened TablesSpec
  import opened TwoMaps
  import opened IoProtocol
  import opened IoSafety
  import opened IoTheorems
  import opened IoReads
  import opened IoRequests

  // ----- PUTs that do not overflow, and one that does -----

  type Puts = seq<(int32, Value)>

  /** The write buffer after some PUTs. */
  function Filled(W: Texts, puts: Puts): Texts
    decreases |puts|
  {
    if puts == [] then W else Filled(W[puts[0].0 := puts[0].1], puts[1..])
  }

  /** What the buffer of a new or just flushed system holds after these PUTs and that of k and v. */
  function Full(puts: Puts, k: int32, v: Value): Texts {
    Filled(map[], puts)[k := v]
  }

  lemma {:induction false} FilledKeys(W: Texts, puts: Puts, k: int32)
    requires k !in W && forall i :: 0 <= i < |puts| ==> puts[i].0 != k
    ensures k !in Filled(W, puts)
    decreases |puts|
  {
    if puts != [] {
      FilledKeys(W[puts[0].0 := puts[0].1], puts[1..], k);
    }
  }

  /** PUTs that do not overflow change only the buffer and the history. */
  lemma {:induction false} PutsFit(s: System, c: nat, puts: Puts) returns (acts: seq<Action>)
    requires s.specs != [] && |s.jobs| == |s.queues| && c < |s.threads| && s.threads[c] == Idle && s.lock == Free && NoReader(s)
    ensures Run(s, acts).Some? && Refilled(s, Run(s, acts).value, Filled(s.W, puts))
    decreases |puts|
  {
    if puts == [] {
      acts := [];
    } else {
      var k, v := puts[0].0, puts[0].1;
      var t := PutAlone(s, c, k, v);
      var rest := PutsFit(t, c, puts[1..]);
      RunAppend(s, [PutLock(c, k, v), PutInsert(c), PutReturn(c)], rest);
      acts := [PutLock(c, k, v), PutInsert(c), PutReturn(c)] + rest;
    }
  }

  /** A PUT that overflows has taken block b, and is about to notify. */
  ghost predicate HandsOver(s: System, t: System, c: nat, m: Texts, b: nat)
    requires c < |s.threads| && b < |s.used|
  {
    && t.lock == HandedOver(b) && t.threads == s.threads[c := HandingOver] && t.jobs == s.jobs
    && t.used == s.used[b := true] && t.handed == s.handed[b := m] && t.log == s.log
    && t.readBlock == s.readBlock && t.readBuf == s.readBuf && t.readFrom == s.readFrom
    && 0 < b <= |s.queues| && t.queues == s.queues[b - 1 := s.queues[b - 1] + [Flush(b)]]
  }

  lemma PutOverflows(s: System, c: nat, k: int32, v: Value) returns (t: System)
    requires s.specs != [] && |s.jobs| == |s.queues| == IO_WORKERS && |s.used| == NUM_BLOCKS && s.used[0] && FirstFree(s.used, 0) < NUM_BLOCKS
    requires c < |s.threads| && s.threads[c] == Idle && s.lock == Free && NoReader(s)
    ensures Run(s, [PutLock(c, k, v), PutInsert(c), PutHandOver(c)]) == Some(t)
    ensures t.specs != [] && HandsOver(s, t, c, s.W[k := v], FirstFree(s.used, 0))
  {
    var s1 := At(s, c, PutLocked(k, v)).(lock := Held(c));
    assert Step(s, PutLock(c, k, v)) == Some(s1);
    var s2 := Insert(s1, c);
    assert Step(s1, PutInsert(c)) == Some(s2);
    t := HandOver(s2, c);
    assert Step(s2, PutHandOver(c)) == Some(t);
    FirstFreeIs(s.used, 0);
    QueueServed(FirstFree(s.used, 0));
    assert s2.threads[c := HandingOver] == s.threads[c := HandingOver];
    PathRuns([s, s1, s2, t], [PutLock(c, k, v), PutInsert(c), PutHandOver(c)]);
  }

  /** After any PUTs that do not overflow, one that does. */
  lemma FillsUp(s: System, c: nat, puts: Puts, k: int32, v: Value) returns (acts: seq<Action>)
    requires s.specs != [] && |s.jobs| == |s.queues| == IO_WORKERS && |s.used| == NUM_BLOCKS && s.used[0] && FirstFree(s.used, 0) < NUM_BLOCKS
    requires c < |s.threads| && s.threads[c] == Idle && s.lock == Free && NoReader(s) && s.W == map[]
    ensures Run(s, acts).Some? && Run(s, acts).value.specs != []
    ensures HandsOver(s, Run(s, acts).value, c, Full(puts, k, v), FirstFree(s.used, 0))
  {
    var first := PutsFit(s, c, puts);
    var u := Run(s, first).value;
    var t := PutOverflows(u, c, k, v);
    RunAppend(s, first, [PutLock(c, k, v), PutInsert(c), PutHandOver(c)]);
    acts := first + [PutLock(c, k, v), PutInsert(c), PutHandOver(c)];
  }

  // ----- a flush lost -----

  /** Two workers sleep, some PUTs fit, one overflows, and the notification for its flush wakes the other worker. */
  lemma FlushLost(puts: Puts, k: int32, v: Value) returns (acts: seq<Action>)
    ensures Run(NewSystem(1), acts).Some? && Deaf(Run(NewSystem(1), acts).value, 1)
  {
    var s0 := NewSystem(1);
    var s1 := Work(s0, 0, Sleeping(false));
    assert Step(s0, IoStep(0, 0)) == Some(s1);
    var s2 := Work(s1, 1, Sleeping(false));
    assert Step(s1, IoStep(1, 0)) == Some(s2);
    PathRuns([s0, s1, s2], [IoStep(0, 0), IoStep(1, 0)]);
    FirstFreeIs(s2.used, 0);
    assert !s2.used[1];
    var second := FillsUp(s2, 0, puts, k, v);
    RunAppend(s0, [IoStep(0, 0), IoStep(1, 0)], second);
    var t := Run(s2, second).value;
    WakesTheOther(t);
    RunAppend(s0, [IoStep(0, 0), IoStep(1, 0)] + second, [Notify(0, 1)]);
    acts := [IoStep(0, 0), IoStep(1, 0)] + second + [Notify(0, 1)];
  }

  lemma WakesTheOther(t: System)
    requires t.specs != [] && |t.jobs| == |t.queues| && 1 < |t.jobs| && t.jobs[0] == t.jobs[1] == Sleeping(false)
    requires t.threads == [HandingOver] && t.lock == HandedOver(1)
    ensures Run(t, [Notify(0, 1)]).Some? && Deaf(Run(t, [Notify(0, 1)]).value, 1)
  {
    var u := WakesWorker(t, 0, 1);
    assert u.threads == [Leaving];
    PathRuns([t, u], [Notify(0, 1)]);
  }

  lemma WakesWorker(t: System, c: nat, q: nat) returns (u: System)
    requires t.specs != [] && |t.jobs| == |t.queues| && q < |t.jobs| && t.jobs[q] == Sleeping(false)
    requires c < |t.threads| && t.threads[c] == HandingOver
    ensures Step(t, Notify(c, q)) == Some(u)
    ensures u.threads == t.threads[c := Leaving] && u.lock == t.lock && u.jobs == t.jobs[q := Sleeping(true)]
  {
    u := Work(At(t, c, Leaving), q, Sleeping(true));
  }

  // ----- a quiet system -----

  /** Nothing is going on, the buffer is empty and all workers are awake. */
  ghost predicate Quiet(s: System) {
    && Inv(s) && s.lock == Free && s.W == map[]
    && (forall c :: 0 <= c < |s.threads| ==> s.threads[c] == Idle)
    && (forall q :: 0 <= q < |s.jobs| ==> s.jobs[q] == Looking)
    && (forall q :: 0 <= q < |s.queues| ==> s.queues[q] == [])
  }

  /** What PUTs and their flush into block b, which then holds m, make of a quiet system. */
  ghost predicate StoredAs(s: System, t: System, m: Texts, b: nat)
    requires b < |s.used|
  {
    && Quiet(t) && |t.threads| == |s.threads| && t.used == s.used[b := true] && t.handed == s.handed[b := m]
    && m.Keys <= t.index.Keys && t.log == s.log && t.readBlock == s.readBlock && t.readBuf == s.readBuf && t.readFrom == s.readFrom
  }

  /** A PUT has handed its flush over to block b, and everybody else is quiet. */
  ghost predicate Handed(t: System, b: nat, c: nat) {
    && Inv(t) && t.lock == HandedOver(b) && 0 < b < NUM_BLOCKS && t.queues[b - 1] == [Flush(b)]
    && c < |t.threads| && t.threads[c] == HandingOver
    && (forall d :: 0 <= d < |t.threads| && d != c ==> t.threads[d] == Idle)
    && (forall q :: 0 <= q < |t.jobs| ==> t.jobs[q] == Looking)
    && (forall q :: 0 <= q < |t.queues| && q != b - 1 ==> t.queues[q] == [])
  }

  /** Its flush has run: nothing is queued any more, and all workers are awake. */
  lemma FlushRan(t: System, u: System, c: nat, b: nat)
    requires Handed(t, b, c) && Inv(u) && Finished(t, u, b)
    ensures (forall q :: 0 <= q < |u.jobs| ==> u.jobs[q] == Looking) && forall q :: 0 <= q < |u.queues| ==> u.queues[q] == []
  {
    assert QueueOk(u, b - 1);
    NothingLeft(u, t.queues[b - 1], u.queues[b - 1], b);
  }

  /** Everything is quiet again, once the PUT has notified and returned. */
  lemma QuietAgain(t: System, u: System, c: nat, b: nat) returns (v: System)
    requires Handed(t, b, c) && Inv(u) && Finished(t, u, b)
    ensures Run(u, [Notify(c, 0), PutLeave(c)]) == Some(v) && Quiet(v) && v == u.(lock := v.lock, threads := v.threads) && |v.threads| == |u.threads|
  {
    FlushRan(t, u, c, b);
    LockIsKept(t, u, c, b);
    v := NotifiesAndReturns(u, c);
    RunInv(u, [Notify(c, 0), PutLeave(c)]);
  }

  lemma LockIsKept(t: System, u: System, c: nat, b: nat)
    requires Handed(t, b, c) && Finished(t, u, b)
    ensures u.lock == Kept(c)
  {
    KeeperIs(t.threads, 0);
  }

  lemma NotifiesAndReturns(u: System, c: nat) returns (v: System)
    requires u.specs != [] && |u.jobs| == |u.queues| && forall q :: 0 <= q < |u.jobs| ==> u.jobs[q] == Looking
    requires u.lock == Kept(c) && c < |u.threads| && u.threads[c] == HandingOver
    ensures Run(u, [Notify(c, 0), PutLeave(c)]) == Some(v) && v == u.(lock := Free, threads := u.threads[c := Idle])
  {
    var w := At(u, c, Leaving);
    assert Step(u, Notify(c, 0)) == Some(w);
    v := Leave(w, c);
    assert Step(w, PutLeave(c)) == Some(v);
    assert v.threads == u.threads[c := Idle];
    PathRuns([u, w, v], [Notify(c, 0), PutLeave(c)]);
  }

  lemma NothingLeft(u: System, was: seq<Task>, now: seq<Task>, b: nat)
    requires was == [Flush(b)] && LoadsOk(u, now, b) && forall x :: x in now ==> x in was
    ensures now == []
  {
    if now != [] {
      var x := FirstTask(now);
      assert false;
    }
  }

  lemma FirstTask(tasks: seq<Task>) returns (x: Task)
    requires tasks != []
    ensures x == tasks[0] && x in tasks
  {
    x := tasks[0];
  }

  lemma Mapped(s: System, b: nat)
    requires Inv(s) && b in s.blocks && b in s.handed
    ensures s.handed[b].Keys <= s.index.Keys
  {
  }

  /** The flush that PUTs into a quiet system come to can run to its end, and leaves the system quiet. */
  lemma StoresKeys(s: System, c: nat, puts: Puts, k: int32, v: Value) returns (acts: seq<Action>)
    requires Quiet(s) && c < |s.threads| && FirstFree(s.used, 0) < NUM_BLOCKS
    ensures Run(s, acts).Some? && StoredAs(s, Run(s, acts).value, Full(puts, k, v), FirstFree(s.used, 0))
  {
    FirstFreeIs(s.used, 0);
    var first := FillsUp(s, c, puts, k, v);
    RunInv(s, first);
    var b, t := FirstFree(s.used, 0), Run(s, first).value;
    assert t.queues[b - 1] == [Flush(b)];
    var second := FlushAndNotify(t, b, c);
    RunAppend(s, first, second);
    acts := first + second;
  }

  lemma FlushAndNotify(t: System, b: nat, c: nat) returns (acts: seq<Action>)
    requires Handed(t, b, c) && b in t.handed
    ensures Run(t, acts).Some? && Quiet(Run(t, acts).value)
    ensures var u := Run(t, acts).value;
            && |u.threads| == |t.threads| && u.used == t.used && u.handed == t.handed && t.handed[b].Keys <= u.index.Keys
            && u.log == t.log && u.readBlock == t.readBlock && u.readBuf == t.readBuf && u.readFrom == t.readFrom
  {
    var first := FlushFinishes(t, b);
    var u := Run(t, first).value;
    RunInv(t, first);
    Mapped(u, b);
    var v := QuietAgain(t, u, c, b);
    RunAppend(t, first, [Notify(c, 0), PutLeave(c)]);
    acts := first + [Notify(c, 0), PutLeave(c)];
  }

  lemma NewSystemQuiet(threads: nat)
    ensures Quiet(NewSystem(threads)) && FirstFree(NewSystem(threads).used, 0) == 1
  {
    NewSystemInv(threads);
    FirstFreeIs(NewSystem(threads).used, 0);
    assert !NewSystem(threads).used[1];
  }

  /** A key that only one block holds is mapped there, and D has its text. */
  lemma OnlyBlock(s: System, k: int32, b: nat)
    requires Quiet(s) && k in s.index && forall c :: c in s.handed && k in s.handed[c] ==> c == b
    ensures s.index[k] == b && b in s.handed && DiskText(s, k) == Text(s.handed[b], k) && b in s.blocks
  {
    assert KeyOk(s, k) && DiskOk(s, k);
    UsedIsWritten(s, b);
  }

  /** Any PUTs, the last of which overflows, its flush, and two GETs of one thread before the I/O pool has loaded
      anything: the second GET answers that the key is absent. */
  lemma StaleReadHappens(puts: Puts, k: int32, v: Value) returns (acts: seq<Action>)
    requires v != []
    ensures Run(NewSystem(1), acts).Some? && WrongLast(Run(NewSystem(1), acts).value, k)
  {
    var s0 := NewSystem(1);
    NewSystemQuiet(1);
    var first := StoresKeys(s0, 0, puts, k, v);
    var s1 := Run(s0, first).value;
    assert s1.handed == map[1 := Full(puts, k, v)];
    OnlyBlock(s1, k, 1);
    var second := BackToBack(s1, k, 0);
    RunAppend(s0, first, second);
    acts := first + second;
  }

  // ----- a read buffer replaced -----

  /** A GET of key k that is left to itself: its block is loaded and it gets its answer. */
  lemma Loads(s: System, k: int32, c: nat) returns (acts: seq<Action>)
    requires Quiet(s) && c < |s.threads| && k in s.index && s.index[k] != s.readBlock
    ensures Run(s, acts).Some? && LoadedFor(s, Run(s, acts).value, s.index[k])
  {
    var b, since := s.index[k], |s.specs| - 1;
    var first := ClaimingGet(s, k, c);
    SubmitsOnly(s, k, c);
    RunAppend(s, first, [Notify(c, 0)]);
    var second := LoadAnswers(s, b, k, since);
    RunAppend(s, first + [Notify(c, 0)], second);
    acts := first + [Notify(c, 0)] + second;
    RunInv(s, acts);
  }

  lemma SubmitsOnly(s: System, k: int32, c: nat)
    requires Quiet(s) && c < |s.threads| && k in s.index && 0 < s.index[k] <= |s.queues|
    ensures Run(Submitted(s, k, c), [Notify(c, 0)]) == Some(Waiting(s, s.index[k], k, |s.specs| - 1))
  {
    var b, since := s.index[k], |s.specs| - 1;
    var t, u := Submitted(s, k, c), Waiting(s, s.index[k], k, |s.specs| - 1);
    assert t.threads[c := Idle] == s.threads;
    assert s.queues[b - 1] + [Load(b, k, since)] == [Load(b, k, since)];
    assert Step(t, Notify(c, 0)) == Some(u);
    PathRuns([t, u], [Notify(c, 0)]);
  }

  /** The load of block b is submitted and nothing else goes on. */
  function Waiting(s: System, b: nat, k: int32, since: nat): System
    requires 0 < b <= |s.queues|
  {
    s.(readBlock := b, queues := s.queues[b - 1 := [Load(b, k, since)]])
  }

  /** The same system, with the read buffer declared and loaded for block b. */
  ghost predicate LoadedFor(s: System, t: System, b: nat) {
    && Quiet(t) && t.threads == s.threads && t.index == s.index && t.blocks == s.blocks && t.handed == s.handed
    && t.readBlock == t.readFrom == b
  }

  lemma LoadAnswers(s: System, b: nat, k: int32, since: nat) returns (acts: seq<Action>)
    requires s.specs != [] && |s.jobs| == |s.queues| && 0 < b <= |s.jobs| && s.jobs[b - 1] == Looking && s.queues[b - 1] == []
    ensures Run(Waiting(s, b, k, since), acts).Some?
    ensures var t := Run(Waiting(s, b, k, since), acts).value;
            && t.threads == s.threads && t.index == s.index && t.blocks == s.blocks && t.handed == s.handed
            && t.queues == s.queues && t.jobs == s.jobs && t.lock == s.lock && t.W == s.W && t.readBlock == t.readFrom == b
  {
    var u := Waiting(s, b, k, since);
    var first := LoadRuns(u, b - 1, k, since);
    var t := Run(u, first).value;
    var v := Step(t, IoStep(b - 1, 0)).value;
    assert t.jobs[b - 1 := Looking] == s.jobs && t.queues == s.queues;
    PathRuns([t, v], [IoStep(b - 1, 0)]);
    RunAppend(u, first, [IoStep(b - 1, 0)]);
    acts := first + [IoStep(b - 1, 0)];
  }

  /** Block 1 has k and not j, block 2 has j and not k, and there are no others. */
  ghost predicate InTwoBlocks(s: System, k: int32, m: Texts, j: int32, n: Texts) {
    && Quiet(s) && |s.threads| == 2 && k in s.index && j in s.index && s.handed == map[1 := m, 2 := n]
    && k in m && j !in m && j in n && k !in n
  }

  ghost predicate Without(puts: Puts, k: int32) {
    forall i :: 0 <= i < |puts| ==> puts[i].0 != k
  }

  /** Two keys in two blocks, whatever else is there, the block of the first declared and loaded: a GET of the second
      replaces the read buffer under a GET of the first, which answers that its key is absent. */
  lemma ReplacedHappens(puts: Puts, k: int32, v: Value, more: Puts, j: int32, w: Value) returns (acts: seq<Action>)
    requires v != [] && k != j && Without(puts, j) && Without(more, k)
    ensures Run(NewSystem(2), acts).Some? && WrongLast(Run(NewSystem(2), acts).value, k)
  {
    var first := TwoBlocks(puts, k, v, more, j, w);
    var m, n := Full(puts, k, v), Full(more, j, w);
    var s1 := Run(NewSystem(2), first).value;
    OnlyBlock(s1, k, 1);
    OnlyBlock(s1, j, 2);
    var second := Loads(s1, k, 0);
    RunAppend(NewSystem(2), first, second);
    var s2 := Run(s1, second).value;
    var third := ReplacedAnswer(s2, k, m, j, n);
    RunAppend(NewSystem(2), first + second, third);
    acts := first + second + third;
  }

  /** The last answer is that k is absent, and is wrong. */
  ghost predicate WrongLast(s: System, k: int32) {
    s.log != [] && var r := s.log[|s.log| - 1]; r.key == k && r.value == [] && !Right(s, r)
  }

  lemma ReplacedAnswer(s: System, k: int32, m: Texts, j: int32, n: Texts) returns (acts: seq<Action>)
    requires InTwoBlocks(s, k, m, j, n) && m[k] != [] && s.readBlock == 1
    ensures Run(s, acts).Some? && WrongLast(Run(s, acts).value, k)
  {
    OnlyBlock(s, k, 1);
    OnlyBlock(s, j, 2);
    assert Text(BlockTexts(s, 2), k) == [];
    acts := Replaced(s, k, j, 0, 1);
  }

  lemma TwoBlocks(puts: Puts, k: int32, v: Value, more: Puts, j: int32, w: Value) returns (acts: seq<Action>)
    requires k != j && Without(puts, j) && Without(more, k)
    ensures Run(NewSystem(2), acts).Some? && InTwoBlocks(Run(NewSystem(2), acts).value, k, Full(puts, k, v), j, Full(more, j, w))
    ensures Run(NewSystem(2), acts).value.readBlock == NPOS
  {
    NewSystemQuiet(2);
    var first := StoresKeys(NewSystem(2), 0, puts, k, v);
    var s1 := Run(NewSystem(2), first).value;
    SecondFree(s1);
    var second := StoresKeys(s1, 0, more, j, w);
    StillMapped(s1, second, k);
    FilledKeys(map[], puts, j);
    FilledKeys(map[], more, k);
    RunAppend(NewSystem(2), first, second);
    acts := first + second;
  }

  /** A mapped key stays mapped. */
  lemma {:induction false} StillMapped(s: System, acts: seq<Action>, k: int32)
    requires k in s.index && Run(s, acts).Some?
    ensures k in Run(s, acts).value.index
    decreases |acts|
  {
    if acts != [] {
      MappedStep(s, acts[0], k);
      StillMapped(Step(s, acts[0]).value, acts[1..], k);
    }
  }

  lemma MappedStep(s: System, a: Action, k: int32)
    requires k in s.index && Step(s, a).Some?
    ensures k in Step(s, a).value.index
  {
    if a.IoStep? {
      MappedIoStep(s, a.q, a.key, k);
    }
  }

  lemma MappedIoStep(s: System, q: nat, key: int32, k: int32)
    requires k in s.index && q < |s.jobs| == |s.queues| && s.specs != [] && StepIo(s, q, key).Some?
    ensures k in StepIo(s, q, key).value.index
  {
  }

  lemma SecondFree(s: System)
    requires s.used == NewSystem(2).used[1 := true]
    ensures FirstFree(s.used, 0) == 2
  {
    FirstFreeIs(s.used, 0);
    assert s.used[0] && s.used[1] && !s.used[2];
  }
}
