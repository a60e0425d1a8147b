/** Every run of requests answers what the two maps answer, as long as each flushed buffer can be read back. */
module StoreRefinement {
  import opened Common
  import opened SkiplistSpec
  import opened Flattening
  import opened BlockFile
  import opened TablesSpec
  import opened InfoMessage
  import opened TwoMaps
  import opened StoreSpec

  // ----- one request -----

  lemma TextsOf(w: Shape, k: int32)
    ensures k in Texts(w) <==> k in w.vals
    ensures Lookup(w, k) == if k in Texts(w) then Texts(w)[k] else []
  {
  }

  lemma KeyBlock(t: Tables, file: seq<byte>, k: int32) returns (w: Shape)
    requires Sound(t, file) && k in t.index
    ensures Holding(file, t.index[k], w) && StoredOr(file, t.index[k]) == Flatten(w)
    ensures t.index[k] < NUM_BLOCKS && t.used[t.index[k]]
  {
    assert KeySound(t, file, k);
    w :| Holding(file, t.index[k], w) && k in w.vals;
    HoldingStored(file, t.index[k], w);
  }

  lemma BufferRecs(s: Store)
    requires Sized(s.tables) && InBuffer(s)
    ensures s.recs == StoredOr(s.file, s.block)
  {
    var w :| Holding(s.file, s.block, w) && s.recs == Flatten(w);
    HoldingStored(s.file, s.block, w);
  }

  lemma LoadRefines(s: Store, k: int32)
    requires Inv(s) && k in s.tables.index
    ensures InBuffer(Loaded(s, s.tables.index[k]))
  {
    var w := KeyBlock(s.tables, s.file, k);
  }

  /** GET answers from W, then from D, and changes neither. */
  lemma GetRefines(s: Store, k: int32)
    requires Inv(s)
    ensures Inv(Get(s, k).0) && Get(s, k).1 == SpecGet(Abstract(s), k)
    ensures Abstract(Get(s, k).0) == Abstract(s)
  {
    TextsOf(s.w, k);
    if Lookup(s.w, k) == [] && k in s.tables.index {
      if s.tables.index[k] == s.block {
        assert s.block != NPOS by {
          var w := KeyBlock(s.tables, s.file, k);
        }
        BufferRecs(s);
      } else {
        LoadRefines(s, k);
      }
    }
  }

  lemma AddedTexts(w: Shape, k: int32, str: Str, h: nat)
    requires WellFormed(w) && 1 <= h <= LEVELS
    ensures Texts(Added(w, k, str, h)) == Texts(w)[k := str.text]
  {
  }

  /** An insertion without a flush is an update of W. */
  lemma InsertRefines(s: Store, k: int32, v: Value, copyCap: nat, assignCap: nat, h: nat)
    requires Inv(s) && 1 <= h <= LEVELS
    ensures Inv(PutInto(s, k, v, copyCap, assignCap, h))
    ensures Abstract(PutInto(s, k, v, copyCap, assignCap, h)) == Spec(Abstract(s).W[k := v], Abstract(s).D)
  {
    var str := Kept(s, k, v, copyCap, assignCap);
    AddedWellFormed(s.w, k, str, h);
    AddedTexts(s.w, k, str, h);
  }

  lemma BufferKept(s: Store, b: nat, data: Value, t: Store)
    requires Sized(s.tables) && InBuffer(s) && b < NUM_BLOCKS && !s.tables.used[b] && Fits(data)
    requires t.block == s.block && t.recs == s.recs && t.file == WriteBlock(s.file, b, data)
    requires Sized(t.tables) && t.tables.used[s.block]
    ensures InBuffer(t)
  {
    var w :| Holding(s.file, s.block, w) && s.recs == Flatten(w);
    HoldingKept(s.file, b, data, s.block, w);
  }

  lemma FlushTables(s: Store, t: Tables, b: uint64, freeSpace: uint64)
    requires Inv(s) && Storable(s.w) && Taken(s.tables, t, b)
    ensures var f := FlushTo(s, t, b, freeSpace);
            Sound(f.tables, f.file) && Sound(f.saved, f.file) && f.tables.used == t.used
  {
    FlushSound(s.tables, t, s.file, b, s.w, freeSpace);
    SoundKept(s.saved, s.file, b, Message(s.w));
  }

  lemma FlushBuffer(s: Store, t: Tables, b: uint64, freeSpace: uint64)
    requires Shaped(s) && InBuffer(s) && Storable(s.w) && Taken(s.tables, t, b)
    requires Sized(FlushTo(s, t, b, freeSpace).tables) && FlushTo(s, t, b, freeSpace).tables.used[s.block]
    ensures InBuffer(FlushTo(s, t, b, freeSpace))
  {
    BufferKept(s, b, Message(s.w), FlushTo(s, t, b, freeSpace));
  }

  lemma FlushInv(s: Store, t: Tables, b: uint64, freeSpace: uint64)
    requires Inv(s) && Storable(s.w) && Taken(s.tables, t, b)
    ensures Inv(FlushTo(s, t, b, freeSpace))
  {
    FlushTables(s, t, b, freeSpace);
    EmptyWellFormed();
    var f := FlushTo(s, t, b, freeSpace);
    assert f.w == EMPTY && f.saved == s.saved && f.block == s.block && f.recs == s.recs;
    if s.block != NPOS {
      FlushBuffer(s, t, b, freeSpace);
      assert InBuffer(f);
    }
  }

  lemma FlushAbstract(s: Store, t: Tables, b: uint64, freeSpace: uint64)
    requires Shaped(s) && Sound(s.tables, s.file) && Storable(s.w) && Taken(s.tables, t, b)
    ensures Abstract(FlushTo(s, t, b, freeSpace)) == SpecFlush(Abstract(s))
  {
    assert Texts(EMPTY) == map[];
    FlushSound(s.tables, t, s.file, b, s.w, freeSpace);
  }

  /** A flush moves W under D and leaves both maps' disk side sound. */
  lemma FlushRefines(s: Store, t: Tables, b: uint64, freeSpace: uint64)
    requires Inv(s) && Storable(s.w) && Taken(s.tables, t, b)
    ensures Inv(FlushTo(s, t, b, freeSpace)) && Abstract(FlushTo(s, t, b, freeSpace)) == SpecFlush(Abstract(s))
  {
    FlushInv(s, t, b, freeSpace);
    FlushAbstract(s, t, b, freeSpace);
  }

  lemma ErasedTexts(w: Shape, k: int32)
    requires WellFormed(w) && k in w.vals
    ensures Texts(Erased(w, k)) == Texts(w) - {k}
  {
    ErasedWellFormed(w, k);
  }

  /** DEL takes the key out of W and leaves D alone. */
  lemma DelRefines(s: Store, k: int32)
    requires Inv(s)
    ensures Inv(Del(s, k))
    ensures Abstract(Del(s, k)) == Spec(Abstract(s).W - {k}, Abstract(s).D)
  {
    var t := Del(s, k);
    assert t.tables == s.tables && t.file == s.file && t.saved == s.saved && t.block == s.block && t.recs == s.recs;
    if k in s.w.vals {
      ErasedWellFormed(s.w, k);
      ErasedTexts(s.w, k);
    } else {
      assert Texts(s.w) - {k} == Texts(s.w);
    }
  }

  // ----- runs -----

  datatype Op =
    | PutOp(key: int32, value: Value, copyCap: nat, assignCap: nat, height: nat)
    | GetOp(key: int32)
    | DelOp(key: int32)
    | RestartOp

  ghost predicate OpOk(op: Op) {
    op.PutOp? ==> 1 <= op.height <= LEVELS
  }

  ghost function Step(s: Store, op: Op): Outcome
    requires Shaped(s) && OpOk(op)
  {
    match op
    case PutOp(k, v, copyCap, assignCap, h) => Put(s, k, v, copyCap, assignCap, h)
    case GetOp(k) => Done(Get(s, k).0)
    case DelOp(k) => Done(Del(s, k))
    case RestartOp => Done(Restart(s))
  }

  ghost function Answer(s: Store, op: Op): Value {
    if op.GetOp? then Get(s, op.key).1 else []
  }

  /** The request writes the buffer out. */
  ghost predicate Flushes(s: Store, op: Op)
    requires Shaped(s)
  {
    Allocate(s.tables).1 != NPOS && (op.RestartOp? || (op.PutOp? && Overflows(s, op.key, op.copyCap)))
  }

  /** The buffer that such a request writes out. */
  ghost function Outgoing(s: Store, op: Op): Shape
    requires Shaped(s) && OpOk(op)
    ensures WellFormed(Outgoing(s, op))
  {
    if op.PutOp? then PutInto(s, op.key, op.value, op.copyCap, op.assignCap, op.height).w else s.w
  }

  /** What a caller can check before a request: the buffer it flushes is storable, a block is there for an
      overflowing PUT, and the information message of a restart fits block 0. */
  ghost predicate Safe(s: Store, op: Op)
    requires Shaped(s)
  {
    && OpOk(op)
    && (Flushes(s, op) ==> Storable(Outgoing(s, op)))
    && (op.PutOp? && Overflows(s, op.key, op.copyCap) ==> Allocate(s.tables).1 != NPOS)
    && (op.RestartOp? ==> InfoFits(Spill(s, Room(s.size)).s.tables))
  }

  function SpecStep(sp: Spec, op: Op, flushed: bool): Spec {
    match op
    case PutOp(k, v, _, _, _) => if flushed then SpecFlush(Spec(sp.W[k := v], sp.D)) else Spec(sp.W[k := v], sp.D)
    case GetOp(k) => sp
    case DelOp(k) => Spec(sp.W - {k}, sp.D)
    case RestartOp => if flushed then SpecFlush(sp) else Spec(map[], sp.D)
  }

  lemma PutRefines(s: Store, op: Op)
    requires Inv(s) && Safe(s, op) && op.PutOp?
    ensures Step(s, op).Done? && Inv(Step(s, op).s)
    ensures Abstract(Step(s, op).s) == SpecStep(Abstract(s), op, Flushes(s, op))
  {
    var p := PutInto(s, op.key, op.value, op.copyCap, op.assignCap, op.height);
    InsertRefines(s, op.key, op.value, op.copyCap, op.assignCap, op.height);
    if Overflows(s, op.key, op.copyCap) {
      SpillRefines(p, FreeSpace(s, op.key, op.copyCap));
    }
  }

  lemma RestartRefines(s: Store, op: Op)
    requires Inv(s) && Safe(s, op) && op.RestartOp?
    ensures Step(s, op).Done? && Inv(Step(s, op).s)
    ensures Abstract(Step(s, op).s) == SpecStep(Abstract(s), op, Flushes(s, op))
  {
    HandlerRefines(s);
    assert Step(s, op) == Done(Restart(s));
  }

  lemma HandlerRefines(s: Store)
    requires Inv(s) && (Allocate(s.tables).1 != NPOS ==> Storable(s.w)) && InfoFits(Spill(s, Room(s.size)).s.tables)
    ensures Inv(Restart(s))
    ensures Abstract(Restart(s))
            == if Allocate(s.tables).1 != NPOS then SpecFlush(Abstract(s)) else Spec(map[], Abstract(s).D)
  {
    SpillRefines(s, Room(s.size));
    ReopenedRefines(s, Spill(s, Room(s.size)).s);
  }

  lemma ReopenedRefines(s: Store, f: Store)
    requires Inv(f) && InfoFits(f.tables)
    ensures Inv(Reopened(s, f))
    ensures Abstract(Reopened(s, f)) == Spec(map[], Abstract(f).D)
  {
    EmptyWellFormed();
    assert Texts(EMPTY) == map[];
    SetFreeSound(f.tables, f.file, Wrap(BLOCK_SIZE - InfoSize(f.tables)));
  }

  lemma SpillRefines(s: Store, freeSpace: uint64)
    requires Inv(s) && (Allocate(s.tables).1 != NPOS ==> Storable(s.w))
    ensures Inv(Spill(s, freeSpace).s)
    ensures Abstract(Spill(s, freeSpace).s) == if Allocate(s.tables).1 != NPOS then SpecFlush(Abstract(s)) else Abstract(s)
  {
    AllocateOnce(s.tables);
    var t, b := Allocate(s.tables).0, Allocate(s.tables).1;
    if b != NPOS {
      FlushRefines(s, t, b, freeSpace);
    }
  }

  /** The free space of block 0 has no part in what the tables say. */
  lemma SetFreeSound(t: Tables, file: seq<byte>, freeSpace: uint64)
    requires Sound(t, file)
    ensures Sound(SetFree(t, 0, freeSpace), file) && OnDisk(SetFree(t, 0, freeSpace), file) == OnDisk(t, file)
  {
    var u := SetFree(t, 0, freeSpace);
    assert u.used == t.used && u.index == t.index;
    forall k | k in u.index ensures KeySound(u, file, k) {
      assert KeySound(t, file, k);
    }
  }

  /** Every request takes the two maps where the specification takes them. */
  lemma StepRefines(s: Store, op: Op)
    requires Inv(s) && Safe(s, op)
    ensures Step(s, op).Done? && Inv(Step(s, op).s)
    ensures Abstract(Step(s, op).s) == SpecStep(Abstract(s), op, Flushes(s, op))
    ensures op.GetOp? ==> Answer(s, op) == SpecGet(Abstract(s), op.key)
  {
    match op
    case PutOp(_, _, _, _, _) => PutRefines(s, op);
    case GetOp(k) => GetRefines(s, k);
    case DelOp(k) => DelRefines(s, k);
    case RestartOp => RestartRefines(s, op);
  }

  // ----- whole runs -----

  /** Every request of the run is safe in the state it meets. */
  ghost predicate SafeRun(s: Store, ops: seq<Op>)
    requires Inv(s)
    decreases |ops|
  {
    ops != [] ==> Safe(s, ops[0]) && (StepRefines(s, ops[0]); SafeRun(Step(s, ops[0]).s, ops[1..]))
  }

  ghost function Final(s: Store, ops: seq<Op>): Store
    requires Inv(s) && SafeRun(s, ops)
    decreases |ops|
  {
    if ops == [] then s else StepRefines(s, ops[0]); Final(Step(s, ops[0]).s, ops[1..])
  }

  /** What each request of the run answers. */
  ghost function Answers(s: Store, ops: seq<Op>): seq<Value>
    requires Inv(s) && SafeRun(s, ops)
    decreases |ops|
  {
    if ops == [] then [] else StepRefines(s, ops[0]); [Answer(s, ops[0])] + Answers(Step(s, ops[0]).s, ops[1..])
  }

  /** Which requests of the run wrote the buffer out. */
  ghost function FlushTrace(s: Store, ops: seq<Op>): (r: seq<bool>)
    requires Inv(s) && SafeRun(s, ops)
    ensures |r| == |ops|
    decreases |ops|
  {
    if ops == [] then [] else StepRefines(s, ops[0]); [Flushes(s, ops[0])] + FlushTrace(Step(s, ops[0]).s, ops[1..])
  }

  function SpecFinal(sp: Spec, ops: seq<Op>, flushed: seq<bool>): Spec
    requires |flushed| == |ops|
    decreases |ops|
  {
    if ops == [] then sp else SpecFinal(SpecStep(sp, ops[0], flushed[0]), ops[1..], flushed[1..])
  }

  function SpecAnswers(sp: Spec, ops: seq<Op>, flushed: seq<bool>): seq<Value>
    requires |flushed| == |ops|
    decreases |ops|
  {
    if ops == [] then []
    else [if ops[0].GetOp? then SpecGet(sp, ops[0].key) else []]
         + SpecAnswers(SpecStep(sp, ops[0], flushed[0]), ops[1..], flushed[1..])
  }

  /** Through write buffer, key index, disk blocks, read buffer and restarts, a run answers exactly what the two
      maps answer. */
  lemma {:induction false} TieredRefinement(s: Store, ops: seq<Op>)
    requires Inv(s) && SafeRun(s, ops)
    ensures Inv(Final(s, ops))
    ensures Answers(s, ops) == SpecAnswers(Abstract(s), ops, FlushTrace(s, ops))
    ensures Abstract(Final(s, ops)) == SpecFinal(Abstract(s), ops, FlushTrace(s, ops))
    decreases |ops|
  {
    if ops != [] {
      StepRefines(s, ops[0]);
      TieredRefinement(Step(s, ops[0]).s, ops[1..]);
      assert FlushTrace(s, ops)[1..] == FlushTrace(Step(s, ops[0]).s, ops[1..]);
    }
  }

  lemma SpecKeepsDisk(sp: Spec, op: Op, flushed: bool, k: int32)
    requires k in sp.D
    ensures k in SpecStep(sp, op, flushed).D && SpecStep(sp, op, flushed).D[k] == sp.D[k]
  {
  }

  /** What a key had at its first flush is what the disk has for it ever after. */
  lemma {:induction false} FirstFlushWins(s: Store, ops: seq<Op>, k: int32)
    requires Inv(s) && SafeRun(s, ops) && k in Abstract(s).D
    ensures k in Abstract(Final(s, ops)).D && Abstract(Final(s, ops)).D[k] == Abstract(s).D[k]
    decreases |ops|
  {
    if ops != [] {
      StepRefines(s, ops[0]);
      SpecKeepsDisk(Abstract(s), ops[0], Flushes(s, ops[0]), k);
      FirstFlushWins(Step(s, ops[0]).s, ops[1..], k);
    }
  }

  // ----- blocks run out -----

  function FreeBlocks(used: seq<bool>): nat {
    if used == [] then 0 else (if used[0] then 0 else 1) + FreeBlocks(used[1..])
  }

  lemma {:induction false} FreeBlocksTaken(used: seq<bool>, b: nat)
    requires b < |used| && !used[b]
    ensures FreeBlocks(used) == FreeBlocks(used[b := true]) + 1
  {
    if b > 0 {
      assert used[b := true][1..] == used[1..][b - 1 := true];
      FreeBlocksTaken(used[1..], b - 1);
    }
  }

  lemma {:induction false} NoneFree(used: seq<bool>)
    ensures FreeBlocks(used) == 0 <==> forall b :: 0 <= b < |used| ==> used[b]
  {
    if used != [] {
      NoneFree(used[1..]);
      assert forall b :: 1 <= b < |used| ==> used[b] == used[1..][b - 1];
    }
  }

  /** A PUT leaves the write lock with a flush that is never run exactly when it overflows the buffer and all blocks
      are used. */
  lemma JamsWhenFull(s: Store, op: Op)
    requires Shaped(s) && s.tables.used[0] && OpOk(op) && op.PutOp?
    ensures Step(s, op).Jammed? <==> Overflows(s, op.key, op.copyCap) && FreeBlocks(s.tables.used) == 0
  {
    AllocateOnce(s.tables);
    NoneFree(s.tables.used);
  }
}
