/** Which blocks a run takes, whatever it stores in them. */
module StoreRuns {
  import opened Common
  import opened SkiplistSpec
  import opened BlockFile
  import opened TablesSpec
  import opened InfoMessage
  import opened StoreSpec
  import opened StoreRefinement

  ghost predicate Based(s: Store) {
    Shaped(s) && s.tables.used[0] && s.saved.used[0]
  }

  ghost predicate OpsOk(ops: seq<Op>) {
    forall i :: 0 <= i < |ops| ==> OpOk(ops[i])
  }

  /** What the handler has when it saves the tables. */
  ghost function Flushed(s: Store): Store
    requires Shaped(s)
  {
    Spill(s, Room(s.size)).s
  }

  ghost predicate RestartFits(s: Store, op: Op)
    requires Shaped(s)
  {
    op.RestartOp? ==> InfoFits(Flushed(s).tables)
  }

  // ----- the tables after one request -----

  function WithUsed(used: seq<bool>, b: nat): seq<bool> {
    if b < |used| then used[b := true] else used
  }

  ghost predicate KeysStay(t: Tables, u: Tables) {
    forall k :: k in t.index ==> k in u.index && u.index[k] == t.index[k]
  }

  /** What a request does to the tables: at most one block is taken, the lowest free one, and no key moves. */
  ghost predicate TablesStep(s: Store, op: Op, t: Tables)
    requires Shaped(s)
  {
    && Sized(t) && KeysStay(s.tables, t)
    && t.used == if Flushes(s, op) then WithUsed(s.tables.used, Allocate(s.tables).1) else s.tables.used
  }

  ghost predicate Spilled(p: Store, f: Store)
    requires Shaped(p)
  {
    && Shaped(f) && f.saved == p.saved && KeysStay(p.tables, f.tables)
    && f.tables.used == WithUsed(p.tables.used, Allocate(p.tables).1) && f.tables.used[0]
  }

  lemma SpillTables(p: Store, freeSpace: uint64)
    requires Shaped(p) && p.tables.used[0]
    ensures Spilled(p, Spill(p, freeSpace).s)
  {
    AllocateOnce(p.tables);
    EmptyWellFormed();
    FlushedTablesMap(Allocate(p.tables).0, p.w, Allocate(p.tables).1, freeSpace);
  }

  lemma PutTables(s: Store, op: Op)
    requires Based(s) && OpOk(op) && op.PutOp?
    ensures Based(Step(s, op).s) && TablesStep(s, op, Step(s, op).s.tables)
  {
    SpillTables(PutInto(s, op.key, op.value, op.copyCap, op.assignCap, op.height), FreeSpace(s, op.key, op.copyCap));
  }

  lemma RestartTables(s: Store)
    requires Based(s)
    ensures Based(Restart(s))
    ensures if InfoFits(Flushed(s).tables) then TablesStep(s, RestartOp, Restart(s).tables) else Restart(s).tables == s.saved
  {
    SpillTables(s, Room(s.size));
    SavingKeeps(Flushed(s).tables);
    EmptyWellFormed();
  }

  lemma StepTables(s: Store, op: Op)
    requires Based(s) && OpOk(op)
    ensures Based(Step(s, op).s)
    ensures RestartFits(s, op) ==> TablesStep(s, op, Step(s, op).s.tables)
  {
    match op
    case PutOp(_, _, _, _, _) => PutTables(s, op);
    case GetOp(k) =>
    case DelOp(k) =>
      if k in s.w.vals {
        ErasedWellFormed(s.w, k);
      }
    case RestartOp => RestartTables(s);
  }

  // ----- whole runs -----

  ghost function After(s: Store, ops: seq<Op>): (t: Store)
    requires Based(s) && OpsOk(ops)
    ensures Based(t)
    decreases |ops|
  {
    if ops == [] then s else StepTables(s, ops[0]); After(Step(s, ops[0]).s, ops[1..])
  }

  /** The blocks that the flushes of the run take, in order. */
  ghost function BlockTrace(s: Store, ops: seq<Op>): seq<nat>
    requires Based(s) && OpsOk(ops)
    decreases |ops|
  {
    if ops == [] then []
    else
      StepTables(s, ops[0]);
      (if Flushes(s, ops[0]) then [Allocate(s.tables).1] else []) + BlockTrace(Step(s, ops[0]).s, ops[1..])
  }

  /** The tables fit block 0 at every restart of the run. */
  ghost predicate RestartsFit(s: Store, ops: seq<Op>)
    requires Based(s) && OpsOk(ops)
    decreases |ops|
  {
    ops != [] ==> RestartFits(s, ops[0]) && (StepTables(s, ops[0]); RestartsFit(Step(s, ops[0]).s, ops[1..]))
  }

  /** The entries of the blocks already in use, all but block 0's. */
  ghost predicate EntriesStay(t: Tables, u: Tables)
    requires Sized(t) && Sized(u)
  {
    forall b :: 0 < b < NUM_BLOCKS && t.used[b] ==> u.entries[b] == t.entries[b]
  }

  lemma StepEntries(s: Store, op: Op)
    requires Based(s) && OpOk(op) && RestartFits(s, op)
    ensures Based(Step(s, op).s) && EntriesStay(s.tables, Step(s, op).s.tables)
  {
    StepTables(s, op);
    if op.PutOp? {
      SpillEntries(PutInto(s, op.key, op.value, op.copyCap, op.assignCap, op.height), FreeSpace(s, op.key, op.copyCap));
    } else if op.RestartOp? {
      SpillEntries(s, Room(s.size));
    }
  }

  lemma SpillEntries(p: Store, freeSpace: uint64)
    requires Shaped(p) && p.tables.used[0]
    ensures Sized(Spill(p, freeSpace).s.tables) && EntriesStay(p.tables, Spill(p, freeSpace).s.tables)
  {
    SpillTables(p, freeSpace);
    AllocateOnce(p.tables);
    if Allocate(p.tables).1 != NPOS {
      FlushedEntries(Allocate(p.tables).0, p.w, Allocate(p.tables).1, freeSpace);
    }
  }

  /** Over such a run the entry of a used block is never changed again. */
  lemma {:induction false} EntriesFixed(s: Store, ops: seq<Op>)
    requires Based(s) && OpsOk(ops) && RestartsFit(s, ops)
    ensures EntriesStay(s.tables, After(s, ops).tables)
    decreases |ops|
  {
    if ops != [] {
      StepEntries(s, ops[0]);
      StepTables(s, ops[0]);
      EntriesFixed(Step(s, ops[0]).s, ops[1..]);
    }
  }

  ghost predicate Distinct(bs: seq<nat>) {
    forall i, j :: 0 <= i < j < |bs| ==> bs[i] != bs[j]
  }

  /** The used blocks are those used before and those taken, each taken once and never block 0; a key stays in its block. */
  ghost predicate TracesTo(s: Store, trace: seq<nat>, t: Store)
    requires Shaped(s) && Shaped(t)
  {
    && Distinct(trace)
    && (forall b :: b in trace ==> 0 < b < NUM_BLOCKS && !s.tables.used[b])
    && (forall b :: 0 <= b < NUM_BLOCKS ==> (t.tables.used[b] <==> s.tables.used[b] || b in trace))
    && forall k :: k in s.tables.index ==> k in t.tables.index && t.tables.index[k] == s.tables.index[k]
  }

  /** Over any run, full or overrun blocks, unreadable contents and restarts included, as long as the tables fit block 0
      at each restart: no block is handed out twice. */
  lemma {:induction false} BlocksTakenOnce(s: Store, ops: seq<Op>)
    requires Based(s) && OpsOk(ops) && RestartsFit(s, ops)
    ensures TracesTo(s, BlockTrace(s, ops), After(s, ops))
    decreases |ops|
  {
    if ops != [] {
      StepTables(s, ops[0]);
      AllocateOnce(s.tables);
      var t := Step(s, ops[0]).s;
      BlocksTakenOnce(t, ops[1..]);
      if Flushes(s, ops[0]) {
        TraceCons(s, t, After(s, ops), Allocate(s.tables).1, BlockTrace(t, ops[1..]));
      }
    }
  }

  lemma TraceCons(s: Store, t: Store, u: Store, b: nat, trace: seq<nat>)
    requires Shaped(s) && Shaped(t) && Shaped(u) && TracesTo(t, trace, u)
    requires 0 < b < NUM_BLOCKS && !s.tables.used[b] && t.tables.used == s.tables.used[b := true]
    requires forall k :: k in s.tables.index ==> k in t.tables.index && t.tables.index[k] == s.tables.index[k]
    ensures TracesTo(s, [b] + trace, u)
  {
    assert forall c :: c in [b] + trace <==> c == b || c in trace;
    forall i, j | 0 <= i < j < |[b] + trace| ensures ([b] + trace)[i] != ([b] + trace)[j] {
      assert ([b] + trace)[j] in trace;
    }
  }

  /** So a run writes the buffer out at most as often as there were free blocks, fifteen times in the life of a file. */
  lemma {:induction false} FlushesAreBounded(s: Store, ops: seq<Op>)
    requires Based(s) && OpsOk(ops) && RestartsFit(s, ops)
    ensures |BlockTrace(s, ops)| + FreeBlocks(After(s, ops).tables.used) == FreeBlocks(s.tables.used)
    decreases |ops|
  {
    if ops != [] {
      StepTables(s, ops[0]);
      AllocateOnce(s.tables);
      if Flushes(s, ops[0]) {
        FreeBlocksTaken(s.tables.used, Allocate(s.tables).1);
      }
      FlushesAreBounded(Step(s, ops[0]).s, ops[1..]);
    }
  }

  lemma NewStoreBased()
    ensures Based(NewStore()) && FreeBlocks(NewStore().tables.used) == 15
  {
    EmptyWellFormed();
    AllFree(NewStore().tables.used[1..]);
  }

  lemma {:induction false} AllFree(used: seq<bool>)
    requires forall b :: 0 <= b < |used| ==> !used[b]
    ensures FreeBlocks(used) == |used|
  {
    if used != [] {
      AllFree(used[1..]);
    }
  }

  // ----- messages that overrun their blocks -----

  type Writes = seq<(nat, seq<byte>)>

  /** The block and the message that a request's flush writes, if there is one. */
  ghost function SentBy(s: Store, op: Op): Writes
    requires Shaped(s) && OpOk(op)
  {
    if Flushes(s, op) then [(Allocate(s.tables).1, Message(Outgoing(s, op)))] else []
  }

  /** Those of a run, in order. */
  ghost function Sent(s: Store, ops: seq<Op>): Writes
    requires Based(s) && OpsOk(ops)
    decreases |ops|
  {
    if ops == [] then [] else StepTables(s, ops[0]); SentBy(s, ops[0]) + Sent(Step(s, ops[0]).s, ops[1..])
  }

  lemma StepFile(s: Store, op: Op)
    requires Based(s) && OpOk(op)
    ensures Step(s, op).s.file == if Flushes(s, op) then WriteBlock(s.file, Allocate(s.tables).1, Message(Outgoing(s, op))) else s.file
  {
    if op.PutOp? {
      SpillFile(PutInto(s, op.key, op.value, op.copyCap, op.assignCap, op.height), FreeSpace(s, op.key, op.copyCap));
    } else if op.RestartOp? {
      SpillFile(s, Room(s.size));
    }
  }

  lemma SpillFile(p: Store, freeSpace: uint64)
    requires Shaped(p)
    ensures Spill(p, freeSpace).s.file
            == if Allocate(p.tables).1 != NPOS then WriteBlock(p.file, Allocate(p.tables).1, Message(p.w)) else p.file
  {
  }

  /** In every state of the run the message is what is read from the block. */
  ghost predicate HeldThroughout(s: Store, ops: seq<Op>, b: nat, data: seq<byte>)
    requires Based(s) && OpsOk(ops)
    decreases |ops|
  {
    && ReadBlock(s.file, b) == Some(data)
    && (ops != [] ==> (StepTables(s, ops[0]); HeldThroughout(Step(s, ops[0]).s, ops[1..], b, data)))
  }

  ghost predicate AgreesWith(b: nat, data: seq<byte>, sent: Writes) {
    forall i :: 0 <= i < |sent| ==> Agree(b, data, sent[i].0, sent[i].1)
  }

  /** Over any run, whatever is flushed and whether or not it fits, a block's message is read back throughout exactly
      when it agrees with every message flushed, where the two overlap. */
  lemma {:induction false} OverrunsInRuns(s: Store, ops: seq<Op>, b: nat, data: seq<byte>)
    requires Based(s) && OpsOk(ops) && 0 < |data| < TWO64 && ReadBlock(s.file, b) == Some(data)
    ensures HeldThroughout(s, ops, b, data) <==> AgreesWith(b, data, Sent(s, ops))
    decreases |ops|
  {
    if ops != [] {
      HeldFirst(s, ops, b, data);
      SentFirst(s, ops, b, data);
      StepHeld(s, ops[0], b, data);
      if ReadBlock(Step(s, ops[0]).s.file, b) == Some(data) {
        OverrunsInRuns(Step(s, ops[0]).s, ops[1..], b, data);
      }
    }
  }

  lemma SentFirst(s: Store, ops: seq<Op>, b: nat, data: seq<byte>)
    requires Based(s) && OpsOk(ops) && ops != []
    ensures Based(Step(s, ops[0]).s)
    ensures AgreesWith(b, data, Sent(s, ops)) <==>
            AgreesWith(b, data, SentBy(s, ops[0])) && AgreesWith(b, data, Sent(Step(s, ops[0]).s, ops[1..]))
  {
    StepTables(s, ops[0]);
    AgreesSplit(b, data, SentBy(s, ops[0]), Sent(Step(s, ops[0]).s, ops[1..]));
  }

  lemma HeldFirst(s: Store, ops: seq<Op>, b: nat, data: seq<byte>)
    requires Based(s) && OpsOk(ops) && ops != [] && ReadBlock(s.file, b) == Some(data)
    ensures Based(Step(s, ops[0]).s) && (HeldThroughout(s, ops, b, data) <==> HeldThroughout(Step(s, ops[0]).s, ops[1..], b, data))
    ensures ReadBlock(Step(s, ops[0]).s.file, b) != Some(data) ==> !HeldThroughout(s, ops, b, data)
  {
    StepTables(s, ops[0]);
    if ReadBlock(Step(s, ops[0]).s.file, b) != Some(data) {
      NotHeld(Step(s, ops[0]).s, ops[1..], b, data);
    }
  }

  lemma StepHeld(s: Store, op: Op, b: nat, data: seq<byte>)
    requires Based(s) && OpOk(op) && 0 < |data| < TWO64 && ReadBlock(s.file, b) == Some(data)
    ensures ReadBlock(Step(s, op).s.file, b) == Some(data) <==> AgreesWith(b, data, SentBy(s, op))
  {
    StepFile(s, op);
    if Flushes(s, op) {
      StillRead(s.file, b, data, Allocate(s.tables).1, Message(Outgoing(s, op)));
      assert AgreesWith(b, data, SentBy(s, op)) <==> Agree(b, data, SentBy(s, op)[0].0, SentBy(s, op)[0].1);
    }
  }

  lemma AgreesSplit(b: nat, data: seq<byte>, first: Writes, rest: Writes)
    ensures AgreesWith(b, data, first + rest) <==> AgreesWith(b, data, first) && AgreesWith(b, data, rest)
  {
    var all := first + rest;
    assert forall i :: 0 <= i < |first| ==> all[i] == first[i];
    assert forall i :: 0 <= i < |rest| ==> all[|first| + i] == rest[i];
  }

  lemma NotHeld(s: Store, ops: seq<Op>, b: nat, data: seq<byte>)
    requires Based(s) && OpsOk(ops) && ReadBlock(s.file, b) != Some(data)
    ensures !HeldThroughout(s, ops, b, data)
  {
  }

  // ----- tables that do not fit -----

  /** A restart forgets that a block is used exactly when the tables do not fit block 0 and the older saved tables do
      not have the block. */
  lemma RestartForgets(s: Store, b: nat)
    requires Based(s) && b < NUM_BLOCKS
    ensures Shaped(Flushed(s)) && Shaped(Restart(s))
    ensures Flushed(s).tables.used[b] && !Restart(s).tables.used[b] <==>
            !InfoFits(Flushed(s).tables) && Flushed(s).tables.used[b] && !s.saved.used[b]
  {
    SpillTables(s, Room(s.size));
    EmptyWellFormed();
  }

  /** And then the lowest such block is handed out again by the next flush. */
  lemma HandedOutAgain(s: Store, b: nat)
    requires Based(s) && !InfoFits(Flushed(s).tables) && b < NUM_BLOCKS
    requires s.tables.used[b] && !s.saved.used[b] && forall c :: 0 <= c < b ==> s.saved.used[c]
    ensures Allocate(Restart(s).tables).1 == b
  {
    RestartTables(s);
    FirstFreeIs(s.saved.used, 0);
  }

  /** As long as no more than 4473881 keys are mapped the tables fit, and nothing is forgotten. */
  lemma FewKeysSaved(s: Store)
    requires Based(s) && (forall k :: k in Flushed(s).tables.index ==> Flushed(s).tables.index[k] < NUM_BLOCKS)
    requires HEADER + FIXED + 15 * |Flushed(s).tables.index| <= BLOCK_SIZE
    ensures Restart(s).tables.used == Flushed(s).tables.used && Restart(s).tables.index == Flushed(s).tables.index
  {
    SpillTables(s, Room(s.size));
    FewKeysFit(Flushed(s).tables);
  }
}
