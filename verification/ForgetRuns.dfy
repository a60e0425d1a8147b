/** A run in which the tables outgrow block 0, and a block is handed out a second time. */
module ForgetRuns {
  import opened Common
  import opened SkiplistSpec
  import opened BlockFile
  import opened TablesSpec
  import opened InfoMessage
  import opened StoreSpec
  import opened StoreRefinement
  import opened StoreSizes
  import opened StoreRuns
  import opened Ladders

  /** The keys of one full buffer and the one that makes it overflow. */
  const ROUND: nat := FULL + 1

  /** The first key. */
  const LOW: int32 := -5000000

  /** The first key of round r. */
  function LowOf(r: nat): int32
    requires r <= 6
  {
    LOW + r * ROUND
  }

  /** The first r blocks hold the keys of r rounds, and nothing else is mapped or used. */
  ghost predicate Mapped(t: Tables, r: nat) {
    && Sized(t)
    && (forall b :: 0 <= b < NUM_BLOCKS ==> (t.used[b] <==> b <= r))
    && (forall k :: k in t.index <==> LOW <= k < LOW + r * ROUND)
    && forall k :: k in t.index ==> t.index[k] < NUM_BLOCKS
  }

  /** r full buffers of fresh keys have been flushed, to the first r blocks, and the tables never saved. */
  ghost predicate Rounds(s: Store, r: nat) {
    r <= 6 && Based(s) && s.w == EMPTY && s.size == 0 && s.drift == 0 && s.saved == NewTables() && Mapped(s.tables, r)
  }

  // ----- one request -----

  /** The request takes s to t, and the block it takes, if any, is that. */
  ghost predicate Leads(s: Store, op: Op, block: Option<nat>, t: Store) {
    && Based(s) && OpOk(op) && t == Step(s, op).s
    && (block.Some? <==> Flushes(s, op)) && (block.Some? ==> block.value == Allocate(s.tables).1)
  }

  lemma TraceCons(s: Store, op: Op, block: Option<nat>, t: Store, ops: seq<Op>)
    requires Leads(s, op, block, t) && OpsOk(ops)
    ensures Based(t) && OpsOk([op] + ops)
    ensures BlockTrace(s, [op] + ops) == if block.Some? then [block.value] + BlockTrace(t, ops) else BlockTrace(t, ops)
  {
    StepTables(s, op);
    assert ([op] + ops)[1..] == ops;
  }

  lemma NextBlock(s: Store, r: nat)
    requires Rounds(s, r)
    ensures Allocate(s.tables).1 == r + 1
  {
    FirstFreeIs(s.tables.used, 0);
    assert !s.tables.used[r + 1];
  }

  /** A PUT that does not overflow takes the ladder one key up. */
  lemma Climbs(s: Store, r: nat, n: nat, str: Str)
    requires Rounds(s, r) && r < 6 && n < FULL && Short(str)
    ensures Leads(Filled(s, LowOf(r), n, 1, str), PutNext(LowOf(r), n, 1, str), None, Filled(s, LowOf(r), n + 1, 1, str))
  {
    NextPut(s, LowOf(r), n, 1, str);
  }

  /** The PUT that overflows the full buffer flushes all of it to the next block. */
  lemma LastPut(s: Store, r: nat, str: Str) returns (t: Store)
    requires Rounds(s, r) && r < 6 && Short(str)
    ensures Leads(Filled(s, LowOf(r), FULL, 1, str), PutNext(LowOf(r), FULL, 1, str), Some(r + 1), t) && Rounds(t, r + 1)
  {
    var low := LowOf(r);
    var z, op := Filled(s, low, FULL, 1, str), PutNext(low, FULL, 1, str);
    NextPut(s, low, FULL, 1, str);
    NextBlock(s, r);
    t := FlushTo(PutInto(z, op.key, op.value, 15, 15, 1), Allocate(s.tables).0, r + 1, FreeSpace(z, op.key, 15));
    assert t == Step(z, op).s;
    FlushedRound(s, r, PutInto(z, op.key, op.value, 15, 15, 1), FreeSpace(z, op.key, 15), str);
  }

  lemma FlushedRound(s: Store, r: nat, p: Store, freeSpace: uint64, str: Str)
    requires Rounds(s, r) && r < 6 && Shaped(p) && p.tables == s.tables && p.saved == s.saved
    requires p.w == Ladder(LowOf(r), ROUND, 1, str) && Allocate(s.tables).1 == r + 1 && Sized(Allocate(s.tables).0)
    ensures Rounds(FlushTo(p, Allocate(s.tables).0, r + 1, freeSpace), r + 1)
  {
    var taken := Allocate(s.tables).0;
    AllocateOnce(s.tables);
    EmptyWellFormed();
    MappedNext(s.tables, r, taken, p.w, freeSpace, str);
  }

  /** The keys of a round come after those of the rounds before. */
  lemma MappedNext(t: Tables, r: nat, taken: Tables, w: Shape, freeSpace: uint64, str: Str)
    requires Mapped(t, r) && r < 6 && w == Ladder(LowOf(r), ROUND, 1, str) && WellFormed(w)
    requires Sized(taken) && taken.used == t.used[r + 1 := true] && taken.index == t.index
    ensures Mapped(FlushedTables(taken, w, r + 1, freeSpace), r + 1)
  {
    FlushedTablesMap(taken, w, r + 1, freeSpace);
    LadderKeys(LowOf(r), ROUND, 1, str);
  }

  lemma StartsEmpty(s: Store, r: nat, str: Str)
    requires Rounds(s, r)
    ensures Filled(s, LowOf(r), 0, 1, str) == s
  {
    EmptyLadder(LowOf(r), 1, str);
  }

  // ----- the run -----

  /** The PUTs of one round take one block. */
  lemma {:induction false} OneRound(s: Store, r: nat, n: nat, str: Str) returns (ops: seq<Op>)
    requires Rounds(s, r) && r < 6 && n <= FULL && Short(str)
    ensures Based(Filled(s, LowOf(r), n, 1, str)) && OpsOk(ops) && BlockTrace(Filled(s, LowOf(r), n, 1, str), ops) == [r + 1]
    decreases FULL - n
  {
    var z, op := Filled(s, LowOf(r), n, 1, str), PutNext(LowOf(r), n, 1, str);
    if n < FULL {
      Climbs(s, r, n, str);
      var rest := OneRound(s, r, n + 1, str);
      TraceCons(z, op, None, Filled(s, LowOf(r), n + 1, 1, str), rest);
      ops := [op] + rest;
    } else {
      var t := LastPut(s, r, str);
      TraceCons(z, op, Some(r + 1), t, []);
      ops := [op] + [];
    }
  }

  lemma {:induction false} RangeSize(index: map<int32, uint64>, low: int32, n: nat)
    requires forall k :: k in index <==> low <= k < low + n
    requires low + n <= 0x8000_0000
    ensures |index| == n
    decreases n
  {
    if n == 0 {
      assert index == map[];
    } else {
      var k: int32 := low + n - 1;
      assert k in index;
      RangeSize(index - {k}, low, n - 1);
    }
  }

  lemma OutgrownTables(s: Store)
    requires Rounds(s, 6)
    ensures Allocate(s.tables).1 == 7 && !InfoFits(Flushed(s).tables)
  {
    NextBlock(s, 6);
    AllocateOnce(s.tables);
    RangeSize(s.tables.index, LOW, 6 * ROUND);
    FlushedTablesMap(Allocate(s.tables).0, s.w, 7, Room(s.size));
    var t := Flushed(s).tables;
    assert t.index.Keys == s.tables.index.Keys;
    ManyKeysDoNotFit(t);
  }

  /** After six rounds the tables of 4851246 negative keys do not fit, and a restart brings back the empty ones. */
  lemma RestartForgetsAll(s: Store, r: nat) returns (restart: Op, t: Store, zero: nat)
    requires Rounds(s, r) && r == 6
    ensures Leads(s, restart, Some(r + 1), t) && Rounds(t, zero) && zero == 0
  {
    OutgrownTables(s);
    RestartedAsNew(s);
    zero := 0;
    restart, t := RestartLeads(s);
  }

  lemma RestartLeads(s: Store) returns (restart: Op, t: Store)
    requires Based(s) && Allocate(s.tables).1 != NPOS
    ensures t == Restart(s) && Leads(s, restart, Some(Allocate(s.tables).1), t)
  {
    restart, t := RestartOp, Restart(s);
    assert Step(s, restart) == Done(t);
  }

  lemma RestartedAsNew(s: Store)
    requires Based(s) && s.saved == NewTables() && !InfoFits(Flushed(s).tables)
    ensures Rounds(Restart(s), 0)
  {
    RestartTables(s);
    MappedNothing();
  }

  lemma MappedNothing()
    ensures Mapped(NewTables(), 0)
  {
  }

  lemma FirstRound(s: Store, r: nat, b: nat, str: Str) returns (ops: seq<Op>)
    requires Rounds(s, r) && r < 6 && b == r + 1 && Short(str)
    ensures OpsOk(ops) && BlockTrace(s, ops) == [b]
  {
    StartsEmpty(s, r, str);
    ops := OneRound(s, r, 0, str);
  }

  /** The restart, and one more round. */
  lemma RestartsAndFills(s: Store, r: nat, str: Str) returns (ops: seq<Op>)
    requires Rounds(s, r) && r == 6 && Short(str)
    ensures OpsOk(ops) && BlockTrace(s, ops) == [r + 1] + [1]
  {
    var restart, t, zero := RestartForgetsAll(s, r);
    var rest := FirstRound(t, zero, 1, str);
    TraceCons(s, restart, Some(r + 1), t, rest);
    ops := [restart] + rest;
  }

  /** The blocks that are still to be taken after r rounds. */
  function Rest(r: nat): seq<nat>
    requires r <= 6
    decreases 6 - r
  {
    if r == 6 then [r + 1] + [1] else [r + 1] + Rest(r + 1)
  }

  /** From the n-th PUT of a round to the end. */
  lemma {:induction false} RunsOn(s: Store, r: nat, n: nat, str: Str) returns (ops: seq<Op>)
    requires Rounds(s, r) && r < 6 && n <= FULL && Short(str)
    ensures Based(Filled(s, LowOf(r), n, 1, str)) && OpsOk(ops) && BlockTrace(Filled(s, LowOf(r), n, 1, str), ops) == Rest(r)
    decreases 6 - r, FULL - n
  {
    var z, op := Filled(s, LowOf(r), n, 1, str), PutNext(LowOf(r), n, 1, str);
    if n < FULL {
      Climbs(s, r, n, str);
      var rest := RunsOn(s, r, n + 1, str);
      TraceCons(z, op, None, Filled(s, LowOf(r), n + 1, 1, str), rest);
      ops := [op] + rest;
    } else {
      var t := LastPut(s, r, str);
      var rest: seq<Op>;
      if r == 5 {
        rest := RestartsAndFills(t, r + 1, str);
      } else {
        StartsEmpty(t, r + 1, str);
        rest := RunsOn(t, r + 1, 0, str);
      }
      assert BlockTrace(t, rest) == Rest(r + 1);
      TraceCons(z, op, Some(r + 1), t, rest);
      ops := [op] + rest;
    }
  }

  /** It happens: seven blocks are taken, and after a restart the first of them once more. */
  lemma BlockTakenTwice(str: Str) returns (ops: seq<Op>)
    requires Short(str)
    ensures Based(NewStore()) && OpsOk(ops) && BlockTrace(NewStore(), ops) == [1, 2, 3, 4, 5, 6, 7, 1]
  {
    NewRounds();
    StartsEmpty(NewStore(), 0, str);
    ops := RunsOn(NewStore(), 0, 0, str);
    RestFromStart();
  }

  lemma NewRounds()
    ensures Rounds(NewStore(), 0)
  {
    NewStoreBased();
  }

  lemma RestFromStart()
    ensures Rest(0) == [1, 2, 3, 4, 5, 6, 7, 1]
  {
    assert Rest(5) == [6] + Rest(6);
    assert Rest(4) == [5] + Rest(5);
    assert Rest(3) == [4] + Rest(4);
    assert Rest(2) == [3] + Rest(3);
    assert Rest(1) == [2] + Rest(2);
  }
}
