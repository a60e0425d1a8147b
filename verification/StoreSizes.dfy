/** The size the write buffer believes it has, against the charges of the nodes it holds. */
module StoreSizes {
  import opened Common
  import opened SkiplistSpec
  import opened BlockFile
  import opened TablesSpec
  import opened StoreSpec
  import opened StoreRefinement

  /** The true total, moved by the drift, in 64-bit arithmetic. */
  ghost predicate SizeOk(s: Store)
    requires Shaped(s)
  {
    s.size == Wrap(Total(s.w) + s.drift)
  }

  lemma PutKeepsSize(s: Store, k: int32, v: Value, copyCap: nat, assignCap: nat, h: nat)
    requires Shaped(s) && SizeOk(s) && 1 <= h <= LEVELS
    ensures Shaped(PutInto(s, k, v, copyCap, assignCap, h)) && SizeOk(PutInto(s, k, v, copyCap, assignCap, h))
  {
    AddedWellFormed(s.w, k, Kept(s, k, v, copyCap, assignCap), h);
    AddedTotal(s.w, k, Kept(s, k, v, copyCap, assignCap), h);
    var change := if k in s.w.vals then copyCap - s.w.vals[k].capacity else 4 + copyCap + 8 * LEVELS;
    WrapSum(Total(s.w) + s.drift, Wrap(change));
    WrapSum(Total(s.w) + s.drift, change);
  }

  lemma DelKeepsSize(s: Store, k: int32)
    requires Shaped(s) && SizeOk(s)
    ensures Shaped(Del(s, k)) && SizeOk(Del(s, k))
  {
    if k in s.w.vals {
      TotalWithout(s.w, k);
      var charge := Charge(s.w.vals[k]);
      var less: int := 0 - Wrap(charge);
      WrapSum(Total(s.w) + s.drift, less);
      var q := charge / TWO64;
      assert less == q * TWO64 - charge;
      WrapShift(Total(s.w) + s.drift - charge, q);
    }
  }

  lemma FlushToSize(s: Store, t: Tables, b: uint64, freeSpace: uint64)
    requires Shaped(s) && Sized(t)
    ensures var f := FlushTo(s, t, b, freeSpace); Shaped(f) && SizeOk(f) && f.w == EMPTY
  {
    EmptyWellFormed();
    EmptyTotal();
    var f := FlushTo(s, t, b, freeSpace);
    assert f.w == EMPTY && f.size == 0 && f.drift == 0 && f.saved == s.saved;
    assert Sized(f.tables) by {
      FlushedTablesMap(t, s.w, b, freeSpace);
    }
    assert Wrap(0) == 0;
  }

  lemma EmptyTotal()
    ensures Total(EMPTY) == 0
  {
  }

  lemma SpillKeepsSize(s: Store, freeSpace: uint64)
    requires Shaped(s) && SizeOk(s)
    ensures Shaped(Spill(s, freeSpace).s) && SizeOk(Spill(s, freeSpace).s)
  {
    FlushToSize(s, Allocate(s.tables).0, Allocate(s.tables).1, freeSpace);
  }

  lemma PutSpillKeepsSize(s: Store, k: int32, v: Value, copyCap: nat, assignCap: nat, h: nat)
    requires Shaped(s) && SizeOk(s) && 1 <= h <= LEVELS
    ensures var o := Put(s, k, v, copyCap, assignCap, h); Shaped(o.s) && SizeOk(o.s)
  {
    PutKeepsSize(s, k, v, copyCap, assignCap, h);
    SpillKeepsSize(PutInto(s, k, v, copyCap, assignCap, h), FreeSpace(s, k, copyCap));
  }

  /** Puts, overwrites with a smaller or a larger value, deletions, flushes and restarts: `size` is always the sum
      of the charges plus the drift, modulo 2^64. */
  lemma SizeConserved(s: Store, op: Op)
    requires Shaped(s) && SizeOk(s) && OpOk(op)
    ensures Shaped(Step(s, op).s) && SizeOk(Step(s, op).s)
  {
    match op
    case PutOp(k, v, copyCap, assignCap, h) =>
      PutSpillKeepsSize(s, k, v, copyCap, assignCap, h);
    case GetOp(k) =>
    case DelOp(k) =>
      DelKeepsSize(s, k);
    case RestartOp =>
      RestartSize(s);
  }

  lemma RestartSize(s: Store)
    requires Shaped(s)
    ensures Shaped(Restart(s)) && SizeOk(Restart(s))
    ensures Restart(s).drift == 0 && Restart(s).size == Total(Restart(s).w) == 0
  {
    EmptyWellFormed();
    EmptyTotal();
    FlushToSize(s, Allocate(s.tables).0, Allocate(s.tables).1, Room(s.size));
  }

  /** An overwrite keeps `size` exact exactly when the stored string's capacity ends up that of the argument. */
  lemma OverwriteExact(s: Store, k: int32, v: Value, copyCap: nat, assignCap: nat, h: nat)
    requires Shaped(s) && SizeOk(s) && s.drift == 0 && 1 <= h <= LEVELS
    requires copyCap < TWO64 && assignCap < TWO64
    ensures var p := PutInto(s, k, v, copyCap, assignCap, h);
            Shaped(p) && (p.size == Wrap(Total(p.w)) <==> k !in s.w.vals || copyCap == assignCap)
  {
    PutKeepsSize(s, k, v, copyCap, assignCap, h);
    var p := PutInto(s, k, v, copyCap, assignCap, h);
    if k in s.w.vals && copyCap != assignCap {
      var t, d := Total(p.w), copyCap - assignCap;
      assert p.size == Wrap(t + d);
      WrapSum(t, d);
      assert 0 < Wrap(d) < TWO64;
      WrapMoves(Wrap(t), Wrap(d));
      WrapSum(t, Wrap(d));
    }
  }

  lemma WrapMoves(a: nat, d: nat)
    requires a < TWO64 && 0 < d < TWO64
    ensures Wrap(a + d) != a
  {
    if a + d >= TWO64 {
      WrapShift(a + d - TWO64, 1);
    }
  }

  /** A flush is told the room that was left before the PUT that caused it, without wrapping. */
  lemma FreeSpaceExact(s: Store, k: int32, copyCap: nat)
    requires Shaped(s) && s.size <= CACHE_SIZE
    ensures FreeSpace(s, k, copyCap) == CACHE_SIZE - s.size
  {
    var n := AddCharge(s.w, k, copyCap);
    var q := (s.size + n) / TWO64;
    assert Wrap(s.size + n) == s.size + n - q * TWO64;
    WrapShift(CACHE_SIZE - s.size, q);
  }

  lemma SpillNoted(p: Store, freeSpace: uint64)
    requires Shaped(p) && p.tables.used[0] && Allocate(p.tables).1 != NPOS
    ensures 0 < Allocate(p.tables).1 < NUM_BLOCKS
    ensures EntriesAfter(p.tables, Spill(p, freeSpace).s.tables, Allocate(p.tables).1, freeSpace)
  {
    AllocateOnce(p.tables);
    FlushedEntries(Allocate(p.tables).0, p.w, Allocate(p.tables).1, freeSpace);
  }

  /** So after an overflowing PUT the entry of the block it took tells that room, and no entry but this and block 0's
      has changed. */
  lemma FlushNoted(s: Store, k: int32, v: Value, copyCap: nat, assignCap: nat, h: nat)
    requires Shaped(s) && s.tables.used[0] && s.size <= CACHE_SIZE && 1 <= h <= LEVELS
    requires Overflows(s, k, copyCap) && Put(s, k, v, copyCap, assignCap, h).Done?
    ensures 0 < Allocate(s.tables).1 < NUM_BLOCKS
    ensures EntriesAfter(s.tables, Put(s, k, v, copyCap, assignCap, h).s.tables, Allocate(s.tables).1, CACHE_SIZE - s.size)
  {
    SpillNoted(PutInto(s, k, v, copyCap, assignCap, h), FreeSpace(s, k, copyCap));
    FreeSpaceExact(s, k, copyCap);
  }

  lemma RoomExact(size: uint64)
    requires size <= CACHE_SIZE
    ensures Room(size) == CACHE_SIZE - size
  {
  }

  /** And likewise after the flush at a restart. */
  lemma HandlerNoted(s: Store)
    requires Shaped(s) && s.tables.used[0] && s.size <= CACHE_SIZE && Allocate(s.tables).1 != NPOS
    ensures 0 < Allocate(s.tables).1 < NUM_BLOCKS
    ensures EntriesAfter(s.tables, Spill(s, Room(s.size)).s.tables, Allocate(s.tables).1, CACHE_SIZE - s.size)
  {
    SpillNoted(s, Room(s.size));
    RoomExact(s.size);
  }

  /** No growth so far: `size` is the sum of the charges and within the limit. */
  ghost predicate Exact(s: Store) {
    Shaped(s) && s.drift == 0 && s.size == Total(s.w) <= CACHE_SIZE
  }

  /** With capacities that are a function of the text, a PUT flushes exactly when the sum of the charges would
      exceed the limit. */
  lemma OverflowsExactly(s: Store, k: int32, v: Value, cap: nat, h: nat)
    requires Exact(s) && 1 <= h <= LEVELS && cap < 0x1000_0000_0000
    ensures var p := PutInto(s, k, v, cap, cap, h);
            Shaped(p) && p.drift == 0 && p.size == Total(p.w) && (Overflows(s, k, cap) <==> Total(p.w) > CACHE_SIZE)
  {
    PutKeepsSize(s, k, v, cap, cap, h);
    AddedTotal(s.w, k, Kept(s, k, v, cap, cap), h);
  }

  lemma SpillExact(p: Store, freeSpace: uint64)
    requires Shaped(p)
    ensures Spill(p, freeSpace).Done? ==> Exact(Spill(p, freeSpace).s)
  {
    EmptyTotal();
    FlushToSize(p, Allocate(p.tables).0, Allocate(p.tables).1, freeSpace);
  }

  /** And `size` is the sum of the charges, never above the limit, after every request that ends. */
  lemma ExactWithoutGrowth(s: Store, op: Op)
    requires Exact(s) && OpOk(op)
    requires op.PutOp? ==> op.copyCap == op.assignCap < 0x1000_0000_0000
    ensures Step(s, op).Done? ==> Exact(Step(s, op).s)
  {
    match op
    case PutOp(k, v, cap, _, h) =>
      OverflowsExactly(s, k, v, cap, h);
      SpillExact(PutInto(s, k, v, cap, cap, h), FreeSpace(s, k, cap));
    case GetOp(k) =>
    case DelOp(k) =>
      DelExact(s, k);
    case RestartOp =>
      RestartSize(s);
  }

  lemma DelExact(s: Store, k: int32)
    requires Exact(s)
    ensures Exact(Del(s, k))
  {
    if k in s.w.vals {
      TotalWithout(s.w, k);
      assert Wrap(Charge(s.w.vals[k])) == Charge(s.w.vals[k]);
    }
  }

  /** When assigning a longer text doubles a string's buffer, deleting the key takes the size below zero, to just
      under 2^64, and the next key is charged ten bytes too little. */
  lemma SizeUnderflow(k: int32, other: int32, short: Value, long: Value)
    requires k != other
    ensures var a := PutInto(NewStore(), k, short, 15, 15, 1);
            var b := PutInto(a, k, long, 20, 30, 1);
            var c := Del(b, k);
            c.size == TWO64 - 10 && PutInto(c, other, short, 15, 15, 1).size == 73
  {
  }
}
