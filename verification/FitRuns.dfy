/** Runs of PUTs that fill the buffer: one whose flush fits its block, and one whose flush overruns it. */
module FitRuns {
  import opened Common
  import opened SkiplistSpec
  import opened Flattening
  import opened Wire
  import opened SlMessages
  import opened BlockFile
  import opened BlockFit
  import opened TablesSpec
  import opened StoreSpec
  import opened StoreRefinement
  import opened StoreSizes
  import opened Ladders

  /** The buffer that an overflowing PUT flushes never has the room that `FitsWithSlack` asks for. */
  lemma OverflowLeavesNoSlack(s: Store, k: int32, v: Value, cap: nat, h: nat)
    requires Exact(s) && 1 <= h <= LEVELS && cap < 0x1000_0000_0000 && Overflows(s, k, cap)
    ensures var w := PutInto(s, k, v, cap, cap, h).w;
            HEADER + HEAD_BYTES + Total(w) + SLACK * |w.levels[0]| > BLOCK_SIZE
  {
    OverflowsExactly(s, k, v, cap, h);
  }

  // ----- filling the buffer -----

  lemma FilledInv(n: nat, h: nat, str: Str)
    requires n <= FULL && 1 <= h <= LEVELS && Short(str)
    ensures Inv(Filled(NewStore(), 0, n, h, str))
  {
    NewStoreInv();
    LadderOk(0, n, h, str);
  }

  /** PUTs that stay below the limit are safe, and fill the buffer. */
  lemma {:induction false} FillsUp(n: nat, m: nat, h: nat, str: Str)
    requires n <= m <= FULL && 1 <= h <= LEVELS && Short(str)
    ensures Inv(Filled(NewStore(), 0, n, h, str)) && SafeRun(Filled(NewStore(), 0, n, h, str), Puts(0, n, m, h, str))
    ensures Final(Filled(NewStore(), 0, n, h, str), Puts(0, n, m, h, str)) == Filled(NewStore(), 0, m, h, str)
    decreases m - n
  {
    NewStoreInv();
    FilledInv(n, h, str);
    NextPut(NewStore(), 0, n, h, str);
    if n < m {
      FillsUp(n + 1, m, h, str);
      assert Puts(0, n, m, h, str)[1..] == Puts(0, n + 1, m, h, str);
    }
  }

  lemma NewIsFilled(h: nat, str: Str)
    ensures Filled(NewStore(), 0, 0, h, str) == NewStore()
  {
    EmptyLadder(0, h, str);
  }

  // ----- a flush that fits -----

  lemma {:induction false} NoNulls(xs: seq<int32>)
    requires forall i :: 0 <= i < |xs| ==> xs[i] != NULL
    ensures NullCount(xs) == 0
  {
    if xs != [] {
      NoNulls(xs[1..]);
    }
  }

  lemma {:induction false} NullsAtMost(xs: seq<int32>)
    ensures NullCount(xs) <= |xs|
  {
    if xs != [] {
      NullsAtMost(xs[1..]);
    }
  }

  /** In a full-height ladder only the last node has null links. */
  lemma LadderNulls(n: nat, str: Str, k: int32)
    requires n <= 0x8000_0000 && 0 <= k < n
    ensures WellFormed(Ladder(0, n, LEVELS, str)) && k in Ladder(0, n, LEVELS, str).vals
    ensures NullCount(NodeRec(Ladder(0, n, LEVELS, str), k).next) <= if k == n - 1 then 8 else 0
  {
    LadderOk(0, n, LEVELS, str);
    var s := Ladder(0, n, LEVELS, str);
    assert Keys(0, n)[k] == k && k in Keys(0, n);
    RankIs(Keys(0, n), k, k);
    NullsAtMost(NodeRec(s, k).next);
    if k < n - 1 {
      NoNulls(NodeRec(s, k).next);
    }
  }

  lemma {:induction false} LadderSum(n: nat, str: Str, j: nat)
    requires j <= n <= 0x8000_0000 && |str.text| <= 1
    ensures (forall k :: k in Keys(0, n)[j..] ==> k in Ladder(0, n, LEVELS, str).vals)
    ensures CompactSum(Ladder(0, n, LEVELS, str), Keys(0, n)[j..]) <= 61 * (n - j) + 40
    decreases n - j
  {
    forall k | k in Keys(0, n)[j..] ensures k in Ladder(0, n, LEVELS, str).vals {
      assert k in Keys(0, n);
    }
    if j < n {
      var rest := Keys(0, n)[j..];
      assert rest[0] == j && rest[1..] == Keys(0, n)[j + 1..];
      LadderNulls(n, str, j);
      if j < n - 1 {
        LadderSum(n, str, j + 1);
      } else {
        assert rest[1..] == [];
      }
    }
  }

  /** A text of one ASCII character. */
  ghost predicate OneCharacter(str: Str) {
    Short(str) && |str.text| == 1 && str.text[0] < 0x80
  }

  lemma LadderStorable(n: nat, str: Str)
    requires n <= FULL + 1 && OneCharacter(str)
    ensures WellFormed(Ladder(0, n, LEVELS, str)) && Storable(Ladder(0, n, LEVELS, str))
  {
    var w := Ladder(0, n, LEVELS, str);
    LadderOk(0, n, LEVELS, str);
    LadderSum(n, str, 0);
    assert Keys(0, n)[0..] == Keys(0, n) == w.levels[0];
    assert ValidUtf8(str.text) by {
      assert str.text[1..] == [];
    }
    forall k | k in w.vals ensures 0 <= k && w.vals[k] == str {
    }
    CompactFits(w);
  }

  lemma BlockFree()
    ensures Allocate(NewTables()).1 == 1
  {
    FirstFreeIs(NewTables().used, 0);
    assert !NewTables().used[1];
  }

  lemma LastPutIsSafe(str: Str)
    requires OneCharacter(str)
    ensures var s, op := Filled(NewStore(), 0, FULL, LEVELS, str), PutNext(0, FULL, LEVELS, str);
            Inv(s) && Exact(s) && Overflows(s, op.key, op.copyCap) && Safe(s, op) && Flushes(s, op)
  {
    NewStoreInv();
    FilledInv(FULL, LEVELS, str);
    NextPut(NewStore(), 0, FULL, LEVELS, str);
    LadderStorable(FULL + 1, str);
    assert Outgoing(Filled(NewStore(), 0, FULL, LEVELS, str), PutNext(0, FULL, LEVELS, str)) == Ladder(0, FULL + 1, LEVELS, str);
    BlockFree();
  }

  /** PUTs of short texts in tall towers, up to the one that overflows: the whole run is safe, that PUT flushes, and so
      what it flushed is read back. */
  lemma SafeFlushHappens(str: Str)
    requires OneCharacter(str)
    ensures var s, op := Filled(NewStore(), 0, FULL, LEVELS, str), PutNext(0, FULL, LEVELS, str);
            && Inv(NewStore()) && SafeRun(NewStore(), Puts(0, 0, FULL, LEVELS, str)) && Final(NewStore(), Puts(0, 0, FULL, LEVELS, str)) == s
            && Exact(s) && Overflows(s, op.key, op.copyCap) && Safe(s, op) && Flushes(s, op)
  {
    NewIsFilled(LEVELS, str);
    FillsUp(0, FULL, LEVELS, str);
    FilledInv(FULL, LEVELS, str);
    LastPutIsSafe(str);
  }

  // ----- a flush that does not fit -----

  /** PUTs of 15-byte texts in towers of height one: the PUT that overflows flushes a buffer that overruns its block. */
  lemma OverrunHappens(str: Str)
    requires Short(str) && |str.text| == 15
    ensures var s, op := Filled(NewStore(), 0, FULL, 1, str), PutNext(0, FULL, 1, str);
            && Inv(NewStore()) && SafeRun(NewStore(), Puts(0, 0, FULL, 1, str)) && Final(NewStore(), Puts(0, 0, FULL, 1, str)) == s
            && Exact(s) && Overflows(s, op.key, op.copyCap) && OpOk(op) && Flushes(s, op) && !Fits(Message(Outgoing(s, op)))
  {
    NewIsFilled(1, str);
    FillsUp(0, FULL, 1, str);
    NextPut(NewStore(), 0, FULL, 1, str);
    FilledInv(FULL, 1, str);
    LadderOk(0, FULL + 1, 1, str);
    var w := Ladder(0, FULL + 1, 1, str);
    assert (FULL + 1) * Charge(str) == 67108903;
    ChargeDoesNotBoundBytes(w);
    BlockFree();
  }
}
