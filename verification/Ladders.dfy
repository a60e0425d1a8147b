/** Lists of consecutive keys in towers of one height, and the runs of PUTs that make them. */
module Ladders {
  import opened Common
  import opened SkiplistSpec
  import opened BlockFile
  import opened TablesSpec
  import opened StoreSpec
  import opened StoreRefinement
  import opened StoreSizes

  /** The n keys from `low` up. */
  function Keys(low: int32, n: nat): (r: seq<int32>)
    requires low + n <= 0x8000_0000
    ensures |r| == n && forall i :: 0 <= i < n ==> r[i] == low + i
  {
    seq<int32>(n, i requires 0 <= i < n => low + i)
  }

  function Ladder(low: int32, n: nat, h: nat, str: Str): Shape
    requires low + n <= 0x8000_0000
  {
    Shape(seq(LEVELS, i => if i < h then Keys(low, n) else []), map k | k in Keys(low, n) :: str)
  }

  lemma LadderKeys(low: int32, n: nat, h: nat, str: Str)
    requires low + n <= 0x8000_0000
    ensures forall k :: k in Ladder(low, n, h, str).vals <==> low <= k < low + n
  {
    forall k: int32 | low <= k < low + n ensures k in Keys(low, n) {
      assert Keys(low, n)[k - low] == k;
    }
  }

  lemma KeysGrow(low: int32, n: nat)
    requires low + n < 0x8000_0000
    ensures Insert(Keys(low, n), low + n) == Keys(low, n + 1)
  {
    RankIs(Keys(low, n), low + n, n);
  }

  /** Adding the next key makes the next ladder. */
  lemma LadderGrows(low: int32, n: nat, h: nat, str: Str)
    requires low + n < 0x8000_0000 && 1 <= h <= LEVELS
    ensures Added(Ladder(low, n, h, str), low + n, str, h) == Ladder(low, n + 1, h, str)
  {
    KeysGrow(low, n);
    LadderKeys(low, n, h, str);
    LadderKeys(low, n + 1, h, str);
    var a, b := Added(Ladder(low, n, h, str), low + n, str, h), Ladder(low, n + 1, h, str);
    assert a.levels == b.levels;
    assert a.vals == b.vals;
  }

  lemma EmptyLadder(low: int32, h: nat, str: Str)
    ensures Ladder(low, 0, h, str) == EMPTY
  {
    assert Keys(low, 0) == [];
    forall i | 0 <= i < LEVELS ensures Ladder(low, 0, h, str).levels[i] == [] == EMPTY.levels[i] {
    }
    assert Ladder(low, 0, h, str).levels == EMPTY.levels;
    assert Ladder(low, 0, h, str).vals == EMPTY.vals;
  }

  lemma LadderAdds(low: int32, n: nat, h: nat, str: Str, charge: nat)
    requires low + n < 0x8000_0000 && 1 <= h <= LEVELS && charge == Charge(str)
    requires WellFormed(Ladder(low, n, h, str)) && Total(Ladder(low, n, h, str)) == n * charge
    ensures WellFormed(Ladder(low, n + 1, h, str)) && Total(Ladder(low, n + 1, h, str)) == (n + 1) * charge
  {
    LadderGrows(low, n, h, str);
    AddedTotal(Ladder(low, n, h, str), low + n, str, h);
    LadderKeys(low, n, h, str);
    assert (n + 1) * charge == n * charge + charge;
  }

  lemma {:induction false} LadderOk(low: int32, n: nat, h: nat, str: Str)
    requires low + n <= 0x8000_0000 && 1 <= h <= LEVELS
    ensures WellFormed(Ladder(low, n, h, str)) && Total(Ladder(low, n, h, str)) == n * Charge(str)
  {
    if n == 0 {
      EmptyLadder(low, h, str);
      EmptyWellFormed();
      EmptyTotal();
    } else {
      LadderOk(low, n - 1, h, str);
      LadderAdds(low, n - 1, h, str, Charge(str));
    }
  }

  // ----- filling the buffer -----

  /** As many nodes with a capacity of 15, 83 bytes each, as the cache can hold. */
  const FULL: nat := 808540

  /** A string in its built-in buffer. */
  ghost predicate Short(str: Str) {
    |str.text| <= 15 == str.capacity
  }

  /** The store z with the ladder in its buffer. */
  function Filled(z: Store, low: int32, n: nat, h: nat, str: Str): Store
    requires n <= FULL && low + n <= 0x8000_0000
  {
    Store(Ladder(low, n, h, str), n * Charge(str), z.tables, z.file, z.block, z.recs, z.saved, 0)
  }

  function PutNext(low: int32, n: nat, h: nat, str: Str): Op
    requires low + n < 0x8000_0000
  {
    PutOp(low + n, str.text, 15, 15, h)
  }

  lemma FilledExact(z: Store, low: int32, n: nat, h: nat, str: Str)
    requires Shaped(z) && n <= FULL && low + n < 0x8000_0000 && 1 <= h <= LEVELS && Short(str)
    ensures Shaped(Filled(z, low, n, h, str)) && Exact(Filled(z, low, n, h, str))
    ensures Overflows(Filled(z, low, n, h, str), low + n, 15) <==> n == FULL
  {
    LadderOk(low, n, h, str);
    LadderKeys(low, n, h, str);
  }

  /** The next PUT makes the next ladder, and overflows only the full one. */
  lemma NextPut(z: Store, low: int32, n: nat, h: nat, str: Str)
    requires Shaped(z) && n <= FULL && low + n < 0x8000_0000 && 1 <= h <= LEVELS && Short(str)
    ensures Shaped(Filled(z, low, n, h, str)) && Exact(Filled(z, low, n, h, str))
    ensures Overflows(Filled(z, low, n, h, str), low + n, 15) <==> n == FULL
    ensures PutInto(Filled(z, low, n, h, str), low + n, str.text, 15, 15, h).w == Ladder(low, n + 1, h, str)
    ensures n < FULL ==> PutInto(Filled(z, low, n, h, str), low + n, str.text, 15, 15, h) == Filled(z, low, n + 1, h, str)
  {
    FilledExact(z, low, n, h, str);
    LadderGrows(low, n, h, str);
    LadderKeys(low, n, h, str);
    assert Kept(Filled(z, low, n, h, str), low + n, str.text, 15, 15) == str;
  }

  /** The PUTs that take a ladder from n keys to m. */
  function Puts(low: int32, n: nat, m: nat, h: nat, str: Str): seq<Op>
    requires n <= m && low + m <= 0x8000_0000
    decreases m - n
  {
    if n == m then [] else [PutNext(low, n, h, str)] + Puts(low, n + 1, m, h, str)
  }
}
