/** The value-level specification of the skip list: which keys stand on each of the eight levels. */
module SkiplistSpec {
  import opened Common

  const LEVELS: nat := 8

  /** A `std::string`: its text and the capacity its buffer happens to have. */
  datatype Str = Str(text: Value, capacity: nat)

  /** `levels[i]` lists the keys linked on level i, in list order; `vals` is the map the list stands for. */
  datatype Shape = Shape(levels: seq<seq<int32>>, vals: map<int32, Str>)

  const EMPTY: Shape := Shape([[], [], [], [], [], [], [], []], map[])

  /** Strictly increasing, stated link by link as the list is walked. */
  ghost predicate Sorted(s: seq<int32>) {
    SortedFrom(s, 0)
  }

  ghost predicate SortedFrom(s: seq<int32>, i: nat)
    decreases |s| - i
  {
    i + 1 < |s| ==> s[i] < s[i + 1] && SortedFrom(s, i + 1)
  }

  /** Every level strictly sorted, every level contained in the ones below, level 0 holding exactly the keys. */
  ghost predicate WellFormed(s: Shape) {
    && |s.levels| == LEVELS
    && (forall i :: 0 <= i < LEVELS ==> Sorted(s.levels[i]))
    && (forall i, j, k :: 0 <= i <= j < LEVELS && k in s.levels[j] ==> k in s.levels[i])
    && (forall k :: k in s.vals <==> k in s.levels[0])
  }

  /** The position of the first key that is not below k. */
  function Rank(s: seq<int32>, k: int32): (r: nat)
    ensures r <= |s|
  {
    RankFrom(s, k, 0)
  }

  function RankFrom(s: seq<int32>, k: int32, i: nat): (r: nat)
    requires i <= |s|
    ensures i <= r <= |s|
    decreases |s| - i
  {
    if i == |s| || s[i] >= k then i else RankFrom(s, k, i + 1)
  }

  function Insert(s: seq<int32>, k: int32): seq<int32> {
    s[..Rank(s, k)] + [k] + s[Rank(s, k)..]
  }

  function Remove(s: seq<int32>, k: int32): seq<int32> {
    var r := Rank(s, k);
    if r < |s| && s[r] == k then s[..r] + s[r + 1..] else s
  }

  /** How many levels a new node is linked on, when `coin(i)` is the outcome of the toss after level i. */
  function Height(coin: nat -> bool, i: nat): (h: nat)
    requires i < LEVELS
    ensures i < h <= LEVELS
    decreases LEVELS - i
  {
    if i == LEVELS - 1 || coin(i) then i + 1 else Height(coin, i + 1)
  }

  /** No toss up to level l has ended the tower. */
  ghost predicate Reaches(coin: nat -> bool, l: nat) {
    forall j :: 0 <= j < l ==> !coin(j)
  }

  lemma {:induction false} HeightReaches(coin: nat -> bool, i: nat, l: nat)
    requires i < LEVELS && l < LEVELS && Reaches(coin, i)
    ensures l < Height(coin, i) <==> Reaches(coin, l)
    decreases LEVELS - i
  {
    if i < LEVELS - 1 && !coin(i) {
      HeightReaches(coin, i + 1, l);
    }
  }

  lemma TossesReach(coin: nat -> bool)
    ensures forall l :: 0 <= l < LEVELS ==> (l < Height(coin, 0) <==> Reaches(coin, l))
  {
    forall l | 0 <= l < LEVELS ensures l < Height(coin, 0) <==> Reaches(coin, l) {
      HeightReaches(coin, 0, l);
    }
  }

  /** The first level from i upwards that k is not on. */
  ghost function TowerOf(s: Shape, k: int32, i: nat): nat
    requires |s.levels| == LEVELS && i <= LEVELS
    decreases LEVELS - i
  {
    if i < LEVELS && k in s.levels[i] then TowerOf(s, k, i + 1) else i
  }

  function Lookup(s: Shape, k: int32): Value {
    if k in s.vals then s.vals[k].text else []
  }

  /** The effect of `add`: overwrite in place, or link a new tower of height h. */
  function Added(s: Shape, k: int32, str: Str, h: nat): Shape
    requires |s.levels| == LEVELS
  {
    if k in s.vals then
      s.(vals := s.vals[k := str])
    else
      Shape(seq(LEVELS, i requires 0 <= i < LEVELS => if i < h then Insert(s.levels[i], k) else s.levels[i]), s.vals[k := str])
  }

  /** The effect of `erase`: the key leaves every level. */
  function Erased(s: Shape, k: int32): Shape
    requires |s.levels| == LEVELS
  {
    Shape(seq(LEVELS, i requires 0 <= i < LEVELS => Remove(s.levels[i], k)), s.vals - {k})
  }

  /** What a node is charged: its key, its string buffer and its eight pointers. */
  function Charge(v: Str): nat {
    4 + v.capacity + 8 * LEVELS
  }

  /** The size `add` reports: a whole node, or the wrapped difference of two capacities. */
  function AddCharge(s: Shape, k: int32, copyCap: nat): nat {
    if k in s.vals then Wrap(copyCap - s.vals[k].capacity) else Wrap(4 + copyCap + 8 * LEVELS)
  }

  /** The size `erase` reports. */
  function EraseCharge(s: Shape, k: int32): nat
    requires k in s.vals
  {
    Wrap(4 + s.vals[k].capacity + 8 * LEVELS)
  }

  function TotalOf(keys: seq<int32>, vals: map<int32, Str>): nat
    requires forall k :: k in keys ==> k in vals
  {
    if keys == [] then 0 else Charge(vals[keys[0]]) + TotalOf(keys[1..], vals)
  }

  /** The charges of all nodes together. */
  ghost function Total(s: Shape): nat
    requires WellFormed(s)
  {
    TotalOf(s.levels[0], s.vals)
  }

  // ----- order -----

  lemma {:induction false} SortedFromPairs(s: seq<int32>, b: nat)
    requires SortedFrom(s, b)
    ensures forall i, j :: b <= i < j < |s| ==> s[i] < s[j]
    decreases |s| - b
  {
    if b + 1 < |s| {
      SortedFromPairs(s, b + 1);
    }
  }

  lemma SortedPairs(s: seq<int32>)
    requires Sorted(s)
    ensures forall i, j :: 0 <= i < j < |s| ==> s[i] < s[j]
  {
    SortedFromPairs(s, 0);
  }

  lemma {:induction false} SortedIntro(s: seq<int32>, b: nat)
    requires forall i, j :: 0 <= i < j < |s| ==> s[i] < s[j]
    ensures SortedFrom(s, b)
    decreases |s| - b
  {
    if b + 1 < |s| {
      SortedIntro(s, b + 1);
    }
  }

  // ----- ranks -----

  lemma {:induction false} RankFromBounds(s: seq<int32>, k: int32, i: nat)
    requires i <= |s|
    ensures forall j :: i <= j < RankFrom(s, k, i) ==> s[j] < k
    ensures RankFrom(s, k, i) < |s| ==> s[RankFrom(s, k, i)] >= k
    decreases |s| - i
  {
    if i < |s| && s[i] < k {
      RankFromBounds(s, k, i + 1);
    }
  }

  lemma RankBounds(s: seq<int32>, k: int32)
    ensures forall j :: 0 <= j < Rank(s, k) ==> s[j] < k
    ensures Rank(s, k) < |s| ==> s[Rank(s, k)] >= k
  {
    RankFromBounds(s, k, 0);
  }

  lemma {:induction false} RankFromIs(s: seq<int32>, k: int32, i: nat, r: nat)
    requires i <= r <= |s|
    requires forall j :: i <= j < r ==> s[j] < k
    requires r < |s| ==> s[r] >= k
    ensures r == RankFrom(s, k, i)
    decreases |s| - i
  {
    if i < r {
      assert s[i] < k;
      RankFromIs(s, k, i + 1, r);
    }
  }

  lemma RankIs(s: seq<int32>, k: int32, r: nat)
    requires r <= |s|
    requires forall j :: 0 <= j < r ==> s[j] < k
    requires r < |s| ==> s[r] >= k
    ensures r == Rank(s, k)
  {
    RankFromIs(s, k, 0, r);
  }

  lemma RankFinds(s: seq<int32>, k: int32)
    requires Sorted(s)
    ensures k in s <==> Rank(s, k) < |s| && s[Rank(s, k)] == k
    ensures forall j :: 0 <= j < |s| && s[j] < k ==> j < Rank(s, k)
    ensures forall j :: 0 <= j < Rank(s, k) ==> s[j] < k
    ensures forall j :: Rank(s, k) < j < |s| ==> s[j] > k
  {
    RankBounds(s, k);
    SortedPairs(s);
    var r := Rank(s, k);
    if r < |s| {
      assert forall j :: r < j < |s| ==> s[r] < s[j];
    }
  }

  lemma RankOf(s: seq<int32>, j: nat)
    requires Sorted(s) && j < |s|
    ensures Rank(s, s[j]) == j
  {
    SortedPairs(s);
    RankIs(s, s[j], j);
  }

  /** Because the levels are nested, a key is on exactly the levels below the end of its tower. */
  lemma {:induction false} TowerMeaning(s: Shape, k: int32, i: nat)
    requires WellFormed(s) && i <= LEVELS
    requires forall l :: 0 <= l < i ==> k in s.levels[l]
    ensures i <= TowerOf(s, k, i) <= LEVELS
    ensures forall l :: 0 <= l < LEVELS ==> (k in s.levels[l] <==> l < TowerOf(s, k, i))
    decreases LEVELS - i
  {
    if i < LEVELS && k in s.levels[i] {
      TowerMeaning(s, k, i + 1);
    }
  }

  lemma InsertAt(s: seq<int32>, k: int32)
    requires Sorted(s) && k !in s
    ensures |Insert(s, k)| == |s| + 1
    ensures forall j :: 0 <= j < Rank(s, k) ==> Insert(s, k)[j] == s[j] < k
    ensures Insert(s, k)[Rank(s, k)] == k
    ensures forall j :: Rank(s, k) <= j < |s| ==> Insert(s, k)[j + 1] == s[j] > k
  {
    RankFinds(s, k);
  }

  lemma InsertMembers(s: seq<int32>, k: int32)
    ensures forall x :: x in Insert(s, k) <==> x == k || x in s
  {
    var r := Rank(s, k);
    assert s == s[..r] + s[r..];
  }

  lemma InsertSorted(s: seq<int32>, k: int32)
    requires Sorted(s) && k !in s
    ensures Sorted(Insert(s, k))
  {
    InsertAt(s, k);
    SortedPairs(s);
    var r, t := Rank(s, k), Insert(s, k);
    forall i, j | 0 <= i < j < |t| ensures t[i] < t[j] {
      assert i > r ==> t[i] == s[i - 1];
      assert j > r ==> t[j] == s[j - 1];
    }
    SortedIntro(t, 0);
  }

  lemma RemoveInsert(s: seq<int32>, k: int32)
    requires Sorted(s) && k !in s
    ensures Rank(Insert(s, k), k) == Rank(s, k)
    ensures Remove(Insert(s, k), k) == s
  {
    var a, b := s[..Rank(s, k)], s[Rank(s, k)..];
    assert s == a + b;
    RankBounds(s, k);
    CutMiddle(a, k, b);
  }

  lemma CutMiddle(a: seq<int32>, k: int32, b: seq<int32>)
    requires forall j :: 0 <= j < |a| ==> a[j] < k
    ensures Rank(a + [k] + b, k) == |a|
    ensures Remove(a + [k] + b, k) == a + b
  {
    RankIs(a + [k] + b, k, |a|);
  }

  lemma RemoveMembers(s: seq<int32>, k: int32)
    requires Sorted(s)
    ensures forall x :: x in Remove(s, k) <==> x in s && x != k
  {
    RankFinds(s, k);
    var r := Rank(s, k);
    if k in s {
      assert s == s[..r] + [k] + s[r + 1..];
      assert k !in s[..r] && k !in s[r + 1..];
    }
  }

  lemma RemoveSorted(s: seq<int32>, k: int32)
    requires Sorted(s)
    ensures Sorted(Remove(s, k))
  {
    var r, t := Rank(s, k), Remove(s, k);
    if t != s {
      SortedPairs(s);
      forall i, j | 0 <= i < j < |t| ensures t[i] < t[j] {
        assert t[i] == s[if i < r then i else i + 1];
        assert t[j] == s[if j < r then j else j + 1];
      }
      SortedIntro(t, 0);
    }
  }

  // ----- what the operations keep -----

  lemma EmptyWellFormed()
    ensures WellFormed(EMPTY)
  {
  }

  /** `add` keeps sortedness and nesting for every height the coins can give, and is map update. */
  lemma AddedWellFormed(s: Shape, k: int32, str: Str, h: nat)
    requires WellFormed(s) && 1 <= h <= LEVELS
    ensures WellFormed(Added(s, k, str, h))
    ensures Added(s, k, str, h).vals == s.vals[k := str]
  {
    if k !in s.vals {
      var t := Added(s, k, str, h);
      forall i | 0 <= i < LEVELS
        ensures Sorted(t.levels[i])
        ensures forall x :: x in t.levels[i] <==> (x == k && i < h) || x in s.levels[i]
      {
        assert k !in s.levels[i] by {
          assert k !in s.levels[0];
        }
        InsertSorted(s.levels[i], k);
        InsertMembers(s.levels[i], k);
      }
    }
  }

  /** A new key stands on exactly the levels that the tosses let it reach, and any other key where it was. */
  lemma AddedTower(s: Shape, k: int32, str: Str, coin: nat -> bool)
    requires WellFormed(s)
    ensures forall l, x :: 0 <= l < LEVELS ==>
              (x in Added(s, k, str, Height(coin, 0)).levels[l] <==> if x == k && k !in s.vals then Reaches(coin, l) else x in s.levels[l])
  {
    TossesReach(coin);
    forall l | 0 <= l < LEVELS
      ensures forall x :: x in Added(s, k, str, Height(coin, 0)).levels[l] <==>
                if x == k && k !in s.vals then Reaches(coin, l) else x in s.levels[l]
    {
      InsertMembers(s.levels[l], k);
      assert k !in s.vals ==> k !in s.levels[l] by {
        assert k in s.levels[l] ==> k in s.levels[0];
      }
    }
  }

  /** `erase` keeps the invariant, takes the key off every level and leaves every other key on the levels it had. */
  lemma ErasedWellFormed(s: Shape, k: int32)
    requires WellFormed(s)
    ensures WellFormed(Erased(s, k))
    ensures forall i, x :: 0 <= i < LEVELS ==> (x in Erased(s, k).levels[i] <==> x in s.levels[i] && x != k)
  {
    forall i | 0 <= i < LEVELS
      ensures Sorted(Erased(s, k).levels[i])
      ensures forall x :: x in Erased(s, k).levels[i] <==> x in s.levels[i] && x != k
    {
      RemoveMembers(s.levels[i], k);
      RemoveSorted(s.levels[i], k);
    }
  }

  /** Erasing a key that was just added gives back the very same towers, whatever the coins were. */
  lemma EraseUndoesAdd(s: Shape, k: int32, str: Str, h: nat)
    requires WellFormed(s) && k !in s.vals && 1 <= h <= LEVELS
    ensures Erased(Added(s, k, str, h), k) == s
  {
    var t := Erased(Added(s, k, str, h), k);
    forall i | 0 <= i < LEVELS ensures t.levels[i] == s.levels[i] {
      assert k !in s.levels[i] by {
        assert k !in s.levels[0];
      }
      RemoveInsert(s.levels[i], k);
      RankFinds(s.levels[i], k);
    }
    assert t.levels == s.levels;
    assert t.vals == s.vals;
  }

  // ----- whole runs -----

  datatype ListOp = AddOp(key: int32, str: Str, height: nat) | EraseOp(key: int32)

  /** The list after a sequence of operations; the heights are what the coins gave. */
  function Played(s: Shape, ops: seq<ListOp>): Shape
    requires |s.levels| == LEVELS
    decreases |ops|
  {
    if ops == [] then s
    else match ops[0]
      case AddOp(k, str, h) => Played(Added(s, k, str, h), ops[1..])
      case EraseOp(k) => Played(if k in s.vals then Erased(s, k) else s, ops[1..])
  }

  /** The same operations on a map. */
  function PlayedOnMap(m: map<int32, Str>, ops: seq<ListOp>): map<int32, Str>
    decreases |ops|
  {
    if ops == [] then m
    else match ops[0]
      case AddOp(k, str, _) => PlayedOnMap(m[k := str], ops[1..])
      case EraseOp(k) => PlayedOnMap(m - {k}, ops[1..])
  }

  /** Every run keeps the invariant and is a run on a map, whatever the coins gave on the way. */
  lemma {:induction false} RunsAreMapRuns(s: Shape, ops: seq<ListOp>)
    requires WellFormed(s) && forall i :: 0 <= i < |ops| && ops[i].AddOp? ==> 1 <= ops[i].height <= LEVELS
    ensures WellFormed(Played(s, ops)) && Played(s, ops).vals == PlayedOnMap(s.vals, ops)
    ensures forall k :: Lookup(Played(s, ops), k) == if k in PlayedOnMap(s.vals, ops) then PlayedOnMap(s.vals, ops)[k].text else []
    decreases |ops|
  {
    if ops != [] {
      match ops[0]
      case AddOp(k, str, h) =>
        AddedWellFormed(s, k, str, h);
        RunsAreMapRuns(Added(s, k, str, h), ops[1..]);
      case EraseOp(k) =>
        ErasedWellFormed(s, k);
        assert k !in s.vals ==> s.vals - {k} == s.vals;
        RunsAreMapRuns(if k in s.vals then Erased(s, k) else s, ops[1..]);
    }
  }

  // ----- charges -----

  lemma {:induction false} TotalSplit(a: seq<int32>, b: seq<int32>, vals: map<int32, Str>)
    requires forall k :: k in a + b ==> k in vals
    ensures forall k :: k in a || k in b ==> k in vals
    ensures TotalOf(a + b, vals) == TotalOf(a, vals) + TotalOf(b, vals)
  {
    assert forall k :: k in a || k in b ==> k in a + b;
    if a == [] {
      assert a + b == b;
    } else {
      assert (a + b)[0] == a[0] && (a + b)[1..] == a[1..] + b;
      TotalSplit(a[1..], b, vals);
    }
  }

  lemma {:induction false} TotalAgrees(keys: seq<int32>, u: map<int32, Str>, v: map<int32, Str>)
    requires forall k :: k in keys ==> k in u && k in v && u[k] == v[k]
    ensures TotalOf(keys, u) == TotalOf(keys, v)
  {
    if keys != [] {
      TotalAgrees(keys[1..], u, v);
    }
  }

  /** The total with the string at position r replaced is off by the two charges. */
  lemma TotalAt(a: seq<int32>, k: int32, b: seq<int32>, vals: map<int32, Str>)
    requires forall x :: x in a + b ==> x in vals && x != k
    requires k in vals
    ensures forall x :: x in a + [k] + b ==> x in vals
    ensures TotalOf(a + [k] + b, vals) == TotalOf(a + b, vals - {k}) + Charge(vals[k])
  {
    assert forall x :: x in a + [k] + b ==> x in a + b || x == k;
    assert a + [k] + b == a + ([k] + b);
    TotalSplit(a, [k] + b, vals);
    TotalSplit([k], b, vals);
    assert TotalOf([k], vals) == Charge(vals[k]) + TotalOf([], vals);
    TotalSplit(a, b, vals);
    TotalAgrees(a + b, vals, vals - {k});
  }

  lemma TotalWithout(s: Shape, k: int32)
    requires WellFormed(s) && k in s.vals
    ensures WellFormed(Erased(s, k))
    ensures Total(s) == Total(Erased(s, k)) + Charge(s.vals[k])
  {
    ErasedWellFormed(s, k);
    var keys := s.levels[0];
    var r := Rank(keys, k);
    RankFinds(keys, k);
    assert keys == keys[..r] + [k] + keys[r + 1..];
    assert Remove(keys, k) == keys[..r] + keys[r + 1..] == Erased(s, k).levels[0];
    assert forall x :: x in keys[..r] + keys[r + 1..] ==> x in Erased(s, k).levels[0];
    TotalAt(keys[..r], k, keys[r + 1..], s.vals);
  }

  lemma EraseForgetsOverwrite(s: Shape, k: int32, str: Str, h: nat)
    requires WellFormed(s) && k in s.vals
    ensures Erased(Added(s, k, str, h), k) == Erased(s, k)
  {
    assert s.vals[k := str] - {k} == s.vals - {k};
  }

  /** Linking or overwriting a node changes the total by exactly the difference of the charges. */
  lemma AddedTotal(s: Shape, k: int32, str: Str, h: nat)
    requires WellFormed(s) && 1 <= h <= LEVELS
    ensures WellFormed(Added(s, k, str, h))
    ensures Total(Added(s, k, str, h)) == Total(s) + Charge(str) - if k in s.vals then Charge(s.vals[k]) else 0
  {
    AddedWellFormed(s, k, str, h);
    assert Added(s, k, str, h).vals[k] == str;
    TotalWithout(Added(s, k, str, h), k);
    if k in s.vals {
      TotalWithout(s, k);
      EraseForgetsOverwrite(s, k, str, h);
    } else {
      EraseUndoesAdd(s, k, str, h);
    }
  }
}
