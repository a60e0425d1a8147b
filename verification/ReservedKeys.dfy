/** What is left of a list when the keys that the format reserves are among its keys. */
module ReservedKeys {
  import opened Common
  import opened SkiplistSpec
  import opened Flattening

  /** The first n keys met on level i of the rebuilt list, from the node with key k or the head on. */
  ghost function Walked(recs: seq<Rec>, i: nat, k: int32, n: nat): seq<int32>
    decreases n
  {
    if n == 0 then []
    else match Rebuilt(recs, k, i)
      case None => []
      case Some(j) => [j] + Walked(recs, i, j, n - 1)
  }

  // ----- the links -----

  /** What the last record with a key says, or else the records before it. */
  lemma {:induction false} FromLast(recs: seq<Rec>, j: nat, i: nat)
    requires j < |recs| && i < |recs[j].next|
    requires forall m :: j < m < |recs| ==> recs[m].key != recs[j].key
    ensures LinkFrom(recs, recs[j].key, i) ==
            if recs[j].next[i] != NULL then recs[j].next[i] else LinkFrom(recs[..j], recs[j].key, i)
  {
    if j < |recs| - 1 {
      FromLast(recs[..|recs| - 1], j, i);
      assert recs[..|recs| - 1][..j] == recs[..j];
    }
  }

  lemma {:induction false} ValueLast(recs: seq<Rec>, j: nat)
    requires j < |recs| && forall m :: j < m < |recs| ==> recs[m].key != recs[j].key
    ensures ValueFrom(recs, recs[j].key) == recs[j].value
  {
    if j < |recs| - 1 {
      ValueLast(recs[..|recs| - 1], j);
    }
  }

  /** The text of every key is read back, those of the reserved keys too. */
  lemma ValueKept(s: Shape, k: int32)
    requires WellFormed(s) && k in s.vals
    ensures ValueFrom(Flatten(s), k) == s.vals[k].text
  {
    var recs, keys := Flatten(s), s.levels[0];
    FlattenKeys(s);
    RankFinds(keys, k);
    var j := Rank(keys, k) + 1;
    assert recs[j] == NodeRec(s, k);
    forall m | j < m < |recs| ensures recs[m].key != k {
      assert recs[m].key == keys[m - 1];
    }
    ValueLast(recs, j);
  }

  /** The link of a key: that of its own record, and for the head's key, where that is null, the head's. */
  lemma LinkOf(s: Shape, k: int32, i: nat)
    requires WellFormed(s) && k in s.vals && i < LEVELS
    ensures LinkFrom(Flatten(s), k, i) ==
            if k == HEAD && After(s.levels[i], k) == None then LinkCode(First(s.levels[i])) else LinkCode(After(s.levels[i], k))
  {
    var recs, keys := Flatten(s), s.levels[0];
    FlattenKeys(s);
    RankFinds(keys, k);
    var j := Rank(keys, k) + 1;
    assert LinkFrom(recs, k, i) == if NodeRec(s, k).next[i] != NULL then NodeRec(s, k).next[i] else LinkFrom(recs[..j], k, i) by {
      assert recs[j] == NodeRec(s, k);
      forall m | j < m < |recs| ensures recs[m].key != k {
        assert recs[m].key == keys[m - 1];
      }
      FromLast(recs, j, i);
    }
    EarlierLink(s, k, i);
    LinksGoUp(s, k, i);
  }

  /** Before the record of a key there is only the head's that can have the same key. */
  lemma EarlierLink(s: Shape, k: int32, i: nat)
    requires WellFormed(s) && k in s.vals && i < LEVELS && Rank(s.levels[0], k) < |s.levels[0]|
    ensures LinkFrom(Flatten(s)[..Rank(s.levels[0], k) + 1], k, i) == if k == HEAD then LinkCode(First(s.levels[i])) else NULL
  {
    EarlierKeys(s, k);
    FrontLink(s, Flatten(s)[..Rank(s.levels[0], k) + 1], k, i);
  }

  lemma FrontLink(s: Shape, front: seq<Rec>, k: int32, i: nat)
    requires WellFormed(s) && i < LEVELS && front != [] && front[0] == HeadRec(s) && forall m :: 1 <= m < |front| ==> front[m].key != k
    ensures LinkFrom(front, k, i) == if k == HEAD then LinkCode(First(s.levels[i])) else NULL
  {
    if k == HEAD {
      FromOnly(front, 0, i);
    } else {
      Absent(front, k, i);
    }
  }

  lemma EarlierKeys(s: Shape, k: int32)
    requires WellFormed(s) && k in s.vals && Rank(s.levels[0], k) < |s.levels[0]|
    ensures forall m :: 1 <= m <= Rank(s.levels[0], k) ==> Flatten(s)[m].key != k
    ensures Flatten(s)[0] == HeadRec(s)
  {
    FlattenKeys(s);
    RankFinds(s.levels[0], k);
    forall m | 1 <= m <= Rank(s.levels[0], k) ensures Flatten(s)[m].key != k {
      assert Flatten(s)[m].key == s.levels[0][m - 1];
    }
  }

  /** A link other than null leads to a greater key, so a link of the head's key is never taken for null. */
  lemma LinksGoUp(s: Shape, k: int32, i: nat)
    requires WellFormed(s) && i < LEVELS
    ensures After(s.levels[i], k).Some? ==> After(s.levels[i], k).value > k
  {
    RankFinds(s.levels[i], k);
  }

  lemma HeadLink(s: Shape, i: nat)
    requires WellFormed(s) && HEAD !in s.vals && i < LEVELS
    ensures LinkFrom(Flatten(s), HEAD, i) == LinkCode(First(s.levels[i]))
  {
    FlattenKeys(s);
    forall m | 1 <= m < |Flatten(s)| ensures Flatten(s)[m].key != HEAD {
      assert s.levels[0][m - 1] in s.levels[0];
    }
    FromOnly(Flatten(s), 0, i);
  }

  /** The key that a link code stands for after reading. */
  function Read(o: Option<int32>): Option<int32> {
    if o == Some(NULL) then None else o
  }

  lemma ReadsLink(recs: seq<Rec>, k: int32, i: nat, o: Option<int32>)
    requires LinkFrom(recs, k, i) == LinkCode(o) && (o.Some? ==> HasKey(recs, o.value))
    ensures Rebuilt(recs, k, i) == Read(o)
  {
  }

  /** Where the rebuilt links of a level lead: from the head past the head's key if that has a successor on the level,
      else to the first key; from each key to the next; from the head's key, if it is the last, to the first. */
  ghost predicate Links(recs: seq<Rec>, i: nat, keys: seq<int32>) {
    && Rebuilt(recs, HEAD, i) == (if After(keys, HEAD).Some? then After(keys, HEAD) else Read(First(keys)))
    && forall p :: 0 <= p < |keys| ==> Rebuilt(recs, keys[p], i) == Next(keys, p)
  }

  function Next(keys: seq<int32>, p: nat): Option<int32>
    requires p < |keys|
  {
    if p + 1 < |keys| then Read(Some(keys[p + 1])) else if keys[p] == HEAD then Read(First(keys)) else None
  }

  lemma NextOnLevel(s: Shape, i: nat, p: nat)
    requires WellFormed(s) && i < LEVELS && p < |s.levels[i]|
    ensures Rebuilt(Flatten(s), s.levels[i][p], i) == Next(s.levels[i], p)
  {
    var keys := s.levels[i];
    assert keys[p] in s.vals by {
      assert keys[p] in s.levels[0];
    }
    RankOf(keys, p);
    LinkOf(s, keys[p], i);
    LinkTargets(s, i);
    var o := if keys[p] == HEAD && After(keys, keys[p]) == None then First(keys) else After(keys, keys[p]);
    assert o.Some? ==> HasKey(Flatten(s), o.value) by {
      FlattenKeys(s);
    }
    ReadsLink(Flatten(s), keys[p], i, o);
  }

  lemma FirstOnLevel(s: Shape, i: nat)
    requires WellFormed(s) && i < LEVELS
    ensures var keys := s.levels[i];
            Rebuilt(Flatten(s), HEAD, i) == if After(keys, HEAD).Some? then After(keys, HEAD) else Read(First(keys))
  {
    LinkTargets(s, i);
    FlattenKeys(s);
    LinksGoUp(s, HEAD, i);
    if HEAD in s.vals {
      LinkOf(s, HEAD, i);
    } else {
      HeadLink(s, i);
      AbsentAfter(s, i);
    }
  }

  lemma AbsentAfter(s: Shape, i: nat)
    requires WellFormed(s) && HEAD !in s.vals && i < LEVELS
    ensures After(s.levels[i], HEAD) == None
  {
    RankFinds(s.levels[i], HEAD);
    assert HEAD !in s.levels[i] by {
      assert HEAD !in s.levels[0];
    }
  }

  lemma LinksOk(s: Shape, i: nat)
    requires WellFormed(s) && i < LEVELS
    ensures Links(Flatten(s), i, s.levels[i])
  {
    FirstOnLevel(s, i);
    forall p | 0 <= p < |s.levels[i]| ensures Rebuilt(Flatten(s), s.levels[i][p], i) == Next(s.levels[i], p) {
      NextOnLevel(s, i, p);
    }
  }

  // ----- the walks -----

  /** From position p the walk goes on to `stop`, where the level ends or the null key stands. */
  lemma {:induction false} WalksOn(recs: seq<Rec>, i: nat, keys: seq<int32>, p: nat, stop: nat, n: nat)
    requires Links(recs, i, keys) && p < stop <= |keys| && n >= stop - p - 1
    requires forall m :: p < m < stop ==> keys[m] != NULL
    requires if stop < |keys| then keys[stop] == NULL else keys[stop - 1] != HEAD
    ensures Walked(recs, i, keys[p], n) == keys[p + 1..stop]
    decreases n
  {
    if n > 0 && p + 1 < stop {
      WalksOn(recs, i, keys, p + 1, stop, n - 1);
      SliceCons(keys, p + 1, stop);
      WalkStep(recs, i, keys[p], keys[p + 1], n);
    } else {
      WalkEnds(recs, i, keys, p, stop, n);
    }
  }

  lemma WalkEnds(recs: seq<Rec>, i: nat, keys: seq<int32>, p: nat, stop: nat, n: nat)
    requires Links(recs, i, keys) && p < stop <= |keys| && n >= stop - p - 1 && (n == 0 || stop == p + 1)
    requires if stop < |keys| then keys[stop] == NULL else keys[stop - 1] != HEAD
    ensures Walked(recs, i, keys[p], n) == keys[p + 1..stop]
  {
    assert keys[p + 1..stop] == [];
    assert Rebuilt(recs, keys[p], i) == Next(keys, p);
  }

  lemma WalkStep(recs: seq<Rec>, i: nat, k: int32, j: int32, n: nat)
    requires n > 0 && Rebuilt(recs, k, i) == Some(j)
    ensures Walked(recs, i, k, n) == [j] + Walked(recs, i, j, n - 1)
  {
  }

  lemma SliceCons(keys: seq<int32>, a: nat, b: nat)
    requires a < b <= |keys|
    ensures keys[a..b] == [keys[a]] + keys[a + 1..b]
  {
  }

  /** With the head's key last on the level and no null key on it, the walk never ends. */
  lemma {:induction false} WalksForever(recs: seq<Rec>, i: nat, keys: seq<int32>, p: nat, n: nat)
    requires Links(recs, i, keys) && p < |keys| && NULL !in keys && keys[|keys| - 1] == HEAD
    ensures |Walked(recs, i, keys[p], n)| == n
    decreases n
  {
    assert Rebuilt(recs, keys[p], i) == Next(keys, p);
    if n > 0 {
      WalksForever(recs, i, keys, if p + 1 < |keys| then p + 1 else 0, n - 1);
    }
  }

  /** From the first key of a level to the null key, or to the end. */
  lemma WalksFromFirst(recs: seq<Rec>, i: nat, keys: seq<int32>, stop: nat, n: nat)
    requires Links(recs, i, keys) && stop <= |keys| <= n && After(keys, HEAD) == None
    requires forall m :: 0 <= m < stop ==> keys[m] != NULL
    requires if stop < |keys| then keys[stop] == NULL else stop > 0 ==> keys[stop - 1] != HEAD
    ensures Walked(recs, i, HEAD, n) == keys[..stop]
  {
    if stop > 0 {
      WalksOn(recs, i, keys, 0, stop, n - 1);
      SliceCons(keys, 0, stop);
      WalkStep(recs, i, HEAD, keys[0], n);
      assert keys[..stop] == keys[0..stop];
    }
  }

  lemma WalksPastHead(recs: seq<Rec>, i: nat, keys: seq<int32>, n: nat)
    requires Links(recs, i, keys) && Sorted(keys) && n >= |keys| && After(keys, HEAD).Some?
    ensures Walked(recs, i, HEAD, n) == keys[Rank(keys, HEAD) + 1..]
  {
    var r := Rank(keys, HEAD) + 1;
    RankFinds(keys, HEAD);
    WalksRest(recs, i, keys, r, n - 1);
    WalkStep(recs, i, HEAD, keys[r], n);
  }

  lemma WalksRest(recs: seq<Rec>, i: nat, keys: seq<int32>, r: nat, n: nat)
    requires Links(recs, i, keys) && Sorted(keys) && r < |keys| <= n + 1 && keys[r] > HEAD
    ensures [keys[r]] + Walked(recs, i, keys[r], n) == keys[r..]
  {
    SortedFromPairs(keys, 0);
    WalksOn(recs, i, keys, r, |keys|, n);
    SliceCons(keys, r, |keys|);
    assert keys[r..] == keys[r..|keys|];
  }

  ghost predicate Reaches(reached: seq<int32>, keys: seq<int32>, n: nat) {
    if After(keys, HEAD).Some? then reached == keys[Rank(keys, HEAD) + 1..]
    else if NULL in keys then reached == keys[..Rank(keys, NULL)]
    else if HEAD in keys then |reached| == n
    else reached == keys
  }

  lemma WalksReach(recs: seq<Rec>, i: nat, keys: seq<int32>, n: nat)
    requires Links(recs, i, keys) && Sorted(keys) && n >= |keys|
    ensures Reaches(Walked(recs, i, HEAD, n), keys, n)
  {
    RankFinds(keys, HEAD);
    RankFinds(keys, NULL);
    if After(keys, HEAD).Some? {
      WalksPastHead(recs, i, keys, n);
    } else if NULL in keys {
      WalksFromFirst(recs, i, keys, Rank(keys, NULL), n);
    } else if HEAD in keys {
      WalksForever(recs, i, keys, 0, n - 1);
    } else {
      WalksFromFirst(recs, i, keys, |keys|, n);
      assert keys[..|keys|] == keys;
    }
  }

  /** What can still be reached on each level after a flush and a load, for every list:
      with key -1 and a greater key on the level, the keys above -1; else, with key -2 on it, the keys below -2; else,
      with key -1 on it, an endless walk round the level; else all of it. */
  lemma ReachedExactly(s: Shape, i: nat, n: nat)
    requires WellFormed(s) && i < LEVELS && n >= |s.levels[i]|
    ensures Reaches(Walked(Flatten(s), i, HEAD, n), s.levels[i], n)
  {
    LinksOk(s, i);
    WalksReach(Flatten(s), i, s.levels[i], n);
  }

  /** On level 0 every key is still reached exactly when neither reserved key is in the list, unless the list goes round
      for ever. */
  lemma AllReached(s: Shape, n: nat)
    requires WellFormed(s) && n > |s.levels[0]|
    ensures Walked(Flatten(s), 0, HEAD, n) == s.levels[0] <==> Unreserved(s)
  {
    ReachedExactly(s, 0, n);
    RankFinds(s.levels[0], NULL);
    RankFinds(s.levels[0], HEAD);
  }

  /** With key -2 the list loses keys that are not reserved: all the greater ones, or, when -1 is there too and has a
      successor, all the smaller ones. */
  lemma NullKeyLosesOthers(s: Shape, k: int32, n: nat)
    requires WellFormed(s) && NULL in s.vals && k in s.vals && n >= |s.levels[0]|
    ensures k in Walked(Flatten(s), 0, HEAD, n) <==> if After(s.levels[0], HEAD).Some? then k > HEAD else k < NULL
  {
    ReachedExactly(s, 0, n);
    var x := if After(s.levels[0], HEAD).Some? then HEAD else NULL;
    RankFinds(s.levels[0], x);
    SplitBy(s.levels[0], Rank(s.levels[0], x), k);
  }

  lemma SplitBy(keys: seq<int32>, p: nat, k: int32)
    requires Sorted(keys) && p < |keys| && k in keys
    ensures k in keys[..p] <==> k < keys[p]
    ensures k in keys[p + 1..] <==> k > keys[p]
  {
    SortedFromPairs(keys, 0);
    var j :| 0 <= j < |keys| && keys[j] == k;
    assert j < p ==> keys[..p][j] == k;
    assert j > p ==> keys[p + 1..][j - p - 1] == k;
  }
}
