/** The pointer graph written out as records that name their successors by key, and read back. */
module Flattening {
  import opened Common
  import opened SkiplistSpec

  /** The key that marks the head record, and the link that stands for null. */
  const HEAD: int32 := -1
  const NULL: int32 := -2

  /** A `proto::Node`. */
  datatype Rec = Rec(key: int32, value: Value, next: seq<int32>)

  // ----- writing -----

  function First(s: seq<int32>): Option<int32> {
    if s == [] then None else Some(s[0])
  }

  /** The key after k in a sorted level, if k is on that level and not its last. */
  function After(s: seq<int32>, k: int32): Option<int32> {
    var r := Rank(s, k);
    if r + 1 < |s| && s[r] == k then Some(s[r + 1]) else None
  }

  function LinkCode(o: Option<int32>): int32 {
    if o.Some? then o.value else NULL
  }

  function HeadRec(s: Shape): Rec
    requires |s.levels| == LEVELS
  {
    Rec(HEAD, [], seq(LEVELS, i requires 0 <= i < LEVELS => LinkCode(First(s.levels[i]))))
  }

  function NodeRec(s: Shape, k: int32): Rec
    requires |s.levels| == LEVELS && k in s.vals
  {
    Rec(k, s.vals[k].text, seq(LEVELS, i requires 0 <= i < LEVELS => LinkCode(After(s.levels[i], k))))
  }

  function NodeRecs(s: Shape, keys: seq<int32>): (r: seq<Rec>)
    requires |s.levels| == LEVELS && forall k :: k in keys ==> k in s.vals
    ensures |r| == |keys|
    ensures forall j :: 0 <= j < |keys| ==> r[j] == NodeRec(s, keys[j])
  {
    seq(|keys|, j requires 0 <= j < |keys| => NodeRec(s, keys[j]))
  }

  /** What `serialize` writes: the head record, then one record per node in list order. */
  function Flatten(s: Shape): seq<Rec>
    requires |s.levels| == LEVELS && forall k :: k in s.levels[0] ==> k in s.vals
  {
    [HeadRec(s)] + NodeRecs(s, s.levels[0])
  }

  // ----- reading -----

  ghost predicate HasKey(recs: seq<Rec>, k: int32) {
    exists j :: 0 <= j < |recs| && recs[j].key == k
  }

  /** The value of the last record with key k. */
  function ValueFrom(recs: seq<Rec>, k: int32): Value {
    if recs == [] then []
    else if recs[|recs| - 1].key == k then recs[|recs| - 1].value
    else ValueFrom(recs[..|recs| - 1], k)
  }

  /** The last link other than null that a record with key k stores for level i. */
  function LinkFrom(recs: seq<Rec>, k: int32, i: nat): int32 {
    if recs == [] then NULL
    else
      var last := recs[|recs| - 1];
      if last.key == k && i < |last.next| && last.next[i] != NULL then last.next[i] else LinkFrom(recs[..|recs| - 1], k, i)
  }

  /** The key the rebuilt node for k points to on level i; a link to a key without a record is null. */
  ghost function Rebuilt(recs: seq<Rec>, k: int32, i: nat): Option<int32> {
    var t := LinkFrom(recs, k, i);
    if t != NULL && HasKey(recs, t) then Some(t) else None
  }

  /** Rebuilding the records gives exactly the towers, the order and the values of s. */
  ghost predicate Represents(recs: seq<Rec>, s: Shape)
    requires |s.levels| == LEVELS
  {
    && (forall i :: 0 <= i < LEVELS ==> Rebuilt(recs, HEAD, i) == First(s.levels[i]))
    && (forall k :: k in s.vals ==> HasKey(recs, k) && ValueFrom(recs, k) == s.vals[k].text)
    && (forall k, i :: k in s.vals && 0 <= i < LEVELS ==> Rebuilt(recs, k, i) == After(s.levels[i], k))
  }

  /** The list can be told apart from the two codes the format reserves. */
  ghost predicate Unreserved(s: Shape) {
    HEAD !in s.vals && NULL !in s.vals
  }

  /** The charge `deserialize` reports: every record counts, the head's too. */
  function RecCharges(recs: seq<Rec>, capOf: Value -> nat): nat {
    if recs == [] then 0
    else RecCharges(recs[..|recs| - 1], capOf) + Charge(Str(recs[|recs| - 1].value, capOf(recs[|recs| - 1].value)))
  }

  /** The shape a list has after it was rebuilt: fresh copies of the strings, with their own capacities. */
  function Recapped(s: Shape, capOf: Value -> nat): Shape {
    s.(vals := map k | k in s.vals :: Str(s.vals[k].text, capOf(s.vals[k].text)))
  }

  /** So a list read back is charged for its nodes as they are now, and for the head's record. */
  lemma ChargesOfFlatten(s: Shape, capOf: Value -> nat)
    requires WellFormed(s)
    ensures WellFormed(Recapped(s, capOf))
    ensures RecCharges(Flatten(s), capOf) == Charge(Str([], capOf([]))) + Total(Recapped(s, capOf))
  {
    NodeCharges(s, capOf, s.levels[0]);
  }

  lemma ChargesAppend(recs: seq<Rec>, r: Rec, capOf: Value -> nat)
    ensures RecCharges(recs + [r], capOf) == RecCharges(recs, capOf) + Charge(Str(r.value, capOf(r.value)))
  {
    assert (recs + [r])[..|recs|] == recs;
  }

  lemma {:induction false} NodeCharges(s: Shape, capOf: Value -> nat, keys: seq<int32>)
    requires |s.levels| == LEVELS && forall k :: k in keys ==> k in s.vals
    ensures RecCharges([HeadRec(s)] + NodeRecs(s, keys), capOf) == Charge(Str([], capOf([]))) + TotalOf(keys, Recapped(s, capOf).vals)
  {
    if keys == [] {
      assert [HeadRec(s)] + NodeRecs(s, keys) == [] + [HeadRec(s)];
      ChargesAppend([], HeadRec(s), capOf);
    } else {
      var front, k := keys[..|keys| - 1], keys[|keys| - 1];
      NodeCharges(s, capOf, front);
      assert [HeadRec(s)] + NodeRecs(s, keys) == ([HeadRec(s)] + NodeRecs(s, front)) + [NodeRec(s, k)];
      ChargesAppend([HeadRec(s)] + NodeRecs(s, front), NodeRec(s, k), capOf);
      LastCharge(s, capOf, front, k);
      assert keys == front + [k];
    }
  }

  lemma LastCharge(s: Shape, capOf: Value -> nat, keys: seq<int32>, k: int32)
    requires k in s.vals && forall j :: j in keys ==> j in s.vals
    ensures forall j :: j in keys + [k] ==> j in Recapped(s, capOf).vals
    ensures TotalOf(keys + [k], Recapped(s, capOf).vals)
            == TotalOf(keys, Recapped(s, capOf).vals) + Charge(Str(s.vals[k].text, capOf(s.vals[k].text)))
  {
    var vals := Recapped(s, capOf).vals;
    TotalSplit(keys, [k], vals);
    assert TotalOf([k], vals) == Charge(vals[k]) + TotalOf([], vals);
  }

  /** The first i links of a record. */
  function Cut(r: Rec, i: nat): Rec
    requires i <= |r.next|
  {
    r.(next := r.next[..i])
  }

  /** Reading one more link of the last record changes one link of one key, and only when it is not null. */
  lemma LinkExtends(done: seq<Rec>, r: Rec, i: nat, k: int32, l: nat)
    requires i < |r.next|
    ensures LinkFrom(done + [Cut(r, i + 1)], k, l) ==
            if k == r.key && l == i && r.next[i] != NULL then r.next[i] else LinkFrom(done + [Cut(r, i)], k, l)
  {
    assert (done + [Cut(r, i + 1)])[..|done|] == done == (done + [Cut(r, i)])[..|done|];
  }

  lemma LinkStarts(done: seq<Rec>, r: Rec, k: int32, l: nat)
    ensures LinkFrom(done + [Cut(r, 0)], k, l) == LinkFrom(done, k, l)
  {
    assert (done + [Cut(r, 0)])[..|done|] == done;
  }

  // ----- the round trip -----

  /** A key with a single record is read back from that record. */
  lemma {:induction false} FromOnly(recs: seq<Rec>, j: nat, i: nat)
    requires j < |recs| && i < |recs[j].next|
    requires forall m :: 0 <= m < |recs| && m != j ==> recs[m].key != recs[j].key
    ensures LinkFrom(recs, recs[j].key, i) == recs[j].next[i]
    ensures ValueFrom(recs, recs[j].key) == recs[j].value
  {
    if j == |recs| - 1 {
      Absent(recs[..j], recs[j].key, i);
    } else {
      FromOnly(recs[..|recs| - 1], j, i);
    }
  }

  lemma {:induction false} Absent(recs: seq<Rec>, k: int32, i: nat)
    requires forall m :: 0 <= m < |recs| ==> recs[m].key != k
    ensures LinkFrom(recs, k, i) == NULL
  {
    if recs != [] {
      Absent(recs[..|recs| - 1], k, i);
    }
  }

  lemma LinkIsNeverNull(recs: seq<Rec>, k: int32, i: nat)
    ensures Rebuilt(recs, k, i) != Some(NULL)
  {
  }

  lemma FlattenKeys(s: Shape)
    requires WellFormed(s)
    ensures Flatten(s)[0].key == HEAD
    ensures forall j :: 1 <= j < |Flatten(s)| ==> Flatten(s)[j] == NodeRec(s, s.levels[0][j - 1])
    ensures forall k :: HasKey(Flatten(s), k) <==> k == HEAD || k in s.vals
  {
    var recs := Flatten(s);
    assert forall j :: 1 <= j < |recs| ==> recs[j] == NodeRecs(s, s.levels[0])[j - 1];
    forall k | k in s.vals ensures HasKey(recs, k) {
      var j :| 0 <= j < |s.levels[0]| && s.levels[0][j] == k;
      assert recs[j + 1].key == k;
    }
    assert recs[0].key == HEAD;
  }

  lemma LinkTargets(s: Shape, i: nat)
    requires WellFormed(s) && i < LEVELS
    ensures First(s.levels[i]).Some? ==> First(s.levels[i]).value in s.vals
    ensures forall k :: After(s.levels[i], k).Some? ==> After(s.levels[i], k).value in s.vals
  {
    forall j | 0 <= j < |s.levels[i]| ensures s.levels[i][j] in s.vals {
      assert s.levels[i][j] in s.levels[0];
    }
  }

  lemma HeadReadBack(s: Shape, i: nat)
    requires WellFormed(s) && Unreserved(s) && i < LEVELS
    ensures Rebuilt(Flatten(s), HEAD, i) == First(s.levels[i])
  {
    var recs := Flatten(s);
    FlattenKeys(s);
    LinkTargets(s, i);
    forall m | 0 <= m < |recs| && m != 0 ensures recs[m].key != HEAD {
      assert s.levels[0][m - 1] in s.vals;
    }
    FromOnly(recs, 0, i);
  }

  lemma NodeReadBack(s: Shape, k: int32, i: nat)
    requires WellFormed(s) && Unreserved(s) && k in s.vals && i < LEVELS
    ensures Rebuilt(Flatten(s), k, i) == After(s.levels[i], k)
    ensures ValueFrom(Flatten(s), k) == s.vals[k].text
  {
    var recs, keys := Flatten(s), s.levels[0];
    FlattenKeys(s);
    LinkTargets(s, i);
    RankFinds(keys, k);
    var j := Rank(keys, k) + 1;
    forall m | 0 <= m < |recs| && m != j ensures recs[m].key != k {
      assert m > 0 ==> recs[m].key == keys[m - 1];
    }
    assert recs[j] == NodeRec(s, k);
    FromOnly(recs, j, i);
  }

  lemma RoundTripForward(s: Shape)
    requires WellFormed(s) && Unreserved(s)
    ensures Represents(Flatten(s), s)
  {
    FlattenKeys(s);
    forall i | 0 <= i < LEVELS ensures Rebuilt(Flatten(s), HEAD, i) == First(s.levels[i]) {
      HeadReadBack(s, i);
    }
    forall k, i | k in s.vals && 0 <= i < LEVELS ensures Rebuilt(Flatten(s), k, i) == After(s.levels[i], k) {
      NodeReadBack(s, k, i);
    }
    forall k | k in s.vals ensures ValueFrom(Flatten(s), k) == s.vals[k].text {
      NodeReadBack(s, k, 0);
    }
  }

  /** The link to a node with key -2 is read back as null. */
  lemma NullKeyLost(s: Shape)
    requires WellFormed(s) && NULL in s.vals
    ensures !Represents(Flatten(s), s)
  {
    var recs, keys := Flatten(s), s.levels[0];
    RankFinds(keys, NULL);
    var j := Rank(keys, NULL);
    if j == 0 {
      assert First(keys) == Some(NULL) != Rebuilt(recs, HEAD, 0);
    } else {
      var before := keys[j - 1];
      RankOf(keys, j - 1);
      assert before in s.vals;
      assert After(keys, before) == Some(NULL) != Rebuilt(recs, before, 0);
    }
  }

  /** A node with key -1 and the head end up with the same links. */
  lemma HeadKeyLost(s: Shape)
    requires WellFormed(s) && HEAD in s.vals
    ensures !Represents(Flatten(s), s)
  {
    var recs, keys := Flatten(s), s.levels[0];
    RankFinds(keys, HEAD);
    assert keys[0] <= HEAD;
    assert First(keys) != After(keys, HEAD);
    assert Rebuilt(recs, HEAD, 0) != First(keys) || Rebuilt(recs, HEAD, 0) != After(keys, HEAD);
  }

  /** `deserialize` after `serialize` gives back the same towers exactly when no key is -1 or -2. */
  lemma StructuralRoundTrip(s: Shape)
    requires WellFormed(s)
    ensures Represents(Flatten(s), s) <==> Unreserved(s)
  {
    if Unreserved(s) {
      RoundTripForward(s);
    } else if NULL in s.vals {
      NullKeyLost(s);
    } else {
      HeadKeyLost(s);
    }
  }

  /** Two shapes read from the same records are the same shape: nothing about the towers is lost. */
  lemma RepresentsDetermines(recs: seq<Rec>, s: Shape, t: Shape)
    requires WellFormed(s) && WellFormed(t) && Represents(recs, s) && Represents(recs, t)
    ensures s.levels == t.levels
    ensures forall k :: k in s.vals ==> k in t.vals && s.vals[k].text == t.vals[k].text
  {
    forall i | 0 <= i < LEVELS ensures s.levels[i] == t.levels[i] {
      SamePrefix(recs, s, t, i, |s.levels[i]|);
      SamePrefix(recs, t, s, i, |t.levels[i]|);
    }
  }

  lemma {:induction false} SamePrefix(recs: seq<Rec>, s: Shape, t: Shape, i: nat, n: nat)
    requires WellFormed(s) && WellFormed(t) && Represents(recs, s) && Represents(recs, t)
    requires i < LEVELS && n <= |s.levels[i]|
    ensures n <= |t.levels[i]| && s.levels[i][..n] == t.levels[i][..n]
    decreases n
  {
    if n == 1 {
      assert First(s.levels[i]) == Rebuilt(recs, HEAD, i) == First(t.levels[i]);
    } else if n > 1 {
      SamePrefix(recs, s, t, i, n - 1);
      assert s.levels[i][..n - 1][n - 2] == t.levels[i][..n - 1][n - 2];
      SameNext(recs, s, t, i, n - 2);
      assert s.levels[i][..n] == s.levels[i][..n - 1] + [s.levels[i][n - 1]];
      assert t.levels[i][..n] == t.levels[i][..n - 1] + [t.levels[i][n - 1]];
    }
  }

  lemma SameNext(recs: seq<Rec>, s: Shape, t: Shape, i: nat, j: nat)
    requires WellFormed(s) && WellFormed(t) && Represents(recs, s) && Represents(recs, t)
    requires i < LEVELS && j + 1 < |s.levels[i]| && j < |t.levels[i]| && s.levels[i][j] == t.levels[i][j]
    ensures j + 1 < |t.levels[i]| && s.levels[i][j + 1] == t.levels[i][j + 1]
  {
    var k := s.levels[i][j];
    RankOf(s.levels[i], j);
    RankOf(t.levels[i], j);
    assert k in s.levels[0] && k in t.levels[0];
    assert After(s.levels[i], k) == Rebuilt(recs, k, i) == After(t.levels[i], k);
  }
}
