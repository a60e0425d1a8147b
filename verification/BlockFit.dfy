/** How the bytes of a flushed list compare with the size the buffer charged for it. */
module BlockFit {
  import opened Common
  import opened SkiplistSpec
  import opened Flattening
  import opened Wire
  import opened SlMessages
  import opened BlockFile

  /** The most a node's bytes can exceed its charge by. */
  const SLACK: nat := 37

  /** The most the head record can take. */
  const HEAD_BYTES: nat := 95

  function FrameSize(r: Rec): nat {
    1 + |Delimited(EncodeNode(r))|
  }

  lemma FrameSizeIs(r: Rec)
    ensures FrameSize(r) == 1 + VarintSize(|EncodeNode(r)|) + |EncodeNode(r)|
    ensures |EncodeNode(r)| == |KeyField(r.key)| + |ValueField(r.value)| + |NextField(r.next)|
    ensures r.key != 0 ==> |KeyField(r.key)| == 1 + |Int32(r.key)|
    ensures r.value != [] ==> |ValueField(r.value)| == 1 + VarintSize(|r.value|) + |r.value|
    ensures r.next != [] ==> |NextField(r.next)| == 1 + VarintSize(|Packed(r.next)|) + |Packed(r.next)|
  {
    SizeAgrees(|EncodeNode(r)|);
    SizeAgrees(|r.value|);
    SizeAgrees(|Packed(r.next)|);
  }

  /** A node with eight links takes at most 105 bytes beside its text. */
  lemma FrameAtMost(r: Rec)
    requires |r.next| == LEVELS && |r.value| < 0x7000_0000
    ensures FrameSize(r) <= 4 + |r.value| + 8 * LEVELS + SLACK
    ensures r.value == [] ==> FrameSize(r) <= HEAD_BYTES
  {
    FrameSizeIs(r);
    Pow128Values();
    Int32Sizes(r.key);
    PackedSizes(r.next);
    SizeBound(|Packed(r.next)|, 1);
    SizeBound(|r.value|, 5);
    SizeBound(|EncodeNode(r)|, 5);
    if r.value == [] {
      SizeBound(|EncodeNode(r)|, 1);
    }
  }

  /** Links of a node that stands on level 0 only: seven times ten bytes, and the link of level 0. */
  lemma {:induction false} NullsTakeTen(xs: seq<int32>)
    requires forall i :: 0 <= i < |xs| ==> xs[i] == NULL
    ensures |Packed(xs)| == 10 * |xs|
  {
    if xs != [] {
      Int32Sizes(NULL);
      NullsTakeTen(xs[1..]);
    }
  }

  lemma LowTowerLinks(xs: seq<int32>)
    requires |xs| == LEVELS && forall i :: 1 <= i < |xs| ==> xs[i] == NULL
    ensures 71 <= |Packed(xs)| <= 80
  {
    Int32Sizes(xs[0]);
    NullsTakeTen(xs[1..]);
  }

  lemma FrameAtLeast(r: Rec)
    requires |r.next| == LEVELS && forall i :: 1 <= i < LEVELS ==> r.next[i] == NULL
    requires |r.value| == 15
    ensures FrameSize(r) >= 4 + 15 + 8 * LEVELS + 9
  {
    FrameSizeIs(r);
    Pow128Values();
    LowTowerLinks(r.next);
  }

  // ----- the whole list -----

  ghost predicate Roomy(vals: map<int32, Str>) {
    forall k :: k in vals ==> |vals[k].text| <= vals[k].capacity && |vals[k].text| < 0x7000_0000
  }

  lemma {:induction false} NodesAtMost(s: Shape, keys: seq<int32>)
    requires |s.levels| == LEVELS && Roomy(s.vals) && forall k :: k in keys ==> k in s.vals
    ensures |EncodeList(NodeRecs(s, keys))| <= TotalOf(keys, s.vals) + SLACK * |keys|
    decreases |keys|
  {
    if keys != [] {
      var recs := NodeRecs(s, keys);
      assert recs[1..] == NodeRecs(s, keys[1..]);
      EncodeListCons(recs);
      FrameAtMost(recs[0]);
      NodesAtMost(s, keys[1..]);
    }
  }

  /** The flushed message is never larger than the charges, 37 bytes a node and 95 for the head. */
  lemma EncodedAtMost(s: Shape)
    requires WellFormed(s) && Roomy(s.vals)
    ensures 0 < |EncodeList(Flatten(s))| <= HEAD_BYTES + Total(s) + SLACK * |s.levels[0]|
  {
    var recs := Flatten(s);
    assert recs[1..] == NodeRecs(s, s.levels[0]);
    EncodeListCons(recs);
    FrameAtMost(recs[0]);
    NodesAtMost(s, s.levels[0]);
  }

  /** So a buffer whose charges leave that much room fits its block: one that is flushed before it overflows can. */
  lemma FitsWithSlack(s: Shape)
    requires WellFormed(s) && Roomy(s.vals)
    requires HEADER + HEAD_BYTES + Total(s) + SLACK * |s.levels[0]| <= BLOCK_SIZE
    ensures Fits(EncodeList(Flatten(s)))
  {
    EncodedAtMost(s);
  }

  // ----- exactly -----

  /** By how much the bytes of the nodes exceed their charges; negative when the charges are generous. */
  function Excess(s: Shape, keys: seq<int32>): int
    requires |s.levels| == LEVELS && forall k :: k in keys ==> k in s.vals
  {
    if keys == [] then 0 else FrameSize(NodeRec(s, keys[0])) - Charge(s.vals[keys[0]]) + Excess(s, keys[1..])
  }

  lemma {:induction false} NodesExactly(s: Shape, keys: seq<int32>)
    requires |s.levels| == LEVELS && forall k :: k in keys ==> k in s.vals
    ensures |EncodeList(NodeRecs(s, keys))| == TotalOf(keys, s.vals) + Excess(s, keys)
    decreases |keys|
  {
    if keys != [] {
      var recs := NodeRecs(s, keys);
      assert recs[1..] == NodeRecs(s, keys[1..]);
      EncodeListCons(recs);
      NodesExactly(s, keys[1..]);
    }
  }

  lemma EncodedExactly(s: Shape)
    requires WellFormed(s)
    ensures |EncodeList(Flatten(s))| == FrameSize(HeadRec(s)) + Total(s) + Excess(s, s.levels[0])
  {
    var recs := Flatten(s);
    assert recs[1..] == NodeRecs(s, s.levels[0]);
    EncodeListCons(recs);
    NodesExactly(s, s.levels[0]);
  }

  /** A buffer fits its block exactly when the length, the head and the excess of the nodes find room beside the charges. */
  lemma FitsExactly(s: Shape)
    requires WellFormed(s)
    ensures Fits(EncodeList(Flatten(s))) <==>
            HEADER + FrameSize(HeadRec(s)) + Excess(s, s.levels[0]) <= BLOCK_SIZE - Total(s)
  {
    EncodedExactly(s);
  }

  // ----- tall towers and short texts -----

  function NullCount(xs: seq<int32>): nat {
    if xs == [] then 0 else (if xs[0] == NULL then 1 else 0) + NullCount(xs[1..])
  }

  lemma {:induction false} PackedByNulls(xs: seq<int32>)
    requires forall i :: 0 <= i < |xs| ==> xs[i] == NULL || xs[i] >= 0
    ensures |Packed(xs)| <= 5 * |xs| + 5 * NullCount(xs)
  {
    if xs != [] {
      Int32Sizes(xs[0]);
      PackedByNulls(xs[1..]);
    }
  }

  /** With keys that are not negative a node takes at most 60 bytes, its text, and five bytes for each null link. */
  lemma FrameByNulls(r: Rec)
    requires |r.next| == LEVELS && r.key >= 0 && |r.value| < 0x7000_0000
    requires forall i :: 0 <= i < LEVELS ==> r.next[i] == NULL || r.next[i] >= 0
    ensures FrameSize(r) <= 60 + |r.value| + 5 * NullCount(r.next)
  {
    FrameSizeIs(r);
    Pow128Values();
    Int32Sizes(r.key);
    PackedSizes(r.next);
    PackedByNulls(r.next);
    SizeBound(|Packed(r.next)|, 1);
    SizeBound(|r.value|, 5);
    SizeBound(|EncodeNode(r)|, 5);
  }

  function CompactSum(s: Shape, keys: seq<int32>): nat
    requires |s.levels| == LEVELS && forall k :: k in keys ==> k in s.vals
  {
    if keys == [] then 0
    else 60 + |s.vals[keys[0]].text| + 5 * NullCount(NodeRec(s, keys[0]).next) + CompactSum(s, keys[1..])
  }

  lemma NodeCompact(s: Shape, k: int32)
    requires WellFormed(s) && Roomy(s.vals) && (forall j :: j in s.vals ==> j >= 0) && k in s.vals
    ensures FrameSize(NodeRec(s, k)) <= 60 + |s.vals[k].text| + 5 * NullCount(NodeRec(s, k).next)
  {
    forall i | 0 <= i < LEVELS ensures NodeRec(s, k).next[i] == NULL || NodeRec(s, k).next[i] >= 0 {
      LinkTargets(s, i);
    }
    FrameByNulls(NodeRec(s, k));
  }

  lemma {:induction false} NodesCompact(s: Shape, keys: seq<int32>)
    requires WellFormed(s) && Roomy(s.vals) && (forall k :: k in s.vals ==> k >= 0) && forall k :: k in keys ==> k in s.vals
    ensures |EncodeList(NodeRecs(s, keys))| <= CompactSum(s, keys)
    decreases |keys|
  {
    if keys != [] {
      var recs := NodeRecs(s, keys);
      assert recs[1..] == NodeRecs(s, keys[1..]);
      EncodeListCons(recs);
      NodeCompact(s, keys[0]);
      NodesCompact(s, keys[1..]);
    }
  }

  /** So a buffer of such nodes fits when the sum does: short texts in strings with room to spare, in towers tall enough,
      fit however much was charged for them. */
  lemma CompactFits(s: Shape)
    requires WellFormed(s) && Roomy(s.vals) && forall k :: k in s.vals ==> k >= 0
    requires HEADER + HEAD_BYTES + CompactSum(s, s.levels[0]) <= BLOCK_SIZE
    ensures Fits(EncodeList(Flatten(s)))
  {
    var recs := Flatten(s);
    assert recs[1..] == NodeRecs(s, s.levels[0]);
    EncodeListCons(recs);
    FrameAtMost(recs[0]);
    NodesCompact(s, s.levels[0]);
  }

  // ----- flat towers -----

  lemma {:induction false} NodesAtLeast(s: Shape, keys: seq<int32>)
    requires |s.levels| == LEVELS && (forall i :: 1 <= i < LEVELS ==> s.levels[i] == []) && forall k :: k in keys ==> k in s.vals
    requires forall k :: k in s.vals ==> |s.vals[k].text| == 15 == s.vals[k].capacity
    ensures |EncodeList(NodeRecs(s, keys))| >= TotalOf(keys, s.vals) + 9 * |keys|
    decreases |keys|
  {
    if keys != [] {
      var recs := NodeRecs(s, keys);
      assert recs[1..] == NodeRecs(s, keys[1..]);
      EncodeListCons(recs);
      assert forall i :: 1 <= i < LEVELS ==> recs[0].next[i] == NULL;
      FrameAtLeast(recs[0]);
      NodesAtLeast(s, keys[1..]);
    }
  }

  /** The charge does not bound the bytes: 15-byte values in towers of height one always take more than they are
      charged, so a buffer of them that has grown past the cache size overruns the block it is flushed to. */
  lemma ChargeDoesNotBoundBytes(s: Shape)
    requires WellFormed(s) && (forall i :: 1 <= i < LEVELS ==> s.levels[i] == [])
    requires forall k :: k in s.vals ==> |s.vals[k].text| == 15 == s.vals[k].capacity
    requires Total(s) > CACHE_SIZE
    ensures !Fits(EncodeList(Flatten(s)))
  {
    var recs := Flatten(s);
    assert recs[1..] == NodeRecs(s, s.levels[0]);
    EncodeListCons(recs);
    NodesAtLeast(s, s.levels[0]);
  }
}
