/** The dump file: a 64 MB block per flushed buffer, each an 8-byte length and that many bytes. */
module BlockFile {
  import opened Common
  import opened Flattening
  import opened Wire
  import opened SlMessages

  const BLOCK_SIZE: nat := 67108864
  const CACHE_SIZE: nat := 67108864
  const NUM_BLOCKS: nat := 16
  const HEADER: nat := 8

  // ----- little-endian sizes -----

  function Pow256(k: nat): nat {
    if k == 0 then 1 else 256 * Pow256(k - 1)
  }

  /** n as k bytes, least significant first: the memory image of a `size_t`. */
  function LittleEndian(n: nat, k: nat): (b: seq<byte>)
    ensures |b| == k
  {
    if k == 0 then [] else [n % 256] + LittleEndian(n / 256, k - 1)
  }

  function FromLittleEndian(b: seq<byte>): nat {
    if b == [] then 0 else b[0] + 256 * FromLittleEndian(b[1..])
  }

  lemma {:induction false} LittleEndianRoundTrip(n: nat, k: nat)
    requires n < Pow256(k)
    ensures FromLittleEndian(LittleEndian(n, k)) == n
  {
    if k > 0 {
      assert n / 256 < Pow256(k - 1);
      LittleEndianRoundTrip(n / 256, k - 1);
    }
  }

  /** The sum of the bytes, byte i times 256^i. */
  function Weighted(b: seq<byte>): nat {
    if b == [] then 0 else Weighted(b[..|b| - 1]) + b[|b| - 1] * Pow256(|b| - 1)
  }

  lemma {:induction false} WeightedFront(b: seq<byte>)
    requires b != []
    ensures Weighted(b) == b[0] + 256 * Weighted(b[1..])
  {
    if |b| == 1 {
      assert b[..0] == [] && b[1..] == [] && Pow256(0) == 1;
    } else {
      var front, last, w := b[..|b| - 1], b[|b| - 1], Pow256(|b| - 2);
      WeightedFront(front);
      assert front[1..] == b[1..][..|b| - 2];
      assert Weighted(b[1..]) == Weighted(front[1..]) + last * w;
      assert last * (256 * w) == 256 * (last * w);
    }
  }

  /** The image of a size is the bytes whose weighted sum it is. */
  lemma {:induction false} LittleEndianIs(n: nat, k: nat)
    requires n < Pow256(k)
    ensures Weighted(LittleEndian(n, k)) == n
  {
    if k > 0 {
      assert n / 256 < Pow256(k - 1);
      LittleEndianIs(n / 256, k - 1);
      WeightedFront(LittleEndian(n, k));
    }
  }

  lemma Pow256Eight()
    ensures Pow256(8) == TWO64
  {
    assert Pow256(1) == 256 * Pow256(0);
    assert Pow256(2) == 256 * Pow256(1);
    assert Pow256(3) == 256 * Pow256(2);
    assert Pow256(4) == 256 * Pow256(3);
    assert Pow256(5) == 256 * Pow256(4);
    assert Pow256(6) == 256 * Pow256(5);
    assert Pow256(7) == 256 * Pow256(6);
    assert Pow256(8) == 256 * Pow256(7);
  }

  // ----- bytes of the file -----

  /** The byte at a position; what was never written reads as zero. */
  function ByteAt(f: seq<byte>, i: nat): byte {
    if i < |f| then f[i] else 0
  }

  function Slice(f: seq<byte>, off: nat, n: nat): (b: seq<byte>)
    ensures |b| == n && forall i :: 0 <= i < n ==> b[i] == ByteAt(f, off + i)
  {
    seq<byte>(n, i requires 0 <= i < n => ByteAt(f, off + i))
  }

  function WriteAt(f: seq<byte>, off: nat, data: seq<byte>): (g: seq<byte>)
    ensures forall i: nat :: ByteAt(g, i) == if off <= i < off + |data| then data[i - off] else ByteAt(f, i)
  {
    var size := if |f| > off + |data| then |f| else off + |data|;
    seq(size, i requires 0 <= i < size => if off <= i < off + |data| then data[i - off] else ByteAt(f, i))
  }

  // ----- blocks -----

  /** What one flush writes: the length, then the message. */
  function Image(data: seq<byte>): seq<byte> {
    LittleEndian(|data|, HEADER) + data
  }

  function WriteBlock(f: seq<byte>, block: nat, data: seq<byte>): seq<byte> {
    WriteAt(f, block * CACHE_SIZE, Image(data))
  }

  /** The message a block holds; a block whose length reads as zero holds none. */
  function ReadBlock(f: seq<byte>, block: nat): Option<seq<byte>> {
    var n := FromLittleEndian(Slice(f, block * CACHE_SIZE, HEADER));
    if n == 0 then None else Some(Slice(f, block * CACHE_SIZE + HEADER, n))
  }

  /** The records `deserialize` gets out of a block, if it gets any. */
  function Stored(f: seq<byte>, block: nat): Option<seq<Rec>> {
    match ReadBlock(f, block)
    case None => None
    case Some(data) => ParseList(data, [])
  }

  ghost predicate Fits(data: seq<byte>) {
    HEADER + |data| <= BLOCK_SIZE
  }

  ghost predicate SameBlock(f: seq<byte>, g: seq<byte>, block: nat) {
    Slice(f, block * BLOCK_SIZE, BLOCK_SIZE) == Slice(g, block * BLOCK_SIZE, BLOCK_SIZE)
  }

  /** What was flushed to a block is what is read from it. */
  lemma BlockReadBack(f: seq<byte>, block: nat, data: seq<byte>)
    requires 0 < |data| < TWO64
    ensures ReadBlock(WriteBlock(f, block, data), block) == Some(data)
  {
    SlicesOfImage(f, block * CACHE_SIZE, data);
    assert FromLittleEndian(LittleEndian(|data|, HEADER)) == |data| by {
      Pow256Eight();
      LittleEndianRoundTrip(|data|, HEADER);
    }
  }

  lemma SlicesOfImage(f: seq<byte>, off: nat, data: seq<byte>)
    ensures var g := WriteAt(f, off, Image(data));
            Slice(g, off, HEADER) == LittleEndian(|data|, HEADER) && Slice(g, off + HEADER, |data|) == data
  {
  }

  /** A message that fits its block leaves every other block of every file as it was. */
  lemma OtherBlocksKept(f: seq<byte>, block: nat, data: seq<byte>, other: nat)
    requires Fits(data) && other != block
    ensures SameBlock(f, WriteBlock(f, block, data), other)
  {
    var g := WriteBlock(f, block, data);
    assert other < block ==> other * BLOCK_SIZE + BLOCK_SIZE <= block * BLOCK_SIZE;
    assert other > block ==> block * BLOCK_SIZE + BLOCK_SIZE <= other * BLOCK_SIZE;
    assert Slice(f, other * BLOCK_SIZE, BLOCK_SIZE) == Slice(g, other * BLOCK_SIZE, BLOCK_SIZE);
  }

  /** A message that does not fit overwrites the start of the next block in some file. */
  lemma NextBlockHit(block: nat, data: seq<byte>) returns (f: seq<byte>)
    requires !Fits(data)
    ensures !SameBlock(f, WriteBlock(f, block, data), block + 1)
  {
    var at := (block + 1) * BLOCK_SIZE;
    var hit := Image(data)[BLOCK_SIZE];
    var bad: byte := if hit == 0 then 1 else 0;
    f := seq(at + 1, _ => bad);
    var g := WriteBlock(f, block, data);
    assert ByteAt(g, at) == hit && ByteAt(f, at) == bad;
    assert Slice(g, at, BLOCK_SIZE)[0] == hit && Slice(f, at, BLOCK_SIZE)[0] == bad;
  }

  /** Flushing a message leaves every other block alone, in every file, exactly when it fits with its length. */
  lemma BlocksDisjoint(block: nat, data: seq<byte>)
    ensures (forall f, other: nat :: other != block ==> SameBlock(f, WriteBlock(f, block, data), other)) <==> Fits(data)
  {
    if Fits(data) {
      forall f, other: nat | other != block ensures SameBlock(f, WriteBlock(f, block, data), other) {
        OtherBlocksKept(f, block, data, other);
      }
    } else {
      var f := NextBlockHit(block, data);
      assert !SameBlock(f, WriteBlock(f, block, data), block + 1);
    }
  }

  /** A stored message that fits depends on the bytes of its own block only. */
  lemma SameBlockSameRead(f: seq<byte>, g: seq<byte>, block: nat, data: seq<byte>)
    requires SameBlock(f, g, block) && ReadBlock(f, block) == Some(data) && Fits(data)
    ensures ReadBlock(g, block) == Some(data)
  {
    var off := block * CACHE_SIZE;
    forall p: nat | off <= p < off + BLOCK_SIZE ensures ByteAt(g, p) == ByteAt(f, p) {
      assert Slice(f, off, BLOCK_SIZE)[p - off] == Slice(g, off, BLOCK_SIZE)[p - off];
    }
    assert Slice(g, off, HEADER) == Slice(f, off, HEADER);
    assert Slice(g, off + HEADER, |data|) == Slice(f, off + HEADER, |data|);
  }

  // ----- messages that overrun their blocks -----

  lemma {:induction false} LittleEndianUnique(a: seq<byte>, b: seq<byte>)
    requires |a| == |b| && FromLittleEndian(a) == FromLittleEndian(b)
    ensures a == b
  {
    if a != [] {
      assert a[0] == FromLittleEndian(a) % 256 && b[0] == FromLittleEndian(b) % 256;
      LittleEndianUnique(a[1..], b[1..]);
      assert a == [a[0]] + a[1..] && b == [b[0]] + b[1..];
    }
  }

  /** A block is read as a message exactly when the file has the message's image there. */
  lemma ReadsImage(f: seq<byte>, block: nat, data: seq<byte>)
    requires 0 < |data| < TWO64
    ensures ReadBlock(f, block) == Some(data) <==> Slice(f, block * CACHE_SIZE, HEADER + |data|) == Image(data)
  {
    var off, n := block * CACHE_SIZE, |data|;
    Pow256Eight();
    LittleEndianRoundTrip(n, HEADER);
    SliceSplits(f, off, n);
    if FromLittleEndian(Slice(f, off, HEADER)) == n {
      LittleEndianUnique(Slice(f, off, HEADER), LittleEndian(n, HEADER));
    }
    SplitsAt(Slice(f, off, HEADER), Slice(f, off + HEADER, n), LittleEndian(n, HEADER), data);
  }

  lemma SliceSplits(f: seq<byte>, off: nat, n: nat)
    ensures Slice(f, off, HEADER + n) == Slice(f, off, HEADER) + Slice(f, off + HEADER, n)
  {
  }

  lemma SplitsAt(a: seq<byte>, b: seq<byte>, c: seq<byte>, d: seq<byte>)
    requires |a| == |c|
    ensures a + b == c + d <==> a == c && b == d
  {
    if a + b == c + d {
      assert a == (a + b)[..|a|] && b == (a + b)[|a|..];
      assert c == (c + d)[..|c|] && d == (c + d)[|c|..];
    }
  }

  /** Where two messages, written to two blocks, would overlap, their images agree. Two that fit do not overlap. */
  ghost predicate Agree(block: nat, data: seq<byte>, other: nat, more: seq<byte>) {
    forall i: nat :: i < |Image(data)| && 0 <= block * CACHE_SIZE + i - other * CACHE_SIZE < |Image(more)| ==>
      Image(data)[i] == Image(more)[block * CACHE_SIZE + i - other * CACHE_SIZE]
  }

  /** A message is still read from its block after a write to another exactly when the two agree where they overlap. */
  lemma StillRead(f: seq<byte>, block: nat, data: seq<byte>, other: nat, more: seq<byte>)
    requires 0 < |data| < TWO64 && ReadBlock(f, block) == Some(data)
    ensures ReadBlock(WriteBlock(f, other, more), block) == Some(data) <==> Agree(block, data, other, more)
  {
    ReadsImage(f, block, data);
    ReadsImage(WriteBlock(f, other, more), block, data);
    SliceAgrees(f, block * CACHE_SIZE, Image(data), other * CACHE_SIZE, Image(more));
  }

  lemma SliceAgrees(f: seq<byte>, at: nat, a: seq<byte>, off: nat, b: seq<byte>)
    requires Slice(f, at, |a|) == a
    ensures Slice(WriteAt(f, off, b), at, |a|) == a <==> forall i: nat :: i < |a| && 0 <= at + i - off < |b| ==> a[i] == b[at + i - off]
  {
    var g := WriteAt(f, off, b);
    forall i: nat | i < |a|
      ensures Slice(g, at, |a|)[i] == if 0 <= at + i - off < |b| then b[at + i - off] else a[i]
    {
      assert Slice(f, at, |a|)[i] == ByteAt(f, at + i);
      assert Slice(g, at, |a|)[i] == ByteAt(g, at + i);
    }
    if Slice(g, at, |a|) != a {
      var i: nat :| i < |a| && Slice(g, at, |a|)[i] != a[i];
      assert 0 <= at + i - off < |b|;
    }
  }

  /** A message that fits agrees with all that fit. */
  lemma FittingAgree(block: nat, data: seq<byte>, other: nat, more: seq<byte>)
    requires Fits(data) && Fits(more) && block != other
    ensures Agree(block, data, other, more)
  {
    assert block < other ==> block * CACHE_SIZE + CACHE_SIZE <= other * CACHE_SIZE;
    assert block > other ==> other * CACHE_SIZE + CACHE_SIZE <= block * CACHE_SIZE;
  }
}
