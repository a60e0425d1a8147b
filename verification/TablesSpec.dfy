/** The tables of the file information block: which blocks are used, and which block a key was first flushed to. */
module TablesSpec {
  import opened Common
  import opened BlockFile

  datatype Entry = Entry(blockNumber: uint64, offset: uint64, freeSpace: uint64)

  datatype Tables = Tables(used: seq<bool>, entries: seq<Entry>, index: map<int32, uint64>)

  /** The tables of a `FileInfo` just constructed: block 0 is taken, no key is mapped. */
  function NewTables(): (t: Tables)
    ensures |t.used| == |t.entries| == NUM_BLOCKS
    ensures forall b :: 0 <= b < NUM_BLOCKS ==> (t.used[b] <==> b == 0) && t.entries[b] == Entry(b, b * BLOCK_SIZE, BLOCK_SIZE)
    ensures t.index == map[]
  {
    Tables(seq(NUM_BLOCKS, i => i == 0),
           seq(NUM_BLOCKS, i requires 0 <= i < NUM_BLOCKS => Entry(i, i * BLOCK_SIZE, BLOCK_SIZE)), map[])
  }

  ghost predicate Sized(t: Tables) {
    |t.used| == NUM_BLOCKS && |t.entries| == NUM_BLOCKS
  }

  function FirstFree(used: seq<bool>, i: nat): (b: nat)
    requires i <= |used|
    ensures |used| < TWO64 ==> b < TWO64
    decreases |used| - i
  {
    if i == |used| then NPOS else if !used[i] then i else FirstFree(used, i + 1)
  }

  /** `getFreeBlock`: the lowest free block, marked used, or `size_t(-1)`. */
  function Allocate(t: Tables): (r: (Tables, nat))
    ensures |r.0.used| == |t.used| && r.0.entries == t.entries
    ensures |t.used| < TWO64 ==> r.1 < TWO64
  {
    var b := FirstFree(t.used, 0);
    (if b < |t.used| then t.(used := t.used[b := true]) else t, b)
  }

  function WithFree(entries: seq<Entry>, b: nat, freeSpace: uint64): seq<Entry>
    requires b < |entries|
  {
    entries[b := Entry(entries[b].blockNumber, entries[b].offset, freeSpace)]
  }

  /** `addKeyBlockMapping`: only the first block of a key is kept. */
  function AddMapping(t: Tables, k: int32, b: uint64): Tables
    requires t.entries != []
  {
    if k in t.index then t
    else Tables(t.used, WithFree(t.entries, 0, Wrap(t.entries[0].freeSpace - 12)), t.index[k := b])
  }

  function MapKeys(t: Tables, keys: seq<int32>, b: uint64): Tables
    requires t.entries != []
    decreases |keys|
  {
    if keys == [] then t else MapKeys(AddMapping(t, keys[0], b), keys[1..], b)
  }

  function SetFree(t: Tables, b: nat, freeSpace: uint64): Tables {
    if b < |t.entries| then Tables(t.used, WithFree(t.entries, b, freeSpace), t.index) else t
  }

  lemma {:induction false} FirstFreeIs(used: seq<bool>, i: nat)
    requires i <= |used| < NPOS
    ensures var b := FirstFree(used, i);
            && (b < |used| <==> exists j :: i <= j < |used| && !used[j])
            && (b < |used| ==> i <= b && !used[b] && forall j :: i <= j < b ==> used[j])
            && (b >= |used| ==> b == NPOS)
    decreases |used| - i
  {
    if i < |used| && used[i] {
      FirstFreeIs(used, i + 1);
    }
  }

  /** A block handed out was free, is not block 0, and is used from then on: the next call hands out
      another. */
  lemma AllocateOnce(t: Tables)
    requires Sized(t) && t.used[0]
    ensures var (u, b) := Allocate(t);
            && Sized(u) && u.index == t.index && u.entries == t.entries
            && (b == NPOS <==> forall j :: 0 <= j < NUM_BLOCKS ==> t.used[j])
            && (b == NPOS ==> u == t)
            && (b != NPOS ==> 0 < b < NUM_BLOCKS && !t.used[b] && u.used == t.used[b := true] && Allocate(u).1 != b)
  {
    FirstFreeIs(t.used, 0);
    var (u, b) := Allocate(t);
    FirstFreeIs(u.used, 0);
  }

  /** After mapping a list of keys, a key is mapped where it was mapped before, or to the new block. */
  lemma {:induction false} MapKeysFirstWins(t: Tables, keys: seq<int32>, b: uint64)
    requires t.entries != []
    ensures var u := MapKeys(t, keys, b);
            && u.used == t.used && |u.entries| == |t.entries|
            && (forall k :: k in u.index <==> k in t.index || k in keys)
            && (forall k :: k in u.index ==> u.index[k] == if k in t.index then t.index[k] else b)
    decreases |keys|
  {
    if keys != [] {
      MapKeysFirstWins(AddMapping(t, keys[0], b), keys[1..], b);
      assert forall k :: k in keys <==> k == keys[0] || k in keys[1..];
    }
  }

  /** Entry 0 after n keys were newly mapped: 12 less for each, in 64-bit arithmetic. */
  function Charged(e: Entry, n: nat): Entry {
    Entry(e.blockNumber, e.offset, if n == 0 then e.freeSpace else Wrap(e.freeSpace - 12 * n))
  }

  lemma ChargedAgain(e: Entry, n: nat)
    ensures Charged(Charged(e, 1), n) == Charged(e, n + 1)
  {
    WrapSum(e.freeSpace - 12, -12 * n);
  }

  /** Mapping keys charges block 0 for each key that was not mapped before, and leaves all other entries alone. */
  lemma {:induction false} MapKeysCharges(t: Tables, keys: seq<int32>, b: uint64)
    requires t.entries != []
    ensures var u := MapKeys(t, keys, b);
            |t.index| <= |u.index| && u.entries == t.entries[0 := Charged(t.entries[0], |u.index| - |t.index|)]
    decreases |keys|
  {
    if keys != [] {
      var m := AddMapping(t, keys[0], b);
      var u := MapKeys(t, keys, b);
      MapKeysCharges(m, keys[1..], b);
      if keys[0] !in t.index {
        assert |m.index| == |t.index| + 1;
        assert m.entries[0] == Charged(t.entries[0], 1);
        ChargedAgain(t.entries[0], |u.index| - |m.index|);
      }
    }
  }

  // ----- the queues of the I/O pool -----

  /** The I/O pool serves the queues below this number. */
  const IO_WORKERS: nat := 15

  /** The queue the flush of a block is submitted to. */
  function QueueOf(block: nat): nat {
    Wrap(-1 + block)
  }

  lemma QueueServed(block: nat)
    requires 0 < block < NUM_BLOCKS || block == NPOS
    ensures QueueOf(block) < IO_WORKERS <==> block != NPOS
  {
    assert block != NPOS ==> QueueOf(block) == block - 1;
  }
}
