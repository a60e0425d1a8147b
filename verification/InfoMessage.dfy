/** The size of the information message that block 0 holds, as `FileInfo::ByteSizeLong` computes it. */
module InfoMessage {
  import opened Common
  import opened Wire
  import opened SlMessages
  import opened BlockFile
  import opened TablesSpec

  const FILE_SIZE: nat := 0x4000_0000

  /** The bytes of "dumpFile". */
  const FILE_PATH: Value := [100, 117, 109, 112, 70, 105, 108, 101]

  const NAME_LENGTH: nat := 8

  /** The length of a time as `asctime` writes it. */
  const TIME_LENGTH: nat := 25

  ghost predicate IsTime(text: Value) {
    |text| == TIME_LENGTH && ValidUtf8(text)
  }

  datatype Super = Super(fileName: Value, fileSize: uint64, blockSize: uint64, blockNum: int32, createTime: Value)

  /** The super block of the server's file, whatever its time. */
  ghost predicate OwnSuper(su: Super) {
    && su.fileName == FILE_PATH && IsTime(su.createTime)
    && su.fileSize == FILE_SIZE && su.blockSize == BLOCK_SIZE && su.blockNum == NUM_BLOCKS
  }

  /** A `uint64` field, left out when it is 0. */
  function UInt64Field(n: nat): nat {
    if Wrap(n) != 0 then 1 + VarintSize(Wrap(n)) else 0
  }

  /** A submessage or a string: its tag, its length and its bytes. */
  function Framed(n: nat): nat {
    1 + LengthSize(n)
  }

  function SuperSize(): nat {
    Framed(NAME_LENGTH) + UInt64Field(FILE_SIZE) + UInt64Field(BLOCK_SIZE) + UInt64Field(NUM_BLOCKS) + Framed(TIME_LENGTH)
  }

  function EntrySize(e: Entry): nat {
    UInt64Field(e.blockNumber) + UInt64Field(e.offset) + UInt64Field(e.freeSpace)
  }

  function EntriesSize(es: seq<Entry>): nat {
    if es == [] then 0 else EntriesSize(es[..|es| - 1]) + Framed(EntrySize(es[|es| - 1]))
  }

  /** One pair of the map; both of its fields are written even when they are 0. */
  function PairSize(k: int32, b: nat): nat {
    Framed(1 + Int32Size(k) + 1 + VarintSize(Wrap(b)))
  }

  ghost function IndexSize(index: map<int32, uint64>): nat
    decreases |index|
  {
    if index == map[] then 0 else var k :| k in index; PairSize(k, index[k]) + IndexSize(index - {k})
  }

  /** One byte for each flag, packed. */
  function UsageSize(n: nat): nat {
    if n > 0 then Framed(n) else 0
  }

  ghost function InfoSize(t: Tables): nat {
    EntriesSize(t.entries) + IndexSize(t.index) + UsageSize(|t.used|) + Framed(SuperSize())
  }

  function Left(size: nat): uint64 {
    Wrap(BLOCK_SIZE - size)
  }

  /** The tables as `writeToBlock0` leaves them: block 0's free space is worked out from the message before. */
  ghost function Saving(t: Tables): Tables {
    SetFree(t, 0, Left(InfoSize(t)))
  }

  /** And the message then fits block 0 with its length. */
  ghost predicate InfoFits(t: Tables) {
    InfoSize(Saving(t)) + HEADER <= BLOCK_SIZE
  }

  /** The entry of block 0 tells the room beside the message as it was; nothing else changes. */
  lemma SavingKeeps(t: Tables)
    requires t.entries != []
    ensures Saving(t).used == t.used && Saving(t).index == t.index && |Saving(t).entries| == |t.entries|
    ensures forall b :: 0 < b < |t.entries| ==> Saving(t).entries[b] == t.entries[b]
    ensures var e := Saving(t).entries[0]; e.blockNumber == t.entries[0].blockNumber && e.offset == t.entries[0].offset
    ensures InfoSize(t) <= BLOCK_SIZE ==> Saving(t).entries[0].freeSpace == BLOCK_SIZE - InfoSize(t)
  {
    LeftExact(InfoSize(t));
  }

  lemma LeftExact(size: nat)
    ensures size <= BLOCK_SIZE ==> Left(size) == BLOCK_SIZE - size
  {
  }

  lemma PathIsUtf8()
    ensures |FILE_PATH| == NAME_LENGTH && ValidUtf8(FILE_PATH)
  {
    Ascii(FILE_PATH);
  }

  // ----- the sum does not depend on the order -----

  lemma {:induction false} IndexWithout(index: map<int32, uint64>, k: int32)
    requires k in index
    ensures IndexSize(index) == PairSize(k, index[k]) + IndexSize(index - {k})
    decreases |index|
  {
    var j :| j in index && IndexSize(index) == PairSize(j, index[j]) + IndexSize(index - {j});
    if j != k {
      IndexWithout(index - {j}, k);
      IndexWithout(index - {k}, j);
      assert (index - {j}) - {k} == (index - {k}) - {j};
    }
  }

  // ----- how many keys fit -----

  /** With a block number below 128 a pair takes at most 15 bytes, and exactly 15 for a negative key. */
  lemma PairBounds(k: int32, b: nat)
    requires b < 128
    ensures 6 <= PairSize(k, b) <= 15
    ensures k < 0 ==> PairSize(k, b) == 15
  {
    Int32Sizes(k);
    SizeAgrees(Extend(k));
    assert Wrap(b) == b;
  }

  lemma {:induction false} IndexAtMost(index: map<int32, uint64>)
    requires forall k :: k in index ==> index[k] < 128
    ensures IndexSize(index) <= 15 * |index|
    decreases |index|
  {
    if index != map[] {
      var k :| k in index;
      IndexWithout(index, k);
      PairBounds(k, index[k]);
      IndexAtMost(index - {k});
    }
  }

  lemma {:induction false} IndexOfNegatives(index: map<int32, uint64>)
    requires forall k :: k in index ==> k < 0 && index[k] < 128
    ensures IndexSize(index) == 15 * |index|
    decreases |index|
  {
    if index != map[] {
      var k :| k in index;
      IndexWithout(index, k);
      PairBounds(k, index[k]);
      IndexOfNegatives(index - {k});
    }
  }

  lemma FieldAtMost(n: nat)
    ensures UInt64Field(n) <= 11
  {
    Pow128Values();
    SizeBound(Wrap(n), 10);
  }

  lemma {:induction false} EntriesAtMost(es: seq<Entry>)
    ensures EntriesSize(es) <= 35 * |es|
  {
    if es != [] {
      var e := es[|es| - 1];
      FieldAtMost(e.blockNumber);
      FieldAtMost(e.offset);
      FieldAtMost(e.freeSpace);
      EntriesAtMost(es[..|es| - 1]);
    }
  }

  /** What the message takes beside the key map, at most. */
  const FIXED: nat := 640

  lemma InfoAtMost(t: Tables)
    requires |t.used| == |t.entries| == NUM_BLOCKS && forall k :: k in t.index ==> t.index[k] < 128
    ensures InfoSize(t) <= FIXED + 15 * |t.index|
  {
    EntriesAtMost(t.entries);
    IndexAtMost(t.index);
    SuperAtMost();
  }

  lemma SuperAtMost()
    ensures SuperSize() <= 60
  {
    FieldAtMost(FILE_SIZE);
    FieldAtMost(BLOCK_SIZE);
    FieldAtMost(NUM_BLOCKS);
    assert VarintSize(NAME_LENGTH) == 1 && VarintSize(TIME_LENGTH) == 1;
  }

  /** The tables fit block 0 as long as no more than that many keys are mapped, 4473881 of them. */
  lemma FewKeysFit(t: Tables)
    requires |t.used| == |t.entries| == NUM_BLOCKS && forall k :: k in t.index ==> t.index[k] < 128
    requires HEADER + FIXED + 15 * |t.index| <= BLOCK_SIZE
    ensures InfoFits(t)
  {
    InfoAtMost(Saving(t));
  }

  /** With negative keys they do not fit from 4473924 keys on. */
  lemma ManyKeysDoNotFit(t: Tables)
    requires forall k :: k in t.index ==> k < 0 && t.index[k] < 128
    requires HEADER + 15 * |t.index| > BLOCK_SIZE
    ensures !InfoFits(t)
  {
    IndexOfNegatives(Saving(t).index);
  }

  // ----- the loops -----

  /** `FileInfo::ByteSizeLong`: the entries, the pairs of the map one after the other, the flags, the super block. */
  method InfoByteSize(usage: seq<bool>, entries: seq<Entry>, index: map<int32, uint64>) returns (total: nat)
    ensures total == InfoSize(Tables(usage, entries, index))
  {
    total := 0;
    for i := 0 to |entries|
      invariant total == EntriesSize(entries[..i])
    {
      assert entries[..i + 1][..i] == entries[..i];
      total := total + Framed(EntrySize(entries[i]));
    }
    assert entries[..|entries|] == entries;
    var rest := index;
    while rest != map[]
      invariant total + IndexSize(rest) == EntriesSize(entries) + IndexSize(index)
      decreases |rest|
    {
      var k :| k in rest;
      IndexWithout(rest, k);
      total := total + PairSize(k, rest[k]);
      rest := rest - {k};
    }
    total := total + UsageSize(|usage|) + Framed(SuperSize());
  }
}
