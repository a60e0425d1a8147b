/** The file information object: its tables are changed in place, saved to block 0 and read back. */
module FileInfos {
  import opened Common
  import opened BlockFile
  import opened TablesSpec
  import opened InfoMessage
  import opened InfoCodec

  class FileInfo {
    var superBlock: Super
    var blockUsageTable: seq<bool>
    var blockIndexTable: seq<Entry>
    var keyBlockMap: map<int32, uint64>

    function State(): Tables
      reads this
    {
      Tables(blockUsageTable, blockIndexTable, keyBlockMap)
    }

    /** The time is what `asctime` gives. */
    constructor (fileName: Value, createTime: Value)
      ensures State() == NewTables() && superBlock == Super(fileName, FILE_SIZE, BLOCK_SIZE, NUM_BLOCKS, createTime)
    {
      superBlock := Super(fileName, FILE_SIZE, BLOCK_SIZE, NUM_BLOCKS, createTime);
      blockUsageTable := seq(NUM_BLOCKS, _ => false);
      blockIndexTable := [];
      keyBlockMap := map[];
      new;
      blockUsageTable := blockUsageTable[0 := true];
      for i := 0 to NUM_BLOCKS
        invariant |blockIndexTable| == i
        invariant forall j :: 0 <= j < i ==> blockIndexTable[j] == Entry(j, j * BLOCK_SIZE, BLOCK_SIZE)
        invariant blockUsageTable == NewTables().used && keyBlockMap == map[]
        invariant superBlock == Super(fileName, FILE_SIZE, BLOCK_SIZE, NUM_BLOCKS, createTime)
      {
        blockIndexTable := blockIndexTable + [Entry(i, i * BLOCK_SIZE, BLOCK_SIZE)];
      }
      assert blockIndexTable == NewTables().entries;
    }

    /** A key that is mapped already keeps its block. */
    method AddKeyBlockMapping(key: int32, blockNumber: uint64)
      requires blockIndexTable != []
      modifies this`blockIndexTable, this`keyBlockMap
      ensures State() == AddMapping(old(State()), key, blockNumber)
    {
      if key in keyBlockMap {
        return;
      }
      keyBlockMap := keyBlockMap[key := blockNumber];
      blockIndexTable := WithFree(blockIndexTable, 0, Wrap(blockIndexTable[0].freeSpace - 12));
    }

    method GetBlockNumber(key: int32) returns (b: uint64)
      ensures key in State().index ==> b == State().index[key]
      ensures key !in State().index ==> b == NPOS
    {
      b := if key in keyBlockMap then keyBlockMap[key] else NPOS;
    }

    /** The scan for the lowest free block. */
    method GetFreeBlock() returns (b: uint64)
      requires |blockUsageTable| == NUM_BLOCKS
      modifies this`blockUsageTable
      ensures (State(), b) == Allocate(old(State()))
    {
      for i := 0 to NUM_BLOCKS
        invariant State() == old(State())
        invariant FirstFree(blockUsageTable, 0) == FirstFree(blockUsageTable, i)
      {
        if !blockUsageTable[i] {
          blockUsageTable := blockUsageTable[i := true];
          return i;
        }
      }
      b := NPOS;
    }

    method UpdateBlockInfo(blockNumber: nat, freeSpace: uint64)
      requires |blockIndexTable| == NUM_BLOCKS
      modifies this`blockIndexTable
      ensures State() == SetFree(old(State()), blockNumber, freeSpace)
    {
      if blockNumber >= NUM_BLOCKS {
        return;
      }
      blockIndexTable := WithFree(blockIndexTable, blockNumber, freeSpace);
    }

    /** `writeToBlock0`: the message is made of copies of the tables, block 0's free space is worked out from its size,
        and it is written only if it still fits then. */
    method WriteToBlock0() returns (image: Option<seq<byte>>, ghost order: seq<int32>)
      requires Sized(State()) && OwnSuper(superBlock)
      modifies this`blockIndexTable
      ensures State() == Saving(old(State())) && Lists(order, keyBlockMap)
      ensures image.Some? <==> |EncodeInfo(superBlock, State(), order)| + HEADER <= BLOCK_SIZE
      ensures image.Some? <==> InfoFits(old(State()))
      ensures image.Some? ==> image.value == EncodeInfo(superBlock, State(), order)
    {
      var usage, entries := Copies();
      var infoSize := InfoByteSize(usage, entries, keyBlockMap);
      blockIndexTable := WithFree(blockIndexTable, 0, Left(infoSize));
      assert State() == Saving(old(State()));
      entries := entries[0 := blockIndexTable[0]];
      var serializedSize := InfoByteSize(usage, entries, keyBlockMap);
      var bytes;
      bytes, order := InfoToBytes(superBlock, usage, entries, keyBlockMap);
      InfoLength(superBlock, State(), order);
      image := if serializedSize + HEADER > BLOCK_SIZE then None else Some(bytes);
    }

    method Copies() returns (usage: seq<bool>, entries: seq<Entry>)
      requires Sized(State())
      ensures usage == blockUsageTable && entries == blockIndexTable
    {
      usage, entries := [], [];
      for i := 0 to NUM_BLOCKS
        invariant usage == blockUsageTable[..i] && entries == blockIndexTable[..i]
      {
        usage := usage + [blockUsageTable[i]];
        entries := entries + [blockIndexTable[i]];
      }
      assert blockUsageTable[..NUM_BLOCKS] == blockUsageTable && blockIndexTable[..NUM_BLOCKS] == blockIndexTable;
    }

    /** `readFromBlock0`: the saved entries replace the ones here, saved keys are added; nothing happens when there is
        no message or it cannot be parsed. */
    method ReadFromBlock0(image: seq<byte>) returns (ok: bool)
      requires Sized(State()) && Held(image)
      modifies this
      ensures ok <==> Saves(image)
      ensures State() == ReadInto(old(State()), image)
      ensures superBlock == if ok then ParseInfo(image).value.super else old(superBlock)
    {
      var info := ParseInfo(image);
      if image == [] || info == None {
        return false;
      }
      superBlock := info.value.super;
      CopyTables(info.value.tables);
      ok := true;
    }

    method CopyTables(t: Tables)
      requires |t.used| <= |blockUsageTable| && |t.entries| <= |blockIndexTable|
      modifies this`blockUsageTable, this`blockIndexTable, this`keyBlockMap
      ensures State() == Tables(t.used + old(blockUsageTable)[|t.used|..], t.entries + old(blockIndexTable)[|t.entries|..],
                                old(keyBlockMap) + t.index)
    {
      for i := 0 to |t.used|
        invariant blockUsageTable == t.used[..i] + old(blockUsageTable)[i..]
        invariant blockIndexTable == old(blockIndexTable) && keyBlockMap == old(keyBlockMap)
      {
        OneMore(t.used, old(blockUsageTable), i);
        blockUsageTable := blockUsageTable[i := t.used[i]];
      }
      for i := 0 to |t.entries|
        invariant blockIndexTable == t.entries[..i] + old(blockIndexTable)[i..]
        invariant blockUsageTable == t.used + old(blockUsageTable)[|t.used|..] && keyBlockMap == old(keyBlockMap)
      {
        OneMore(t.entries, old(blockIndexTable), i);
        blockIndexTable := blockIndexTable[i := t.entries[i]];
      }
      assert t.used[..|t.used|] == t.used && t.entries[..|t.entries|] == t.entries;
      keyBlockMap := keyBlockMap + t.index;
    }
  }

  lemma OneMore<T>(s: seq<T>, was: seq<T>, i: nat)
    requires i < |s| <= |was|
    ensures (s[..i] + was[i..])[i := s[i]] == s[..i + 1] + was[i + 1..]
  {
  }

  // ----- what block 0 holds -----

  predicate Saves(image: seq<byte>) {
    image != [] && ParseInfo(image).Some?
  }

  /** What a server can find in block 0: no message that it can read, or one with its own super block and no more flags
      and entries than there are blocks. */
  ghost predicate Held(image: seq<byte>) {
    Saves(image) ==>
      var info := ParseInfo(image).value;
      OwnSuper(info.super) && |info.tables.used| <= NUM_BLOCKS && |info.tables.entries| <= NUM_BLOCKS
  }

  /** Tables after a message has been read into them. */
  function ReadInto(t: Tables, image: seq<byte>): Tables
    requires Sized(t)
  {
    if Saves(image) then
      var u := ParseInfo(image).value.tables;
      Tables(if |u.used| <= |t.used| then u.used + t.used[|u.used|..] else u.used,
             if |u.entries| <= |t.entries| then u.entries + t.entries[|u.entries|..] else u.entries, t.index + u.index)
    else t
  }

  /** The tables that a new process finds. */
  function TablesIn(image: seq<byte>): Tables {
    ReadInto(NewTables(), image)
  }

  /** Block 0 of a new file. */
  const NO_IMAGE: seq<byte> := []

  lemma NothingSaved()
    ensures Held(NO_IMAGE) && TablesIn(NO_IMAGE) == NewTables()
  {
  }

  lemma SavedTables(su: Super, t: Tables, order: seq<int32>)
    requires OwnSuper(su) && Sized(t) && Lists(order, t.index) && |EncodeInfo(su, t, order)| + HEADER <= BLOCK_SIZE
    ensures var image := EncodeInfo(su, t, order);
            Held(image) && TablesIn(image) == t && forall time :: SuperIn(image, time) == su
  {
    SavedParses(su, t, order);
    ReadIntoNew(EncodeInfo(su, t, order), su, t);
  }

  lemma SavedParses(su: Super, t: Tables, order: seq<int32>)
    requires OwnSuper(su) && Lists(order, t.index) && |EncodeInfo(su, t, order)| + HEADER <= BLOCK_SIZE
    ensures EncodeInfo(su, t, order) != [] && ParseInfo(EncodeInfo(su, t, order)) == Some(Info(su, t))
  {
    PathIsUtf8();
    InfoReadBack(su, t, order);
    InfoLength(su, t, order);
  }

  lemma ReadIntoNew(image: seq<byte>, su: Super, t: Tables)
    requires image != [] && ParseInfo(image) == Some(Info(su, t)) && OwnSuper(su) && Sized(t)
    ensures Held(image) && TablesIn(image) == t && forall time :: SuperIn(image, time) == su
  {
    assert map[] + t.index == t.index;
    assert t.used + NewTables().used[NUM_BLOCKS..] == t.used;
    assert t.entries + NewTables().entries[NUM_BLOCKS..] == t.entries;
  }

  lemma HeldTables(image: seq<byte>)
    requires Held(image)
    ensures Sized(TablesIn(image))
  {
  }

  /** The super block that a new process goes on with. */
  function SuperIn(image: seq<byte>, createTime: Value): Super {
    if Saves(image) then ParseInfo(image).value.super else Super(FILE_PATH, FILE_SIZE, BLOCK_SIZE, NUM_BLOCKS, createTime)
  }

  lemma HeldSuper(image: seq<byte>, createTime: Value)
    requires Held(image) && IsTime(createTime)
    ensures OwnSuper(SuperIn(image, createTime))
  {
  }

  /** A new process reads what it finds in block 0. */
  method Reopen(block0: seq<byte>, createTime: Value) returns (again: FileInfo)
    requires Held(block0) && IsTime(createTime)
    ensures fresh(again) && Sized(again.State()) && OwnSuper(again.superBlock)
    ensures again.State() == TablesIn(block0) && again.superBlock == SuperIn(block0, createTime)
  {
    again := new FileInfo(FILE_PATH, createTime);
    var ok := again.ReadFromBlock0(block0);
    HeldTables(block0);
    HeldSuper(block0, createTime);
  }

  /** Saving the tables to block 0 and reading them into a fresh object gives the same tables when the message fits,
      and otherwise whatever block 0 held before. */
  method SaveAndReopen(info: FileInfo, held: seq<byte>, createTime: Value) returns (again: FileInfo, block0: seq<byte>)
    requires Sized(info.State()) && OwnSuper(info.superBlock) && Held(held) && IsTime(createTime)
    modifies info`blockIndexTable
    ensures fresh(again) && Sized(again.State()) && OwnSuper(again.superBlock)
    ensures info.State() == Saving(old(info.State()))
    ensures Held(block0) && again.State() == TablesIn(block0)
    ensures if InfoFits(old(info.State())) then again.State() == info.State() && again.superBlock == info.superBlock else block0 == held
  {
    var image, order := info.WriteToBlock0();
    block0 := if image.Some? then image.value else held;
    if image.Some? {
      SavedTables(info.superBlock, info.State(), order);
    }
    again := Reopen(block0, createTime);
  }
}
