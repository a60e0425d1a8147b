/** The two cache objects and the requests of the server, over the linked list, the tables and the file. */
module Caches {
  import opened Common
  import opened SkiplistSpec
  import opened Flattening
  import opened SlMessages
  import opened SlSerializer
  import opened BlockFile
  import opened TablesSpec
  import opened InfoMessage
  import opened FileInfos
  import opened Skiplists
  import opened StoreSpec
  import opened StoreRefinement

  class Disk {
    var file: seq<byte>

    constructor ()
      ensures file == []
    {
      file := [];
    }
  }

  class Cache {
    var list: Skiplist
    var currentSize: nat
    var currentReadBlock: nat

    ghost predicate Valid()
      reads this, list, list.Repr
    {
      list.Valid() && list in list.Repr && this !in list.Repr
    }

    constructor ()
      ensures Valid() && fresh(list) && fresh(list.Repr)
      ensures list.shape == EMPTY && currentSize == 0 && currentReadBlock == NPOS
    {
      list := new Skiplist();
      currentSize := 0;
      currentReadBlock := NPOS;
    }

    /** `flushToDisk`: map the keys, write the block, note its free space, empty the list. */
    method FlushToDisk(info: FileInfo, disk: Disk, freeSpace: uint64, freeBlock: uint64) returns (ok: bool)
      requires Valid() && Sized(info.State()) && info !in list.Repr && disk !in list.Repr
      modifies this`currentSize, list.Repr, info`blockUsageTable, info`blockIndexTable, info`keyBlockMap, disk
      ensures Valid() && list.Repr == old(list.Repr)
      ensures ok <==> freeBlock != NPOS
      ensures !ok ==> list.shape == old(list.shape) && currentSize == old(currentSize)
                      && info.State() == old(info.State()) && disk.file == old(disk.file)
      ensures ok ==> list.shape == EMPTY && currentSize == 0
                     && info.State() == FlushedTables(old(info.State()), old(list.shape), freeBlock, freeSpace)
                     && disk.file == WriteBlock(old(disk.file), freeBlock, Message(old(list.shape)))
      ensures 0 < freeBlock < NUM_BLOCKS ==> EntriesAfter(old(info.State()), info.State(), freeBlock, freeSpace)
    {
      if 0 < freeBlock < NUM_BLOCKS {
        FlushedEntries(info.State(), list.shape, freeBlock, freeSpace);
      }
      if freeBlock == NPOS {
        return false;
      }
      StoreList(info, disk, freeSpace, freeBlock);
      Empty();
      ok := true;
    }

    /** Everything of a flush but the emptying. */
    method StoreList(info: FileInfo, disk: Disk, freeSpace: uint64, freeBlock: uint64)
      requires Valid() && Sized(info.State()) && info !in list.Repr && disk !in list.Repr
      modifies info`blockIndexTable, info`keyBlockMap, disk
      ensures Valid()
      ensures info.State() == FlushedTables(old(info.State()), list.shape, freeBlock, freeSpace)
      ensures disk.file == WriteBlock(old(disk.file), freeBlock, Message(list.shape))
    {
      MapListKeys(info, freeBlock);
      MapKeysSized(old(info.State()), list.shape.levels[0], freeBlock);
      WriteList(disk, freeBlock);
      info.UpdateBlockInfo(freeBlock, freeSpace);
    }

    /** What the objects hold is what the store value says. */
    ghost predicate Shows(info: FileInfo, disk: Disk, s: Store)
      reads this, list, info, disk
    {
      list.shape == s.w && currentSize == s.size && info.State() == s.tables && disk.file == s.file
    }

    /** `put`: insert, account, and when the buffer is over its size hand the flush to an I/O worker. A block number
        of `size_t(-1)` names a queue that has no worker; the lock travels with the flush, so it is never released. */
    method Put(info: FileInfo, disk: Disk, key: int32, value: Value, copyCap: nat, assignCap: nat, coin: nat -> bool, ghost s: Store)
      returns (jammed: bool)
      requires Valid() && info !in list.Repr && disk !in list.Repr
      requires Shaped(s) && s.tables.used[0] && Shows(info, disk, s)
      modifies this`currentSize, list.Repr, info`blockUsageTable, info`blockIndexTable, info`keyBlockMap, disk
      ensures Valid() && fresh(list.Repr - old(list.Repr))
      ensures jammed == StoreSpec.Put(s, key, value, copyCap, assignCap, Height(coin, 0)).Jammed?
      ensures Shows(info, disk, StoreSpec.Put(s, key, value, copyCap, assignCap, Height(coin, 0)).s)
    {
      ghost var p := PutInto(s, key, value, copyCap, assignCap, Height(coin, 0));
      var nodeSize := Insert(info, disk, key, value, copyCap, assignCap, coin, s);
      jammed := false;
      if currentSize > CACHE_SIZE {
        var freeSpace := Wrap(CACHE_SIZE - currentSize + nodeSize);
        assert freeSpace == FreeSpace(s, key, copyCap);
        jammed := Overflow(info, disk, freeSpace, p);
      }
    }

    method Insert(info: FileInfo, disk: Disk, key: int32, value: Value, copyCap: nat, assignCap: nat, coin: nat -> bool, ghost s: Store)
      returns (nodeSize: nat)
      requires Valid() && info !in list.Repr && disk !in list.Repr && Shaped(s) && Shows(info, disk, s)
      modifies this`currentSize, list.Repr
      ensures Valid() && fresh(list.Repr - old(list.Repr)) && nodeSize == AddCharge(s.w, key, copyCap)
      ensures Shows(info, disk, PutInto(s, key, value, copyCap, assignCap, Height(coin, 0)))
    {
      nodeSize := list.Add(key, value, copyCap, assignCap, coin);
      currentSize := Wrap(currentSize + nodeSize);
    }

    /** The buffer has outgrown its size: take a block and submit the flush to the queue before it. */
    method Overflow(info: FileInfo, disk: Disk, freeSpace: uint64, ghost p: Store) returns (jammed: bool)
      requires Valid() && info !in list.Repr && disk !in list.Repr
      requires Shaped(p) && p.tables.used[0] && Shows(info, disk, p)
      modifies this`currentSize, list.Repr, info`blockUsageTable, info`blockIndexTable, info`keyBlockMap, disk
      ensures Valid() && list.Repr == old(list.Repr)
      ensures jammed == Spill(p, freeSpace).Jammed? && Shows(info, disk, Spill(p, freeSpace).s)
    {
      AllocateOnce(info.State());
      QueueServed(Allocate(info.State()).1);
      var freeBlock := info.GetFreeBlock();
      jammed := QueueOf(freeBlock) >= IO_WORKERS;
      if !jammed {
        var ok := FlushToDisk(info, disk, freeSpace, freeBlock);
      }
    }

    /** `del(..., 0)`: the write buffer only, and the answer is always true. */
    method Del(info: FileInfo, disk: Disk, key: int32, ghost s: Store) returns (handled: bool)
      requires Valid() && Shaped(s) && Shows(info, disk, s) && info !in list.Repr && disk !in list.Repr
      modifies this`currentSize, list.Repr
      ensures Valid() && list.Repr == old(list.Repr)
      ensures handled && Shows(info, disk, StoreSpec.Del(s, key))
    {
      var found, nodeSize, gone := list.Erase(key, 0);
      if found {
        currentSize := Wrap(currentSize - nodeSize);
      }
      handled := true;
    }

    /** `get(..., 0)`. */
    method GetWritten(key: int32) returns (v: Value)
      requires Valid()
      ensures v == Lookup(list.shape, key)
    {
      v := list.Search(key);
    }

    /** `get(..., 1)`, with the load run to its end: the answer of the search the request or its I/O task makes. */
    method GetStored(info: FileInfo, disk: Disk, key: int32, capOf: Value -> nat, ghost w: Shape) returns (v: Value)
      requires Valid() && disk !in list.Repr && info !in list.Repr
      requires key in info.State().index && info.State().index[key] != currentReadBlock ==>
        Holding(disk.file, info.State().index[key], w)
      modifies this`currentSize, this`currentReadBlock, list.Repr
      ensures Valid() && fresh(list.Repr - old(list.Repr))
      ensures v == if key in info.State().index then Lookup(list.shape, key) else []
      ensures key in info.State().index && info.State().index[key] != old(currentReadBlock) ==>
        currentReadBlock == info.State().index[key] && list.shape == Recapped(w, capOf)
      ensures !(key in info.State().index && info.State().index[key] != old(currentReadBlock)) ==>
        currentReadBlock == old(currentReadBlock) && list.shape == old(list.shape)
    {
      var blockNumber := info.GetBlockNumber(key);
      v := [];
      if key in info.keyBlockMap {
        if blockNumber != currentReadBlock {
          HoldingStored(disk.file, blockNumber, w);
          currentReadBlock := blockNumber;
          LoadFromDisk(disk, blockNumber, capOf, w);
        }
        v := list.Search(key);
      }
    }

    /** The buffer after a flush. */
    method Empty()
      requires Valid()
      modifies this`currentSize, list.Repr
      ensures Valid() && list.Repr == old(list.Repr) && list.shape == EMPTY && currentSize == 0
    {
      ghost var deleted := list.Clear();
      currentSize := 0;
    }

    lemma MapKeysSized(t: Tables, keys: seq<int32>, b: uint64)
      requires Sized(t)
      ensures Sized(MapKeys(t, keys, b))
    {
      MapKeysFirstWins(t, keys, b);
    }

    /** `serialize`: the records, their size and bytes, into the block. */
    method WriteList(disk: Disk, block: nat)
      requires Valid() && disk !in list.Repr
      modifies disk
      ensures disk.file == WriteBlock(old(disk.file), block, Message(list.shape))
    {
      var recs := list.Serialize();
      var buf := SerializeToArray(recs);
      disk.file := WriteBlock(disk.file, block, buf[..]);
    }

    /** The walk along level 0 that maps every key to the block. */
    method MapListKeys(info: FileInfo, freeBlock: uint64)
      requires Valid() && Sized(info.State()) && info !in list.Repr
      modifies info`blockIndexTable, info`keyBlockMap
      ensures info.State() == MapKeys(old(info.State()), list.shape.levels[0], freeBlock)
    {
      ghost var keys := list.shape.levels[0];
      assert Chain(list.lev[0], 0) && list.lev[0][0] == list.head;
      var p: Node := list.head;
      ghost var j := 0;
      while p.next[0] != null
        invariant 0 <= j < |list.lev[0]| && p == list.lev[0][j]
        invariant info.blockIndexTable != []
        invariant MapKeys(info.State(), keys[j..], freeBlock) == MapKeys(old(info.State()), keys, freeBlock)
        decreases |list.lev[0]| - j
      {
        info.AddKeyBlockMapping(p.next[0].key, freeBlock);
        p := p.next[0];
        assert keys[j..][0] == p.key && keys[j..][1..] == keys[j + 1..];
        j := j + 1;
      }
    }

    /** `loadFromDisk`: the list becomes the one the block was flushed from; a block that cannot be read leaves it empty. */
    method LoadFromDisk(disk: Disk, block: nat, capOf: Value -> nat, ghost w: Shape)
      requires Valid() && disk !in list.Repr
      requires Stored(disk.file, block).Some? ==> WellFormed(w) && Represents(Flatten(w), w) && Stored(disk.file, block) == Some(Flatten(w))
      modifies this`currentSize, list.Repr
      ensures Valid() && fresh(list.Repr - old(list.Repr))
      ensures list.shape == if Stored(disk.file, block).Some? then Recapped(w, capOf) else EMPTY
      ensures currentSize == RecCharges(StoredOr(disk.file, block), capOf)
    {
      var recs := ReadRecords(disk.file, block);
      ghost var deleted := list.Clear();
      if recs == None {
        currentSize := 0;
        return;
      }
      LinksAreEight(w);
      ghost var m;
      currentSize, m := list.Deserialize(recs.value, capOf, w);
    }
  }

  lemma LinksAreEight(w: Shape)
    requires WellFormed(w)
    ensures forall j :: 0 <= j < |Flatten(w)| ==> |Flatten(w)[j].next| <= LEVELS
  {
    FlattenKeys(w);
  }

  /** The part of `deserialize` before it touches the list: the length, the bytes, the parse. */
  method ReadRecords(file: seq<byte>, block: nat) returns (recs: Option<seq<Rec>>)
    ensures recs == Stored(file, block)
  {
    var data := ReadBlock(file, block);
    if data == None {
      return None;
    }
    recs := ParseListFrom(data.value);
  }

  method TwoCaches() returns (wr: Cache, rd: Cache)
    ensures wr.Valid() && rd.Valid() && wr != rd && wr !in rd.list.Repr && rd !in wr.list.Repr && wr.list.Repr !! rd.list.Repr
    ensures fresh(wr) && fresh(rd) && fresh(wr.list) && fresh(rd.list) && fresh(wr.list.Repr) && fresh(rd.list.Repr)
    ensures wr.list.shape == EMPTY && wr.currentSize == 0 && rd.currentReadBlock == NPOS
  {
    wr := new Cache();
    rd := new Cache();
  }

  /** The server on a new file. */
  method NewServer(createTime: Value) returns (server: Server)
    requires IsTime(createTime)
    ensures server.Valid() && server.Model() == NewStore()
  {
    NothingSaved();
    var info := new FileInfo(FILE_PATH, createTime);
    server := new Server.Reopen(info, [], NO_IMAGE);
  }

  /** The globals of the server. */
  class Server {
    var info: FileInfo
    var disk: Disk
    var wr: Cache
    var rd: Cache
    ghost var recs: seq<Rec>
    var block0: seq<byte>
    ghost var drift: int

    ghost predicate Valid()
      reads this, info, disk, wr, rd, wr.list, rd.list, wr.list.Repr, rd.list.Repr
    {
      && wr != rd && wr.Valid() && rd.Valid()
      && wr !in rd.list.Repr && rd !in wr.list.Repr && wr.list.Repr !! rd.list.Repr
      && this !in wr.list.Repr && this !in rd.list.Repr
      && info !in wr.list.Repr && info !in rd.list.Repr && disk !in wr.list.Repr && disk !in rd.list.Repr
      && OwnSuper(info.superBlock) && Held(block0)
      && (rd.currentReadBlock != NPOS ==> forall k :: Lookup(rd.list.shape, k) == ValueFrom(recs, k))
    }

    /** The server as a value; `block0` is the message in block 0, and `file` the bytes of the other blocks. */
    ghost function Model(): Store
      reads this, info, disk, wr, rd, wr.list
    {
      Store(wr.list.shape, wr.currentSize, info.State(), disk.file, rd.currentReadBlock, recs, TablesIn(block0), drift)
    }

    /** PUT, up to the point where its thread either finishes or leaves the lock with a task that is never run. */
    method ProcessPut(key: int32, value: Value, copyCap: nat, assignCap: nat, coin: nat -> bool) returns (jammed: bool)
      requires Valid() && Shaped(Model()) && Model().tables.used[0]
      modifies this`drift, wr`currentSize, wr.list.Repr, info`blockUsageTable, info`blockIndexTable, info`keyBlockMap, disk
      ensures Valid()
      ensures jammed == Put(old(Model()), key, value, copyCap, assignCap, Height(coin, 0)).Jammed?
      ensures Model() == Put(old(Model()), key, value, copyCap, assignCap, Height(coin, 0)).s
    {
      ghost var s := Model();
      jammed := wr.Put(info, disk, key, value, copyCap, assignCap, coin, s);
      drift := Put(s, key, value, copyCap, assignCap, Height(coin, 0)).s.drift;
    }

    /** GET: the read tier is asked when the write buffer answers the empty value. */
    method ProcessGet(key: int32, capOf: Value -> nat) returns (v: Value)
      requires Valid() && Inv(Model())
      modifies this`recs, rd`currentSize, rd`currentReadBlock, rd.list.Repr
      ensures Valid()
      ensures (Model(), v) == Get(old(Model()), key)
    {
      ghost var w := FindBlock(Model(), key, capOf);
      v := wr.GetWritten(key);
      if v == [] {
        v := ReadTier(key, capOf, w);
      }
    }

    method ReadTier(key: int32, capOf: Value -> nat, ghost w: Shape) returns (v: Value)
      requires Valid() && Lookup(wr.list.shape, key) == []
      requires key in info.keyBlockMap ==>
        info.keyBlockMap[key] < NPOS && Holding(disk.file, info.keyBlockMap[key], w) && Answering(disk.file, info.keyBlockMap[key], w, capOf)
      modifies this`recs, rd`currentSize, rd`currentReadBlock, rd.list.Repr
      ensures Valid()
      ensures (Model(), v) == Get(old(Model()), key)
    {
      ghost var t, a := Get(Model(), key).0, Get(Model(), key).1;
      v := rd.GetStored(info, disk, key, capOf, w);
      recs := t.recs;
      assert rd.currentReadBlock == t.block;
      assert Model() == t;
      assert v == a;
    }

    /** A list rebuilt from the block answers every key as the block's records do. */
    static ghost predicate Answering(file: seq<byte>, b: nat, w: Shape, capOf: Value -> nat) {
      forall k :: Lookup(Recapped(w, capOf), k) == ValueFrom(StoredOr(file, b), k)
    }

    static lemma FindBlock(s: Store, key: int32, capOf: Value -> nat) returns (w: Shape)
      requires Inv(s)
      ensures key in s.tables.index ==> s.tables.index[key] < NPOS && Holding(s.file, s.tables.index[key], w)
      ensures key in s.tables.index ==> Answering(s.file, s.tables.index[key], w, capOf)
    {
      w := EMPTY;
      if key in s.tables.index {
        w := KeyBlock(s.tables, s.file, key);
        HoldingStored(s.file, s.tables.index[key], w);
      }
    }

    /** DEL: `del(..., 0)` always reports success, so the read tier is never asked. */
    method ProcessDel(key: int32)
      requires Valid() && Shaped(Model())
      modifies wr`currentSize, wr.list.Repr
      ensures Valid() && Model() == Del(old(Model()), key)
    {
      var handled := wr.Del(info, disk, key, Model());
    }

    /** A server on a file with this message in block 0. */
    constructor Reopen(info: FileInfo, file: seq<byte>, block0: seq<byte>)
      requires OwnSuper(info.superBlock) && Held(block0) && info.State() == TablesIn(block0)
      ensures Valid() && this.info == info && disk.file == file && this.block0 == block0
      ensures wr.list.shape == EMPTY && wr.currentSize == 0 && rd.currentReadBlock == NPOS
      ensures recs == [] && drift == 0
    {
      this.info := info;
      var d := new Disk();
      d.file := file;
      disk := d;
      var a, b := TwoCaches();
      wr, rd := a, b;
      recs, drift := [], 0;
      this.block0 := block0;
    }

    /** The flush of the interrupt handler, made in its own thread. */
    method HandlerFlushes(ghost s: Store, ghost f: Store)
      requires Valid() && s == Model() && Shaped(s) && f == Spill(s, Room(s.size)).s
      modifies wr`currentSize, wr.list.Repr, info`blockUsageTable, info`blockIndexTable, info`keyBlockMap, disk
      ensures wr.Valid() && wr.Shows(info, disk, f)
    {
      var freeSpace := Room(wr.currentSize);
      SpillIs(s, freeSpace);
      var freeBlock := info.GetFreeBlock();
      var ok := wr.FlushToDisk(info, disk, freeSpace, freeBlock);
    }

    static lemma SpillIs(s: Store, freeSpace: uint64)
      requires Shaped(s)
      ensures Spill(s, freeSpace).s == if Allocate(s.tables).1 == NPOS then s
                                       else FlushTo(s, Allocate(s.tables).0, Allocate(s.tables).1, freeSpace)
      ensures Sized(Spill(s, freeSpace).s.tables)
    {
      FlushedTablesMap(Allocate(s.tables).0, s.w, Allocate(s.tables).1, freeSpace);
    }

    /** `signalHandler` after the pool has shut down, and the start of the next process. */
    method InterruptAndRestart(createTime: Value) returns (next: Server)
      requires Valid() && Shaped(Model()) && IsTime(createTime)
      modifies wr`currentSize, wr.list.Repr, info`blockUsageTable, info`blockIndexTable, info`keyBlockMap, disk
      ensures next.Valid() && next.Model() == Restart(old(Model()))
    {
      ghost var s := Model();
      ghost var f := Spill(s, Room(s.size)).s;
      assert Restart(s) == Reopened(s, f);
      SpillIs(s, Room(s.size));
      HandlerFlushes(s, f);
      var again, image := SaveAndReopen(info, block0, createTime);
      next := new Server.Reopen(again, disk.file, image);
      assert next.Model() == Reopened(s, f);
    }
  }
}
