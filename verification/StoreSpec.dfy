/** One server as a value, and what each request does to it when every I/O task runs to its end. */
module StoreSpec {
  import opened Common
  import opened SkiplistSpec
  import opened Flattening
  import opened Wire
  import opened SlMessages
  import opened BlockFile
  import opened TablesSpec
  import opened InfoMessage
  import opened TwoMaps

  /** `w` and `size` are the write buffer; `tables` and `file` the disk; `block` and `recs` what the read buffer
      was last loaded from; `saved` the tables in block 0; `drift` how far capacity growth has moved `size`. */
  datatype Store = Store(w: Shape, size: nat, tables: Tables, file: seq<byte>, block: nat, recs: seq<Rec>,
                         saved: Tables, drift: int)

  function NewStore(): Store {
    Store(EMPTY, 0, NewTables(), [], NPOS, [], NewTables(), 0)
  }

  /** A request is served, or its flush goes to a queue nobody serves and the write lock is never released. */
  datatype Outcome = Done(s: Store) | Jammed(s: Store)

  ghost predicate Shaped(s: Store) {
    WellFormed(s.w) && Sized(s.tables) && Sized(s.saved)
  }

  // ----- the operations -----

  /** The bytes a flush of the buffer writes behind their length. */
  ghost function Message(w: Shape): seq<byte>
    requires WellFormed(w)
  {
    EncodeList(Flatten(w))
  }

  /** `flushToDisk` to block b, when the tables have become t. */
  ghost function FlushTo(s: Store, t: Tables, b: uint64, freeSpace: uint64): Store
    requires Shaped(s) && Sized(t)
  {
    Store(EMPTY, 0, FlushedTables(t, s.w, b, freeSpace), WriteBlock(s.file, b, Message(s.w)), s.block, s.recs, s.saved, 0)
  }

  /** The string the node of k ends up with. */
  function Kept(s: Store, k: int32, v: Value, copyCap: nat, assignCap: nat): Str {
    Str(v, if k in s.w.vals then assignCap else copyCap)
  }

  ghost function PutInto(s: Store, k: int32, v: Value, copyCap: nat, assignCap: nat, h: nat): (p: Store)
    requires Shaped(s) && 1 <= h <= LEVELS
    ensures Shaped(p)
  {
    AddedWellFormed(s.w, k, Kept(s, k, v, copyCap, assignCap), h);
    Store(Added(s.w, k, Kept(s, k, v, copyCap, assignCap), h), Wrap(s.size + AddCharge(s.w, k, copyCap)),
          s.tables, s.file, s.block, s.recs, s.saved, s.drift + if k in s.w.vals then copyCap - assignCap else 0)
  }

  /** The free space a flush is told about. */
  function FreeSpace(s: Store, k: int32, copyCap: nat): nat
    requires Shaped(s)
  {
    Wrap(CACHE_SIZE - Wrap(s.size + AddCharge(s.w, k, copyCap)) + AddCharge(s.w, k, copyCap))
  }

  ghost predicate Overflows(s: Store, k: int32, copyCap: nat)
    requires Shaped(s)
  {
    Wrap(s.size + AddCharge(s.w, k, copyCap)) > CACHE_SIZE
  }

  /** The buffer has outgrown its size: flush it to the lowest free block, if there is one. */
  ghost function Spill(p: Store, freeSpace: uint64): Outcome
    requires Shaped(p)
  {
    if Allocate(p.tables).1 == NPOS then Jammed(p)
    else Done(FlushTo(p, Allocate(p.tables).0, Allocate(p.tables).1, freeSpace))
  }

  /** PUT: insert, and flush when the buffer has outgrown its size. */
  ghost function Put(s: Store, k: int32, v: Value, copyCap: nat, assignCap: nat, h: nat): Outcome
    requires Shaped(s) && 1 <= h <= LEVELS
  {
    if Overflows(s, k, copyCap) then Spill(PutInto(s, k, v, copyCap, assignCap, h), FreeSpace(s, k, copyCap))
    else Done(PutInto(s, k, v, copyCap, assignCap, h))
  }

  function StoredOr(file: seq<byte>, b: nat): seq<Rec> {
    match Stored(file, b) case None => [] case Some(recs) => recs
  }

  /** `loadFromDisk` into the read buffer. */
  function Loaded(s: Store, b: nat): Store {
    s.(block := b, recs := StoredOr(s.file, b))
  }

  /** GET: the write buffer, then the block the key is mapped to, loaded if the read buffer holds another one. */
  function Get(s: Store, k: int32): (Store, Value) {
    if Lookup(s.w, k) != [] then (s, Lookup(s.w, k))
    else if k !in s.tables.index then (s, [])
    else
      var b := s.tables.index[k];
      var t := if b == s.block then s else Loaded(s, b);
      (t, ValueFrom(t.recs, k))
  }

  /** DEL: the write buffer only. */
  function Del(s: Store, k: int32): Store
    requires Shaped(s)
  {
    if k in s.w.vals then
      Store(Erased(s.w, k), Wrap(s.size - EraseCharge(s.w, k)), s.tables, s.file, s.block, s.recs, s.saved, s.drift)
    else s
  }

  /** The free space the interrupt handler tells its flush. */
  function Room(size: nat): nat {
    Wrap(CACHE_SIZE - size)
  }

  /** The interrupt handler flushes and saves the tables, and the next process reads them back; when they do not fit,
      block 0 keeps the old ones. With no free block nothing is flushed, and what the buffer held is gone. */
  ghost function Restart(s: Store): Store
    requires Shaped(s)
  {
    Reopened(s, Spill(s, Room(s.size)).s)
  }

  ghost function Reopened(s: Store, f: Store): Store {
    if InfoFits(f.tables) then Store(EMPTY, 0, Saving(f.tables), f.file, NPOS, [], Saving(f.tables), 0)
    else Store(EMPTY, 0, s.saved, f.file, NPOS, [], s.saved, 0)
  }

  // ----- the two maps a store stands for -----

  function Texts(s: Shape): map<int32, Value> {
    map k | k in s.vals :: s.vals[k].text
  }

  /** The value the disk has for every mapped key. */
  function OnDisk(t: Tables, file: seq<byte>): map<int32, Value> {
    map k | k in t.index :: ValueFrom(StoredOr(file, t.index[k]), k)
  }

  function Abstract(s: Store): Spec {
    Spec(Texts(s.w), OnDisk(s.tables, s.file))
  }

  // ----- the invariant -----

  /** A buffer whose flush can be read back: no reserved key, only UTF-8, and small enough for its block. */
  ghost predicate Storable(w: Shape)
    requires WellFormed(w)
  {
    Unreserved(w) && (forall k :: k in w.vals ==> ValidUtf8(w.vals[k].text)) && Fits(Message(w))
  }

  /** The block holds the bytes of a flush of w. */
  ghost predicate Holding(file: seq<byte>, b: nat, w: Shape) {
    WellFormed(w) && Storable(w) && ReadBlock(file, b) == Some(Message(w))
  }

  /** A key's block is a used one other than 0, and holds a list with the key. */
  ghost predicate KeySound(t: Tables, file: seq<byte>, k: int32)
    requires |t.used| == NUM_BLOCKS && k in t.index
  {
    && 0 < t.index[k] < NUM_BLOCKS && t.used[t.index[k]]
    && exists w :: Holding(file, t.index[k], w) && k in w.vals
  }

  ghost predicate Sound(t: Tables, file: seq<byte>) {
    Sized(t) && t.used[0] && forall k :: k in t.index ==> KeySound(t, file, k)
  }

  /** The read buffer holds what its block holds, and the block is a used one that no flush will touch. */
  ghost predicate InBuffer(s: Store)
    requires Sized(s.tables)
  {
    && s.block < NUM_BLOCKS && s.tables.used[s.block]
    && exists w :: Holding(s.file, s.block, w) && s.recs == Flatten(w)
  }

  ghost predicate Inv(s: Store) {
    && WellFormed(s.w) && Sound(s.tables, s.file) && Sound(s.saved, s.file)
    && (forall b :: 0 <= b < NUM_BLOCKS && s.saved.used[b] ==> s.tables.used[b])
    && (s.block != NPOS ==> InBuffer(s))
  }

  lemma NewStoreInv()
    ensures Inv(NewStore()) && Abstract(NewStore()) == Spec(map[], map[])
  {
    EmptyWellFormed();
  }

  // ----- flushing -----

  /** A block that holds a flush of w is read back record for record, and value for value. */
  lemma HoldingStored(file: seq<byte>, b: nat, w: Shape)
    requires Holding(file, b, w)
    ensures Stored(file, b) == Some(Flatten(w))
    ensures Represents(Flatten(w), w)
    ensures forall k :: ValueFrom(Flatten(w), k) == Lookup(w, k)
  {
    var recs := Flatten(w);
    FlattenKeys(w);
    FlattenUtf8(w);
    CodecRoundTrip(recs);
    RoundTripForward(w);
    forall k ensures ValueFrom(recs, k) == Lookup(w, k) {
      if k !in w.vals {
        ValueAbsent(recs, k);
      }
    }
  }

  /** All the way from the linked list to the bytes of a block and back: the rebuilt list has the towers and the values
      of the flushed one exactly when no key is reserved and every value is well-formed UTF-8. */
  lemma MemoryRoundTrip(file: seq<byte>, b: nat, w: Shape)
    requires WellFormed(w) && |Message(w)| <= MAX_LENGTH
    ensures var back := Stored(WriteBlock(file, b, Message(w)), b);
            back.Some? && Represents(back.value, w) <==> Unreserved(w) && forall k :: k in w.vals ==> ValidUtf8(w.vals[k].text)
  {
    var recs := Flatten(w);
    EncodeListCons(recs);
    BlockReadBack(file, b, Message(w));
    ListReadBack(recs, []);
    assert [] + recs == recs;
    FlattenUtf8(w);
    StructuralRoundTrip(w);
  }

  lemma FlattenUtf8(w: Shape)
    requires WellFormed(w)
    ensures AllUtf8(Flatten(w)) <==> forall k :: k in w.vals ==> ValidUtf8(w.vals[k].text)
  {
    var recs, keys := Flatten(w), w.levels[0];
    FlattenKeys(w);
    assert ValidUtf8(recs[0].value);
    assert forall j :: 1 <= j < |recs| ==> keys[j - 1] in keys && recs[j].value == w.vals[keys[j - 1]].text;
    if AllUtf8(recs) {
      forall k | k in w.vals ensures ValidUtf8(w.vals[k].text) {
        var j :| 0 <= j < |keys| && keys[j] == k;
        assert recs[j + 1].value == w.vals[k].text;
      }
    }
  }

  lemma {:induction false} ValueAbsent(recs: seq<Rec>, k: int32)
    requires forall j :: 0 <= j < |recs| ==> recs[j].key == k ==> recs[j].value == []
    ensures ValueFrom(recs, k) == []
  {
    if recs != [] {
      ValueAbsent(recs[..|recs| - 1], k);
    }
  }

  lemma HoldingNew(file: seq<byte>, b: nat, w: Shape)
    requires WellFormed(w) && Storable(w)
    ensures Holding(WriteBlock(file, b, Message(w)), b, w)
  {
    EncodeListCons(Flatten(w));
    BlockReadBack(file, b, Message(w));
  }

  lemma HoldingKept(file: seq<byte>, b: nat, data: seq<byte>, c: nat, w: Shape)
    requires Holding(file, c, w) && b != c && Fits(data)
    ensures Holding(WriteBlock(file, b, data), c, w)
  {
    OtherBlocksKept(file, b, data, c);
    SameBlockSameRead(file, WriteBlock(file, b, data), c, Message(w));
  }

  lemma DiskValue(t: Tables, file: seq<byte>, k: int32, w: Shape)
    requires k in t.index && Holding(file, t.index[k], w)
    ensures OnDisk(t, file)[k] == Lookup(w, k)
  {
    HoldingStored(file, t.index[k], w);
  }

  /** Writing to a block the tables do not use leaves everything they map as it was. */
  lemma KeyKept(t: Tables, file: seq<byte>, b: nat, data: seq<byte>, k: int32)
    requires Sized(t) && k in t.index && KeySound(t, file, k) && Fits(data) && b < NUM_BLOCKS && !t.used[b]
    ensures KeySound(t, WriteBlock(file, b, data), k)
    ensures OnDisk(t, WriteBlock(file, b, data))[k] == OnDisk(t, file)[k]
  {
    var w :| Holding(file, t.index[k], w) && k in w.vals;
    HoldingKept(file, b, data, t.index[k], w);
    DiskValue(t, file, k, w);
    DiskValue(t, WriteBlock(file, b, data), k, w);
  }

  lemma SoundKept(t: Tables, file: seq<byte>, b: nat, data: seq<byte>)
    requires Sound(t, file) && Fits(data) && b < NUM_BLOCKS && !t.used[b]
    ensures Sound(t, WriteBlock(file, b, data))
  {
    forall k | k in t.index ensures KeySound(t, WriteBlock(file, b, data), k) {
      KeyKept(t, file, b, data, k);
    }
  }

  /** The tables a flush leaves behind. */
  function FlushedTables(t: Tables, w: Shape, b: uint64, freeSpace: uint64): Tables
    requires t.entries != [] && w.levels != []
  {
    SetFree(MapKeys(t, w.levels[0], b), b, freeSpace)
  }

  lemma FlushedTablesMap(t: Tables, w: Shape, b: uint64, freeSpace: uint64)
    requires Sized(t) && WellFormed(w)
    ensures var u := FlushedTables(t, w, b, freeSpace);
            && Sized(u) && u.used == t.used
            && (forall k :: k in u.index <==> k in t.index || k in w.vals)
            && (forall k :: k in u.index ==> u.index[k] == if k in t.index then t.index[k] else b)
  {
    MapKeysFirstWins(t, w.levels[0], b);
  }

  /** The entries a flush leaves: that of its block tells the room it was told, block 0's has paid for the keys that are
      new to the map, and no other has changed. */
  ghost predicate EntriesAfter(t: Tables, u: Tables, b: uint64, freeSpace: uint64)
    requires Sized(t) && 0 < b < NUM_BLOCKS
  {
    && |u.entries| == NUM_BLOCKS && |t.index| <= |u.index|
    && u.entries[b].blockNumber == t.entries[b].blockNumber && u.entries[b].offset == t.entries[b].offset
    && u.entries[b].freeSpace == freeSpace
    && u.entries[0] == Charged(t.entries[0], |u.index| - |t.index|)
    && forall c :: 0 < c < NUM_BLOCKS && c != b ==> u.entries[c] == t.entries[c]
  }

  lemma FlushedEntries(t: Tables, w: Shape, b: uint64, freeSpace: uint64)
    requires Sized(t) && WellFormed(w) && 0 < b < NUM_BLOCKS
    ensures EntriesAfter(t, FlushedTables(t, w, b, freeSpace), b, freeSpace)
  {
    MapKeysCharges(t, w.levels[0], b);
  }

  lemma FlushedKey(t: Tables, file: seq<byte>, b: nat, w: Shape, u: Tables, k: int32)
    requires Sound(t, file) && 0 < b < NUM_BLOCKS && !t.used[b] && WellFormed(w) && Storable(w)
    requires Sized(u) && u.used == t.used[b := true] && k in u.index
    requires if k in t.index then u.index[k] == t.index[k] else k in w.vals && u.index[k] == b
    ensures KeySound(u, WriteBlock(file, b, Message(w)), k)
    ensures OnDisk(u, WriteBlock(file, b, Message(w)))[k] == if k in t.index then OnDisk(t, file)[k] else Texts(w)[k]
  {
    if k in t.index {
      assert KeySound(t, file, k);
      KeyKept(t, file, b, Message(w), k);
    } else {
      HoldingNew(file, b, w);
      DiskValue(u, WriteBlock(file, b, Message(w)), k, w);
    }
  }

  /** u are the tables t with block b taken. */
  ghost predicate Taken(t: Tables, u: Tables, b: nat)
    requires Sized(t)
  {
    Sized(u) && 0 < b < NUM_BLOCKS && !t.used[b] && u.used == t.used[b := true] && u.index == t.index
  }

  /** Every key after a flush, against the tables and the file before. */
  lemma FlushedKeys(t: Tables, file: seq<byte>, b: nat, w: Shape, u: Tables, g: seq<byte>)
    requires Sound(t, file) && 0 < b < NUM_BLOCKS && !t.used[b] && WellFormed(w) && Storable(w)
    requires Sized(u) && u.used == t.used[b := true] && g == WriteBlock(file, b, Message(w))
    requires forall k :: k in u.index <==> k in t.index || k in w.vals
    requires forall k :: k in u.index ==> u.index[k] == if k in t.index then t.index[k] else b
    ensures Sound(u, g) && OnDisk(u, g) == Texts(w) + OnDisk(t, file)
  {
    forall k | k in u.index
      ensures KeySound(u, g, k)
      ensures OnDisk(u, g)[k] == if k in t.index then OnDisk(t, file)[k] else Texts(w)[k]
    {
      FlushedKey(t, file, b, w, u, k);
    }
    UnionIs(OnDisk(u, g), Texts(w), OnDisk(t, file));
  }

  /** The tables and the file after a flush, against the tables before. */
  lemma FlushSound(t: Tables, taken: Tables, file: seq<byte>, b: nat, w: Shape, freeSpace: uint64)
    requires Sound(t, file) && Taken(t, taken, b) && WellFormed(w) && Storable(w)
    ensures var u := FlushedTables(taken, w, b, freeSpace); var g := WriteBlock(file, b, Message(w));
            Sound(u, g) && u.used == taken.used && OnDisk(u, g) == Texts(w) + OnDisk(t, file)
  {
    FlushedTablesMap(taken, w, b, freeSpace);
    FlushedKeys(t, file, b, w, FlushedTables(taken, w, b, freeSpace), WriteBlock(file, b, Message(w)));
  }

  lemma UnionIs(all: map<int32, Value>, low: map<int32, Value>, high: map<int32, Value>)
    requires forall k :: k in all <==> k in low || k in high
    requires forall k :: k in all ==> all[k] == if k in high then high[k] else low[k]
    ensures all == low + high
  {
  }
}
