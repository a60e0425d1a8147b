/** The bytes of the information message that block 0 holds, and what is read from them. */
module InfoCodec {
  import opened Common
  import opened Wire
  import opened SlMessages
  import opened BlockFile
  import opened TablesSpec
  import opened InfoMessage
  import opened Fields

  // ----- writing -----

  function NumberField(tag: nat, n: uint64): seq<Field> {
    if n != 0 then [Number(tag, n)] else []
  }

  function TextField(tag: nat, text: Value): seq<Field> {
    if text != [] then [Bytes(tag, text)] else []
  }

  function SuperFields(su: Super): seq<Field> {
    TextField(10, su.fileName) + NumberField(16, su.fileSize) + NumberField(24, su.blockSize)
    + NumberField(32, Extend(su.blockNum)) + TextField(42, su.createTime)
  }

  function EntryFields(e: Entry): seq<Field> {
    NumberField(8, e.blockNumber) + NumberField(16, e.offset) + NumberField(24, e.freeSpace)
  }

  /** Both fields of a pair are written even when they are 0. */
  function PairFields(k: int32, b: uint64): seq<Field> {
    [Number(8, Extend(k)), Number(16, b)]
  }

  function EntriesFields(es: seq<Entry>): seq<Field> {
    if es == [] then [] else EntriesFields(es[..|es| - 1]) + [Bytes(18, Message(EntryFields(es[|es| - 1])))]
  }

  /** The pairs of the map in some order of its keys. */
  function PairsFields(index: map<int32, uint64>, order: seq<int32>): seq<Field>
    requires forall k :: k in order ==> k in index
  {
    if order == [] then []
    else PairsFields(index, order[..|order| - 1]) + [Bytes(26, Message(PairFields(order[|order| - 1], index[order[|order| - 1]])))]
  }

  function Flags(used: seq<bool>): seq<byte> {
    seq(|used|, i requires 0 <= i < |used| => if used[i] then 1 else 0)
  }

  function FlagsFields(used: seq<bool>): seq<Field> {
    if used != [] then [Bytes(34, Flags(used))] else []
  }

  /** Each key of the map once. */
  ghost predicate Lists(order: seq<int32>, index: map<int32, uint64>) {
    && (forall k :: k in order <==> k in index)
    && forall i, j :: 0 <= i < j < |order| ==> order[i] != order[j]
  }

  function InfoFields(su: Super, t: Tables, order: seq<int32>): seq<Field>
    requires forall k :: k in order ==> k in t.index
  {
    [Bytes(10, Message(SuperFields(su)))] + EntriesFields(t.entries) + PairsFields(t.index, order) + FlagsFields(t.used)
  }

  function EncodeInfo(su: Super, t: Tables, order: seq<int32>): seq<byte>
    requires forall k :: k in order ==> k in t.index
  {
    Message(InfoFields(su, t, order))
  }

  // ----- reading -----

  datatype Info = Info(super: Super, tables: Tables)

  const NEW_INFO: Info := Info(Super([], 0, 0, 0, []), Tables([], [], map[]))

  function SuperWith(su: Super, f: Field): Option<Super> {
    match f
    case Bytes(10, text) => if ValidUtf8(text) then Some(su.(fileName := text)) else None
    case Number(16, n) => Some(su.(fileSize := Wrap(n)))
    case Number(24, n) => Some(su.(blockSize := Wrap(n)))
    case Number(32, n) => Some(su.(blockNum := Truncate(n)))
    case Bytes(42, text) => if ValidUtf8(text) then Some(su.(createTime := text)) else None
    case _ => Some(su)
  }

  function SuperOf(su: Super, fs: seq<Field>): Option<Super>
    decreases |fs|
  {
    if fs == [] then Some(su)
    else match SuperWith(su, fs[0]) case None => None case Some(next) => SuperOf(next, fs[1..])
  }

  function EntryWith(e: Entry, f: Field): Entry {
    match f
    case Number(8, n) => e.(blockNumber := Wrap(n))
    case Number(16, n) => e.(offset := Wrap(n))
    case Number(24, n) => e.(freeSpace := Wrap(n))
    case _ => e
  }

  function EntryOf(e: Entry, fs: seq<Field>): Entry
    decreases |fs|
  {
    if fs == [] then e else EntryOf(EntryWith(e, fs[0]), fs[1..])
  }

  function PairWith(p: (int32, uint64), f: Field): (int32, uint64) {
    match f
    case Number(8, n) => (Truncate(n), p.1)
    case Number(16, n) => (p.0, Wrap(n))
    case _ => p
  }

  function PairOf(p: (int32, uint64), fs: seq<Field>): (int32, uint64)
    decreases |fs|
  {
    if fs == [] then p else PairOf(PairWith(p, fs[0]), fs[1..])
  }

  /** Packed flags: a number each, and any but 0 is true. */
  function ReadFlags(b: seq<byte>): Option<seq<bool>>
    decreases |b|
  {
    if b == [] then Some([])
    else match ReadVarint(b, MAX_VARINT)
      case None => None
      case Some(r) => match ReadFlags(b[r.1..])
        case None => None
        case Some(rest) => Some([Wrap(r.0) != 0] + rest)
  }

  /** Field 1 is the super block, field 2 an entry, field 3 a pair of the map, field 4 flags, packed or one by one. */
  function InfoWith(info: Info, f: Field): Option<Info> {
    var t := info.tables;
    match f
    case Bytes(10, data) =>
      (match Scan(data)
       case None => None
       case Some(fs) => match SuperOf(info.super, fs) case None => None case Some(su) => Some(Info(su, t)))
    case Bytes(18, data) =>
      (match Scan(data)
       case None => None
       case Some(fs) => Some(Info(info.super, Tables(t.used, t.entries + [EntryOf(Entry(0, 0, 0), fs)], t.index))))
    case Bytes(26, data) =>
      (match Scan(data)
       case None => None
       case Some(fs) => var p := PairOf((0, 0), fs); Some(Info(info.super, Tables(t.used, t.entries, t.index[p.0 := p.1]))))
    case Bytes(34, data) =>
      (match ReadFlags(data)
       case None => None
       case Some(flags) => Some(Info(info.super, Tables(t.used + flags, t.entries, t.index))))
    case Number(32, n) => Some(Info(info.super, Tables(t.used + [Wrap(n) != 0], t.entries, t.index)))
    case _ => Some(info)
  }

  function InfoOf(info: Info, fs: seq<Field>): Option<Info>
    decreases |fs|
  {
    if fs == [] then Some(info)
    else match InfoWith(info, fs[0]) case None => None case Some(next) => InfoOf(next, fs[1..])
  }

  function ParseInfo(b: seq<byte>): Option<Info> {
    match Scan(b) case None => None case Some(fs) => InfoOf(NEW_INFO, fs)
  }

  // ----- the size computed is the number of bytes -----

  lemma NumberSize(tag: nat, n: uint64)
    requires tag < 128
    ensures |Message(NumberField(tag, n))| == UInt64Field(n)
  {
    if n != 0 {
      OneField(Number(tag, n));
      SizeAgrees(n);
    }
  }

  lemma BytesSize(tag: nat, data: seq<byte>)
    requires tag < 128
    ensures |Message([Bytes(tag, data)])| == Framed(|data|)
  {
    OneField(Bytes(tag, data));
    SizeAgrees(|data|);
  }

  lemma SuperLength(su: Super)
    requires OwnSuper(su)
    ensures |Message(SuperFields(su))| == SuperSize()
  {
    var a, b, c := TextField(10, su.fileName), NumberField(16, su.fileSize), NumberField(24, su.blockSize);
    var d, e := NumberField(32, Extend(su.blockNum)), TextField(42, su.createTime);
    PathIsUtf8();
    MessageAppend(a + b + c + d, e);
    MessageAppend(a + b + c, d);
    MessageAppend(a + b, c);
    MessageAppend(a, b);
    BytesSize(10, su.fileName);
    BytesSize(42, su.createTime);
    NumberSize(16, su.fileSize);
    NumberSize(24, su.blockSize);
    NumberSize(32, Extend(su.blockNum));
  }

  lemma EntryLength(e: Entry)
    ensures |Message(EntryFields(e))| == EntrySize(e)
  {
    var a, b, c := NumberField(8, e.blockNumber), NumberField(16, e.offset), NumberField(24, e.freeSpace);
    MessageAppend(a + b, c);
    MessageAppend(a, b);
    NumberSize(8, e.blockNumber);
    NumberSize(16, e.offset);
    NumberSize(24, e.freeSpace);
  }

  lemma PairLength(k: int32, b: uint64)
    ensures Framed(|Message(PairFields(k, b))|) == PairSize(k, b)
  {
    MessageAppend([Number(8, Extend(k))], [Number(16, b)]);
    assert PairFields(k, b) == [Number(8, Extend(k))] + [Number(16, b)];
    OneField(Number(8, Extend(k)));
    OneField(Number(16, b));
    SizeAgrees(Extend(k));
    SizeAgrees(b);
  }

  lemma {:induction false} EntriesLength(es: seq<Entry>)
    ensures |Message(EntriesFields(es))| == EntriesSize(es)
  {
    if es != [] {
      var e := es[|es| - 1];
      EntriesLength(es[..|es| - 1]);
      MessageAppend(EntriesFields(es[..|es| - 1]), [Bytes(18, Message(EntryFields(e)))]);
      BytesSize(18, Message(EntryFields(e)));
      EntryLength(e);
    }
  }

  lemma {:induction false} PairsLength(index: map<int32, uint64>, order: seq<int32>)
    requires Lists(order, index)
    ensures |Message(PairsFields(index, order))| == IndexSize(index)
    decreases |order|
  {
    if order == [] {
      assert index == map[];
    } else {
      var front, k := order[..|order| - 1], order[|order| - 1];
      var rest := index - {k};
      LastOut(index, order);
      PairsLength(rest, front);
      SamePairs(index, rest, front);
      MessageAppend(PairsFields(index, front), [Bytes(26, Message(PairFields(k, index[k])))]);
      BytesSize(26, Message(PairFields(k, index[k])));
      PairLength(k, index[k]);
      IndexWithout(index, k);
    }
  }

  lemma LastOut(index: map<int32, uint64>, order: seq<int32>)
    requires Lists(order, index) && order != []
    ensures Lists(order[..|order| - 1], index - {order[|order| - 1]})
  {
    var front, k := order[..|order| - 1], order[|order| - 1];
    assert forall j :: j in order <==> j in front || j == k;
  }

  lemma {:induction false} SamePairs(a: map<int32, uint64>, b: map<int32, uint64>, order: seq<int32>)
    requires forall k :: k in order ==> k in a && k in b && a[k] == b[k]
    ensures PairsFields(a, order) == PairsFields(b, order)
  {
    if order != [] {
      SamePairs(a, b, order[..|order| - 1]);
    }
  }

  lemma FlagsLength(used: seq<bool>)
    ensures |Message(FlagsFields(used))| == UsageSize(|used|)
  {
    if used != [] {
      BytesSize(34, Flags(used));
    }
  }

  /** For every order of the map's pairs. */
  lemma InfoLength(su: Super, t: Tables, order: seq<int32>)
    requires OwnSuper(su) && Lists(order, t.index)
    ensures |EncodeInfo(su, t, order)| == InfoSize(t)
  {
    var s := [Bytes(10, Message(SuperFields(su)))];
    MessageAppend(s + EntriesFields(t.entries) + PairsFields(t.index, order), FlagsFields(t.used));
    MessageAppend(s + EntriesFields(t.entries), PairsFields(t.index, order));
    MessageAppend(s, EntriesFields(t.entries));
    BytesSize(10, Message(SuperFields(su)));
    SuperLength(su);
    EntriesLength(t.entries);
    PairsLength(t.index, order);
    FlagsLength(t.used);
  }

  // ----- what is written is read back -----

  lemma {:induction false} DataFits(fs: seq<Field>, i: nat)
    requires i < |fs| && fs[i].Bytes?
    ensures |fs[i].data| <= |Message(fs)|
  {
    if i > 0 {
      DataFits(fs[1..], i - 1);
    }
  }

  /** A number that fits 64 bits, or bytes. */
  ghost predicate Writable(f: Field) {
    && 8 <= f.tag < 128
    && match f case Number(tag, n) => tag % 8 == 0 && n < TWO64 case Bytes(tag, _) => tag % 8 == 2 case Fixed(_, _) => false
  }

  ghost predicate AllWritable(fs: seq<Field>) {
    forall i :: 0 <= i < |fs| ==> Writable(fs[i])
  }

  lemma ScansBack(fs: seq<Field>)
    requires AllWritable(fs) && |Message(fs)| <= MAX_LENGTH
    ensures Scan(Message(fs)) == Some(fs)
  {
    forall i | 0 <= i < |fs| ensures Proper(fs[i]) {
      if fs[i].Bytes? {
        DataFits(fs, i);
      }
    }
    ScanReadBack(fs);
  }

  lemma {:induction false} SuperOfAppend(su: Super, a: seq<Field>, b: seq<Field>)
    ensures SuperOf(su, a + b) == match SuperOf(su, a) case None => None case Some(next) => SuperOf(next, b)
    decreases |a|
  {
    if a == [] {
      assert a + b == b;
    } else {
      assert (a + b)[0] == a[0] && (a + b)[1..] == a[1..] + b;
      if SuperWith(su, a[0]).Some? {
        SuperOfAppend(SuperWith(su, a[0]).value, a[1..], b);
      }
    }
  }

  /** The fields of a super block are read in one after the other; one text that is not UTF-8 loses it. */
  lemma SuperReadBack(su: Super)
    ensures SuperOf(NEW_INFO.super, SuperFields(su)) ==
            if ValidUtf8(su.fileName) && ValidUtf8(su.createTime) then Some(su) else None
  {
    var a, b, c := TextField(10, su.fileName), NumberField(16, su.fileSize), NumberField(24, su.blockSize);
    var d, e := NumberField(32, Extend(su.blockNum)), TextField(42, su.createTime);
    SuperOfAppend(NEW_INFO.super, a + b + c + d, e);
    SuperOfAppend(NEW_INFO.super, a + b + c, d);
    SuperOfAppend(NEW_INFO.super, a + b, c);
    SuperOfAppend(NEW_INFO.super, a, b);
    TruncateExtend(su.blockNum);
    var s1 := Super(su.fileName, 0, 0, 0, []);
    assert SuperOf(NEW_INFO.super, a) == if ValidUtf8(su.fileName) then Some(s1) else None;
    var s2 := s1.(fileSize := su.fileSize);
    assert SuperOf(s1, b) == Some(s2);
    var s3 := s2.(blockSize := su.blockSize);
    assert SuperOf(s2, c) == Some(s3);
    var s4 := s3.(blockNum := su.blockNum);
    assert SuperOf(s3, d) == Some(s4);
    assert SuperOf(s4, e) == if ValidUtf8(su.createTime) then Some(su) else None;
  }

  lemma {:induction false} EntryOfAppend(e: Entry, a: seq<Field>, b: seq<Field>)
    ensures EntryOf(e, a + b) == EntryOf(EntryOf(e, a), b)
    decreases |a|
  {
    if a == [] {
      assert a + b == b;
    } else {
      assert (a + b)[0] == a[0] && (a + b)[1..] == a[1..] + b;
      EntryOfAppend(EntryWith(e, a[0]), a[1..], b);
    }
  }

  lemma EntryReadBack(e: Entry)
    ensures EntryOf(Entry(0, 0, 0), EntryFields(e)) == e
  {
    var a, b, c := NumberField(8, e.blockNumber), NumberField(16, e.offset), NumberField(24, e.freeSpace);
    EntryOfAppend(Entry(0, 0, 0), a + b, c);
    EntryOfAppend(Entry(0, 0, 0), a, b);
    assert EntryOf(Entry(0, 0, 0), a) == Entry(e.blockNumber, 0, 0);
    assert EntryOf(Entry(e.blockNumber, 0, 0), b) == Entry(e.blockNumber, e.offset, 0);
  }

  lemma PairReadBack(k: int32, b: uint64)
    ensures PairOf((0, 0), PairFields(k, b)) == (k, b)
  {
    TruncateExtend(k);
    var fs := PairFields(k, b);
    assert PairOf((0, 0), fs) == PairOf((k, 0), fs[1..]);
    assert PairOf((k, 0), fs[1..]) == PairOf((k, b), fs[1..][1..]);
  }

  lemma {:induction false} FlagsReadBack(used: seq<bool>)
    ensures ReadFlags(Flags(used)) == Some(used)
  {
    if used != [] {
      var b := Flags(used);
      assert b[1..] == Flags(used[1..]);
      assert ReadVarint(b, MAX_VARINT) == Some((b[0], 1));
      FlagsReadBack(used[1..]);
      Cons(used);
    }
  }

  lemma {:induction false} InfoOfAppend(info: Info, a: seq<Field>, b: seq<Field>)
    ensures InfoOf(info, a + b) == match InfoOf(info, a) case None => None case Some(next) => InfoOf(next, b)
    decreases |a|
  {
    if a == [] {
      assert a + b == b;
    } else {
      assert (a + b)[0] == a[0] && (a + b)[1..] == a[1..] + b;
      if InfoWith(info, a[0]).Some? {
        InfoOfAppend(InfoWith(info, a[0]).value, a[1..], b);
      }
    }
  }

  lemma InfoOfOne(info: Info, f: Field)
    ensures InfoOf(info, [f]) == InfoWith(info, f)
  {
    assert [f][1..] == [];
  }

  /** No submessage is too long for its parser. */
  ghost predicate Short(fs: seq<Field>) {
    forall i :: 0 <= i < |fs| && fs[i].Bytes? ==> |fs[i].data| <= MAX_LENGTH
  }

  lemma EntryAdded(info: Info, e: Entry)
    requires |Message(EntryFields(e))| <= MAX_LENGTH
    ensures InfoWith(info, Bytes(18, Message(EntryFields(e))))
            == Some(info.(tables := info.tables.(entries := info.tables.entries + [e])))
  {
    ScansBack(EntryFields(e));
    EntryReadBack(e);
  }

  lemma {:induction false} EntriesReadBack(info: Info, es: seq<Entry>)
    requires Short(EntriesFields(es))
    ensures InfoOf(info, EntriesFields(es)) == Some(info.(tables := info.tables.(entries := info.tables.entries + es)))
  {
    if es != [] {
      var front, e := es[..|es| - 1], es[|es| - 1];
      var f, fs := Bytes(18, Message(EntryFields(e))), EntriesFields(front);
      ShortFront(fs, f);
      EntriesReadBack(info, front);
      var next := info.(tables := info.tables.(entries := info.tables.entries + front));
      InfoOfAppend(info, fs, [f]);
      InfoOfOne(next, f);
      EntryAdded(next, e);
      LastIn(info.tables.entries, es);
    } else {
      assert info.tables.entries + es == info.tables.entries;
    }
  }

  lemma LastIn(s: seq<Entry>, es: seq<Entry>)
    requires es != []
    ensures s + es[..|es| - 1] + [es[|es| - 1]] == s + es
  {
  }

  lemma ShortFront(fs: seq<Field>, f: Field)
    requires Short(fs + [f])
    ensures Short(fs) && (f.Bytes? ==> |f.data| <= MAX_LENGTH)
  {
    assert forall i :: 0 <= i < |fs| ==> (fs + [f])[i] == fs[i];
    assert (fs + [f])[|fs|] == f;
  }

  function Restricted(index: map<int32, uint64>, order: seq<int32>): map<int32, uint64>
    requires forall k :: k in order ==> k in index
  {
    map k | k in order :: index[k]
  }

  lemma RestrictedMore(m: map<int32, uint64>, index: map<int32, uint64>, order: seq<int32>)
    requires order != [] && forall k :: k in order ==> k in index
    ensures var front, k := order[..|order| - 1], order[|order| - 1];
            k in index && (m + Restricted(index, front))[k := index[k]] == m + Restricted(index, order)
  {
    var front, k := order[..|order| - 1], order[|order| - 1];
    assert forall j :: j in order <==> j in front || j == k;
  }

  lemma PairAdded(info: Info, k: int32, b: uint64)
    requires |Message(PairFields(k, b))| <= MAX_LENGTH
    ensures InfoWith(info, Bytes(26, Message(PairFields(k, b)))) == Some(info.(tables := info.tables.(index := info.tables.index[k := b])))
  {
    ScansBack(PairFields(k, b));
    PairReadBack(k, b);
  }

  lemma {:induction false} PairsReadBack(info: Info, index: map<int32, uint64>, order: seq<int32>)
    requires (forall k :: k in order ==> k in index) && Short(PairsFields(index, order))
    ensures InfoOf(info, PairsFields(index, order))
            == Some(info.(tables := info.tables.(index := info.tables.index + Restricted(index, order))))
  {
    if order != [] {
      var front, k := order[..|order| - 1], order[|order| - 1];
      var f, fs := Bytes(26, Message(PairFields(k, index[k]))), PairsFields(index, front);
      ShortFront(fs, f);
      PairsReadBack(info, index, front);
      var next := info.(tables := info.tables.(index := info.tables.index + Restricted(index, front)));
      InfoOfAppend(info, fs, [f]);
      InfoOfOne(next, f);
      PairAdded(next, k, index[k]);
      RestrictedMore(info.tables.index, index, order);
    } else {
      assert info.tables.index + Restricted(index, order) == info.tables.index;
    }
  }

  lemma FlagsAdded(info: Info, used: seq<bool>)
    ensures InfoOf(info, FlagsFields(used)) == Some(info.(tables := info.tables.(used := info.tables.used + used)))
  {
    if used != [] {
      InfoOfOne(info, Bytes(34, Flags(used)));
      FlagsReadBack(used);
    } else {
      assert info.tables.used + used == info.tables.used;
    }
  }

  lemma SuperAdded(su: Super)
    requires |Message(SuperFields(su))| <= MAX_LENGTH
    ensures InfoOf(NEW_INFO, [Bytes(10, Message(SuperFields(su)))]) ==
            if ValidUtf8(su.fileName) && ValidUtf8(su.createTime) then Some(NEW_INFO.(super := su)) else None
  {
    InfoOfOne(NEW_INFO, Bytes(10, Message(SuperFields(su))));
    SuperWritable(su);
    ScansBack(SuperFields(su));
    SuperReadBack(su);
  }

  lemma SuperWritable(su: Super)
    ensures AllWritable(SuperFields(su))
  {
  }

  lemma {:induction false} EntriesWritable(es: seq<Entry>)
    ensures AllWritable(EntriesFields(es))
  {
    if es != [] {
      EntriesWritable(es[..|es| - 1]);
    }
  }

  lemma {:induction false} PairsWritable(index: map<int32, uint64>, order: seq<int32>)
    requires forall k :: k in order ==> k in index
    ensures AllWritable(PairsFields(index, order))
  {
    if order != [] {
      PairsWritable(index, order[..|order| - 1]);
    }
  }

  lemma InfoScans(su: Super, t: Tables, order: seq<int32>)
    requires (forall k :: k in order ==> k in t.index) && |EncodeInfo(su, t, order)| <= MAX_LENGTH
    ensures Scan(EncodeInfo(su, t, order)) == Some(InfoFields(su, t, order)) && Short(InfoFields(su, t, order))
  {
    InfoWritable(su, t, order);
    AllShort(InfoFields(su, t, order));
    ScansBack(InfoFields(su, t, order));
  }

  lemma InfoWritable(su: Super, t: Tables, order: seq<int32>)
    requires forall k :: k in order ==> k in t.index
    ensures AllWritable(InfoFields(su, t, order))
  {
    EntriesWritable(t.entries);
    PairsWritable(t.index, order);
    WritableParts([Bytes(10, Message(SuperFields(su)))] + EntriesFields(t.entries), PairsFields(t.index, order));
    WritableParts([Bytes(10, Message(SuperFields(su)))] + EntriesFields(t.entries) + PairsFields(t.index, order), FlagsFields(t.used));
  }

  lemma WritableParts(a: seq<Field>, b: seq<Field>)
    requires AllWritable(a) && AllWritable(b)
    ensures AllWritable(a + b)
  {
  }

  lemma AllShort(fs: seq<Field>)
    requires |Message(fs)| <= MAX_LENGTH
    ensures Short(fs)
  {
    forall i | 0 <= i < |fs| && fs[i].Bytes? ensures |fs[i].data| <= MAX_LENGTH {
      DataFits(fs, i);
    }
  }

  lemma ShortParts(a: seq<Field>, b: seq<Field>)
    requires Short(a + b)
    ensures Short(a) && Short(b)
  {
    assert forall i :: 0 <= i < |a| ==> (a + b)[i] == a[i];
    assert forall i :: 0 <= i < |b| ==> (a + b)[|a| + i] == b[i];
  }

  /** The message is read back, its tables exactly as they were written in whatever order, exactly when both texts of the
      super block are UTF-8. */
  lemma InfoReadBack(su: Super, t: Tables, order: seq<int32>)
    requires Lists(order, t.index) && |EncodeInfo(su, t, order)| <= MAX_LENGTH
    ensures ParseInfo(EncodeInfo(su, t, order)) ==
            if ValidUtf8(su.fileName) && ValidUtf8(su.createTime) then Some(Info(su, t)) else None
  {
    var s, es, ps, fs := [Bytes(10, Message(SuperFields(su)))], EntriesFields(t.entries), PairsFields(t.index, order), FlagsFields(t.used);
    InfoScans(su, t, order);
    ShortParts(s + es + ps, fs);
    ShortParts(s + es, ps);
    ShortParts(s, es);
    assert s[0].Bytes?;
    InfoOfAppend(NEW_INFO, s + es + ps, fs);
    InfoOfAppend(NEW_INFO, s + es, ps);
    InfoOfAppend(NEW_INFO, s, es);
    SuperAdded(su);
    TablesReadBack(NEW_INFO.(super := su), t, order);
  }

  lemma TablesReadBack(info: Info, t: Tables, order: seq<int32>)
    requires info.tables == NEW_INFO.tables && Lists(order, t.index)
    requires Short(EntriesFields(t.entries)) && Short(PairsFields(t.index, order))
    ensures var i1 := info.(tables := Tables([], t.entries, map[])); var i2 := info.(tables := Tables([], t.entries, t.index));
            && InfoOf(info, EntriesFields(t.entries)) == Some(i1) && InfoOf(i1, PairsFields(t.index, order)) == Some(i2)
            && InfoOf(i2, FlagsFields(t.used)) == Some(info.(tables := t))
  {
    var i1 := info.(tables := Tables([], t.entries, map[]));
    var i2 := info.(tables := Tables([], t.entries, t.index));
    EntriesReadBack(info, t.entries);
    assert [] + t.entries == t.entries;
    PairsReadBack(i1, t.index, order);
    assert map[] + Restricted(t.index, order) == t.index;
    FlagsAdded(i2, t.used);
    assert [] + t.used == t.used;
  }

  // ----- the loops -----

  /** The serializer: super block, entries, pairs as the map hands them out, flags. */
  method InfoToBytes(su: Super, usage: seq<bool>, entries: seq<Entry>, index: map<int32, uint64>) returns (b: seq<byte>, ghost order: seq<int32>)
    ensures Lists(order, index) && b == EncodeInfo(su, Tables(usage, entries, index), order)
  {
    ghost var s := [Bytes(10, Message(SuperFields(su)))];
    b := Written(Bytes(10, Message(SuperFields(su))));
    OneField(s[0]);
    b := PutEntries(b, s, entries);
    b, order := PutPairs(b, s + EntriesFields(entries), index);
    MessageAppend(s + EntriesFields(entries) + PairsFields(index, order), FlagsFields(usage));
    if usage != [] {
      OneField(Bytes(34, Flags(usage)));
      b := b + Written(Bytes(34, Flags(usage)));
    }
  }

  method PutEntries(start: seq<byte>, ghost s: seq<Field>, entries: seq<Entry>) returns (b: seq<byte>)
    requires start == Message(s)
    ensures b == Message(s + EntriesFields(entries))
  {
    b := start;
    assert s + EntriesFields(entries[..0]) == s;
    for i := 0 to |entries|
      invariant b == Message(s + EntriesFields(entries[..i]))
    {
      EntriesNext(s, entries, i);
      b := b + Written(Bytes(18, Message(EntryFields(entries[i]))));
    }
    assert entries[..|entries|] == entries;
  }

  method PutPairs(start: seq<byte>, ghost s: seq<Field>, index: map<int32, uint64>) returns (b: seq<byte>, ghost order: seq<int32>)
    requires start == Message(s)
    ensures Lists(order, index) && b == Message(s + PairsFields(index, order))
  {
    b, order := start, [];
    assert s + PairsFields(index, order) == s;
    var rest := index;
    while rest != map[]
      invariant Listed(order, rest, index) && b == Message(s + PairsFields(index, order))
      decreases |rest|
    {
      var k :| k in rest;
      PairsNext(s, index, order, k);
      ListedNext(order, rest, index, k);
      b := b + Written(Bytes(26, Message(PairFields(k, index[k]))));
      order := order + [k];
      rest := rest - {k};
    }
  }

  /** `order` has the keys of the map that are no longer among the rest. */
  ghost predicate Listed(order: seq<int32>, rest: map<int32, uint64>, index: map<int32, uint64>) {
    && (forall k :: k in order <==> k in index && k !in rest)
    && (forall k :: k in rest ==> k in index && rest[k] == index[k])
    && forall i, j :: 0 <= i < j < |order| ==> order[i] != order[j]
  }

  lemma ListedNext(order: seq<int32>, rest: map<int32, uint64>, index: map<int32, uint64>, k: int32)
    requires Listed(order, rest, index) && k in rest
    ensures Listed(order + [k], rest - {k}, index)
  {
  }

  lemma EntriesNext(s: seq<Field>, entries: seq<Entry>, i: nat)
    requires i < |entries|
    ensures Message(s + EntriesFields(entries[..i + 1]))
            == Message(s + EntriesFields(entries[..i])) + Written(Bytes(18, Message(EntryFields(entries[i]))))
  {
    var f := Bytes(18, Message(EntryFields(entries[i])));
    assert entries[..i + 1][..i] == entries[..i];
    assert s + EntriesFields(entries[..i + 1]) == s + EntriesFields(entries[..i]) + [f];
    MessageAppend(s + EntriesFields(entries[..i]), [f]);
    OneField(f);
  }

  lemma PairsNext(s: seq<Field>, index: map<int32, uint64>, order: seq<int32>, k: int32)
    requires (forall j :: j in order ==> j in index) && k in index
    ensures Message(s + PairsFields(index, order + [k]))
            == Message(s + PairsFields(index, order)) + Written(Bytes(26, Message(PairFields(k, index[k]))))
  {
    var f := Bytes(26, Message(PairFields(k, index[k])));
    assert (order + [k])[..|order|] == order;
    assert s + PairsFields(index, order + [k]) == s + PairsFields(index, order) + [f];
    MessageAppend(s + PairsFields(index, order), [f]);
    OneField(f);
  }

  // ----- an example -----

  lemma SuperExample()
    ensures Message(SuperFields(Super([97], 1, 2, 3, [98]))) == [10, 1, 97, 16, 1, 24, 2, 32, 3, 42, 1, 98]
  {
    var a, b, c, d, e := [Bytes(10, [97])], [Number(16, 1)], [Number(24, 2)], [Number(32, 3)], [Bytes(42, [98])];
    assert SuperFields(Super([97], 1, 2, 3, [98])) == a + b + c + d + e;
    MessageAppend(a + b + c + d, e);
    MessageAppend(a + b + c, d);
    MessageAppend(a + b, c);
    MessageAppend(a, b);
    OneField(a[0]);
    OneField(b[0]);
    OneField(c[0]);
    OneField(d[0]);
    OneField(e[0]);
  }

  lemma EntryExample()
    ensures Message(EntryFields(Entry(1, 300, 2))) == [8, 1, 16, 172, 2, 24, 2]
  {
    var a, b, c := [Number(8, 1)], [Number(16, 300)], [Number(24, 2)];
    assert EntryFields(Entry(1, 300, 2)) == a + b + c;
    MessageAppend(a + b, c);
    MessageAppend(a, b);
    OneField(a[0]);
    OneField(b[0]);
    OneField(c[0]);
    assert Varint(300) == [172] + Varint(2);
  }

  lemma PairExample()
    ensures Message(PairFields(5, 7)) == [8, 5, 16, 7]
  {
    assert PairFields(5, 7) == [Number(8, 5)] + [Number(16, 7)];
    MessageAppend([Number(8, 5)], [Number(16, 7)]);
    OneField(Number(8, 5));
    OneField(Number(16, 7));
  }

  lemma OneOfEach(su: Super, e: Entry, k: int32, b: uint64)
    ensures EncodeInfo(su, Tables([true], [e], map[k := b]), [k])
            == Written(Bytes(10, Message(SuperFields(su)))) + Written(Bytes(18, Message(EntryFields(e))))
               + Written(Bytes(26, Message(PairFields(k, b)))) + Written(Bytes(34, [1]))
  {
    var f, g, h := Bytes(10, Message(SuperFields(su))), Bytes(18, Message(EntryFields(e))), Bytes(26, Message(PairFields(k, b)));
    EntriesNext([f], [e], 0);
    assert [e][..0 + 1] == [e] && [f] + EntriesFields([e][..0]) == [f];
    PairsNext([f] + EntriesFields([e]), map[k := b], [], k);
    assert [] + [k] == [k] && [f] + EntriesFields([e]) + PairsFields(map[k := b], []) == [f] + EntriesFields([e]);
    assert Flags([true]) == [1];
    MessageAppend([f] + EntriesFields([e]) + PairsFields(map[k := b], [k]), [Bytes(34, [1])]);
    OneField(f);
    OneField(Bytes(34, [1]));
  }

  /** A super block, one entry, one mapped key and one flag, byte for byte. */
  lemma InfoExample()
    ensures EncodeInfo(Super([97], 1, 2, 3, [98]), Tables([true], [Entry(1, 300, 2)], map[5 := 7]), [5])
            == [10, 12] + [10, 1, 97, 16, 1, 24, 2, 32, 3, 42, 1, 98] + ([18, 7] + [8, 1, 16, 172, 2, 24, 2])
               + ([26, 4] + [8, 5, 16, 7]) + ([34, 1] + [1])
  {
    OneOfEach(Super([97], 1, 2, 3, [98]), Entry(1, 300, 2), 5, 7);
    SuperExample();
    EntryExample();
    PairExample();
    ShortBytes(10, Message(SuperFields(Super([97], 1, 2, 3, [98]))));
    ShortBytes(18, Message(EntryFields(Entry(1, 300, 2))));
    ShortBytes(26, Message(PairFields(5, 7)));
    ShortBytes(34, [1]);
  }

  lemma ShortBytes(tag: byte, data: seq<byte>)
    requires tag < 128 && |data| < 128
    ensures Written(Bytes(tag, data)) == [tag, |data|] + data
  {
  }
}
