/** The two passes of the serializer and the parser loops, proved against `SlMessages`. */
module SlSerializer {
  import opened Common
  import opened Flattening
  import opened Wire
  import opened SlMessages

  /** The sizes the first pass leaves in a message for the second: the whole node and its packed links. */
  datatype Cached = Cached(node: nat, next: nat)

  ghost predicate CachedFor(cached: seq<Cached>, recs: seq<Rec>) {
    && |cached| == |recs|
    && forall j :: 0 <= j < |recs| ==> cached[j] == Cached(|EncodeNode(recs[j])|, |Packed(recs[j].next)|)
  }

  ghost function CachesOf(recs: seq<Rec>): (cached: seq<Cached>)
    ensures CachedFor(cached, recs)
  {
    seq(|recs|, j requires 0 <= j < |recs| => Cached(|EncodeNode(recs[j])|, |Packed(recs[j].next)|))
  }

  // ----- first pass: sizes -----

  method NodeByteSize(r: Rec) returns (c: Cached)
    ensures c == Cached(|EncodeNode(r)|, |Packed(r.next)|)
  {
    var data := 0;
    for i := 0 to |r.next|
      invariant data + PackedSize(r.next[i..]) == PackedSize(r.next)
    {
      data := data + Int32Size(r.next[i]);
    }
    var total := data;
    if data > 0 {
      total := total + 1 + VarintSize(data);
    }
    if r.value != [] {
      total := total + 1 + LengthSize(|r.value|);
    }
    if r.key != 0 {
      total := total + 1 + Int32Size(r.key);
    }
    PackedSizeAgrees(r.next);
    NodeSizeAgrees(r);
    c := Cached(total, data);
  }

  method ListByteSize(recs: seq<Rec>) returns (total: nat, cached: seq<Cached>)
    ensures total == |EncodeList(recs)| && CachedFor(cached, recs)
  {
    total, cached := |recs|, [];
    ghost var all := CachesOf(recs);
    for i := 0 to |recs|
      invariant cached == all[..i]
      invariant total + ListSize(recs[i..]) == ListSize(recs) + (|recs| - i)
    {
      var c := NodeByteSize(recs[i]);
      ListSizeStep(recs, i);
      total := total + LengthSize(c.node);
      assert c == all[i];
      CachesPrefix(all, i);
      cached := cached + [c];
    }
    ListSizeAgrees(recs);
  }

  lemma CachesPrefix(all: seq<Cached>, i: nat)
    requires i < |all|
    ensures all[..i] + [all[i]] == all[..i + 1]
  {
  }

  lemma ListSizeStep(recs: seq<Rec>, i: nat)
    requires i < |recs|
    ensures ListSize(recs[i..]) == 1 + LengthSize(|EncodeNode(recs[i])|) + ListSize(recs[i + 1..])
  {
    NodeSizeAgrees(recs[i]);
    assert recs[i..][1..] == recs[i + 1..];
  }

  // ----- second pass: bytes -----

  /** The first `at` bytes of the buffer are those. */
  ghost predicate Holds(buf: array<byte>, at: nat, bytes: seq<byte>)
    reads buf
  {
    at == |bytes| <= buf.Length && buf[..at] == bytes
  }

  method PutByte(buf: array<byte>, at: nat, b: byte, ghost done: seq<byte>) returns (end: nat)
    requires Holds(buf, at, done) && at < buf.Length
    modifies buf
    ensures Holds(buf, end, done + [b])
  {
    buf[at] := b;
    end := at + 1;
    assert buf[..end] == buf[..at] + [b];
  }

  method PutVarint(buf: array<byte>, at: nat, n: nat, ghost done: seq<byte>) returns (end: nat)
    requires Holds(buf, at, done) && at + |Varint(n)| <= buf.Length
    modifies buf
    ensures Holds(buf, end, done + Varint(n))
  {
    var v := n;
    end := at;
    ghost var put := done;
    while v >= 128
      invariant end + |Varint(v)| <= buf.Length
      invariant Holds(buf, end, put)
      invariant put + Varint(v) == done + Varint(n)
      decreases v
    {
      ghost var digit: seq<byte> := [v % 128 + 128];
      assert (put + digit) + Varint(v / 128) == put + (digit + Varint(v / 128));
      end := PutByte(buf, end, v % 128 + 128, put);
      put := put + digit;
      v := v / 128;
    }
    end := PutByte(buf, end, v, put);
  }

  method PutBytes(buf: array<byte>, at: nat, data: seq<byte>, ghost done: seq<byte>) returns (end: nat)
    requires Holds(buf, at, done) && at + |data| <= buf.Length
    modifies buf
    ensures Holds(buf, end, done + data)
  {
    end := at;
    for i := 0 to |data|
      invariant end == at + i && Holds(buf, end, done + data[..i])
    {
      end := PutByte(buf, end, data[i], done + data[..i]);
      assert done + data[..i + 1] == done + data[..i] + [data[i]];
    }
    assert data[..|data|] == data;
  }

  method PutPacked(buf: array<byte>, at: nat, xs: seq<int32>, ghost done: seq<byte>) returns (end: nat)
    requires Holds(buf, at, done) && at + |Packed(xs)| <= buf.Length
    modifies buf
    ensures Holds(buf, end, done + Packed(xs))
  {
    end := at;
    ghost var put := done;
    for i := 0 to |xs|
      invariant Holds(buf, end, put)
      invariant put + Packed(xs[i..]) == done + Packed(xs)
    {
      assert xs[i..][1..] == xs[i + 1..];
      assert (put + Int32(xs[i])) + Packed(xs[i + 1..]) == put + (Int32(xs[i]) + Packed(xs[i + 1..]));
      assert |put + Packed(xs[i..])| <= buf.Length;
      end := PutVarint(buf, end, Extend(xs[i]), put);
      put := put + Int32(xs[i]);
    }
  }

  /** A tag and a length. */
  method PutHeader(buf: array<byte>, at: nat, tag: byte, size: nat, ghost done: seq<byte>) returns (end: nat)
    requires Holds(buf, at, done) && at + 1 + |Varint(size)| <= buf.Length
    modifies buf
    ensures Holds(buf, end, done + [tag] + Varint(size))
  {
    end := PutByte(buf, at, tag, done);
    end := PutVarint(buf, end, size, done + [tag]);
  }

  method PutKey(buf: array<byte>, at: nat, key: int32, ghost done: seq<byte>) returns (end: nat)
    requires Holds(buf, at, done) && at + |KeyField(key)| <= buf.Length
    modifies buf
    ensures Holds(buf, end, done + KeyField(key))
  {
    end := at;
    assert done + [] == done;
    if key != 0 {
      end := PutHeader(buf, end, TAG_KEY, Extend(key), done);
      assert done + [TAG_KEY] + Int32(key) == done + KeyField(key);
    }
  }

  method PutValue(buf: array<byte>, at: nat, value: Value, ghost done: seq<byte>) returns (end: nat)
    requires Holds(buf, at, done) && at + |ValueField(value)| <= buf.Length
    modifies buf
    ensures Holds(buf, end, done + ValueField(value))
  {
    end := at;
    assert done + [] == done;
    if value != [] {
      end := PutHeader(buf, end, TAG_VALUE, |value|, done);
      end := PutBytes(buf, end, value, done + [TAG_VALUE] + Varint(|value|));
      Framed(done, TAG_VALUE, value);
    }
  }

  lemma Framed(done: seq<byte>, tag: byte, data: seq<byte>)
    ensures done + [tag] + Varint(|data|) + data == done + ([tag] + Delimited(data))
    ensures |[tag] + Delimited(data)| == 1 + |Varint(|data|)| + |data|
  {
  }

  method PutNext(buf: array<byte>, at: nat, next: seq<int32>, size: nat, ghost done: seq<byte>) returns (end: nat)
    requires size == |Packed(next)|
    requires Holds(buf, at, done) && at + |NextField(next)| <= buf.Length
    modifies buf
    ensures Holds(buf, end, done + NextField(next))
  {
    end := at;
    assert done + [] == done;
    PackedSizes(next);
    if size > 0 {
      end := PutHeader(buf, end, TAG_NEXT, size, done);
      end := PutPacked(buf, end, next, done + [TAG_NEXT] + Varint(size));
      Framed(done, TAG_NEXT, Packed(next));
    }
  }

  /** `Node::_InternalSerialize`: the cached size of the links is their length prefix. */
  method PutNode(buf: array<byte>, at: nat, r: Rec, c: Cached, ghost done: seq<byte>) returns (end: nat)
    requires c == Cached(|EncodeNode(r)|, |Packed(r.next)|)
    requires Holds(buf, at, done) && at + |EncodeNode(r)| <= buf.Length
    modifies buf
    ensures Holds(buf, end, done + EncodeNode(r))
  {
    ghost var k, v, n := KeyField(r.key), ValueField(r.value), NextField(r.next);
    FieldSizes(r);
    end := PutKey(buf, at, r.key, done);
    end := PutValue(buf, end, r.value, done + k);
    end := PutNext(buf, end, r.next, c.next, done + k + v);
    assert done + k + v + n == done + (k + v + n);
  }

  /** One node of the list behind its tag and its cached size. */
  method PutFramed(buf: array<byte>, at: nat, r: Rec, c: Cached, ghost done: seq<byte>) returns (end: nat)
    requires c == Cached(|EncodeNode(r)|, |Packed(r.next)|)
    requires Holds(buf, at, done) && at + |[TAG_NODES] + Delimited(EncodeNode(r))| <= buf.Length
    modifies buf
    ensures Holds(buf, end, done + ([TAG_NODES] + Delimited(EncodeNode(r))))
  {
    Framed(done, TAG_NODES, EncodeNode(r));
    end := PutHeader(buf, at, TAG_NODES, c.node, done);
    end := PutNode(buf, end, r, c, done + [TAG_NODES] + Varint(c.node));
  }

  /** `Skiplist::_InternalSerialize` into a buffer of exactly the computed size. */
  method PutList(recs: seq<Rec>, cached: seq<Cached>, buf: array<byte>)
    requires CachedFor(cached, recs) && buf.Length == |EncodeList(recs)|
    modifies buf
    ensures buf[..] == EncodeList(recs)
  {
    var end: nat := 0;
    ghost var put: seq<byte> := [];
    for i := 0 to |recs|
      invariant Holds(buf, end, put)
      invariant put + EncodeList(recs[i..]) == EncodeList(recs)
    {
      ghost var frame := [TAG_NODES] + Delimited(EncodeNode(recs[i]));
      EncodeListAt(recs, i);
      assert (put + frame) + EncodeList(recs[i + 1..]) == put + (frame + EncodeList(recs[i + 1..]));
      assert |put + EncodeList(recs[i..])| == buf.Length;
      end := PutFramed(buf, end, recs[i], cached[i], put);
      put := put + frame;
    }
    assert buf[..] == buf[..end];
  }

  lemma EncodeListAt(recs: seq<Rec>, i: nat)
    requires i < |recs|
    ensures EncodeList(recs[i..]) == [TAG_NODES] + Delimited(EncodeNode(recs[i])) + EncodeList(recs[i + 1..])
  {
    assert recs[i..][1..] == recs[i + 1..];
  }

  /** `ByteSizeLong`, then `SerializeToArray` into a vector of that size. */
  method SerializeToArray(recs: seq<Rec>) returns (buf: array<byte>)
    ensures fresh(buf) && buf[..] == EncodeList(recs)
  {
    var size, cached := ListByteSize(recs);
    buf := new byte[size];
    PutList(recs, cached, buf);
  }

  // ----- parsing -----

  /** `Node::_InternalParse`: one tag and one field a round. */
  method ParseNodeFrom(b: seq<byte>) returns (r: Option<Rec>)
    ensures r == ParseNode(b, NEW_NODE)
  {
    var p, acc := b, NEW_NODE;
    while p != []
      invariant ParseNode(p, acc) == ParseNode(b, NEW_NODE)
      decreases |p|
    {
      var t := ReadTag(p);
      if t == None {
        return None;
      }
      var f := NodeField(t.value.0, t.value.1, acc);
      if f == None {
        return None;
      }
      acc, p := f.value.0, f.value.1;
    }
    return Some(acc);
  }

  /** `Skiplist::_InternalParse`: the inner loop goes on while the next byte is the tag of another node. */
  method ParseListFrom(b: seq<byte>) returns (r: Option<seq<Rec>>)
    ensures r == ParseList(b, [])
  {
    var p, acc := b, [];
    while p != []
      invariant ParseList(p, acc) == ParseList(b, [])
      decreases |p|
    {
      var t := ReadTag(p);
      if t == None {
        return None;
      }
      if t.value.0 == TAG_NODES as nat {
        p := t.value.1;
        var more := true;
        while more
          invariant more ==> var f := ListField(TAG_NODES, p, acc);
                             ParseList(b, []) == if f.Some? then ParseList(f.value.1, f.value.0) else None
          invariant !more ==> ParseList(b, []) == ParseList(p, acc)
          invariant |p| < |t.value.1| + 1
          decreases more, |p|
        {
          var d := ReadDelimited(p);
          if d == None {
            return None;
          }
          var rec := ParseNodeFrom(d.value.0);
          if rec == None {
            return None;
          }
          acc, p := acc + [rec.value], d.value.1;
          more := p != [] && p[0] == TAG_NODES;
          if more {
            OneByteTag(TAG_NODES, p[1..]);
            assert p == [TAG_NODES] + p[1..];
            p := p[1..];
          }
        }
      } else {
        var rest := SkipField(t.value.0, t.value.1);
        if rest == None {
          return None;
        }
        p := rest.value;
      }
    }
    return Some(acc);
  }
}
