/** The `Node` and `Skiplist` messages: what the generated serializer writes and the generated parser accepts. */
module SlMessages {
  import opened Common
  import opened SkiplistSpec
  import opened Flattening
  import opened Wire

  const TAG_KEY: byte := 8
  const TAG_VALUE: byte := 18
  const TAG_NEXT: byte := 26
  const TAG_NEXT_SINGLE: byte := 24
  const TAG_NODES: byte := 10

  // ----- writing -----

  function KeyField(key: int32): seq<byte> {
    if key != 0 then [TAG_KEY] + Int32(key) else []
  }

  function ValueField(value: Value): seq<byte> {
    if value != [] then [TAG_VALUE] + Delimited(value) else []
  }

  function NextField(next: seq<int32>): seq<byte> {
    if next != [] then [TAG_NEXT] + Delimited(Packed(next)) else []
  }

  /** A `Node` message: default values are left out, the links are packed. */
  function EncodeNode(r: Rec): seq<byte> {
    KeyField(r.key) + ValueField(r.value) + NextField(r.next)
  }

  /** A `Skiplist` message: every node framed by its tag and its length. */
  function EncodeList(recs: seq<Rec>): seq<byte> {
    if recs == [] then [] else [TAG_NODES] + Delimited(EncodeNode(recs[0])) + EncodeList(recs[1..])
  }

  // ----- reading -----

  /** Past a field with an unknown tag: a varint, eight bytes, a delimited field or four bytes. */
  function SkipField(tag: nat, b: seq<byte>): (r: Option<seq<byte>>)
    ensures r.Some? ==> |r.value| <= |b|
  {
    if tag / 8 == 0 then None
    else if tag % 8 == 0 then
      match ReadVarint(b, MAX_VARINT) case None => None case Some(r) => Some(b[r.1..])
    else if tag % 8 == 1 then (if |b| >= 8 then Some(b[8..]) else None)
    else if tag % 8 == 2 then
      match ReadDelimited(b) case None => None case Some(r) => Some(r.1)
    else if tag % 8 == 5 then (if |b| >= 4 then Some(b[4..]) else None)
    else None
  }

  const NEW_NODE: Rec := Rec(0, [], [])

  /** One field of a `Node`: the message with the field set, and the bytes after it. */
  function NodeField(tag: nat, b: seq<byte>, acc: Rec): (r: Option<(Rec, seq<byte>)>)
    ensures r.Some? ==> |r.value.1| <= |b|
  {
    if tag == TAG_KEY as nat then
      match ReadVarint(b, MAX_VARINT)
      case None => None
      case Some(r) => Some((acc.(key := Truncate(r.0)), b[r.1..]))
    else if tag == TAG_VALUE as nat then
      match ReadDelimited(b)
      case None => None
      case Some(r) => if ValidUtf8(r.0) then Some((acc.(value := r.0), r.1)) else None
    else if tag == TAG_NEXT as nat then
      match ReadDelimited(b)
      case None => None
      case Some(r) => match ReadPacked(r.0)
        case None => None
        case Some(xs) => Some((acc.(next := acc.next + xs), r.1))
    else if tag == TAG_NEXT_SINGLE as nat then
      match ReadVarint(b, MAX_VARINT)
      case None => None
      case Some(r) => Some((acc.(next := acc.next + [Truncate(r.0)]), b[r.1..]))
    else
      match SkipField(tag, b)
      case None => None
      case Some(rest) => Some((acc, rest))
  }

  /** The parser loop of `Node`, from the fields already read. */
  function ParseNode(b: seq<byte>, acc: Rec): Option<Rec>
    decreases |b|
  {
    if b == [] then Some(acc)
    else match ReadTag(b)
      case None => None
      case Some(t) => match NodeField(t.0, t.1, acc)
        case None => None
        case Some(r) => ParseNode(r.1, r.0)
  }

  function ListField(tag: nat, b: seq<byte>, acc: seq<Rec>): (r: Option<(seq<Rec>, seq<byte>)>)
    ensures r.Some? ==> |r.value.1| <= |b|
  {
    if tag == TAG_NODES as nat then
      match ReadDelimited(b)
      case None => None
      case Some(r) => match ParseNode(r.0, NEW_NODE)
        case None => None
        case Some(rec) => Some((acc + [rec], r.1))
    else
      match SkipField(tag, b)
      case None => None
      case Some(rest) => Some((acc, rest))
  }

  /** The parser loop of `Skiplist`. */
  function ParseList(b: seq<byte>, acc: seq<Rec>): Option<seq<Rec>>
    decreases |b|
  {
    if b == [] then Some(acc)
    else match ReadTag(b)
      case None => None
      case Some(t) => match ListField(t.0, t.1, acc)
        case None => None
        case Some(r) => ParseList(r.1, r.0)
  }

  // ----- round trip -----

  ghost predicate AllUtf8(recs: seq<Rec>) {
    forall j :: 0 <= j < |recs| ==> ValidUtf8(recs[j].value)
  }

  lemma OneByteTag(tag: byte, rest: seq<byte>)
    requires 0 < tag < 128
    ensures ReadTag([tag] + rest) == Some((tag, rest))
  {
    var b := [tag] + rest;
    assert b[0] == tag && b[1..] == rest;
    assert ReadVarint(b, MAX_TAG) == Some((tag, 1));
  }

  lemma NodeStep(tag: byte, body: seq<byte>, acc: Rec)
    requires 0 < tag < 128
    ensures ParseNode([tag] + body, acc) ==
            var f := NodeField(tag, body, acc); if f.Some? then ParseNode(f.value.1, f.value.0) else None
  {
    OneByteTag(tag, body);
  }

  lemma KeyReadBack(key: int32, rest: seq<byte>, acc: Rec)
    requires acc.key == 0
    ensures ParseNode(KeyField(key) + rest, acc) == ParseNode(rest, acc.(key := key))
  {
    if key == 0 {
      assert KeyField(key) + rest == rest;
      assert acc.(key := key) == acc;
    } else {
      var body := Int32(key) + rest;
      assert KeyField(key) + rest == [TAG_KEY] + body;
      Int32RoundTrip(key, rest);
      assert NodeField(TAG_KEY, body, acc) == Some((acc.(key := key), rest));
      NodeStep(TAG_KEY, body, acc);
    }
  }

  lemma ValueReadBack(value: Value, rest: seq<byte>, acc: Rec)
    requires acc.value == [] && |value| <= MAX_LENGTH
    ensures ParseNode(ValueField(value) + rest, acc) == if ValidUtf8(value) then ParseNode(rest, acc.(value := value)) else None
  {
    if value == [] {
      assert ValueField(value) + rest == rest;
      assert acc.(value := value) == acc;
    } else {
      var body := Delimited(value) + rest;
      assert ValueField(value) + rest == [TAG_VALUE] + body;
      DelimitedRoundTrip(value, rest);
      assert NodeField(TAG_VALUE, body, acc) == if ValidUtf8(value) then Some((acc.(value := value), rest)) else None;
      NodeStep(TAG_VALUE, body, acc);
    }
  }

  lemma NextReadBack(next: seq<int32>, acc: Rec)
    requires acc.next == [] && |Packed(next)| <= MAX_LENGTH
    ensures ParseNode(NextField(next), acc) == Some(acc.(next := next))
  {
    if next == [] {
      assert acc.(next := next) == acc;
    } else {
      var body := Delimited(Packed(next)) + [];
      assert NextField(next) == [TAG_NEXT] + body;
      DelimitedRoundTrip(Packed(next), []);
      PackedRoundTrip(next);
      assert acc.next + next == next;
      assert NodeField(TAG_NEXT, body, acc) == Some((acc.(next := next), []));
      NodeStep(TAG_NEXT, body, acc);
    }
  }

  lemma FieldSizes(r: Rec)
    ensures |EncodeNode(r)| == |KeyField(r.key)| + |ValueField(r.value)| + |NextField(r.next)|
    ensures |r.value| <= |EncodeNode(r)| && |Packed(r.next)| <= |EncodeNode(r)|
  {
  }

  /** A node's message parses back to the node exactly when its value is well-formed UTF-8, and otherwise not at all. */
  lemma NodeRoundTrip(r: Rec)
    requires |EncodeNode(r)| <= MAX_LENGTH
    ensures ParseNode(EncodeNode(r), NEW_NODE) == if ValidUtf8(r.value) then Some(r) else None
  {
    FieldSizes(r);
    var v, n := ValueField(r.value), NextField(r.next);
    assert EncodeNode(r) == KeyField(r.key) + (v + n);
    KeyReadBack(r.key, v + n, NEW_NODE);
    ValueReadBack(r.value, n, Rec(r.key, [], []));
    NextReadBack(r.next, Rec(r.key, r.value, []));
  }

  lemma ListStep(node: seq<byte>, rest: seq<byte>, acc: seq<Rec>)
    requires |node| <= MAX_LENGTH
    ensures ParseList([TAG_NODES] + Delimited(node) + rest, acc) ==
            var rec := ParseNode(node, NEW_NODE); if rec.Some? then ParseList(rest, acc + [rec.value]) else None
  {
    var body := Delimited(node) + rest;
    assert [TAG_NODES] + Delimited(node) + rest == [TAG_NODES] + body;
    OneByteTag(TAG_NODES, body);
    DelimitedRoundTrip(node, rest);
    assert ListField(TAG_NODES, body, acc) ==
      var rec := ParseNode(node, NEW_NODE); if rec.Some? then Some((acc + [rec.value], rest)) else None;
  }

  lemma AllUtf8Cons(recs: seq<Rec>)
    requires recs != []
    ensures AllUtf8(recs) <==> ValidUtf8(recs[0].value) && AllUtf8(recs[1..])
  {
    assert forall j :: 1 <= j < |recs| ==> recs[j] == recs[1..][j - 1];
  }

  lemma EncodeListCons(recs: seq<Rec>)
    requires recs != []
    ensures EncodeList(recs) == [TAG_NODES] + Delimited(EncodeNode(recs[0])) + EncodeList(recs[1..])
    ensures |EncodeNode(recs[0])| <= |EncodeList(recs)| && |EncodeList(recs[1..])| <= |EncodeList(recs)|
  {
  }

  /** The first record is read back, or the parser gives up. */
  lemma FirstReadBack(recs: seq<Rec>, acc: seq<Rec>)
    requires recs != [] && |EncodeNode(recs[0])| <= MAX_LENGTH
    ensures ParseList(EncodeList(recs), acc) ==
            if ValidUtf8(recs[0].value) then ParseList(EncodeList(recs[1..]), acc + [recs[0]]) else None
  {
    ListStep(EncodeNode(recs[0]), EncodeList(recs[1..]), acc);
    NodeRoundTrip(recs[0]);
  }

  /** The list read, when its tail is. */
  lemma RestReadBack(recs: seq<Rec>, acc: seq<Rec>, rest: Option<seq<Rec>>)
    requires recs != [] && |EncodeNode(recs[0])| <= MAX_LENGTH && rest == ParseList(EncodeList(recs[1..]), acc + [recs[0]])
    requires rest == if AllUtf8(recs[1..]) then Some(acc + recs) else None
    ensures ParseList(EncodeList(recs), acc) == if AllUtf8(recs) then Some(acc + recs) else None
  {
    FirstReadBack(recs, acc);
    AllUtf8Cons(recs);
  }

  lemma FirstMoves(acc: seq<Rec>, recs: seq<Rec>)
    requires recs != []
    ensures (acc + [recs[0]]) + recs[1..] == acc + recs
  {
  }

  /** The list read after some records have been read. */
  lemma {:induction false} ListReadBack(recs: seq<Rec>, acc: seq<Rec>)
    requires |EncodeList(recs)| <= MAX_LENGTH
    ensures ParseList(EncodeList(recs), acc) == if AllUtf8(recs) then Some(acc + recs) else None
    decreases |recs|
  {
    if recs == [] {
      assert acc + recs == acc;
    } else {
      var rest := ParseList(EncodeList(recs[1..]), acc + [recs[0]]);
      EncodeListCons(recs);
      ListReadBack(recs[1..], acc + [recs[0]]);
      FirstMoves(acc, recs);
      RestReadBack(recs, acc, rest);
    }
  }

  /** The whole message parses back exactly when every value is well-formed UTF-8; one bad value loses them all. */
  lemma CodecRoundTrip(recs: seq<Rec>)
    requires |EncodeList(recs)| <= MAX_LENGTH
    ensures ParseList(EncodeList(recs), []) == Some(recs) <==> AllUtf8(recs)
    ensures !AllUtf8(recs) ==> ParseList(EncodeList(recs), []) == None
  {
    assert [] + recs == recs;
    ListReadBack(recs, []);
  }

  // ----- sizes computed ahead of writing -----

  function Int32Size(x: int32): nat {
    VarintSize(Extend(x))
  }

  function PackedSize(xs: seq<int32>): nat {
    if xs == [] then 0 else Int32Size(xs[0]) + PackedSize(xs[1..])
  }

  function LengthSize(n: nat): nat {
    VarintSize(n) + n
  }

  /** `Node::ByteSizeLong`. */
  function NodeSize(r: Rec): nat {
    var data := PackedSize(r.next);
    (if data > 0 then 1 + VarintSize(data) else 0) + data
    + (if r.value != [] then 1 + LengthSize(|r.value|) else 0)
    + (if r.key != 0 then 1 + Int32Size(r.key) else 0)
  }

  /** `Skiplist::ByteSizeLong`. */
  function ListSize(recs: seq<Rec>): nat {
    if recs == [] then 0 else 1 + LengthSize(NodeSize(recs[0])) + ListSize(recs[1..])
  }

  lemma {:induction false} PackedSizeAgrees(xs: seq<int32>)
    ensures PackedSize(xs) == |Packed(xs)|
  {
    if xs != [] {
      SizeAgrees(Extend(xs[0]));
      PackedSizeAgrees(xs[1..]);
    }
  }

  /** The size computed for a node is the number of bytes written for it. */
  lemma NodeSizeAgrees(r: Rec)
    ensures NodeSize(r) == |EncodeNode(r)|
  {
    PackedSizeAgrees(r.next);
    PackedSizes(r.next);
    SizeAgrees(|Packed(r.next)|);
    SizeAgrees(|r.value|);
    SizeAgrees(Extend(r.key));
  }

  /** The size computed for the list is the number of bytes written for it. */
  lemma {:induction false} ListSizeAgrees(recs: seq<Rec>)
    ensures ListSize(recs) == |EncodeList(recs)|
  {
    if recs != [] {
      NodeSizeAgrees(recs[0]);
      SizeAgrees(|EncodeNode(recs[0])|);
      ListSizeAgrees(recs[1..]);
    }
  }
}
