/** What the two parsers make of every input, and what the serializers write, in terms of fields. */
module SlFields {
  import opened Common
  import opened Flattening
  import opened Wire
  import opened SlMessages
  import opened Fields

  // ----- nodes -----

  /** Field 1 is the key, field 2 the text, field 3 the links, packed or one by one; a later key or text replaces an
      earlier one, links add up, and everything else is passed over. */
  function NodeWith(r: Rec, f: Field): Option<Rec> {
    match f
    case Number(8, n) => Some(r.(key := Truncate(n)))
    case Bytes(18, text) => if ValidUtf8(text) then Some(r.(value := text)) else None
    case Bytes(26, links) => (match ReadPacked(links) case None => None case Some(xs) => Some(r.(next := r.next + xs)))
    case Number(24, n) => Some(r.(next := r.next + [Truncate(n)]))
    case _ => Some(r)
  }

  function NodeOf(r: Rec, fs: seq<Field>): Option<Rec>
    decreases |fs|
  {
    if fs == [] then Some(r)
    else match NodeWith(r, fs[0]) case None => None case Some(s) => NodeOf(s, fs[1..])
  }

  /** What the parsers pass over is one field. */
  lemma SkippedIs(tag: nat, b: seq<byte>)
    ensures SkipField(tag, b) == match ReadField(tag, b) case None => None case Some(f) => Some(f.1)
  {
  }

  lemma NodeFieldIs(tag: nat, b: seq<byte>, r: Rec)
    ensures NodeField(tag, b, r) == match ReadField(tag, b)
              case None => None
              case Some(f) => match NodeWith(r, f.0) case None => None case Some(s) => Some((s, f.1))
  {
  }

  /** For every input: the node is made of the fields, and there is none if the input has a malformed one. */
  lemma {:induction false} NodeParses(b: seq<byte>, r: Rec)
    ensures ParseNode(b, r) == match Scan(b) case None => None case Some(fs) => NodeOf(r, fs)
    decreases |b|
  {
    if b != [] && ReadTag(b).Some? {
      var (tag, rest) := ReadTag(b).value;
      NodeFieldIs(tag, rest, r);
      var f := ReadField(tag, rest);
      if f.Some? {
        var s := NodeWith(r, f.value.0);
        if s.Some? {
          NodeParses(f.value.1, s.value);
        }
        if Scan(f.value.1).Some? {
          NodeOfCons(r, f.value.0, Scan(f.value.1).value);
        }
      }
    }
  }

  lemma NodeOfCons(r: Rec, f: Field, fs: seq<Field>)
    ensures NodeOf(r, [f] + fs) == match NodeWith(r, f) case None => None case Some(s) => NodeOf(s, fs)
  {
  }

  // ----- lists -----

  function ListWith(recs: seq<Rec>, f: Field): Option<seq<Rec>> {
    match f
    case Bytes(10, node) =>
      (match Scan(node)
       case None => None
       case Some(fs) => match NodeOf(NEW_NODE, fs) case None => None case Some(r) => Some(recs + [r]))
    case _ => Some(recs)
  }

  function ListOf(recs: seq<Rec>, fs: seq<Field>): Option<seq<Rec>>
    decreases |fs|
  {
    if fs == [] then Some(recs)
    else match ListWith(recs, fs[0]) case None => None case Some(s) => ListOf(s, fs[1..])
  }

  lemma ListFieldIs(tag: nat, b: seq<byte>, recs: seq<Rec>)
    ensures ListField(tag, b, recs) == match ReadField(tag, b)
              case None => None
              case Some(f) => match ListWith(recs, f.0) case None => None case Some(s) => Some((s, f.1))
  {
    if tag == 10 {
      var d := ReadDelimited(b);
      if d.Some? {
        NodeParses(d.value.0, NEW_NODE);
      }
    } else {
      SkippedIs(tag, b);
    }
  }

  lemma ListOfCons(recs: seq<Rec>, f: Field, fs: seq<Field>)
    ensures ListOf(recs, [f] + fs) == match ListWith(recs, f) case None => None case Some(s) => ListOf(s, fs)
  {
  }

  /** For every input: the records are those of its fields 1, and there are none if anything is malformed. */
  lemma {:induction false} ListParses(b: seq<byte>, recs: seq<Rec>)
    ensures ParseList(b, recs) == match Scan(b) case None => None case Some(fs) => ListOf(recs, fs)
    decreases |b|
  {
    if b != [] && ReadTag(b).Some? {
      var (tag, rest) := ReadTag(b).value;
      ListFieldIs(tag, rest, recs);
      var f := ReadField(tag, rest);
      if f.Some? {
        var s := ListWith(recs, f.value.0);
        if s.Some? {
          ListParses(f.value.1, s.value);
        }
        if Scan(f.value.1).Some? {
          ListOfCons(recs, f.value.0, Scan(f.value.1).value);
        }
      }
    }
  }

  // ----- writing -----

  /** The fields a node is written as: those that are not empty or zero, by number. */
  function FieldsOf(r: Rec): seq<Field> {
    (if r.key != 0 then [Number(8, Extend(r.key))] else [])
    + (if r.value != [] then [Bytes(18, r.value)] else [])
    + (if r.next != [] then [Bytes(26, Packed(r.next))] else [])
  }

  lemma NodeWritten(r: Rec)
    ensures EncodeNode(r) == Message(FieldsOf(r))
  {
    var k := if r.key != 0 then [Number(8, Extend(r.key))] else [];
    var v := if r.value != [] then [Bytes(18, r.value)] else [];
    var n := if r.next != [] then [Bytes(26, Packed(r.next))] else [];
    MessageAppend(k + v, n);
    MessageAppend(k, v);
    OneField(Number(8, Extend(r.key)));
    OneField(Bytes(18, r.value));
    OneField(Bytes(26, Packed(r.next)));
    assert Message(k) == KeyField(r.key) && Message(v) == ValueField(r.value) && Message(n) == NextField(r.next);
  }

  function NodesOf(recs: seq<Rec>): seq<Field> {
    if recs == [] then [] else [Bytes(10, EncodeNode(recs[0]))] + NodesOf(recs[1..])
  }

  lemma {:induction false} ListWritten(recs: seq<Rec>)
    ensures EncodeList(recs) == Message(NodesOf(recs))
  {
    if recs != [] {
      var f := Bytes(10, EncodeNode(recs[0]));
      ListWritten(recs[1..]);
      MessageAppend([f], NodesOf(recs[1..]));
      OneField(f);
    }
  }

  // ----- an example -----

  /** The record of a node with key 5 and text "a", whose one link is null: minus two takes ten bytes. */
  lemma NodeExample()
    ensures EncodeNode(Rec(5, [97], [NULL])) == [8, 5, 18, 1, 97, 26, 10, 254, 255, 255, 255, 255, 255, 255, 255, 255, 1]
  {
    MinusTwo();
    assert Packed([NULL]) == Int32(NULL) by {
      PackedOne(NULL);
    }
    assert Varint(10) == [10] && Varint(5) == [5] && Varint(1) == [1];
    assert Delimited(Packed([NULL])) == [10] + Int32(NULL);
    assert Delimited([97]) == [1, 97];
  }

  lemma MinusTwo()
    ensures Int32(NULL) == [254, 255, 255, 255, 255, 255, 255, 255, 255, 1]
  {
    var n := Extend(NULL);
    assert n == 0xFFFF_FFFF_FFFF_FFFE;
    assert Varint(1) == [1];
    assert Varint(0xFF) == [255, 1];
    assert Varint(0x7FFF) == [255] + Varint(0xFF);
    assert Varint(0x3F_FFFF) == [255] + Varint(0x7FFF);
    assert Varint(0x1FFF_FFFF) == [255] + Varint(0x3F_FFFF);
    assert Varint(0xF_FFFF_FFFF) == [255] + Varint(0x1FFF_FFFF);
    assert Varint(0x7FF_FFFF_FFFF) == [255] + Varint(0xF_FFFF_FFFF);
    assert Varint(0x3_FFFF_FFFF_FFFF) == [255] + Varint(0x7FF_FFFF_FFFF);
    assert Varint(0x1FF_FFFF_FFFF_FFFF) == [255] + Varint(0x3_FFFF_FFFF_FFFF);
    assert Varint(n) == [254] + Varint(0x1FF_FFFF_FFFF_FFFF);
  }
}
