/** A message as the sequence of its fields, whatever they mean. */
module Fields {
  import opened Common
  import opened Wire

  /** A tag is a field number times eight and a wire type: 0 for a number, 2 for counted bytes, 1 and 5 for eight and four
      bytes. */
  datatype Field = Number(tag: nat, n: nat) | Bytes(tag: nat, data: seq<byte>) | Fixed(tag: nat, data: seq<byte>)

  /** The fields of a message, if it is one. */
  function Scan(b: seq<byte>): Option<seq<Field>>
    decreases |b|
  {
    if b == [] then Some([])
    else match ReadTag(b)
      case None => None
      case Some(t) => match ReadField(t.0, t.1)
        case None => None
        case Some(f) => match Scan(f.1)
          case None => None
          case Some(rest) => Some([f.0] + rest)
  }

  function ReadField(tag: nat, b: seq<byte>): (r: Option<(Field, seq<byte>)>)
    ensures r.Some? ==> |r.value.1| <= |b| && r.value.0.tag == tag
  {
    if tag < 8 then None
    else match tag % 8
      case 0 => (match ReadVarint(b, MAX_VARINT) case None => None case Some(r) => Some((Number(tag, r.0), b[r.1..])))
      case 1 => if |b| < 8 then None else Some((Fixed(tag, b[..8]), b[8..]))
      case 2 => (match ReadDelimited(b) case None => None case Some(r) => Some((Bytes(tag, r.0), r.1)))
      case 5 => if |b| < 4 then None else Some((Fixed(tag, b[..4]), b[4..]))
      case _ => None
  }

  // ----- writing -----

  ghost predicate Proper(f: Field) {
    && 8 <= f.tag < 0x1_0000_0000
    && match f
       case Number(tag, n) => tag % 8 == 0 && n < TWO64
       case Bytes(tag, data) => tag % 8 == 2 && |data| <= MAX_LENGTH
       case Fixed(tag, data) => (tag % 8 == 1 && |data| == 8) || (tag % 8 == 5 && |data| == 4)
  }

  function Written(f: Field): seq<byte> {
    Varint(f.tag) + match f case Number(_, n) => Varint(n) case Bytes(_, data) => Delimited(data) case Fixed(_, data) => data
  }

  function Message(fs: seq<Field>): seq<byte> {
    if fs == [] then [] else Written(fs[0]) + Message(fs[1..])
  }

  lemma OneField(f: Field)
    ensures Message([f]) == Written(f)
  {
    assert Message([f]) == Written(f) + Message([]);
  }

  lemma {:induction false} MessageAppend(a: seq<Field>, b: seq<Field>)
    ensures Message(a + b) == Message(a) + Message(b)
  {
    if a == [] {
      assert a + b == b;
    } else {
      assert (a + b)[0] == a[0] && (a + b)[1..] == a[1..] + b;
      MessageAppend(a[1..], b);
    }
  }

  lemma TagReadBack(tag: nat, rest: seq<byte>)
    requires tag < 0x1_0000_0000
    ensures ReadTag(Varint(tag) + rest) == Some((tag, rest))
  {
    Pow128Values();
    SizeBound(tag, MAX_TAG);
    VarintRoundTrip(tag, rest, MAX_TAG);
  }

  lemma BodyReadBack(f: Field, rest: seq<byte>)
    requires Proper(f)
    ensures ReadField(f.tag, Written(f)[|Varint(f.tag)|..] + rest) == Some((f, rest))
  {
    match f
    case Number(_, n) =>
      Pow128Values();
      SizeBound(n, MAX_VARINT);
      assert Written(f)[|Varint(f.tag)|..] == Varint(n);
      VarintRoundTrip(n, rest, MAX_VARINT);
    case Bytes(_, data) =>
      assert Written(f)[|Varint(f.tag)|..] == Delimited(data);
      DelimitedRoundTrip(data, rest);
    case Fixed(_, data) =>
      assert Written(f)[|Varint(f.tag)|..] == data;
      assert (data + rest)[..|data|] == data && (data + rest)[|data|..] == rest;
  }

  lemma FieldReadBack(f: Field, rest: seq<byte>)
    requires Proper(f)
    ensures Scan(Written(f) + rest) == match Scan(rest) case None => None case Some(fs) => Some([f] + fs)
  {
    var tag, body := Varint(f.tag), Written(f)[|Varint(f.tag)|..];
    assert Written(f) + rest == tag + (body + rest);
    TagReadBack(f.tag, body + rest);
    BodyReadBack(f, rest);
  }

  ghost predicate AllProper(fs: seq<Field>) {
    forall i :: 0 <= i < |fs| ==> Proper(fs[i])
  }

  /** Fields written one after the other are read back as they are. */
  lemma {:induction false} ScanReadBack(fs: seq<Field>)
    requires AllProper(fs)
    ensures Scan(Message(fs)) == Some(fs)
  {
    if fs != [] {
      FieldReadBack(fs[0], Message(fs[1..]));
      ScanReadBack(fs[1..]);
      Cons(fs);
    }
  }
}
