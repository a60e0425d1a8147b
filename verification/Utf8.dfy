/** Which byte sequences the parser takes for text: the encodings of Unicode scalar values (RFC 3629, section 3). */
module Utf8 {
  import opened Common
  import opened Wire

  /** Every code point but the surrogates. */
  type Scalar = c: int | 0 <= c < 0xD800 || 0xE000 <= c < 0x11_0000

  /** One to four bytes, six bits of the number in each but the first. */
  function Encoded(c: Scalar): seq<byte> {
    if c < 0x80 then [c]
    else if c < 0x800 then [0xC0 + c / 0x40, 0x80 + c % 0x40]
    else if c < 0x1_0000 then [0xE0 + c / 0x1000, 0x80 + c / 0x40 % 0x40, 0x80 + c % 0x40]
    else [0xF0 + c / 0x4_0000, 0x80 + c / 0x1000 % 0x40, 0x80 + c / 0x40 % 0x40, 0x80 + c % 0x40]
  }

  function Text(cs: seq<Scalar>): seq<byte> {
    if cs == [] then [] else Encoded(cs[0]) + Text(cs[1..])
  }

  /** The encoding of a character is what the check steps over. */
  lemma StepsOver(c: Scalar, rest: seq<byte>)
    ensures Utf8Step(Encoded(c) + rest) == |Encoded(c)|
  {
    var b := Encoded(c) + rest;
    assert forall i :: 0 <= i < |Encoded(c)| ==> b[i] == Encoded(c)[i];
  }

  /** And the check steps over nothing else. */
  lemma SteppedOver(b: seq<byte>) returns (c: Scalar)
    requires b != [] && Utf8Step(b) > 0
    ensures Encoded(c) == b[..Utf8Step(b)]
  {
    match Utf8Step(b)
    case 1 => c := b[0];
    case 2 => c := TwoBytes(b[0], b[1]);
    case 3 => c := ThreeBytes(b[0], b[1], b[2]);
    case _ => c := FourBytes(b[0], b[1], b[2], b[3]);
  }

  lemma TwoBytes(x: byte, y: byte) returns (c: Scalar)
    requires 0xC2 <= x < 0xE0 && Tail(y)
    ensures Encoded(c) == [x, y]
  {
    c := (x - 0xC0) * 0x40 + (y - 0x80);
  }

  lemma ThreeBytes(x: byte, y: byte, z: byte) returns (c: Scalar)
    requires 0xE0 <= x < 0xF0 && Tail(y) && Tail(z) && (x == 0xE0 ==> y >= 0xA0) && (x == 0xED ==> y < 0xA0)
    ensures Encoded(c) == [x, y, z]
  {
    c := (x - 0xE0) * 0x1000 + (y - 0x80) * 0x40 + (z - 0x80);
    assert c / 0x40 == (x - 0xE0) * 0x40 + (y - 0x80);
  }

  lemma FourBytes(x: byte, y: byte, z: byte, w: byte) returns (c: Scalar)
    requires 0xF0 <= x < 0xF5 && Tail(y) && Tail(z) && Tail(w) && (x == 0xF0 ==> y >= 0x90) && (x == 0xF4 ==> y < 0x90)
    ensures Encoded(c) == [x, y, z, w]
  {
    c := (x - 0xF0) * 0x4_0000 + (y - 0x80) * 0x1000 + (z - 0x80) * 0x40 + (w - 0x80);
    assert c / 0x40 == (x - 0xF0) * 0x1000 + (y - 0x80) * 0x40 + (z - 0x80);
    assert c / 0x1000 == (x - 0xF0) * 0x40 + (y - 0x80);
  }

  lemma {:induction false} TextIsValid(cs: seq<Scalar>)
    ensures ValidUtf8(Text(cs))
  {
    if cs != [] {
      StepsOver(cs[0], Text(cs[1..]));
      TextIsValid(cs[1..]);
      assert Text(cs)[|Encoded(cs[0])|..] == Text(cs[1..]);
    }
  }

  lemma {:induction false} ValidIsText(b: seq<byte>) returns (cs: seq<Scalar>)
    requires ValidUtf8(b)
    ensures b == Text(cs)
    decreases |b|
  {
    if b == [] {
      cs := [];
    } else {
      var c := SteppedOver(b);
      var rest := ValidIsText(b[Utf8Step(b)..]);
      cs := [c] + rest;
      assert b == b[..Utf8Step(b)] + b[Utf8Step(b)..];
    }
  }

  /** The check accepts exactly the texts. */
  lemma ValidExactly(b: seq<byte>)
    ensures ValidUtf8(b) <==> exists cs :: b == Text(cs)
  {
    if ValidUtf8(b) {
      var cs := ValidIsText(b);
    } else {
      forall cs ensures b != Text(cs) {
        TextIsValid(cs);
      }
    }
  }
}
