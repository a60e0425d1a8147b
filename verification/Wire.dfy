/** The primitives of the Protocol Buffers wire format: base-128 varints, length-delimited fields, packed fields. */
module Wire {
  import opened Common

  // ----- varints -----

  function Varint(n: nat): (b: seq<byte>)
    ensures |b| >= 1
  {
    if n < 128 then [n] else [n % 128 + 128] + Varint(n / 128)
  }

  /** The size computed ahead of writing. */
  function VarintSize(n: nat): nat {
    if n < 128 then 1 else 1 + VarintSize(n / 128)
  }

  /** A varint of at most `most` bytes at the front of b: its value and its length. */
  function ReadVarint(b: seq<byte>, most: nat): (r: Option<(nat, nat)>)
    ensures r.Some? ==> 1 <= r.value.1 <= |b| && r.value.1 <= most
    decreases most
  {
    if most == 0 || b == [] then None
    else if b[0] < 128 then Some((b[0], 1))
    else match ReadVarint(b[1..], most - 1)
      case None => None
      case Some(r) => Some((b[0] - 128 + 128 * r.0, 1 + r.1))
  }

  function Pow128(k: nat): (r: nat)
    ensures r >= 1
  {
    if k == 0 then 1 else 128 * Pow128(k - 1)
  }

  lemma {:induction false} SizeAgrees(n: nat)
    ensures |Varint(n)| == VarintSize(n)
  {
    if n >= 128 {
      SizeAgrees(n / 128);
    }
  }

  lemma {:induction false} SizeBound(n: nat, k: nat)
    requires k >= 1 && n < Pow128(k)
    ensures 1 <= VarintSize(n) <= k
  {
    if n >= 128 {
      assert n / 128 < Pow128(k - 1);
      SizeBound(n / 128, k - 1);
    }
  }

  lemma {:induction false} SizeAtLeast(n: nat, k: nat)
    requires n >= Pow128(k)
    ensures VarintSize(n) > k
  {
    if k > 0 {
      assert Pow128(k) >= 128;
      SizeAtLeast(n / 128, k - 1);
    }
  }

  /** Reading what was written gives back the number and leaves the rest. */
  lemma {:induction false} VarintRoundTrip(n: nat, rest: seq<byte>, most: nat)
    requires VarintSize(n) <= most
    ensures ReadVarint(Varint(n) + rest, most) == Some((n, |Varint(n)|))
    ensures (Varint(n) + rest)[|Varint(n)|..] == rest
  {
    if n >= 128 {
      assert (Varint(n) + rest)[1..] == Varint(n / 128) + rest;
      VarintRoundTrip(n / 128, rest, most - 1);
    }
  }

  /** The number that groups of seven bits make, least significant first. */
  function Groups(b: seq<byte>): nat {
    if b == [] then 0 else b[0] % 128 + 128 * Groups(b[1..])
  }

  /** A byte of 128 or more says that another follows. */
  ghost predicate Continued(b: seq<byte>) {
    b != [] && b[|b| - 1] < 128 && forall i :: 0 <= i < |b| - 1 ==> b[i] >= 128
  }

  /** A number is written as its groups, and with no group to spare. */
  lemma {:induction false} VarintIs(n: nat)
    ensures Continued(Varint(n)) && Groups(Varint(n)) == n
    ensures |Varint(n)| > 1 ==> Varint(n)[|Varint(n)| - 1] != 0
  {
    if n >= 128 {
      VarintIs(n / 128);
      GroupsCons(n % 128 + 128, Varint(n / 128));
    }
  }

  lemma GroupsCons(x: byte, rest: seq<byte>)
    requires x >= 128 && Continued(rest)
    ensures Continued([x] + rest) && Groups([x] + rest) == x - 128 + 128 * Groups(rest)
    ensures ([x] + rest)[|rest|] == rest[|rest| - 1]
  {
    assert ([x] + rest)[1..] == rest;
  }

  /** For every input: a number is read exactly when one of the first `most` bytes is below 128, and then it is that of the
      groups up to the first such byte. */
  lemma {:induction false} ReadVarintIs(b: seq<byte>, most: nat)
    ensures ReadVarint(b, most).Some? <==> exists i :: 0 <= i < |b| && i < most && b[i] < 128
    ensures ReadVarint(b, most).Some? ==>
              var (v, n) := ReadVarint(b, most).value; Continued(b[..n]) && v == Groups(b[..n])
    decreases most
  {
    if most > 0 && b != [] && b[0] >= 128 {
      ReadVarintIs(b[1..], most - 1);
      assert forall i :: 1 <= i < |b| ==> b[1..][i - 1] == b[i];
      if ReadVarint(b, most).Some? {
        var n := ReadVarint(b, most).value.1;
        assert b[..n][1..] == b[1..][..n - 1];
      } else {
        forall i | 0 <= i < |b| && i < most ensures b[i] >= 128 {
          assert i > 0 ==> b[1..][i - 1] >= 128;
        }
      }
    } else if most > 0 && b != [] {
      assert b[..1] == [b[0]] && b[..1][1..] == [];
    }
  }

  // ----- int32 -----

  /** An int32 is sign-extended to 64 bits before it is written. */
  function Extend(x: int32): nat {
    if x < 0 then x + TWO64 else x
  }

  /** What is kept of a parsed number: its low 32 bits, as a signed number. */
  function Truncate(n: nat): int32 {
    var low := n % 0x1_0000_0000;
    if low >= 0x8000_0000 then low - 0x1_0000_0000 else low
  }

  function Int32(x: int32): seq<byte> {
    Varint(Extend(x))
  }

  const MAX_VARINT: nat := 10
  const MAX_TAG: nat := 5

  lemma Pow128Values()
    ensures Pow128(1) == 0x80 && Pow128(2) == 0x4000
    ensures Pow128(5) == 0x8_0000_0000
    ensures Pow128(9) == 0x8000_0000_0000_0000
    ensures Pow128(10) == 128 * 0x8000_0000_0000_0000
  {
    assert Pow128(1) == 128 * Pow128(0);
    assert Pow128(2) == 128 * Pow128(1);
    assert Pow128(3) == 128 * Pow128(2);
    assert Pow128(4) == 128 * Pow128(3);
    assert Pow128(5) == 128 * Pow128(4);
    assert Pow128(6) == 128 * Pow128(5);
    assert Pow128(7) == 128 * Pow128(6);
    assert Pow128(8) == 128 * Pow128(7);
    assert Pow128(9) == 128 * Pow128(8);
    assert Pow128(10) == 128 * Pow128(9);
  }

  lemma TruncateExtend(x: int32)
    ensures Truncate(Extend(x)) == x
  {
    if x < 0 {
      assert x + TWO64 == (x + 0x1_0000_0000) + 0x1_0000_0000 * 0xFFFF_FFFF;
      assert (x + TWO64) % 0x1_0000_0000 == x + 0x1_0000_0000;
    }
  }

  /** Both keep the number modulo 2^32, which determines an int32. */
  lemma Congruent(x: int32, n: nat)
    ensures (Extend(x) - x) % TWO64 == 0
    ensures (n - Truncate(n)) % 0x1_0000_0000 == 0
  {
    var q, low := n / 0x1_0000_0000, n % 0x1_0000_0000;
    assert n == q * 0x1_0000_0000 + low;
    if low >= 0x8000_0000 {
      assert n - Truncate(n) == (q + 1) * 0x1_0000_0000;
    } else {
      assert n - Truncate(n) == q * 0x1_0000_0000;
    }
  }

  /** Every negative number, the null link -2 among them, takes ten bytes; the others take at most five. */
  lemma Int32Sizes(x: int32)
    ensures x < 0 ==> |Int32(x)| == 10
    ensures x >= 0 ==> 1 <= |Int32(x)| <= 5
  {
    Pow128Values();
    SizeAgrees(Extend(x));
    if x < 0 {
      SizeBound(Extend(x), 10);
      SizeAtLeast(Extend(x), 9);
    } else {
      SizeBound(Extend(x), 5);
    }
  }

  lemma Int32RoundTrip(x: int32, rest: seq<byte>)
    ensures ReadVarint(Int32(x) + rest, MAX_VARINT) == Some((Extend(x), |Int32(x)|))
    ensures (Int32(x) + rest)[|Int32(x)|..] == rest
    ensures Truncate(Extend(x)) == x
  {
    Int32Sizes(x);
    SizeAgrees(Extend(x));
    VarintRoundTrip(Extend(x), rest, MAX_VARINT);
    TruncateExtend(x);
  }

  // ----- lengths -----

  /** The largest length a parser accepts. */
  const MAX_LENGTH: nat := 0x7FFF_FFFF - 16

  function Delimited(data: seq<byte>): seq<byte> {
    Varint(|data|) + data
  }

  /** A length and that many bytes at the front of b: the bytes, and the rest. */
  function ReadDelimited(b: seq<byte>): (r: Option<(seq<byte>, seq<byte>)>)
    ensures r.Some? ==> |r.value.0| + |r.value.1| < |b|
  {
    match ReadVarint(b, MAX_TAG)
    case None => None
    case Some(r) =>
      if r.0 > MAX_LENGTH || r.0 > |b| - r.1 then None
      else Some((b[r.1..r.1 + r.0], b[r.1 + r.0..]))
  }

  lemma DelimitedRoundTrip(data: seq<byte>, rest: seq<byte>)
    requires |data| <= MAX_LENGTH
    ensures ReadDelimited(Delimited(data) + rest) == Some((data, rest))
  {
    Pow128Values();
    SizeBound(|data|, 5);
    var v := Varint(|data|);
    assert Delimited(data) + rest == v + (data + rest);
    VarintRoundTrip(|data|, data + rest, MAX_TAG);
    var b := Delimited(data) + rest;
    assert b[|v|..|v| + |data|] == data;
    assert b[|v| + |data|..] == rest;
  }

  /** A tag at the front of b: its number and the bytes after it. */
  function ReadTag(b: seq<byte>): (r: Option<(nat, seq<byte>)>)
    ensures r.Some? ==> |r.value.1| < |b|
  {
    match ReadVarint(b, MAX_TAG)
    case None => None
    case Some(r) => Some((r.0 % 0x1_0000_0000, b[r.1..]))
  }

  // ----- packed int32 fields -----

  function Packed(xs: seq<int32>): seq<byte> {
    if xs == [] then [] else Int32(xs[0]) + Packed(xs[1..])
  }

  function ReadPacked(b: seq<byte>): Option<seq<int32>>
    decreases |b|
  {
    if b == [] then Some([])
    else match ReadVarint(b, MAX_VARINT)
      case None => None
      case Some(r) => match ReadPacked(b[r.1..])
        case None => None
        case Some(xs) => Some([Truncate(r.0)] + xs)
  }

  lemma {:induction false} PackedRoundTrip(xs: seq<int32>)
    ensures ReadPacked(Packed(xs)) == Some(xs)
  {
    if xs != [] {
      Int32RoundTrip(xs[0], Packed(xs[1..]));
      PackedRoundTrip(xs[1..]);
      Cons(xs);
    }
  }

  /** Numbers are packed one after the other. */
  lemma {:induction false} PackedAppend(xs: seq<int32>, ys: seq<int32>)
    ensures Packed(xs + ys) == Packed(xs) + Packed(ys)
  {
    if xs == [] {
      assert xs + ys == ys;
    } else {
      FirstOut(xs, ys);
      PackedAppend(xs[1..], ys);
    }
  }

  lemma FirstOut(xs: seq<int32>, ys: seq<int32>)
    requires xs != []
    ensures (xs + ys)[0] == xs[0] && (xs + ys)[1..] == xs[1..] + ys
  {
  }

  lemma PackedOne(x: int32)
    ensures Packed([x]) == Int32(x)
  {
    assert [x][1..] == [];
  }

  lemma {:induction false} PackedSizes(xs: seq<int32>)
    ensures |xs| <= |Packed(xs)| <= 10 * |xs|
  {
    if xs != [] {
      Int32Sizes(xs[0]);
      PackedSizes(xs[1..]);
    }
  }

  // ----- UTF-8 -----

  predicate Tail(b: byte) {
    0x80 <= b < 0xC0
  }

  /** The length of the well-formed UTF-8 sequence at the front of a non-empty b, 0 if there is none (RFC 3629, section 4). */
  function Utf8Step(b: seq<byte>): (n: nat)
    requires b != []
    ensures n <= |b|
  {
    if b[0] < 0x80 then 1
    else if 0xC2 <= b[0] < 0xE0 && |b| >= 2 && Tail(b[1]) then 2
    else if 0xE0 <= b[0] < 0xF0 && |b| >= 3 && Tail(b[1]) && Tail(b[2])
         && (b[0] == 0xE0 ==> b[1] >= 0xA0) && (b[0] == 0xED ==> b[1] < 0xA0) then 3
    else if 0xF0 <= b[0] < 0xF5 && |b| >= 4 && Tail(b[1]) && Tail(b[2]) && Tail(b[3])
         && (b[0] == 0xF0 ==> b[1] >= 0x90) && (b[0] == 0xF4 ==> b[1] < 0x90) then 4
    else 0
  }

  predicate ValidUtf8(b: seq<byte>)
    decreases |b|
  {
    b == [] || (Utf8Step(b) > 0 && ValidUtf8(b[Utf8Step(b)..]))
  }

  lemma {:induction false} Ascii(b: seq<byte>)
    requires forall i :: 0 <= i < |b| ==> b[i] < 0x80
    ensures ValidUtf8(b)
  {
    if b != [] {
      Ascii(b[1..]);
    }
  }
}
