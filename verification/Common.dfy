/** Types and arithmetic shared by every module. */
module Common {
  type byte = x: int | 0 <= x < 256
  type int32 = x: int | -0x8000_0000 <= x < 0x8000_0000

  /** The bytes of a stored value; the empty value stands for "absent" in every answer of the store. */
  type Value = seq<byte>

  const TWO64: nat := 0x1_0000_0000_0000_0000

  /** A `size_t` or `uint64_t`. */
  type uint64 = x: int | 0 <= x < TWO64

  /** `size_t(-1)`, the "no such block" answer. */
  const NPOS: uint64 := TWO64 - 1

  datatype Option<+T> = None | Some(value: T)

  /** The 64-bit `size_t` that a mathematical integer wraps to. */
  function Wrap(x: int): uint64 {
    x % TWO64
  }

  lemma Cons<T>(s: seq<T>)
    requires s != []
    ensures s == [s[0]] + s[1..]
  {
  }

  lemma WrapSum(a: int, b: int)
    ensures Wrap(Wrap(a) + b) == Wrap(a + b) == Wrap(a + Wrap(b))
  {
    var q, r := a / TWO64, b / TWO64;
    assert a == q * TWO64 + Wrap(a) && b == r * TWO64 + Wrap(b);
    WrapShift(Wrap(a) + b, q);
    WrapShift(a + Wrap(b), r);
  }

  lemma WrapShift(a: int, q: int)
    ensures Wrap(a + q * TWO64) == Wrap(a)
  {
  }
}
