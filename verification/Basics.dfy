/** Types and machine-integer facts shared by every other module. */
module Basics {

  datatype Option<+T> = None | Some(value: T)

  datatype Result<+T, +E> = Success(value: T) | Failure(error: E)

  type byte = i: int | 0 <= i < 0x100

  type Bytes = seq<byte>

  // Go strings are byte strings.
  type Text = Bytes

  const MAX_INT64: int := 0x7fff_ffff_ffff_ffff
  const TWO_TO_THE_32: int := 0x1_0000_0000
  const TWO_TO_THE_63: int := 0x8000_0000_0000_0000
  const TWO_TO_THE_64: int := 0x1_0000_0000_0000_0000

  type int64 = x: int | -0x8000_0000_0000_0000 <= x <= 0x7fff_ffff_ffff_ffff

  /** Two's complement: the int64 congruent to x. */
  function Wrap64(x: int): (r: int64)
    ensures -TWO_TO_THE_63 <= x <= MAX_INT64 ==> r == x
  {
    (x + TWO_TO_THE_63) % TWO_TO_THE_64 - TWO_TO_THE_63
  }

  /** Adding with wrap-around one term at a time gives the wrapped sum. */
  lemma WrapOfWrappedSum(a: int, b: int)
    ensures Wrap64(Wrap64(a) + b) == Wrap64(a + b)
  {
    var q := (a + TWO_TO_THE_63) / TWO_TO_THE_64;
    assert Wrap64(a) == a - q * TWO_TO_THE_64;
    ModShift(a + b + TWO_TO_THE_63, -q, TWO_TO_THE_64);
  }

  lemma ModShift(x: int, k: int, m: int)
    requires m > 0
    ensures (x + k * m) % m == x % m
  {
    var q := x / m;
    assert x + k * m == (q + k) * m + x % m;
    UniqueRemainder(x + k * m, q + k, x % m, m);
  }

  lemma UniqueRemainder(x: int, q: int, r: int, m: int)
    requires m > 0 && 0 <= r < m && x == q * m + r
    ensures x % m == r && x / m == q
  {
    var d := x / m - q;
    assert d * m == r - x % m;
    assert d == 0;
  }
}
