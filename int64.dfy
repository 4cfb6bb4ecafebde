/** Go's 64-bit signed integers: the range of `int64` and the two
    operations the balance code applies to it, `+` and `-1 * x`, both of
    which wrap around modulo 2^64 instead of failing. */
module Int64 {

  const Min: int := -0x8000_0000_0000_0000
  const Max: int := 0x7fff_ffff_ffff_ffff
  const Modulus: int := 0x1_0000_0000_0000_0000

  type int64 = x: int | Min <= x <= Max

  predicate InRange(x: int) {
    Min <= x <= Max
  }

  /** Go's `a + b` on int64: the mathematical sum when it fits, otherwise
      the sum shifted by one modulus back into range. */
  function Add(a: int64, b: int64): (r: int64)
    ensures InRange(a + b) ==> r == a + b
    ensures a + b > Max ==> r == a + b - Modulus && r < 0
    ensures a + b < Min ==> r == a + b + Modulus && r >= 0
  {
    var s := a + b;
    if s > Max then s - Modulus else if s < Min then s + Modulus else s
  }

  /** Go's `-1 * a` on int64: negation, except that the most negative
      value has no positive counterpart and stays where it is. */
  function Negate(a: int64): (r: int64)
    ensures a != Min ==> r == -a
    ensures a == Min ==> r == a && r < 0
  {
    if a == Min then Min else -a
  }

  /** Adding the wrapped negation is the same as subtracting, whenever the
      mathematical difference fits: the wrap of `-1 * Min` cancels out. */
  lemma SubtractByNegate(a: int64, b: int64)
    requires InRange(a - b)
    ensures Add(a, Negate(b)) == a - b
  {
    if b == Min {
      assert a - b == a + Modulus + Min;
    }
  }
}
