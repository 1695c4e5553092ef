/** The machine's word: a C++ `int`, two's complement and 32 bits wide.
    Dafny's `int` is unbounded and its `/` and `%` are Euclidean, so the
    range and C++'s truncating division are written out here. */
module Int32 {

  const MIN: int := -0x8000_0000
  const MAX: int := 0x7fff_ffff

  /** `x` is representable as a 32-bit signed `int`. */
  predicate InRange(x: int) {
    MIN <= x <= MAX
  }

  function Abs(x: int): nat {
    if x < 0 then -x else x
  }

  /** C++ `a / b` on integers: the algebraic quotient with its fractional
      part discarded (rounded toward zero). */
  function Quot(a: int, b: int): int
    requires b != 0
  {
    if (a < 0) == (b < 0) then Abs(a) / Abs(b) else -(Abs(a) / Abs(b))
  }

  /** C++ `a % b`: the remainder that goes with `Quot`. */
  function Rem(a: int, b: int): int
    requires b != 0
  {
    a - b * Quot(a, b)
  }

  /** `Quot` and `Rem` are C++'s division: `b * q + r == a`, the remainder is
      smaller than the divisor in magnitude and takes the sign of the
      dividend, and the quotient never overshoots `a` (it is truncated toward
      zero). These properties determine `q` and `r` uniquely. */
  lemma TruncatedDivision(a: int, b: int)
    requires b != 0
    ensures b * Quot(a, b) + Rem(a, b) == a
    ensures Abs(Rem(a, b)) < Abs(b)
    ensures Rem(a, b) == 0 || (Rem(a, b) < 0 <==> a < 0)
    ensures Abs(b * Quot(a, b)) <= Abs(a)
  {
    var A, B := Abs(a), Abs(b);
    var q0, r0 := NaturalDivision(A, B);
    var p := B * q0;
    var q := Quot(a, b);
    assert q == (if (a < 0) == (b < 0) then q0 else -q0);
    SignedProduct(b, q);
    assert Abs(q) == q0;
    // b * q carries the sign of the dividend and the magnitude B * q0
    assert b * q == (if a < 0 then -p else p);
  }

  /** Dafny's division on naturals, named so that the facts can be used
      without further non-linear reasoning. */
  lemma NaturalDivision(A: nat, B: nat) returns (q0: int, r0: int)
    requires B > 0
    ensures q0 == A / B && r0 == A % B
    ensures 0 <= q0 && 0 <= r0 < B && A == B * q0 + r0
  {
    q0, r0 := A / B, A % B;
  }

  lemma MulNonNegative(x: int, y: int)
    requires x >= 0 && y >= 0
    ensures x * y >= 0
  {
  }

  /** `x * y` in terms of `|x| * |y|` and the signs. */
  lemma SignedProduct(x: int, y: int)
    ensures x * y == (if (x < 0) == (y < 0) then Abs(x) * Abs(y) else -(Abs(x) * Abs(y)))
  {
  }

  /** On non-negative operands C++ division agrees with Dafny's. */
  lemma QuotOfNonNegative(a: int, b: int)
    requires a >= 0 && b > 0
    ensures Quot(a, b) == a / b && Rem(a, b) == a % b
  {
  }
}
