/**
 The fragment of Java's numeric semantics the image decoder relies on:
 the 32-bit `int`, its truncating division, `Math.max`, and the narrowing
 conversion of a `double` to an `int`.
 */
module JavaInt {
  import opened Division

  /** Java's `int`: a 32-bit two's-complement integer. Arithmetic on this
      newtype is checked by Dafny, so a program that verifies over it never
      wraps around. */
  newtype int32 = x: int | -0x8000_0000 <= x < 0x8000_0000

  const MIN_VALUE: int32 := -0x8000_0000
  const MAX_VALUE: int32 := 0x7FFF_FFFF

  function Abs(x: int): (m: nat) {
    if x < 0 then -x else x
  }

  /** Java's integer `/` (section 15.17.2 of the Java Language Specification):
      the quotient is rounded toward zero, and `MIN_VALUE / -1` overflows back
      to `MIN_VALUE`. Division by zero throws, so the divisor must be non-zero. */
  function Div(a: int32, b: int32): (q: int32)
    requires b != 0
    // rounding toward zero: the magnitude is the quotient of the magnitudes,
    // and the sign is the product of the signs
    ensures (a < 0) == (b < 0) && !(a == MIN_VALUE && b == -1) ==>
              q as int == Abs(a as int) / Abs(b as int)
    ensures (a < 0) != (b < 0) ==> q as int == -(Abs(a as int) / Abs(b as int))
    ensures a == MIN_VALUE && b == -1 ==> q == MIN_VALUE
    // for a non-negative dividend and positive divisor it is the usual quotient
    ensures 0 <= a && 0 < b ==> q as int == a as int / b as int
  {
    var n := Abs(a as int) / Abs(b as int);
    QuotientMagnitude(a, b);
    if (a < 0) != (b < 0) then
      -n as int32
    else if n == 0x8000_0000 then
      MIN_VALUE
    else
      n as int32
  }

  /** The quotient of the magnitudes fits an `int` except for `MIN_VALUE / -1`. */
  lemma QuotientMagnitude(a: int32, b: int32)
    requires b != 0
    ensures Abs(a as int) / Abs(b as int) <= 0x8000_0000
    ensures Abs(a as int) / Abs(b as int) == 0x8000_0000 ==> a == MIN_VALUE && Abs(b as int) == 1
  {
    var A, B := Abs(a as int), Abs(b as int);
    QuotientAtMost(A, B);
    if B >= 2 {
      DivAntitone(A, 2, B);
    }
  }

  /** `Math.max(int, int)`. */
  function Max(a: int32, b: int32): (m: int32)
    ensures a <= m && b <= m
    ensures m == a || m == b
  {
    if a >= b then a else b
  }

  /** `Math.max(double, double)` over finite values; NaN and signed zeros are
      not represented by `real`. */
  function MaxDouble(a: real, b: real): (m: real)
    ensures a <= m && b <= m
    ensures m == a || m == b
  {
    if a >= b then a else b
  }

  /** The narrowing conversion `(int) d` of a finite double (section 5.1.3 of
      the Java Language Specification): round toward zero, then saturate at
      `MIN_VALUE` and `MAX_VALUE`. */
  function DoubleToInt(d: real): (r: int32)
    ensures 0.0 <= d < MAX_VALUE as real ==> r as real <= d < r as real + 1.0
    ensures MIN_VALUE as real < d <= 0.0 ==> r as real - 1.0 < d <= r as real
    ensures MAX_VALUE as real <= d ==> r == MAX_VALUE
    ensures d <= MIN_VALUE as real ==> r == MIN_VALUE
  {
    if d >= MAX_VALUE as real then MAX_VALUE
    else if d <= MIN_VALUE as real then MIN_VALUE
    else if d >= 0.0 then d.Floor as int32
    else -((-d).Floor) as int32
  }
}
