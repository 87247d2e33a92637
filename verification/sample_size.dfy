/**
 `calculateInSampleSize`: the subsampling factor handed to the platform
 decoder. It is the smallest power of two that brings the longer side of the
 image within the requested maximum dimension.
 */
module SampleSize {
  import opened JavaInt
  import opened Division

  /** `n` is 2^k for some k >= 0. */
  predicate IsPowerOfTwo(n: int) {
    n == 1 || (n > 1 && n % 2 == 0 && IsPowerOfTwo(n / 2))
  }

  /** `s` is the sample size for an image whose longer side is `maxSide`
      under the limit `maxDimension`: a power of two that divides the side
      down to the limit, and the smallest such, since halving it would not
      fit. */
  predicate IsSampleSizeFor(s: int, maxSide: nat, maxDimension: int) {
    && IsPowerOfTwo(s)
    && maxSide / s <= maxDimension
    && (s > 1 ==> maxSide / (s / 2) > maxDimension)
  }

  /** The doubling search of the source's loop, continued from the candidate
      `s`, whose predecessors have all been too small. */
  function FitFrom(maxSide: nat, maxDimension: nat, s: nat): (r: nat)
    requires 1 <= maxDimension
    requires IsPowerOfTwo(s)
    requires s > 1 ==> maxSide / (s / 2) > maxDimension
    ensures IsSampleSizeFor(r, maxSide, maxDimension)
    ensures r == 1 || r <= maxSide
    decreases maxSide - s
  {
    if maxSide / s > maxDimension then
      QuotientAtLeast(maxSide, s, 2);
      FitFrom(maxSide, maxDimension, 2 * s)
    else
      if s > 1 then QuotientAtLeast(maxSide, s / 2, 2); s else s
  }

  /** The sample size the source computes for a `width` x `height` image. */
  function InSampleSize(width: nat, height: nat, maxDimension: nat): (r: nat)
    requires 1 <= maxDimension
    ensures IsSampleSizeFor(r, if width >= height then width else height, maxDimension)
    ensures r == 1 || (r <= width || r <= height)
  {
    FitFrom(if width >= height then width else height, maxDimension, 1)
  }

  /** The source's loop, over Java `int`s. Every intermediate value is an
      `int32` whose arithmetic Dafny checks, so the doubling never overflows:
      the factor never exceeds the longer side. */
  method CalculateInSampleSize(width: int32, height: int32, maxDimension: int32) returns (r: int32)
    requires 0 < width && 0 < height && 1 <= maxDimension
    ensures r as int == InSampleSize(width as nat, height as nat, maxDimension as nat)
    ensures IsSampleSizeFor(r as int, Max(width, height) as nat, maxDimension as int)
    ensures r <= Max(width, height)
  {
    var inSampleSize: int32 := 1;
    var maxSide := Max(width, height);
    while Div(maxSide, inSampleSize) > maxDimension
      invariant 1 <= inSampleSize <= maxSide
      invariant IsPowerOfTwo(inSampleSize as int)
      invariant inSampleSize > 1 ==> maxSide as int / (inSampleSize as int / 2) > maxDimension as int
      invariant FitFrom(maxSide as nat, maxDimension as nat, inSampleSize as nat)
             == InSampleSize(width as nat, height as nat, maxDimension as nat)
      decreases maxSide - inSampleSize
    {
      Doubling(maxSide as nat, maxDimension as nat, inSampleSize as nat);
      inSampleSize := inSampleSize * 2;
    }
    r := Max(1, inSampleSize);
  }

  /** One turn of the loop: doubling a candidate that is still too small
      keeps it within the longer side and does not change the outcome. */
  lemma Doubling(maxSide: nat, maxDimension: nat, s: nat)
    requires 1 <= maxDimension && 1 <= s
    requires IsPowerOfTwo(s)
    requires s > 1 ==> maxSide / (s / 2) > maxDimension
    requires maxSide / s > maxDimension
    ensures 2 * s <= maxSide
    ensures IsPowerOfTwo(2 * s)
    ensures maxSide / (2 * s / 2) > maxDimension
    ensures FitFrom(maxSide, maxDimension, 2 * s) == FitFrom(maxSide, maxDimension, s)
  {
    QuotientAtLeast(maxSide, s, 2);
  }

  /** The sample size is determined by its specification: no other power of
      two both fits and is minimal. */
  lemma SampleSizeUnique(maxSide: nat, maxDimension: int, s: int, t: int)
    requires IsSampleSizeFor(s, maxSide, maxDimension)
    requires IsSampleSizeFor(t, maxSide, maxDimension)
    ensures s == t
  {
    if s < t {
      NotMinimal(maxSide, maxDimension, s, t);
    } else if t < s {
      NotMinimal(maxSide, maxDimension, t, s);
    }
  }

  /** A fitting power of two below `t` makes `t` not minimal. */
  lemma NotMinimal(maxSide: nat, maxDimension: int, s: int, t: int)
    requires IsSampleSizeFor(s, maxSide, maxDimension)
    requires IsPowerOfTwo(t) && s < t
    ensures maxSide / (t / 2) <= maxDimension
  {
    PowerOfTwoGap(s, t);
    DivAntitone(maxSide, s, t / 2);
  }

  /** Subsampling happens exactly when the image is larger than the limit. */
  lemma SampleSizeIsOneIff(maxSide: nat, maxDimension: int, s: int)
    requires IsSampleSizeFor(s, maxSide, maxDimension)
    ensures s == 1 <==> maxSide <= maxDimension
  {
    if s > 1 {
      DivAntitone(maxSide, 1, s / 2);
    }
  }

  /** Distinct powers of two are at least a factor of two apart. */
  lemma {:induction false} PowerOfTwoGap(p: int, q: int)
    requires IsPowerOfTwo(p) && IsPowerOfTwo(q) && p < q
    ensures 2 * p <= q
  {
    if p > 1 {
      PowerOfTwoGap(p / 2, q / 2);
    }
  }
}
