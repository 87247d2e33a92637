/**
 The decision logic of `ImageDecoderModule.decodeImage`: which file it
 opens, which maximum dimension it honours, when it rejects the probed
 bounds, and the subsampling factor it asks the platform decoder for. The
 decoder itself, EXIF orientation and the base64 encoding are outside the
 model; the pixel-to-RGB step is in `RgbPixels`.
 */
module ImageDecoder {
  import opened JavaInt
  import SampleSize

  /** The URI scheme prefix that callers may put in front of a file path. */
  const FILE_SCHEME: string := "file://"

  /** The limit used when the caller's maximum dimension is at most one. */
  const DEFAULT_MAX_DIMENSION: int32 := 1280

  /** Java's `String.startsWith`: `s` is at least as long as `prefix` and
      agrees with it character by character. */
  function StartsWith(s: string, prefix: string): (b: bool)
    ensures b <==> |prefix| <= |s| && forall i :: 0 <= i < |prefix| ==> s[i] == prefix[i]
  {
    |prefix| <= |s| && s[..|prefix|] == prefix
  }

  /** The path handed to the decoder: a leading `file://` is removed, once;
      any other string is used as it is. */
  function NormalizePath(filePath: string): (path: string)
    ensures StartsWith(filePath, FILE_SCHEME) ==> FILE_SCHEME + path == filePath
    ensures !StartsWith(filePath, FILE_SCHEME) ==> path == filePath
  {
    if StartsWith(filePath, FILE_SCHEME) then filePath[7..] else filePath
  }

  /** Prefixing a path with the scheme is undone by normalisation. */
  lemma NormalizeStripsScheme(rest: string)
    ensures NormalizePath(FILE_SCHEME + rest) == rest
  {
    assert StartsWith(FILE_SCHEME + rest, FILE_SCHEME);
  }

  /** Normalisation changes a path exactly when it carries the scheme. */
  lemma NormalizeUnchangedIff(filePath: string)
    ensures NormalizePath(filePath) == filePath <==> !StartsWith(filePath, FILE_SCHEME)
  {
    if StartsWith(filePath, FILE_SCHEME) {
      assert |NormalizePath(filePath)| == |filePath| - 7;
    }
  }

  /** Only one prefix is removed, so normalisation is not idempotent. */
  lemma NormalizeStripsOnlyOnce()
    ensures NormalizePath("file://file://x") == "file://x"
    ensures NormalizePath(NormalizePath("file://file://x")) == "x"
  {
    NormalizeStripsScheme("file://x");
    NormalizeStripsScheme("x");
  }

  /** The maximum dimension actually used. `maxDimensionInput` stands for the
      JavaScript number the caller passed: it is raised to at least 1,
      truncated to a Java `int`, and replaced by the default when the result
      is not above 1. */
  function EffectiveMaxDimension(maxDimensionInput: real): (maxDimension: int32)
    ensures 2 <= maxDimension
    ensures maxDimensionInput < 2.0 ==> maxDimension == DEFAULT_MAX_DIMENSION
    ensures 2.0 <= maxDimensionInput < MAX_VALUE as real ==>
              maxDimension as real <= maxDimensionInput < maxDimension as real + 1.0
    ensures MAX_VALUE as real <= maxDimensionInput ==> maxDimension == MAX_VALUE
  {
    var maxDimension := DoubleToInt(MaxDouble(1.0, maxDimensionInput));
    if maxDimension <= 1 then DEFAULT_MAX_DIMENSION else maxDimension
  }

  /** An effective limit, passed back in, is kept as it is. */
  lemma EffectiveMaxDimensionIdempotent(maxDimensionInput: real)
    ensures var m := EffectiveMaxDimension(maxDimensionInput);
            EffectiveMaxDimension(m as real) == m
  {
  }

  /** Why a decode is rejected before the full decode is attempted. */
  datatype DecodeError = InvalidDimensions(path: string)

  datatype Result<T> = Success(value: T) | Failure(error: DecodeError)

  /** What the full decode is asked for: the normalised path and the
      subsampling factor (the pixel format is always ARGB_8888). */
  datatype DecodeOptions = DecodeOptions(path: string, inSampleSize: int32)

  /** From the caller's arguments and the bounds the first, bounds-only
      decode reported, to the options of the full decode, or the rejection
      of non-positive bounds. */
  function PlanDecode(filePath: string, maxDimensionInput: real, outWidth: int32, outHeight: int32)
    : (r: Result<DecodeOptions>)
    ensures r.Failure? <==> outWidth <= 0 || outHeight <= 0
    ensures r.Failure? ==> r.error == InvalidDimensions(NormalizePath(filePath))
    ensures r.Success? ==> r.value.path == NormalizePath(filePath)
    ensures r.Success? ==>
              SampleSize.IsSampleSizeFor(r.value.inSampleSize as int, Max(outWidth, outHeight) as nat,
                                         EffectiveMaxDimension(maxDimensionInput) as int)
  {
    var path := NormalizePath(filePath);
    var maxDimension := EffectiveMaxDimension(maxDimensionInput);
    if outWidth <= 0 || outHeight <= 0 then
      Failure(InvalidDimensions(path))
    else
      Success(DecodeOptions(path, SampleSize.InSampleSize(outWidth as nat, outHeight as nat, maxDimension as nat) as int32))
  }

  /** An image that already fits the limit is decoded at full resolution,
      and a larger one is always subsampled. */
  lemma PlanDecodeSubsamplesIffTooLarge(filePath: string, maxDimensionInput: real, outWidth: int32, outHeight: int32)
    requires 0 < outWidth && 0 < outHeight
    ensures var r := PlanDecode(filePath, maxDimensionInput, outWidth, outHeight);
            r.Success? &&
            (r.value.inSampleSize == 1 <==> Max(outWidth, outHeight) <= EffectiveMaxDimension(maxDimensionInput))
  {
    var r := PlanDecode(filePath, maxDimensionInput, outWidth, outHeight);
    SampleSize.SampleSizeIsOneIff(Max(outWidth, outHeight) as nat, EffectiveMaxDimension(maxDimensionInput) as int,
                                  r.value.inSampleSize as int);
  }

  /** A 4000 x 3000 photo under the default limit is decoded at a quarter of
      its size in each direction, 1000 x 750. */
  lemma TwelveMegapixelPhoto()
    ensures PlanDecode("file:///sdcard/photo.jpg", 0.0, 4000, 3000)
         == Success(DecodeOptions("/sdcard/photo.jpg", 4))
  {
    NormalizeStripsScheme("/sdcard/photo.jpg");
    var r := PlanDecode("file:///sdcard/photo.jpg", 0.0, 4000, 3000);
    assert SampleSize.IsPowerOfTwo(4) by {
      assert SampleSize.IsPowerOfTwo(2);
    }
    assert SampleSize.IsSampleSizeFor(4, 4000, 1280);
    SampleSize.SampleSizeUnique(4000, 1280, 4, r.value.inSampleSize as int);
  }
}
