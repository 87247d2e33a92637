# ImageDecoder: a Dafny model of the Android image decoder module

The example app of `react-native-fast-tflite` ships an Android native module,
`ImageDecoderModule`. Its `decodeImage(filePath, maxDimension)` call opens an
image file, decodes it. The decode is subsampled so that the longer side comes
near `maxDimension`. The module then returns `width`, `height` and the pixels
as a packed R, G, B byte buffer. The inference pipeline consumes that buffer
as an image of `width * height * 3` bytes, row-major, in R, G, B order with no
row padding.

This project models the deterministic parts of `decodeImage` and proves
properties about them:

- **path normalisation** (`ImageDecoder.NormalizePath`): one leading
  `file://` is stripped;
- **maximum-dimension defaulting** (`ImageDecoder.EffectiveMaxDimension`): the
  caller's number is raised to 1 and truncated to a Java `int`, and the
  default 1280 replaces any result that is not above 1;
- **`calculateInSampleSize`** (`SampleSize.CalculateInSampleSize`, an
  imperative loop over a Java `int` newtype): it is proved equal to the
  functional `SampleSize.InSampleSize` and to the specification
  `SampleSize.IsSampleSizeFor`. That specification says the result is a power
  of two, it fits the limit, and it is minimal. The specification also pins
  down the result uniquely;
- **the bounds check and decode options** (`ImageDecoder.PlanDecode`): the
  call is rejected when the probed bounds are not positive. Otherwise the
  full decode gets the normalised path and the sample size;
- **ARGB_8888 to RGB unpacking** (`RgbPixels.PixelsToRgb`, the source's
  loop with its two indices): it is proved equal to the functional
  `RgbPixels.Unpack`. `RgbPixels.Repack` is its inverse up to the alpha byte.

Modules: `JavaInt` (`java_int.dfy`) holds the Java numeric semantics the
source relies on. These are the 32-bit `int`, truncating `/`, `Math.max` and
the `(int)` cast of a `double`. `Division` (`division.dfy`) holds small
arithmetic facts. `SampleSize` is in `sample_size.dfy`, `RgbPixels` in
`rgb_pixels.dfy` and `ImageDecoder` in `image_decoder.dfy`.

Representation choices:
- A Java `int` whose arithmetic matters is the newtype `JavaInt.int32`.
  Dafny checks every operation on it, so a verified method over it never
  wraps around.
- A colour int is its 32-bit pattern (`bv32`). A Java `byte` is its 8-bit
  pattern (`bv8`), because the buffer is consumed as raw bytes.
- Java's arithmetic `>>` is written out as `RgbPixels.ShiftRightSigned`. The
  channel functions are stated against Dafny's logical `>>`, which after the
  `& 0xFF` mask gives the same byte.
- The JavaScript number `maxDimension` is a `real`.

## Model

| member | source | states |
|---|---|---|
| `ImageDecoder.StartsWith` | example/android/app/src/main/java/com/tfliteexample/ImageDecoderModule.java:41 | `startsWith` holds exactly when the string is at least as long as the prefix and agrees with it at every position of the prefix |
| `ImageDecoder.NormalizePath` | example/android/app/src/main/java/com/tfliteexample/ImageDecoderModule.java:40-43 | a path with the `file://` prefix is the result with that prefix put back; any other path is returned unchanged |
| `ImageDecoder.NormalizeStripsScheme` | example/android/app/src/main/java/com/tfliteexample/ImageDecoderModule.java:41-42 | prefixing any string with `file://` is undone exactly by normalisation |
| `ImageDecoder.NormalizeUnchangedIff` | example/android/app/src/main/java/com/tfliteexample/ImageDecoderModule.java:41-43 | normalisation leaves a path unchanged if and only if the path does not start with `file://` |
| `ImageDecoder.NormalizeStripsOnlyOnce` | example/android/app/src/main/java/com/tfliteexample/ImageDecoderModule.java:41-42 | only one prefix is removed: `file://file://x` becomes `file://x`, and a second normalisation would give `x` |
| `ImageDecoder.EffectiveMaxDimension` | example/android/app/src/main/java/com/tfliteexample/ImageDecoderModule.java:45-48 | the effective limit is always at least 2; it is 1280 for any input below 2; for larger inputs it is the input rounded down, saturating at `Integer.MAX_VALUE` |
| `ImageDecoder.EffectiveMaxDimensionIdempotent` | example/android/app/src/main/java/com/tfliteexample/ImageDecoderModule.java:45-48 | an effective limit passed in again is kept unchanged |
| `ImageDecoder.PlanDecode` | example/android/app/src/main/java/com/tfliteexample/ImageDecoderModule.java:40-59 | the call fails if and only if a probed bound is not positive, with the invalid-dimensions error naming the normalised path; otherwise the decode uses the normalised path and the unique sample size for the longer side and the effective limit |
| `ImageDecoder.PlanDecodeSubsamplesIffTooLarge` | example/android/app/src/main/java/com/tfliteexample/ImageDecoderModule.java:54-59 | for positive bounds the image is decoded at full size (factor 1) if and only if its longer side is within the effective limit |
| `ImageDecoder.TwelveMegapixelPhoto` | example/android/app/src/main/java/com/tfliteexample/ImageDecoderModule.java:40-59 | `file:///sdcard/photo.jpg` at 4000 x 3000 with no usable limit opens `/sdcard/photo.jpg` with factor 4 |
| `SampleSize.FitFrom` | example/android/app/src/main/java/com/tfliteexample/ImageDecoderModule.java:106-108 | continuing the doubling from a power of two whose half was too small ends at a power of two that fits and is minimal, and that is 1 or at most the longer side |
| `SampleSize.InSampleSize` | example/android/app/src/main/java/com/tfliteexample/ImageDecoderModule.java:102-111 | the factor is a power of two, the longer side divided by it is within the limit, halving it would exceed the limit, and it never exceeds the longer side unless it is 1 |
| `SampleSize.CalculateInSampleSize` | example/android/app/src/main/java/com/tfliteexample/ImageDecoderModule.java:102-111 | the Java loop returns the same factor as the functional definition, satisfies the specification, and stays at most the longer side, so the `int` doubling never overflows |
| `SampleSize.Doubling` | example/android/app/src/main/java/com/tfliteexample/ImageDecoderModule.java:106-107 | doubling a factor that is still too small keeps it a power of two within the longer side and does not change where the search ends |
| `SampleSize.SampleSizeUnique` | example/android/app/src/main/java/com/tfliteexample/ImageDecoderModule.java:103-110 | two factors that both meet the specification are equal |
| `SampleSize.NotMinimal` | example/android/app/src/main/java/com/tfliteexample/ImageDecoderModule.java:106-108 | a fitting power of two below another power of two shows that the larger one's half already fits |
| `SampleSize.SampleSizeIsOneIff` | example/android/app/src/main/java/com/tfliteexample/ImageDecoderModule.java:104-108 | the factor is 1 if and only if the longer side is within the limit |
| `SampleSize.PowerOfTwoGap` | example/android/app/src/main/java/com/tfliteexample/ImageDecoderModule.java:107 | distinct powers of two reached by doubling differ at least by a factor of two |
| `JavaInt.Div` | example/android/app/src/main/java/com/tfliteexample/ImageDecoderModule.java:106 | Java integer division rounds toward zero, and `MIN_VALUE / -1` gives `MIN_VALUE`; for a non-negative dividend and positive divisor it is the ordinary quotient |
| `JavaInt.DoubleToInt` | example/android/app/src/main/java/com/tfliteexample/ImageDecoderModule.java:45 | the cast of a finite double to `int` rounds toward zero and saturates at the `int` bounds |
| `JavaInt.Max` | example/android/app/src/main/java/com/tfliteexample/ImageDecoderModule.java:104 | `Math.max` returns one of its arguments, and that argument is at least the other |
| `JavaInt.MaxDouble` | example/android/app/src/main/java/com/tfliteexample/ImageDecoderModule.java:45 | `Math.max` on finite doubles returns one of its arguments, and that argument is at least the other |
| `RgbPixels.ShiftRightSigned` | example/android/app/src/main/java/com/tfliteexample/ImageDecoderModule.java:78-79 | Java's `>>` agrees with the logical shift on non-negative ints and fills the vacated high bits with ones on negative ones |
| `RgbPixels.ToByte` | example/android/app/src/main/java/com/tfliteexample/ImageDecoderModule.java:78-80 | the `(byte)` cast keeps exactly the low eight bits of the `int` |
| `RgbPixels.Red` | example/android/app/src/main/java/com/tfliteexample/ImageDecoderModule.java:78 | the red byte is bits 16-23 of the pixel, the same as with a logical shift |
| `RgbPixels.Green` | example/android/app/src/main/java/com/tfliteexample/ImageDecoderModule.java:79 | the green byte is bits 8-15 of the pixel |
| `RgbPixels.Blue` | example/android/app/src/main/java/com/tfliteexample/ImageDecoderModule.java:80 | the blue byte is bits 0-7 of the pixel |
| `RgbPixels.PackChannels` | example/android/app/src/main/java/com/tfliteexample/ImageDecoderModule.java:77-80 | repacking a pixel's three bytes (red shifted left 16, green shifted left 8, blue, OR-ed together) gives the pixel with its alpha byte cleared |
| `RgbPixels.ChannelsOfPack` | example/android/app/src/main/java/com/tfliteexample/ImageDecoderModule.java:77-80 | unpacking a repacked pixel returns the three bytes that were packed |
| `RgbPixels.AlphaIgnored` | example/android/app/src/main/java/com/tfliteexample/ImageDecoderModule.java:77-80 | two pixels that differ only in alpha produce the same three bytes |
| `RgbPixels.Channels` | example/android/app/src/main/java/com/tfliteexample/ImageDecoderModule.java:78-80 | one pixel contributes exactly three bytes: bits 16-23, then bits 8-15, then bits 0-7 |
| `RgbPixels.Unpack` | example/android/app/src/main/java/com/tfliteexample/ImageDecoderModule.java:75-81 | the buffer has exactly three bytes per pixel |
| `RgbPixels.UnpackAt` | example/android/app/src/main/java/com/tfliteexample/ImageDecoderModule.java:76-81 | pixel `i` occupies bytes `3i`, `3i+1` and `3i+2`, holding its red, green and blue bytes |
| `RgbPixels.Repack` | example/android/app/src/main/java/com/tfliteexample/ImageDecoderModule.java:75 | reading a buffer of whole pixels back gives one pixel per three bytes |
| `RgbPixels.DropAlpha` | example/android/app/src/main/java/com/tfliteexample/ImageDecoderModule.java:77-80 | the reference side of `RepackUnpack`: each pixel with bits 24-31 cleared, in the same order. The source has no separate alpha-clearing step; it is what the three byte writes keep of a pixel |
| `RgbPixels.RepackUnpack` | example/android/app/src/main/java/com/tfliteexample/ImageDecoderModule.java:75-81 | reading back the RGB buffer gives the original pixels without alpha |
| `RgbPixels.UnpackRepack` | example/android/app/src/main/java/com/tfliteexample/ImageDecoderModule.java:75-81 | every buffer whose length is a multiple of three is the unpacking of its repacking, so every such buffer comes from some pixel sequence |
| `RgbPixels.UnpackAppend` | example/android/app/src/main/java/com/tfliteexample/ImageDecoderModule.java:76-81 | one more pixel appends exactly its three bytes to the buffer |
| `RgbPixels.PixelsToRgb` | example/android/app/src/main/java/com/tfliteexample/ImageDecoderModule.java:71-81 | the loop, writing three bytes per pixel, fills a buffer of exactly `3 * width * height` bytes equal to the functional unpacking |

## Left out

- Reading the file and decoding it: `BitmapFactory.decodeFile` in both the bounds-only and the full decode, and the failed-decode `IOException` (lines 50-53 and 60-65). These are native codec I/O. The probed bounds are inputs of `PlanDecode`, and the pixels read by `getPixels` are inputs of `PixelsToRgb`.
- `applyExifOrientation` (lines 113-152): every effect it has is produced by `ExifInterface`, `Matrix` and `Bitmap.createBitmap`, which are platform code.
- `Base64.encodeToString` (line 83): this is a library implementation of base64 (section 4 of RFC 4648). The model stops at the byte buffer.
- The React Native bridge: the module name, `getName`, and promise resolution or rejection with the `decode_error` code and the exception message (lines 21, 28-32, 85-91). These are glue code.
- Bitmap recycling in the `finally` block (lines 92-99). This is resource management.
- `EffectiveMaxDimension`: a NaN or infinite `maxDimension` is not modelled, because `real` has neither. A NaN casts to 0 and so also yields 1280. Floating-point rounding of the input is likewise not modelled.
- `CalculateInSampleSize`: requires positive sides and a limit of at least 1. Every call in the source meets this, because the bounds check and the defaulting run first. Outside that range the Java loop behaves differently, and that is not modelled. With a limit of 0 the loop stops at the first power of two above the longer side (8 for a side of 5); when the longer side is at least 2^30 the doubling wraps to `Integer.MIN_VALUE`, the quotient becomes 0, the loop stops, and the final `Math.max(1, inSampleSize)` returns 1. With a negative limit the doubling wraps once more, to 0, and the division throws.
- `PixelsToRgb`: the `int` products `width * height` and `pixelCount * 3` are taken over unbounded integers. They would overflow only for more than 715 million pixels, which needs over 2.8 GB as ARGB_8888, and such a bitmap cannot be allocated.
- `ShiftRightSigned`: for a negative `int` the contract states only that the vacated high bits are ones. The low bits are stated only after the `& 0xFF` mask, in `Red` and `Green`. Those two uses are the only ones the source makes of `>>`.
