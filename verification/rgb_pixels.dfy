/**
 Unpacking of ARGB_8888 colour ints into a packed R, G, B byte buffer.
 A Java `int` pixel is represented by its 32-bit pattern (`bv32`), a Java
 `byte` by its 8-bit pattern (`bv8`): the buffer is consumed as raw bytes, so
 only the bit patterns matter.
 */
module RgbPixels {

  type Byte = bv8

  /** Java's `>>` on an `int`: an arithmetic shift, which fills the vacated
      high bits with copies of the sign bit. */
  function ShiftRightSigned(x: bv32, n: bv32): (r: bv32)
    requires n < 32
    // a non-negative value shifts like an unsigned one
    ensures x & 0x8000_0000 == 0 ==> r == x >> n
    // a negative one fills the high n bits with ones
    ensures x & 0x8000_0000 != 0 ==> r | (0xFFFF_FFFF >> n) == 0xFFFF_FFFF
  {
    if x & 0x8000_0000 == 0 then x >> n else !(!x >> n)
  }

  /** Java's narrowing cast `(byte) x`: keeps the low eight bits. */
  function ToByte(x: bv32): (b: Byte)
    ensures b as bv32 == x & 0xFF
  {
    (x & 0xFF) as Byte
  }

  /** Red channel, bits 16-23, as the source extracts it. */
  function Red(pixel: bv32): (r: Byte)
    ensures r as bv32 == (pixel >> 16) & 0xFF
  {
    ToByte(ShiftRightSigned(pixel, 16) & 0xFF)
  }

  /** Green channel, bits 8-15. */
  function Green(pixel: bv32): (g: Byte)
    ensures g as bv32 == (pixel >> 8) & 0xFF
  {
    ToByte(ShiftRightSigned(pixel, 8) & 0xFF)
  }

  /** Blue channel, bits 0-7. */
  function Blue(pixel: bv32): (b: Byte)
    ensures b as bv32 == pixel & 0xFF
  {
    ToByte(pixel & 0xFF)
  }

  /** The colour int with the given channels and a zero alpha byte:
      `R << 16 | G << 8 | B`. */
  function Pack(r: Byte, g: Byte, b: Byte): (p: bv32)
    ensures p & 0xFF00_0000 == 0
  {
    (r as bv32 << 16) | (g as bv32 << 8) | b as bv32
  }

  /** The three bytes one pixel contributes to the buffer, in R, G, B order. */
  function Channels(pixel: bv32): (bytes: seq<Byte>)
    ensures |bytes| == 3
    ensures bytes[0] as bv32 == (pixel >> 16) & 0xFF
    ensures bytes[1] as bv32 == (pixel >> 8) & 0xFF
    ensures bytes[2] as bv32 == pixel & 0xFF
  {
    [Red(pixel), Green(pixel), Blue(pixel)]
  }

  /** Repacking the extracted channels recovers the pixel without its alpha
      byte. */
  lemma PackChannels(pixel: bv32)
    ensures Pack(Red(pixel), Green(pixel), Blue(pixel)) == pixel & 0xFF_FFFF
  {
  }

  /** Extracting the channels of a packed pixel gives back the bytes packed. */
  lemma ChannelsOfPack(r: Byte, g: Byte, b: Byte)
    ensures Channels(Pack(r, g, b)) == [r, g, b]
  {
  }

  /** Alpha is discarded: pixels that differ only in bits 24-31 give the same
      bytes. */
  lemma AlphaIgnored(p: bv32, q: bv32)
    requires p & 0xFF_FFFF == q & 0xFF_FFFF
    ensures Channels(p) == Channels(q)
  {
    PackChannels(p);
    PackChannels(q);
    ChannelsOfPack(Red(p), Green(p), Blue(p));
    ChannelsOfPack(Red(q), Green(q), Blue(q));
  }

  /** The RGB buffer of a pixel sequence: each pixel's three bytes, in pixel
      order, with no padding. */
  function Unpack(pixels: seq<bv32>): (rgb: seq<Byte>)
    ensures |rgb| == 3 * |pixels|
  {
    if |pixels| == 0 then [] else Channels(pixels[0]) + Unpack(pixels[1..])
  }

  /** Pixel `i` occupies bytes `3 * i`, `3 * i + 1` and `3 * i + 2` of the
      buffer, in R, G, B order. */
  lemma {:induction false} UnpackAt(pixels: seq<bv32>, i: nat)
    requires i < |pixels|
    ensures Unpack(pixels)[3 * i] == Red(pixels[i])
    ensures Unpack(pixels)[3 * i + 1] == Green(pixels[i])
    ensures Unpack(pixels)[3 * i + 2] == Blue(pixels[i])
  {
    var rgb := Unpack(pixels);
    if i == 0 {
      assert rgb[..3] == Channels(pixels[0]);
    } else {
      var rest := pixels[1..];
      UnpackAt(rest, i - 1);
      var k := 3 * (i - 1);
      assert 3 * i == k + 3;
      assert rgb == Channels(pixels[0]) + Unpack(rest);
      assert pixels[i] == rest[i - 1];
    }
  }

  /** The inverse reading of a buffer: every three bytes form one pixel with a
      zero alpha byte. */
  function Repack(rgb: seq<Byte>): (pixels: seq<bv32>)
    requires |rgb| % 3 == 0
    ensures 3 * |pixels| == |rgb|
  {
    if |rgb| == 0 then [] else [Pack(rgb[0], rgb[1], rgb[2])] + Repack(rgb[3..])
  }

  /** Each pixel with its alpha byte cleared. */
  function DropAlpha(pixels: seq<bv32>): (cleared: seq<bv32>)
    ensures |cleared| == |pixels|
    ensures forall i :: 0 <= i < |pixels| ==> cleared[i] == pixels[i] & 0xFF_FFFF
  {
    seq(|pixels|, i requires 0 <= i < |pixels| => pixels[i] & 0xFF_FFFF)
  }

  /** Reading the buffer back gives the pixels without alpha. */
  lemma {:induction false} RepackUnpack(pixels: seq<bv32>)
    ensures Repack(Unpack(pixels)) == DropAlpha(pixels)
  {
    if |pixels| > 0 {
      var rgb := Unpack(pixels);
      assert rgb == Channels(pixels[0]) + Unpack(pixels[1..]);
      assert rgb[3..] == Unpack(pixels[1..]);
      RepackUnpack(pixels[1..]);
      assert Repack(rgb) == [Pack(rgb[0], rgb[1], rgb[2])] + Repack(rgb[3..]);
      PackFirstPixel(pixels);
      DropAlphaCons(pixels);
    }
  }

  /** Clearing alpha works pixel by pixel from the front. */
  lemma DropAlphaCons(pixels: seq<bv32>)
    requires |pixels| > 0
    ensures DropAlpha(pixels) == [pixels[0] & 0xFF_FFFF] + DropAlpha(pixels[1..])
  {
    var d, e := DropAlpha(pixels), DropAlpha(pixels[1..]);
    assert forall i :: 1 <= i < |pixels| ==> d[i] == e[i - 1];
  }

  /** The first three bytes of the buffer repack to the first pixel without
      alpha. */
  lemma PackFirstPixel(pixels: seq<bv32>)
    requires |pixels| > 0
    ensures var rgb := Unpack(pixels); Pack(rgb[0], rgb[1], rgb[2]) == pixels[0] & 0xFF_FFFF
  {
    var p, rgb := pixels[0], Unpack(pixels);
    assert rgb == Channels(p) + Unpack(pixels[1..]);
    assert rgb[0] == Red(p) && rgb[1] == Green(p) && rgb[2] == Blue(p);
    PackChannels(p);
  }

  /** Every buffer of whole pixels is the unpacking of its repacking: each
      such buffer is produced by some pixel sequence. */
  lemma {:induction false} UnpackRepack(rgb: seq<Byte>)
    requires |rgb| % 3 == 0
    ensures Unpack(Repack(rgb)) == rgb
  {
    if |rgb| > 0 {
      var pixels := Repack(rgb);
      assert pixels[1..] == Repack(rgb[3..]);
      UnpackRepack(rgb[3..]);
      ChannelsOfPack(rgb[0], rgb[1], rgb[2]);
      assert rgb == rgb[..3] + rgb[3..];
    }
  }

  /** Appending a pixel appends its three bytes. */
  lemma {:induction false} UnpackAppend(pixels: seq<bv32>, pixel: bv32)
    ensures Unpack(pixels + [pixel]) == Unpack(pixels) + Channels(pixel)
  {
    if |pixels| > 0 {
      assert (pixels + [pixel])[1..] == pixels[1..] + [pixel];
      UnpackAppend(pixels[1..], pixel);
    }
  }

  /** The source's loop: `pixelCount = width * height` colour ints, as read
      from the bitmap row by row, written into a fresh `3 * pixelCount` byte
      array with the write index `j` running three times as fast as `i`. */
  method PixelsToRgb(width: nat, height: nat, pixels: seq<bv32>) returns (rgb: seq<Byte>)
    requires |pixels| == width * height
    ensures |rgb| == 3 * width * height
    ensures rgb == Unpack(pixels)
  {
    var pixelCount := width * height;
    ghost var expected := Unpack(pixels);
    var buffer := new Byte[pixelCount * 3];
    var i, j := 0, 0;
    while i < pixelCount
      invariant 0 <= i <= pixelCount
      invariant j == 3 * i
      invariant forall k :: 0 <= k < j ==> buffer[k] == expected[k]
    {
      var pixel := pixels[i];
      UnpackAt(pixels, i);
      buffer[j] := Red(pixel);
      j := j + 1;
      buffer[j] := Green(pixel);
      j := j + 1;
      buffer[j] := Blue(pixel);
      j := j + 1;
      i := i + 1;
    }
    rgb := buffer[..];
    assert rgb == expected;
  }
}
