/**
 * Sizes fbview.c derives once from the framebuffer's variable screen info
 * (xres, yres, bits_per_pixel), and the texture format it picks from the
 * depth. All quantities are mathematical integers.
 */
module Geometry {

  /** The fields of `struct fb_var_screeninfo` that fbview.c reads. */
  datatype ScreenInfo = ScreenInfo(xres: nat, yres: nat, bitsPerPixel: nat)

  /** The two texture formats fbview.c can ask for. */
  datatype PixelFormat = RGB565 | ARGB8888

  /** `bpp / 8`: whole bytes per pixel, any leftover bits dropped. */
  function BytesPerPixel(bpp: nat): (r: nat)
    ensures 8 * r <= bpp < 8 * r + 8
  {
    bpp / 8
  }

  /** Bytes mapped from the device, `width * height * bytes_per_pixel`: `yres` rows of one pitch each. */
  function MappingLength(info: ScreenInfo): (r: nat)
    ensures r == info.yres * Pitch(info)
  {
    info.xres * info.yres * BytesPerPixel(info.bitsPerPixel)
  }

  /** Row pitch handed to the texture update, `width * bytes_per_pixel`: zero only for an empty row or a depth under 8 bits. */
  function Pitch(info: ScreenInfo): (r: nat)
    ensures r == 0 <==> info.xres == 0 || info.bitsPerPixel < 8
  {
    info.xres * BytesPerPixel(info.bitsPerPixel)
  }

  /**
   * The texture format: RGB565 for a 16-bit device, whose pixel size it
   * matches, and the 4-byte ARGB8888 for every other depth.
   */
  function TextureFormat(bpp: nat): (f: PixelFormat)
    ensures f == RGB565 <==> bpp == 16
    ensures bpp == 16 ==> FormatBytes(f) == BytesPerPixel(bpp)
    ensures bpp != 16 ==> FormatBytes(f) == 4
  {
    if bpp == 16 then RGB565 else ARGB8888
  }

  /** Bytes one pixel of a texture format occupies. */
  function FormatBytes(f: PixelFormat): nat {
    match f
    case RGB565 => 2
    case ARGB8888 => 4
  }

  /** Bytes the texture update reads from the mapping: `yres` rows of `xres` texture pixels, `Pitch` bytes apart. */
  function TextureReadExtent(info: ScreenInfo): nat {
    if info.yres == 0 then 0
    else (info.yres - 1) * Pitch(info) + info.xres * FormatBytes(TextureFormat(info.bitsPerPixel))
  }

  /** The mapping is empty only for an empty screen or a depth under 8 bits. */
  lemma MappingEmptyIff(info: ScreenInfo)
    ensures MappingLength(info) == 0 <==> info.xres == 0 || info.yres == 0 || info.bitsPerPixel < 8
  {
  }

  /** The format's pixel size agrees with the device's exactly for 16-bit depth and for depths 32 to 39. */
  lemma FormatMatchesDepth(bpp: nat)
    ensures FormatBytes(TextureFormat(bpp)) == BytesPerPixel(bpp) <==> bpp == 16 || 32 <= bpp < 40
  {
  }

  /**
   * The per-frame texture update stays inside the mapping exactly when the
   * texture pixel is no wider than the device pixel (or the screen is
   * empty): a 24-bit device, for one, makes the last row read `xres` bytes
   * past the end of the mapping.
   */
  lemma TextureReadWithinMapping(info: ScreenInfo)
    ensures TextureReadExtent(info) <= MappingLength(info) <==>
      info.xres == 0 || info.yres == 0 || FormatBytes(TextureFormat(info.bitsPerPixel)) <= BytesPerPixel(info.bitsPerPixel)
  {
    if info.yres != 0 {
      LastRowFits(info.xres, info.yres, BytesPerPixel(info.bitsPerPixel), FormatBytes(TextureFormat(info.bitsPerPixel)));
    }
  }

  /** `y` rows of `x*b` bytes hold `y - 1` such rows plus `x*f` more bytes exactly when `x` is 0 or `f <= b`. */
  lemma LastRowFits(x: nat, y: nat, b: nat, f: nat)
    requires y > 0
    ensures (y - 1) * (x * b) + x * f <= y * (x * b) <==> x == 0 || f <= b
  {
    var p := x * b;
    assert y * p == (y - 1) * p + p;
    if x != 0 {
      if f <= b {
        assert p - x * f == x * (b - f) >= 0;
      } else {
        assert x * f - p == x * (f - b) > 0;
      }
    }
  }

  /** An 800x480 device at 32 bpp: 1,536,000 mapped bytes, rows of 3200 bytes, an ARGB8888 texture. */
  lemma Scenario800x480()
    ensures MappingLength(ScreenInfo(800, 480, 32)) == 1536000
    ensures Pitch(ScreenInfo(800, 480, 32)) == 3200
    ensures TextureFormat(32) == ARGB8888 && TextureFormat(16) == RGB565 && TextureFormat(24) == ARGB8888
  {
  }
}
