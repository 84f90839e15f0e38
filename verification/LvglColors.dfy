/** The colour formats of scripts/lvgl_img_converter/LVGLImage.py and the bytes a row takes. */
module LvglColors {
  datatype ColorFormat =
    | Unknown | Raw | RawAlpha
    | L8 | I1 | I2 | I4 | I8 | A1 | A2 | A4 | A8 | AL88
    | Argb8888 | Xrgb8888 | Rgb565 | Rgb565Swapped | Argb8565 | Rgb565A8 | Rgb888
    | Argb8888Premultiplied

  function BitsPerPixel(cf: ColorFormat): nat {
    match cf
    case Unknown | Raw | RawAlpha => 0
    case I1 | A1 => 1
    case I2 | A2 => 2
    case I4 | A4 => 4
    case L8 | I8 | A8 => 8
    case AL88 | Rgb565 | Rgb565Swapped | Rgb565A8 => 16
    case Argb8565 | Rgb888 => 24
    case Argb8888 | Xrgb8888 | Argb8888Premultiplied => 32
  }

  function PaletteColors(cf: ColorFormat): nat {
    match cf
    case I1 => 2
    case I2 => 4
    case I4 => 16
    case I8 => 256
    case _ => 0
  }

  predicate Indexed(cf: ColorFormat) { PaletteColors(cf) != 0 }

  /** The bits of a pixel's channels, alpha or padding first, or of its index. */
  datatype Channels = Channels(a: nat, b: nat, c: nat, d: nat)

  /** The alpha map of Rgb565A8 is a plane of its own. */
  function ChannelsOf(cf: ColorFormat): Channels {
    match cf
    case Unknown | Raw | RawAlpha => Channels(0, 0, 0, 0)
    case I1 | A1 => Channels(1, 0, 0, 0)
    case I2 | A2 => Channels(2, 0, 0, 0)
    case I4 | A4 => Channels(4, 0, 0, 0)
    case L8 | I8 | A8 => Channels(8, 0, 0, 0)
    case AL88 => Channels(8, 8, 0, 0)
    case Rgb565 | Rgb565Swapped | Rgb565A8 => Channels(0, 5, 6, 5)
    case Argb8565 => Channels(8, 5, 6, 5)
    case Rgb888 => Channels(0, 8, 8, 8)
    case Argb8888 | Xrgb8888 | Argb8888Premultiplied => Channels(8, 8, 8, 8)
  }

  function PowerOfTwo(n: nat): nat { if n == 0 then 1 else 2 * PowerOfTwo(n - 1) }

  /** A pixel takes the bits of its channels, and a palette has a color for every index. */
  lemma ColorTables(cf: ColorFormat)
    ensures var c := ChannelsOf(cf); BitsPerPixel(cf) == c.a + c.b + c.c + c.d
    ensures Indexed(cf) ==> PaletteColors(cf) == PowerOfTwo(BitsPerPixel(cf))
    ensures Indexed(cf) <==> cf == I1 || cf == I2 || cf == I4 || cf == I8
  {
    assert PowerOfTwo(8) == 2 * 2 * 2 * 2 * PowerOfTwo(4);
  }

  // ---------------------------------------------------------------- bytes of a row

  function StrideDefault(cf: ColorFormat, w: nat): nat { (w * BitsPerPixel(cf) + 7) / 8 }

  function StrideAligned(cf: ColorFormat, w: nat, align: nat): nat
    requires align >= 1
  {
    if align == 1 then StrideDefault(cf, w)
    else (StrideDefault(cf, w) + align - 1) / align * align
  }

  /** The default stride is the least number of bytes that holds the bits of w pixels. */
  lemma StrideDefaultIsLeast(cf: ColorFormat, w: nat, n: nat)
    ensures n >= StrideDefault(cf, w) <==> 8 * n >= w * BitsPerPixel(cf)
  {}

  lemma Product(a: int, b: int, size: nat)
    requires size >= 1
    ensures a <= b <==> a * size <= b * size
  {}

  /** The aligned stride is the least multiple of `align` that is not below the default stride. */
  lemma StrideAlignedIsLeast(cf: ColorFormat, w: nat, align: nat, n: nat)
    requires align >= 1
    ensures exists k: nat :: StrideAligned(cf, w, align) == k * align
    ensures n * align >= StrideAligned(cf, w, align) <==> n * align >= StrideDefault(cf, w)
  {
    hide StrideDefault;
    var d := StrideDefault(cf, w);
    if align == 1 {
      assert d == d * align;
    } else {
      var k := (d + align - 1) / align;
      assert k * align >= d && (k - 1) * align < d;
      Product(k, n, align);
      Product(n, k - 1, align);
    }
  }

  lemma AlignedSuffices(cf: ColorFormat, w: nat, align: nat)
    requires align >= 1
    ensures StrideAligned(cf, w, align) >= StrideDefault(cf, w)
  {
    hide StrideDefault;
    StrideAlignedIsLeast(cf, w, align, 0);
    var k: nat :| StrideAligned(cf, w, align) == k * align;
    StrideAlignedIsLeast(cf, w, align, k);
  }
}
