/** LVGLImage of scripts/lvgl_img_converter/LVGLImage.py: data length and stride. */
module LvglImage {
  import opened Arith
  import opened Bytes
  import opened LvglColors
  import LvglPixels
  import opened LvglStride

  /** set_data refuses anything wider or higher. */
  type Dim = n: nat | n <= 0xffff

  datatype Image = Image(cf: ColorFormat, w: Dim, h: Dim, stride: nat, data: seq<Byte>)

  datatype Outcome = Done(image: Image) | ParameterError

  function PaletteSize(cf: ColorFormat): nat { PaletteColors(cf) * 4 }

  function DataLen(cf: ColorFormat, w: nat, h: nat, stride: nat): nat {
    (if Indexed(cf) && w > 0 && h > 0 then PaletteSize(cf) else 0)
    + h * stride
    + (if cf == Rgb565A8 then h * (stride / 2) else 0)
  }

  predicate WellFormed(m: Image) { |m.data| == DataLen(m.cf, m.w, m.h, m.stride) }

  // ---------------------------------------------------------------- planes

  predicate Striding(m: Image) { WellFormed(m) && m.h > 0 && m.stride > 0 }

  /** Indexed images of width 0: data_len counts no palette, adjust_stride cuts one off. */
  predicate Degenerate(m: Image) { Indexed(m.cf) && m.w == 0 }

  function Palette(m: Image): seq<Byte> { Take(m.data, PaletteSize(m.cf)) }

  /** The rows, with what follows them. */
  function Body(m: Image): seq<Byte> { Drop(m.data, PaletteSize(m.cf)) }

  function Plane(m: Image): seq<Byte> { Take(Body(m), Span(m.h, m.stride)) }

  function Alpha(m: Image): seq<Byte> { Drop(Body(m), Span(m.h, m.stride)) }

  /** Python's s[-n:]. */
  function Last(s: seq<Byte>, n: nat): seq<Byte> {
    if n == 0 || n > |s| then s else s[|s| - n..]
  }

  /** The data with every row of every plane cut or filled to the new stride. */
  function Restrided(m: Image, stride: nat): seq<Byte> {
    Palette(m) + Restride(Body(m), m.h, m.stride, stride)
    + if m.cf == Rgb565A8
      then Restride(Last(m.data, m.stride / 2 * m.h), m.h, m.stride / 2, stride / 2) else []
  }

  /** The stride adjust_stride is asked for; None for bad parameters. */
  function Requested(m: Image, stride: int, align: int): Option<nat> {
    if align >= 1 && stride == 0 then Some(StrideAligned(m.cf, m.w, align))
    else if stride > 0 then Some(stride)
    else None
  }

  function Adjust(m: Image, stride: int, align: int): Outcome {
    if m.stride == 0 then Done(m)
    else match Requested(m, stride, align)
    case None => ParameterError
    case Some(s) =>
      if m.stride == s then Done(m)
      else if DataLen(m.cf, m.w, m.h, m.stride) == 0 then Done(m.(stride := 0))
      else if s < StrideDefault(m.cf, m.w) then ParameterError
      else Done(m.(stride := s, data := Restrided(m, s)))
  }

  lemma CutAt(s: seq<Byte>, n: nat)
    requires n <= |s|
    ensures |Take(s, n)| == n && |Drop(s, n)| == |s| - n && s == Take(s, n) + Drop(s, n)
  {}

  lemma Planes(m: Image)
    requires Striding(m) && !Degenerate(m)
    ensures |Palette(m)| == PaletteSize(m.cf)
    ensures |Plane(m)| == Span(m.h, m.stride)
    ensures |Alpha(m)| == if m.cf == Rgb565A8 then Span(m.h, m.stride / 2) else 0
    ensures m.data == Palette(m) + Plane(m) + Alpha(m)
  {
    hide Take, Drop, Span;
    SpanIsTimes(m.h, m.stride);
    SpanIsTimes(m.h, m.stride / 2);
    CutAt(m.data, PaletteSize(m.cf));
    CutAt(Body(m), Span(m.h, m.stride));
    assert Palette(m) + (Plane(m) + Alpha(m)) == Palette(m) + Plane(m) + Alpha(m);
  }

  /** The last h rows of a bytes each, cut off as Python's [-(a * h):], also where a is 0. */
  lemma LastRows(front: seq<Byte>, rows: seq<Byte>, h: nat, a: nat, b: nat)
    requires h > 0 && |rows| == Span(h, a)
    ensures Restride(Last(front + rows, a * h), h, a, b) == Restride(rows, h, a, b)
  {
    SpanIsTimes(h, a);
    if a == 0 {
      assert rows == [] && [] + (front + rows) == front + rows;
      RestrideTail([], front + rows, h, a, b);
    } else {
      assert Last(front + rows, |rows|) == rows;
    }
  }

  /** What the planes of the new data are. */
  lemma RestridedPlanes(m: Image, stride: nat)
    requires Striding(m) && !Degenerate(m)
    ensures Restrided(m, stride) == Palette(m) + Restride(Plane(m), m.h, m.stride, stride)
      + if m.cf == Rgb565A8 then Restride(Alpha(m), m.h, m.stride / 2, stride / 2) else []
  {
    hide Restride;
    Planes(m);
    assert Body(m) == Plane(m) + Alpha(m);
    RestrideTail(Plane(m), Alpha(m), m.h, m.stride, stride);
    if m.cf == Rgb565A8 { LastRows(Palette(m) + Plane(m), Alpha(m), m.h, m.stride / 2, stride / 2); }
  }

  /** An image of a packed format that was accepted with its default stride: behind a palette with a
      colour for every index, unpack_colors finds w times h pixels. */
  lemma AcceptedUnpacks(m: Image)
    requires Striding(m) && m.w > 0 && LvglPixels.Packable(BitsPerPixel(m.cf))
    requires m.stride == StrideDefault(m.cf, m.w)
    ensures Indexed(m.cf) ==> |Palette(m)| == 4 * LvglPixels.Base(BitsPerPixel(m.cf))
    ensures |LvglPixels.Look(LvglPixels.Values(m.cf), LvglPixels.Unpacked(Body(m), BitsPerPixel(m.cf), m.w, 0))|
         == m.w * m.h
  {
    hide StrideDefault, LvglPixels.Unpacked, LvglPixels.Values, Span;
    Planes(m);
    assert Body(m) == Plane(m) + Alpha(m) == Plane(m);
    LvglPixels.RowsUnpackToPixels(Body(m), m.h, m.cf, m.w);
    SpanIsTimes(m.h, m.w);
  }

  // ---------------------------------------------------------------- data length

  lemma StridingLength(m: Image)
    requires WellFormed(m) && m.stride > 0
    ensures m.h > 0 <==> DataLen(m.cf, m.w, m.h, m.stride) > 0
  {
    SpanIsTimes(m.h, m.stride);
    SpanIsTimes(m.h, m.stride / 2);
  }

  lemma RestridedLength(m: Image, stride: nat)
    requires Striding(m) && !Degenerate(m)
    ensures |Restrided(m, stride)| == DataLen(m.cf, m.w, m.h, stride)
  {
    hide Restride, Palette, Plane, Alpha;
    Planes(m);
    RestridedPlanes(m, stride);
    RestrideLength(Plane(m), m.h, m.stride, stride);
    if m.cf == Rgb565A8 { RestrideLength(Alpha(m), m.h, m.stride / 2, stride / 2); }
    SpanIsTimes(m.h, stride);
    SpanIsTimes(m.h, stride / 2);
  }

  lemma {:induction false} SpanSplit(h: nat, a: nat, b: nat)
    ensures Span(h, a) + Span(h, b) == Span(h, a + b)
  {
    if h > 0 { SpanSplit(h - 1, a, b); }
  }

  /** Rows of which the first few bytes are taken away as a palette. */
  lemma RowsBehindPalette(data: seq<Byte>, palette: nat, h: nat, a: nat, b: nat)
    requires |data| == Span(h, a) && palette > 0 && h > 0 && a > 0
    ensures |Take(data, palette)| + |Restride(Drop(data, palette), h, a, b)| == Span(h, b) <==> b >= a
  {
    hide Restride, Span;
    ShortRows(Drop(data, palette), h, a, b);
    if b >= a { SpanSplit(h, a, b - a); } else { SpanSplit(h, b, a - b); }
  }

  lemma DegenerateLength(m: Image, stride: nat)
    requires Striding(m) && Degenerate(m)
    ensures |Restrided(m, stride)| == DataLen(m.cf, m.w, m.h, stride) <==> stride >= m.stride
  {
    hide Restride;
    SpanIsTimes(m.h, m.stride);
    SpanIsTimes(m.h, stride);
    RowsBehindPalette(m.data, PaletteSize(m.cf), m.h, m.stride, stride);
  }

  /** The rows are asked to become narrower. */
  predicate Narrows(m: Image, stride: int, align: int) {
    var s := Requested(m, stride, align);
    s.Some? && s.value < m.stride
  }

  /** When adjust_stride raises a ParameterError: for a negative stride, for neither a stride nor an
      alignment, or where rows would become shorter than their pixels need. */
  lemma AdjustRefusesIff(m: Image, stride: int, align: int)
    ensures Adjust(m, stride, align) == ParameterError <==>
      && m.stride > 0
      && (|| stride < 0
          || (stride == 0 && align < 1)
          || (&& 0 < stride < StrideDefault(m.cf, m.w) && stride != m.stride
              && DataLen(m.cf, m.w, m.h, m.stride) > 0))
  {
    hide DataLen, Restrided;
    if stride == 0 && align >= 1 { AlignedSuffices(m.cf, m.w, align); }
  }

  /** data_len stays the actual length, except where the rows of an indexed image of width 0
      are asked to become narrower. */
  lemma AdjustKeepsLengthIff(m: Image, stride: int, align: int)
    requires WellFormed(m) && Adjust(m, stride, align).Done?
    ensures WellFormed(Adjust(m, stride, align).image) <==>
            !(Degenerate(m) && m.h > 0 && Narrows(m, stride, align))
  {
    hide Restrided;
    if m.stride > 0 && Requested(m, stride, align) != Some(m.stride) {
      StridingLength(m);
      if m.h > 0 {
        var s := Requested(m, stride, align).value;
        if Degenerate(m) { DegenerateLength(m, s); } else { RestridedLength(m, s); }
      }
    }
  }

  // ---------------------------------------------------------------- there and back

  lemma Cut3(a: seq<Byte>, b: seq<Byte>, c: seq<Byte>, x: seq<Byte>, y: seq<Byte>, z: seq<Byte>)
    requires |a| == |x| && |b| == |y|
    ensures a + b + c == x + y + z <==> a == x && b == y && c == z
  {
    SplitEqual(a + b, c, x + y, z);
    SplitEqual(a, b, x, y);
  }

  lemma PlanesOfRestrided(m: Image, stride: nat)
    requires Striding(m) && !Degenerate(m) && stride > 0
    ensures var n := m.(stride := stride, data := Restrided(m, stride));
      && Striding(n)
      && Palette(n) == Palette(m)
      && Plane(n) == Restride(Plane(m), m.h, m.stride, stride)
      && Alpha(n) == if m.cf == Rgb565A8 then Restride(Alpha(m), m.h, m.stride / 2, stride / 2) else []
  {
    hide Restride;
    var n := m.(stride := stride, data := Restrided(m, stride));
    RestridedLength(m, stride);
    Planes(m);
    Planes(n);
    RestridedPlanes(m, stride);
    RestrideLength(Plane(m), m.h, m.stride, stride);
    var a := if m.cf == Rgb565A8 then Restride(Alpha(m), m.h, m.stride / 2, stride / 2) else [];
    Cut3(Palette(m), Restride(Plane(m), m.h, m.stride, stride), a, Palette(n), Plane(n), Alpha(n));
  }

  /** Going to a stride and back leaves the palette and strides every plane there and back. */
  lemma ThereAndBack(m: Image, s: nat)
    requires Striding(m) && !Degenerate(m) && s > 0
    ensures var n := m.(stride := s, data := Restrided(m, s));
      Restrided(n, m.stride) == m.data <==>
        && Restride(Restride(Plane(m), m.h, m.stride, s), m.h, s, m.stride) == Plane(m)
        && (m.cf == Rgb565A8 ==>
              Restride(Restride(Alpha(m), m.h, m.stride / 2, s / 2), m.h, s / 2, m.stride / 2) == Alpha(m))
  {
    hide Restride, Palette, Plane, Alpha, Restrided;
    var n := m.(stride := s, data := Restrided(m, s));
    PlanesOfRestrided(m, s);
    RestridedPlanes(n, m.stride);
    Planes(m);
    RestrideLength(Plane(m), m.h, m.stride, s);
    RestrideLength(Plane(n), m.h, s, m.stride);
    var a := if m.cf == Rgb565A8 then Restride(Alpha(n), m.h, s / 2, m.stride / 2) else [];
    Cut3(Palette(n), Restride(Plane(n), m.h, s, m.stride), a, Palette(m), Plane(m), Alpha(m));
  }

  lemma SameDegenerate(m: Image, n: Image)
    requires m.cf == n.cf && m.w == n.w
    ensures Degenerate(m) <==> Degenerate(n)
  {}

  /** An image without rows loses its stride with the first change, and keeps stride 0. */
  lemma NoRowsLoseStride(m: Image, stride: int, align: int, s: nat)
    requires WellFormed(m) && m.stride > 0 && m.h == 0
    requires Requested(m, stride, align) == Some(s) && s != m.stride
    ensures Adjust(m, stride, align) == Done(m.(stride := 0))
    ensures Adjust(m.(stride := 0), m.stride, 1) == Done(m.(stride := 0))
  {
    StridingLength(m);
  }

  /** Widening and then narrowing gives the image back, alpha plane included; it does not only
      for an image without rows, where the old stride was below the least (the second step is
      refused), or for an indexed image of width 0. */
  lemma WidenThenNarrowIff(m: Image, stride: int, align: int, s: nat)
    requires WellFormed(m) && m.stride > 0 && Requested(m, stride, align) == Some(s)
    requires s > m.stride && s >= StrideDefault(m.cf, m.w)
    ensures Adjust(m, stride, align).Done?
    ensures Adjust(Adjust(m, stride, align).image, m.stride, 1) == Done(m) <==>
            m.h > 0 && m.stride >= StrideDefault(m.cf, m.w) && !Degenerate(m)
  {
    hide Restrided, Palette, Plane, Alpha, Degenerate;
    StridingLength(m);
    var n := Adjust(m, stride, align).image;
    if m.h == 0 {
      NoRowsLoseStride(m, stride, align, s);
    } else if !Degenerate(m) {
      AdjustKeepsLengthIff(m, stride, align);
      StridingLength(n);
      Planes(m);
      ThereAndBack(m, s);
      WidenNarrowRows(Plane(m), m.h, m.stride, s);
      if m.cf == Rgb565A8 { WidenNarrowRows(Alpha(m), m.h, m.stride / 2, s / 2); }
    } else if Adjust(n, m.stride, 1).Done? {
      AdjustKeepsLengthIff(m, stride, align);
      SameDegenerate(m, n);
      AdjustKeepsLengthIff(n, m.stride, 1);
    }
  }

  /** Rows that were narrowed behind a palette come out too long when they are widened. */
  lemma RowsStayTooLong(data: seq<Byte>, palette: nat, h: nat, a: nat, b: nat)
    requires |data| > Span(h, a) && palette > 0 && a <= b
    ensures |Take(data, palette)| + |Restride(Drop(data, palette), h, a, b)| > Span(h, b)
  {
    hide Restride, Span;
    SpanSplit(h, a, b - a);
    var rows := Drop(data, palette);
    if |rows| < Span(h, a) {
      ShortRows(rows, h, a, b);
    } else {
      SpanIsTimes(h, a);
      RestrideLength(rows, h, a, b);
    }
  }

  lemma SpanPositive(h: nat, a: nat)
    requires h > 0 && a > 0
    ensures Span(h, a) > 0
  {}

  lemma NarrowedTooLong(data: seq<Byte>, palette: nat, h: nat, a: nat, b: nat)
    requires |data| == Span(h, a) && palette > 0 && h > 0 && b < a
    ensures |Take(data, palette)| + |Restride(Drop(data, palette), h, a, b)| > Span(h, b)
  {
    hide Restride, Span;
    SpanSplit(h, b, a - b);
    SpanPositive(h, a);
    ShortRows(Drop(data, palette), h, a, b);
  }

  lemma DegenerateStaysTooLong(m: Image, s: nat)
    requires Striding(m) && Degenerate(m) && s < m.stride
    ensures var n := m.(stride := s, data := Restrided(m, s));
      |Restrided(n, m.stride)| > |m.data|
  {
    hide Restride;
    SpanIsTimes(m.h, m.stride);
    var n := m.(stride := s, data := Restrided(m, s));
    NarrowedTooLong(m.data, PaletteSize(m.cf), m.h, m.stride, s);
    RowsStayTooLong(n.data, PaletteSize(m.cf), m.h, s, m.stride);
  }

  lemma LongEnough(m: Image, n: Image)
    requires m.h > 0 && n.h == m.h && n.stride > 0
    ensures DataLen(n.cf, n.w, n.h, n.stride) > 0
  {
    SpanIsTimes(n.h, n.stride);
    SpanPositive(n.h, n.stride);
  }

  /** What narrowing to stride s cuts off is zero, in both planes. */
  predicate CutOffIsZero(m: Image, s: nat)
    requires s <= m.stride
  {
    && ZeroPadding(Plane(m), m.h, m.stride, s)
    && (m.cf == Rgb565A8 ==> ZeroPadding(Alpha(m), m.h, m.stride / 2, s / 2))
  }

  /** What to_png does to every image with a stride above the least: narrowing and then
      widening gives the image back exactly when it has rows, the narrow stride is not 0, the image
      is not indexed with width 0, and all the padding cut off was zero. */
  lemma NarrowThenWidenIff(m: Image, stride: int, align: int, s: nat)
    requires WellFormed(m) && m.stride > 0 && Requested(m, stride, align) == Some(s)
    requires StrideDefault(m.cf, m.w) <= s < m.stride
    ensures Adjust(m, stride, align).Done?
    ensures Adjust(Adjust(m, stride, align).image, m.stride, 1) == Done(m) <==>
            && m.h > 0 && s > 0 && !Degenerate(m)
            && CutOffIsZero(m, s)
  {
    hide Restrided, Palette, Plane, Alpha, ZeroPadding, Degenerate;
    StridingLength(m);
    var n := Adjust(m, stride, align).image;
    if m.h == 0 {
      NoRowsLoseStride(m, stride, align, s);
    } else if s > 0 {
      LongEnough(m, n);
      if Degenerate(m) {
        DegenerateStaysTooLong(m, s);
      } else {
        Planes(m);
        ThereAndBack(m, s);
        NarrowWidenRows(Plane(m), m.h, m.stride, s);
        if m.cf == Rgb565A8 { NarrowWidenRows(Alpha(m), m.h, m.stride / 2, s / 2); }
      }
    }
  }

  /** Whether a change of stride and the way back give the image back: nothing changes, or the
      image has rows, is not indexed with width 0, and neither step is refused or cuts off
      anything but zeros. */
  predicate Restorable(m: Image, s: nat) {
    || s == m.stride
    || (&& m.h > 0 && !Degenerate(m)
        && m.stride >= StrideDefault(m.cf, m.w)
        && (s < m.stride ==> s > 0 && CutOffIsZero(m, s)))
  }

  /** Every image that set_data accepts and every change of stride that is not refused. */
  lemma ThereAndBackIff(m: Image, stride: int, align: int)
    requires WellFormed(m) && Adjust(m, stride, align).Done?
    ensures Adjust(Adjust(m, stride, align).image, m.stride, 1) == Done(m) <==>
            m.stride == 0 || Restorable(m, Requested(m, stride, align).value)
  {
    hide Restrided, CutOffIsZero, Degenerate;
    if m.stride > 0 {
      var s := Requested(m, stride, align).value;
      if s != m.stride && m.h == 0 {
        NoRowsLoseStride(m, stride, align, s);
      } else if s != m.stride {
        StridingLength(m);
        if s > m.stride { WidenThenNarrowIff(m, stride, align, s); } else { NarrowThenWidenIff(m, stride, align, s); }
      }
    }
  }

  // ---------------------------------------------------------------- examples

  /** An indexed image of width 0 with one row of one byte: made 1-byte aligned it keeps that
      byte, and data_len becomes 0. */
  lemma LengthLostAtWidthZero()
    ensures var m := Image(I1, 0, 1, 1, [7]);
      && WellFormed(m)
      && Adjust(m, 0, 1) == Done(Image(I1, 0, 1, 0, [7]))
      && DataLen(I1, 0, 1, 0) == 0
  {
    var m := Image(I1, 0, 1, 1, [7]);
    assert Restride([], 1, 1, 0) == Fit(Take([], 1), 1, 0) + Restride(Drop([], 1), 0, 1, 0) == [];
    assert Restrided(m, 0) == [7];
  }

  /** A stride of 1 for two pixels of one byte is accepted, and cannot be returned to. */
  lemma ShortStrideNotRestored()
    ensures var m := Image(L8, 2, 1, 1, [5]);
      && WellFormed(m)
      && Adjust(m, 2, 1).Done?
      && Adjust(Adjust(m, 2, 1).image, 1, 1) == ParameterError
  {
    var m := Image(L8, 2, 1, 1, [5]);
    assert |Restrided(m, 2)| == 2 by { RestridedLength(m, 2); }
  }

  /** An image without rows goes to stride 8 and back to 4, and ends at stride 0. */
  lemma StrideLostWithoutRows()
    ensures var m := Image(L8, 4, 0, 4, []);
      && WellFormed(m)
      && Adjust(m, 8, 1) == Done(Image(L8, 4, 0, 0, []))
      && Adjust(Image(L8, 4, 0, 0, []), 4, 1) == Done(Image(L8, 4, 0, 0, []))
  {
    NoRowsLoseStride(Image(L8, 4, 0, 4, []), 8, 1, 8);
  }

  /** A padding byte of 9 comes back as 0 from being written by to_png. */
  lemma PaddingNotRestored()
    ensures var m := Image(L8, 1, 1, 2, [5, 9]);
      && WellFormed(m)
      && Adjust(m, 0, 1) == Done(Image(L8, 1, 1, 1, [5]))
      && Adjust(Image(L8, 1, 1, 1, [5]), 2, 1) == Done(Image(L8, 1, 1, 2, [5, 0]))
  {
    var m, n := Image(L8, 1, 1, 2, [5, 9]), Image(L8, 1, 1, 1, [5]);
    assert Restride([5, 9], 1, 2, 1) == Fit([5, 9], 2, 1) + Restride([], 0, 2, 1) == [5];
    assert Restride([5], 1, 1, 2) == Fit([5], 1, 2) + Restride([], 0, 1, 2) == [5, 0];
    assert Restrided(m, 1) == [5] && Restrided(n, 2) == [5, 0];
  }

  // ---------------------------------------------------------------- the object

  class ImageObject {
    var cf: ColorFormat
    var w: Dim
    var h: Dim
    var stride: nat
    var data: seq<Byte>

    ghost function View(): Image
      reads this
    {
      Image(cf, w, h, stride, data)
    }

    constructor ()
      ensures View() == Image(Unknown, 0, 0, 0, []) && WellFormed(View())
    {
      cf, w, h, stride, data := Unknown, 0, 0, 0, [];
    }

    /** A refused length leaves the new format, size and stride with the old data. */
    method SetData(cf': ColorFormat, w': nat, h': nat, data': seq<Byte>, stride': nat) returns (ok: bool)
      modifies this
      ensures ok ==> WellFormed(View())
      ensures w' > 0xffff || h' > 0xffff ==> !ok && View() == old(View())
      ensures w' <= 0xffff && h' <= 0xffff ==>
        var s := if stride' == 0 then StrideDefault(cf', w') else stride';
        && ok == (|data'| == DataLen(cf', w', h', s))
        && View() == Image(cf', w', h', s, if ok then data' else old(data))
    {
      if w' > 0xffff || h' > 0xffff { return false; }
      cf, w, h := cf', w', h';
      stride := if stride' == 0 then StrideAligned(cf, w, 1) else stride';
      if DataLen(cf, w, h, stride) != |data'| { return false; }
      data := data';
      return true;
    }

    method AdjustStride(stride': int, align: int) returns (ok: bool)
      modifies this
      ensures match Adjust(old(View()), stride', align)
              case Done(m) => ok && View() == m
              case ParameterError => !ok && View() == old(View())
    {
      hide Restride, DataLen, StrideDefault, StrideAligned;
      if stride == 0 { return true; }
      var s: nat := 0;
      if align >= 1 && stride' == 0 {
        s := StrideAligned(cf, w, align);
      } else if stride' > 0 {
        s := stride';
      } else {
        return false;
      }
      if stride == s { return true; }
      if DataLen(cf, w, h, stride) == 0 {
        stride := 0;
        return true;
      }
      if s < StrideDefault(cf, w) { return false; }
      var paletteSize := PaletteColors(cf) * 4;
      var out := Take(data, paletteSize);
      var rows := ChangeStride(Drop(data, paletteSize), h, stride, s);
      out := out + rows;
      if cf == Rgb565A8 {
        var a8Stride := stride / 2;
        var a8Map := Last(data, a8Stride * h);
        var alpha := ChangeStride(a8Map, h, stride / 2, s / 2);
        out := out + alpha;
      }
      stride := s;
      data := out;
      return true;
    }
  }
}
