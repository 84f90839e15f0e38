/** unpack_colors of scripts/lvgl_img_converter/LVGLImage.py for formats of up to 8 bits, and
    its inverse: the row packing of section 7.2 of the PNG specification. */
module LvglPixels {
  import opened Arith
  import opened Bytes
  import opened LvglColors

  predicate Packable(bpp: nat) { bpp == 1 || bpp == 2 || bpp == 4 }

  /** 2 to the bpp, for the depths that share a byte. */
  function Base(bpp: nat): nat
    requires Packable(bpp)
  {
    if bpp == 1 then 2 else if bpp == 2 then 4 else 16
  }

  function PerByte(bpp: nat): nat
    requires Packable(bpp)
  {
    if bpp == 1 then 8 else if bpp == 2 then 4 else 2
  }

  // ---------------------------------------------------------------- one byte

  function ShiftRight(p: nat, k: nat): nat { if k == 0 then p else ShiftRight(p / 2, k - 1) }

  /** (p >> (8 - bpp - i * bpp)) & (2^bpp - 1). */
  function Cell(p: Byte, bpp: nat, i: nat): (c: nat)
    requires Packable(bpp) && i < PerByte(bpp)
    ensures c < Base(bpp)
  {
    assert i * bpp <= 8 - bpp;
    ShiftRight(p, 8 - bpp - i * bpp) % Base(bpp)
  }

  predicate AllBelow(cells: seq<nat>, base: nat) {
    forall k :: 0 <= k < |cells| ==> cells[k] < base
  }

  function CellsOf(p: Byte, bpp: nat): (cells: seq<nat>)
    requires Packable(bpp)
    ensures |cells| == PerByte(bpp) && AllBelow(cells, Base(bpp))
  {
    seq(PerByte(bpp), i requires 0 <= i < PerByte(bpp) => Cell(p, bpp, i))
  }

  /** The number whose digits are the cells, leftmost most significant. */
  function Number(cells: seq<nat>, bpp: nat): nat
    requires Packable(bpp)
  {
    if cells == [] then 0 else Number(cells[..|cells| - 1], bpp) * Base(bpp) + cells[|cells| - 1]
  }

  function Digits(p: nat, n: nat, bpp: nat): (cells: seq<nat>)
    requires Packable(bpp)
    ensures |cells| == n
  {
    if n == 0 then [] else Digits(p / Base(bpp), n - 1, bpp) + [p % Base(bpp)]
  }

  lemma LastDigit(m: nat, last: nat, bpp: nat)
    requires Packable(bpp) && last < Base(bpp)
    ensures (m * Base(bpp) + last) / Base(bpp) == m && (m * Base(bpp) + last) % Base(bpp) == last
  {}

  lemma {:induction false} DigitsOfNumber(cells: seq<nat>, bpp: nat)
    requires Packable(bpp) && AllBelow(cells, Base(bpp))
    ensures Digits(Number(cells, bpp), |cells|, bpp) == cells
  {
    hide Base;
    if cells != [] {
      var init, last := cells[..|cells| - 1], cells[|cells| - 1];
      DigitsOfNumber(init, bpp);
      LastDigit(Number(init, bpp), last, bpp);
    }
  }

  lemma ShiftByTwo(p: nat, k: nat)
    ensures ShiftRight(p, k + 2) == ShiftRight(p / 4, k)
  {
    assert ShiftRight(p, k + 2) == ShiftRight(p / 2, k + 1) == ShiftRight(p / 2 / 2, k);
  }

  lemma ShiftByCell(p: nat, k: nat, bpp: nat)
    requires Packable(bpp)
    ensures ShiftRight(p, k + bpp) == ShiftRight(p / Base(bpp), k)
  {
    if bpp == 2 {
      ShiftByTwo(p, k);
    } else if bpp == 4 {
      ShiftByTwo(p, k + 2);
      ShiftByTwo(p / 4, k);
      assert p / 4 / 4 == p / 16;
    }
  }

  lemma {:induction false} DigitIsShift(p: nat, n: nat, bpp: nat, i: nat)
    requires Packable(bpp) && i < n
    ensures Digits(p, n, bpp)[i] == ShiftRight(p, (n - 1 - i) * bpp) % Base(bpp)
  {
    if i < n - 1 {
      DigitIsShift(p / Base(bpp), n - 1, bpp, i);
      ShiftByCell(p, (n - 2 - i) * bpp, bpp);
      assert (n - 2 - i) * bpp + bpp == (n - 1 - i) * bpp;
    }
  }

  lemma CellsAreDigits(p: Byte, bpp: nat)
    requires Packable(bpp)
    ensures CellsOf(p, bpp) == Digits(p, PerByte(bpp), bpp)
  {
    var n := PerByte(bpp);
    forall i | 0 <= i < n ensures CellsOf(p, bpp)[i] == Digits(p, n, bpp)[i] {
      DigitIsShift(p, n, bpp, i);
      assert (n - 1 - i) * bpp == 8 - bpp - i * bpp;
    }
  }

  /** How many numbers n cells can hold. */
  function Power(bpp: nat, n: nat): nat
    requires Packable(bpp)
  {
    if n == 0 then 1 else Power(bpp, n - 1) * Base(bpp)
  }

  lemma {:induction false} NumberBelow(cells: seq<nat>, bpp: nat)
    requires Packable(bpp) && AllBelow(cells, Base(bpp))
    ensures Number(cells, bpp) < Power(bpp, |cells|)
  {
    if cells != [] {
      NumberBelow(cells[..|cells| - 1], bpp);
    }
  }

  /** A byte is given back by its cells. */
  lemma CellsOfNumber(cells: seq<nat>, bpp: nat)
    requires Packable(bpp) && |cells| == PerByte(bpp) && AllBelow(cells, Base(bpp))
    ensures Number(cells, bpp) < 256
    ensures CellsOf(Number(cells, bpp), bpp) == cells
  {
    NumberBelow(cells, bpp);
    assert Power(1, 8) == 256 && Power(2, 4) == 256 && Power(4, 2) == 256;
    CellsAreDigits(Number(cells, bpp), bpp);
    DigitsOfNumber(cells, bpp);
  }

  // ---------------------------------------------------------------- packing rows

  /** The cells of one byte. */
  type Group = seq<nat>

  ghost predicate GroupOf(g: Group, bpp: nat)
    requires Packable(bpp)
  {
    |g| == PerByte(bpp) && AllBelow(g, Base(bpp))
  }

  /** A row of w pixels: as many whole bytes as needed. */
  ghost predicate Row(groups: seq<Group>, w: nat, bpp: nat)
    requires Packable(bpp)
  {
    && groups != []
    && GroupOf(groups[0], bpp)
    && if w <= PerByte(bpp) then |groups| == 1 else Row(groups[1..], w - PerByte(bpp), bpp)
  }

  /** The pixels of a row; the cells of its last byte past the width are padding bits. */
  ghost function PixelsOf(groups: seq<Group>, w: nat, bpp: nat): seq<nat>
    requires Packable(bpp) && Row(groups, w, bpp)
  {
    if w <= PerByte(bpp) then groups[0][..w]
    else groups[0] + PixelsOf(groups[1..], w - PerByte(bpp), bpp)
  }

  ghost function PackRow(groups: seq<Group>, w: nat, bpp: nat): seq<Byte>
    requires Packable(bpp) && Row(groups, w, bpp)
  {
    CellsOfNumber(groups[0], bpp);
    [Number(groups[0], bpp)] +
    if w <= PerByte(bpp) then [] else PackRow(groups[1..], w - PerByte(bpp), bpp)
  }

  ghost predicate Rows(rows: seq<seq<Group>>, w: nat, bpp: nat)
    requires Packable(bpp)
  {
    forall r :: 0 <= r < |rows| ==> Row(rows[r], w, bpp)
  }

  /** Rows one after the other, each from a byte boundary. */
  ghost function PackRows(rows: seq<seq<Group>>, w: nat, bpp: nat): seq<Byte>
    requires Packable(bpp) && Rows(rows, w, bpp)
  {
    if rows == [] then [] else PackRow(rows[0], w, bpp) + PackRows(rows[1..], w, bpp)
  }

  ghost function AllPixels(rows: seq<seq<Group>>, w: nat, bpp: nat): seq<nat>
    requires Packable(bpp) && Rows(rows, w, bpp)
  {
    if rows == [] then [] else PixelsOf(rows[0], w, bpp) + AllPixels(rows[1..], w, bpp)
  }

  // ---------------------------------------------------------------- unpacking

  function Min(a: nat, b: nat): nat { if a < b then a else b }

  /** The cells the loops put out, when col pixels of the current row are out already. */
  function Unpacked(data: seq<Byte>, bpp: nat, w: nat, col: nat): (cells: seq<nat>)
    requires Packable(bpp) && col < w
    ensures AllBelow(cells, Base(bpp))
  {
    if data == [] then []
    else
      var n := Min(w - col, PerByte(bpp));
      CellsOf(data[0], bpp)[..n] + Unpacked(data[1..], bpp, w, if col + n == w then 0 else col + n)
  }

  /** What one byte puts out. */
  lemma UnpackByte(p: Byte, rest: seq<Byte>, bpp: nat, w: nat, col: nat)
    requires Packable(bpp) && col < w
    ensures var n := Min(w - col, PerByte(bpp));
      Unpacked([p] + rest, bpp, w, col)
      == CellsOf(p, bpp)[..n] + Unpacked(rest, bpp, w, if col + n == w then 0 else col + n)
  {
    assert ([p] + rest)[1..] == rest;
  }

  lemma {:induction false} UnpackRow(groups: seq<Group>, bpp: nat, w: nat, col: nat, rest: seq<Byte>)
    requires Packable(bpp) && col < w && Row(groups, w - col, bpp)
    ensures Unpacked(PackRow(groups, w - col, bpp) + rest, bpp, w, col)
         == PixelsOf(groups, w - col, bpp) + Unpacked(rest, bpp, w, 0)
    decreases |groups|
  {
    hide Number, CellsOf, Base, PerByte, Packable, Unpacked, AllBelow;
    var n := PerByte(bpp);
    var g := groups[0];
    CellsOfNumber(g, bpp);
    if w - col <= n {
      UnpackByte(Number(g, bpp), rest, bpp, w, col);
      assert PackRow(groups, w - col, bpp) == [Number(g, bpp)];
    } else {
      var packed := PackRow(groups[1..], w - col - n, bpp);
      UnpackByte(Number(g, bpp), packed + rest, bpp, w, col);
      UnpackRow(groups[1..], bpp, w, col + n, rest);
      assert PackRow(groups, w - col, bpp) + rest == [Number(g, bpp)] + (packed + rest);
    }
  }

  lemma UnpackNothing(bpp: nat, w: nat)
    requires Packable(bpp) && w > 0
    ensures Unpacked([], bpp, w, 0) == []
  {}

  /** Unpacking inverts packing: every width, every number of rows, any padding bits. */
  lemma {:induction false} UnpackInvertsPack(rows: seq<seq<Group>>, bpp: nat, w: nat)
    requires Packable(bpp) && w > 0 && Rows(rows, w, bpp)
    ensures Unpacked(PackRows(rows, w, bpp), bpp, w, 0) == AllPixels(rows, w, bpp)
  {
    hide PackRow, PixelsOf, Row, Unpacked;
    if rows == [] {
      UnpackNothing(bpp, w);
    } else {
      UnpackRow(rows[0], bpp, w, 0, PackRows(rows[1..], w, bpp));
      UnpackInvertsPack(rows[1..], bpp, w);
    }
  }

  // ---------------------------------------------------------------- every row is packed

  lemma DivBase(p: nat, m: nat, bpp: nat)
    requires Packable(bpp)
    ensures p < m * Base(bpp) ==> p / Base(bpp) < m
    ensures p / Base(bpp) * Base(bpp) + p % Base(bpp) == p
  {}

  lemma {:induction false} NumberOfDigits(p: nat, n: nat, bpp: nat)
    requires Packable(bpp) && p < Power(bpp, n)
    ensures Number(Digits(p, n, bpp), bpp) == p
  {
    if n > 0 {
      DivBase(p, Power(bpp, n - 1), bpp);
      NumberOfDigits(p / Base(bpp), n - 1, bpp);
      assert Digits(p, n, bpp)[..n - 1] == Digits(p / Base(bpp), n - 1, bpp);
    }
  }

  lemma NumberOfCells(p: Byte, bpp: nat)
    requires Packable(bpp)
    ensures GroupOf(CellsOf(p, bpp), bpp) && Number(CellsOf(p, bpp), bpp) == p
  {
    CellsAreDigits(p, bpp);
    assert Power(1, 8) == 256 && Power(2, 4) == 256 && Power(4, 2) == 256;
    NumberOfDigits(p, PerByte(bpp), bpp);
  }

  ghost function GroupsOf(bytes: seq<Byte>, bpp: nat): (groups: seq<Group>)
    requires Packable(bpp)
    ensures |groups| == |bytes|
  {
    seq(|bytes|, k requires 0 <= k < |bytes| => CellsOf(bytes[k], bpp))
  }

  /** ceil(w / PerByte) for w >= 1: the bytes of a row of w pixels. */
  function RowBytes(w: nat, bpp: nat): (n: nat)
    requires Packable(bpp)
    ensures n >= 1
  {
    if w <= PerByte(bpp) then 1 else 1 + RowBytes(w - PerByte(bpp), bpp)
  }

  /** As many whole bytes as w pixels need. */
  lemma {:induction false} RowHoldsPixels(w: nat, bpp: nat)
    requires Packable(bpp) && w > 0
    ensures 8 * (RowBytes(w, bpp) - 1) < w * bpp <= 8 * RowBytes(w, bpp)
  {
    if w > PerByte(bpp) { RowHoldsPixels(w - PerByte(bpp), bpp); }
  }

  /** The default stride of the packed formats. */
  lemma RowBytesIsStride(w: nat, cf: ColorFormat)
    requires Packable(BitsPerPixel(cf)) && w > 0
    ensures RowBytes(w, BitsPerPixel(cf)) == StrideDefault(cf, w)
  {
    var n := RowBytes(w, BitsPerPixel(cf));
    RowHoldsPixels(w, BitsPerPixel(cf));
    StrideDefaultIsLeast(cf, w, n);
    StrideDefaultIsLeast(cf, w, n - 1);
  }

  /** Every row of bytes is the packing of the pixels and padding bits it unpacks to. */
  lemma {:induction false} PackInvertsUnpack(bytes: seq<Byte>, w: nat, bpp: nat)
    requires Packable(bpp) && |bytes| == RowBytes(w, bpp)
    ensures Row(GroupsOf(bytes, bpp), w, bpp) && PackRow(GroupsOf(bytes, bpp), w, bpp) == bytes
  {
    hide Number, CellsOf, Base, AllBelow, GroupOf;
    NumberOfCells(bytes[0], bpp);
    if w > PerByte(bpp) {
      assert GroupsOf(bytes, bpp)[1..] == GroupsOf(bytes[1..], bpp);
      PackInvertsUnpack(bytes[1..], w - PerByte(bpp), bpp);
    }
  }

  // ---------------------------------------------------------------- the loops

  /** The lookup table of the format: alpha-only values are spread over 0..255. */
  function Values(cf: ColorFormat): (vs: seq<Byte>)
    requires Packable(BitsPerPixel(cf))
    ensures |vs| == Base(BitsPerPixel(cf))
  {
    match cf
    case A4 => seq(16, x requires 0 <= x < 16 => x * 17)
    case A2 => seq(4, x requires 0 <= x < 4 => x * 85)
    case A1 => [0, 255]
    case I4 => seq(16, x requires 0 <= x < 16 => x)
    case I2 => seq(4, x requires 0 <= x < 4 => x)
    case I1 => [0, 1]
  }

  predicate AlphaOnly(cf: ColorFormat) { cf == A1 || cf == A2 || cf == A4 || cf == A8 }

  /** An index stands for itself; an alpha value of a few bits for the same share of 255. */
  predicate StandsFor(cf: ColorFormat, value: Byte, cell: nat)
    requires Packable(BitsPerPixel(cf))
  {
    if AlphaOnly(cf) then value * (Base(BitsPerPixel(cf)) - 1) == 255 * cell else value == cell
  }

  lemma ValuesStandFor(cf: ColorFormat, cell: nat)
    requires Packable(BitsPerPixel(cf)) && cell < Base(BitsPerPixel(cf))
    ensures StandsFor(cf, Values(cf)[cell], cell)
  {}

  function Look(values: seq<Byte>, cells: seq<nat>): (r: seq<Byte>)
    requires AllBelow(cells, |values|)
    ensures |r| == |cells|
  {
    seq(|cells|, k requires 0 <= k < |cells| => values[cells[k]])
  }

  /** One more cell of byte p. */
  lemma LookNext(values: seq<Byte>, done: seq<nat>, p: Byte, bpp: nat, i: nat)
    requires Packable(bpp) && i < PerByte(bpp) && |values| == Base(bpp) && AllBelow(done, |values|)
    ensures AllBelow(done + CellsOf(p, bpp)[..i], |values|)
    ensures AllBelow(done + CellsOf(p, bpp)[..i + 1], |values|)
    ensures Look(values, done + CellsOf(p, bpp)[..i]) + [values[Cell(p, bpp, i)]]
         == Look(values, done + CellsOf(p, bpp)[..i + 1])
  {
    assert CellsOf(p, bpp)[..i + 1] == CellsOf(p, bpp)[..i] + [Cell(p, bpp, i)];
  }

  lemma LookStart(values: seq<Byte>, data: seq<Byte>, bpp: nat, w: nat)
    requires Packable(bpp) && w > 0
    ensures AllBelow([], |values|) && Look(values, []) == [] && (forall col :: 0 <= col < w ==> Unpacked([], bpp, w, col) == [])
    ensures data[0..] == data && [] + Unpacked(data, bpp, w, 0) == Unpacked(data, bpp, w, 0)
  {}

  /** The inner loop: the cells of one byte, until the row is full. */
  method UnpackOne(p: Byte, bpp: nat, values: seq<Byte>, w: nat, was: seq<Byte>, ghost cells: seq<nat>)
    returns (ret: seq<Byte>)
    requires Packable(bpp) && w > 0 && |values| == Base(bpp)
    requires AllBelow(cells, |values|) && was == Look(values, cells)
    ensures var col := |was| % w;
      var n := Min(w - col, PerByte(bpp));
      && AllBelow(cells + CellsOf(p, bpp)[..n], |values|)
      && ret == Look(values, cells + CellsOf(p, bpp)[..n])
      && |ret| % w == if col + n == w then 0 else col + n
  {
    hide Cell, CellsOf, AllBelow, Look, Base, Packable;
    ret := was;
    ghost var col := |was| % w;
    assert cells + CellsOf(p, bpp)[..0] == cells;
    var i := 0;
    while i < PerByte(bpp)
      invariant i <= PerByte(bpp) && |ret| % w == col + i < w
      invariant AllBelow(cells + CellsOf(p, bpp)[..i], |values|)
      invariant ret == Look(values, cells + CellsOf(p, bpp)[..i])
    {
      LookNext(values, cells, p, bpp, i);
      ModNext(|ret|, w);
      ret := ret + [values[Cell(p, bpp, i)]];
      i := i + 1;
      if |ret| % w == 0 { break; }
    }
    assert i == Min(w - col, PerByte(bpp));
  }

  /** unpack_colors up to 8 bits per pixel. None: ZeroDivisionError, for width 0. */
  method UnpackColors(data: seq<Byte>, cf: ColorFormat, w: nat) returns (r: Option<seq<Byte>>)
    requires BitsPerPixel(cf) == 8 || Packable(BitsPerPixel(cf))
    ensures BitsPerPixel(cf) == 8 ==> r == Some(data)
    ensures Packable(BitsPerPixel(cf)) && w == 0 ==> r == if data == [] then Some([]) else None
    ensures Packable(BitsPerPixel(cf)) && w > 0 ==>
      r == Some(Look(Values(cf), Unpacked(data, BitsPerPixel(cf), w, 0)))
  {
    hide Unpacked, CellsOf, AllBelow, Look, Values, Base, BitsPerPixel;
    var bpp := BitsPerPixel(cf);
    if bpp == 8 { return Some(data); }
    if w == 0 { return if data == [] then Some([]) else None; }
    var values := Values(cf);
    var ret: seq<Byte> := [];
    ghost var cells: seq<nat> := [];
    LookStart(values, data, bpp, w);
    for j := 0 to |data|
      invariant AllBelow(cells, |values|) && ret == Look(values, cells)
      invariant cells + Unpacked(data[j..], bpp, w, |ret| % w) == Unpacked(data, bpp, w, 0)
    {
      assert data[j..] == [data[j]] + data[j + 1..];
      UnpackByte(data[j], data[j + 1..], bpp, w, |ret| % w);
      ghost var n := Min(w - |ret| % w, PerByte(bpp));
      ret := UnpackOne(data[j], bpp, values, w, ret, cells);
      ghost var rest := Unpacked(data[j + 1..], bpp, w, |ret| % w);
      assert cells + (CellsOf(data[j], bpp)[..n] + rest) == cells + CellsOf(data[j], bpp)[..n] + rest;
      cells := cells + CellsOf(data[j], bpp)[..n];
    }
    assert data[|data|..] == [] && Unpacked([], bpp, w, |ret| % w) == [];
    assert cells + [] == cells;
    r := Some(ret);
  }

  // ---------------------------------------------------------------- the colours of packed rows

  lemma {:induction false} PixelsOfRow(groups: seq<Group>, w: nat, bpp: nat)
    requires Packable(bpp) && w > 0 && Row(groups, w, bpp)
    ensures |PixelsOf(groups, w, bpp)| == w && AllBelow(PixelsOf(groups, w, bpp), Base(bpp))
    ensures |groups| == RowBytes(w, bpp)
    decreases w
  {
    if w > PerByte(bpp) { PixelsOfRow(groups[1..], w - PerByte(bpp), bpp); }
  }

  lemma {:induction false} PixelsOfRows(rows: seq<seq<Group>>, w: nat, bpp: nat)
    requires Packable(bpp) && w > 0 && Rows(rows, w, bpp)
    ensures |AllPixels(rows, w, bpp)| == Span(|rows|, w)
    ensures AllBelow(AllPixels(rows, w, bpp), Base(bpp))
  {
    hide PixelsOf, Row, Base;
    if rows != [] {
      PixelsOfRow(rows[0], w, bpp);
      PixelsOfRows(rows[1..], w, bpp);
    }
  }

  /** What unpack_colors returns for packed rows: one value for every pixel, in order, which stands
      for what was packed. */
  lemma ColorsOfRows(rows: seq<seq<Group>>, cf: ColorFormat, w: nat)
    requires Packable(BitsPerPixel(cf)) && w > 0 && Rows(rows, w, BitsPerPixel(cf))
    ensures var bpp := BitsPerPixel(cf); var pixels := AllPixels(rows, w, bpp);
      var out := Look(Values(cf), Unpacked(PackRows(rows, w, bpp), bpp, w, 0));
      && |out| == |pixels| == Span(|rows|, w)
      && forall k :: 0 <= k < |out| ==> StandsFor(cf, out[k], pixels[k])
  {
    hide PackRows, AllPixels, Unpacked, StandsFor, Values;
    var bpp := BitsPerPixel(cf);
    var pixels := AllPixels(rows, w, bpp);
    UnpackInvertsPack(rows, bpp, w);
    PixelsOfRows(rows, w, bpp);
    forall k | 0 <= k < |pixels| ensures StandsFor(cf, Values(cf)[pixels[k]], pixels[k]) {
      ValuesStandFor(cf, pixels[k]);
    }
  }

  // ---------------------------------------------------------------- any bytes

  ghost function RowsOf(bytes: seq<Byte>, h: nat, n: nat, bpp: nat): (rows: seq<seq<Group>>)
    requires Packable(bpp) && |bytes| == Span(h, n)
    ensures |rows| == h
    decreases h
  {
    if h == 0 then [] else [GroupsOf(bytes[..n], bpp)] + RowsOf(bytes[n..], h - 1, n, bpp)
  }

  /** Any rows of bytes of the default stride are packed rows. */
  lemma {:induction false} RowsArePacked(bytes: seq<Byte>, h: nat, w: nat, bpp: nat)
    requires Packable(bpp) && |bytes| == Span(h, RowBytes(w, bpp))
    ensures var rows := RowsOf(bytes, h, RowBytes(w, bpp), bpp);
      Rows(rows, w, bpp) && PackRows(rows, w, bpp) == bytes
    decreases h
  {
    hide GroupsOf, PackRow, Row;
    if h > 0 {
      var n := RowBytes(w, bpp);
      var rows, rest := RowsOf(bytes, h, n, bpp), RowsOf(bytes[n..], h - 1, n, bpp);
      PackInvertsUnpack(bytes[..n], w, bpp);
      RowsArePacked(bytes[n..], h - 1, w, bpp);
      assert rows[0] == GroupsOf(bytes[..n], bpp) && rows[1..] == rest;
      forall r | 0 <= r < |rows| ensures Row(rows[r], w, bpp) { if r > 0 { assert rows[r] == rest[r - 1]; } }
    }
  }

  /** From h rows of the default stride unpack_colors makes h times w values. */
  lemma RowsUnpackToPixels(bytes: seq<Byte>, h: nat, cf: ColorFormat, w: nat)
    requires Packable(BitsPerPixel(cf)) && w > 0 && |bytes| == Span(h, StrideDefault(cf, w))
    ensures |Look(Values(cf), Unpacked(bytes, BitsPerPixel(cf), w, 0))| == Span(h, w)
  {
    hide PackRows, Unpacked, StandsFor, Values, StrideDefault;
    var bpp := BitsPerPixel(cf);
    RowBytesIsStride(w, cf);
    RowsArePacked(bytes, h, w, bpp);
    ColorsOfRows(RowsOf(bytes, h, RowBytes(w, bpp), bpp), cf, w);
  }
}
