/** change_stride of scripts/lvgl_img_converter/LVGLImage.py. */
module LvglStride {
  import opened Arith
  import opened Bytes

  function Zeros(n: nat): (s: seq<Byte>)
    ensures |s| == n && forall k :: 0 <= k < n ==> s[k] == 0
  {
    seq(n, _ => 0)
  }

  /** One row cut or filled up with zeros. */
  function Fit(row: seq<Byte>, current: nat, stride: nat): seq<Byte> {
    if stride < current then Take(row, stride) else row + Zeros(stride - current)
  }

  function Restride(data: seq<Byte>, h: nat, current: nat, stride: nat): seq<Byte>
    decreases h
  {
    if h == 0 then []
    else Fit(Take(data, current), current, stride) + Restride(Drop(data, current), h - 1, current, stride)
  }

  lemma {:induction false} RestrideLength(data: seq<Byte>, h: nat, current: nat, stride: nat)
    requires |data| >= Span(h, current)
    ensures |Restride(data, h, current, stride)| == Span(h, stride)
    decreases h
  {
    if h > 0 {
      RestrideLength(Drop(data, current), h - 1, current, stride);
    }
  }

  lemma RestrideRow(row: seq<Byte>, rest: seq<Byte>, h: nat, current: nat, stride: nat)
    requires h > 0 && |row| == current
    ensures Restride(row + rest, h, current, stride)
         == Fit(row, current, stride) + Restride(rest, h - 1, current, stride)
    ensures |Fit(row, current, stride)| == stride
  {
    assert Take(row + rest, current) == row && Drop(row + rest, current) == rest;
  }

  lemma FirstRow(data: seq<Byte>, h: nat, current: nat)
    requires h > 0 && |data| >= Span(h, current)
    ensures |Take(data, current)| == current && data == Take(data, current) + Drop(data, current)
    ensures |Drop(data, current)| == |data| - current
  {}

  lemma {:induction false} SpanBelow(i: nat, h: nat, size: nat)
    requires i < h
    ensures Span(i, size) + size <= Span(h, size)
  {
    if i > 0 { SpanBelow(i - 1, h - 1, size); } else { assert Span(0, size) == 0; }
  }

  lemma FitAt(row: seq<Byte>, current: nat, stride: nat, j: nat)
    requires |row| == current && j < stride
    ensures |Fit(row, current, stride)| == stride
    ensures Fit(row, current, stride)[j] == if j < current then row[j] else 0
  {}

  /** Pixel bytes stay in their row and column; what is new is zero. */
  lemma {:induction false} RestrideAt(data: seq<Byte>, h: nat, current: nat, stride: nat, i: nat, j: nat)
    requires |data| >= Span(h, current) && i < h && j < stride
    ensures |Restride(data, h, current, stride)| == Span(h, stride) > Span(i, stride) + j
    ensures j < current ==> Span(i, current) + j < |data|
    ensures Restride(data, h, current, stride)[Span(i, stride) + j]
         == if j < current then data[Span(i, current) + j] else 0
    decreases h
  {
    hide Restride, Take, Drop;
    RestrideLength(data, h, current, stride);
    SpanBelow(i, h, current);
    SpanBelow(i, h, stride);
    FirstRow(data, h, current);
    var row, rest := Take(data, current), Drop(data, current);
    RestrideRow(row, rest, h, current, stride);
    if i == 0 {
      FitAt(row, current, stride, j);
    } else {
      RestrideAt(rest, h - 1, current, stride, i - 1, j);
    }
  }

  /** Bytes past the last row do not matter. */
  lemma {:induction false} RestrideTail(data: seq<Byte>, more: seq<Byte>, h: nat, current: nat, stride: nat)
    requires |data| >= Span(h, current)
    ensures Restride(data + more, h, current, stride) == Restride(data, h, current, stride)
    decreases h
  {
    if h > 0 {
      assert Take(data + more, current) == Take(data, current);
      assert Drop(data + more, current) == Drop(data, current) + more;
      RestrideTail(Drop(data, current), more, h - 1, current, stride);
    }
  }

  lemma NoRows(data: seq<Byte>, current: nat, stride: nat)
    ensures Restride(data, 0, current, stride) == []
  {}

  lemma WidenRow(row: seq<Byte>, current: nat, stride: nat)
    requires |row| == current <= stride
    ensures Fit(Fit(row, current, stride), stride, current) == row
  {}

  /** Widening the rows and narrowing them again gives them back. */
  lemma {:induction false} WidenNarrowRows(data: seq<Byte>, h: nat, current: nat, stride: nat)
    requires |data| == Span(h, current) && current <= stride
    ensures Restride(Restride(data, h, current, stride), h, stride, current) == data
    decreases h
  {
    hide Take, Drop, Restride;
    if h > 0 {
      FirstRow(data, h, current);
      var row, rest := Take(data, current), Drop(data, current);
      RestrideRow(row, rest, h, current, stride);
      RestrideRow(Fit(row, current, stride), Restride(rest, h - 1, current, stride), h, stride, current);
      WidenRow(row, current, stride);
      WidenNarrowRows(rest, h - 1, current, stride);
    } else {
      NoRows(data, current, stride);
      NoRows([], stride, current);
    }
  }

  /** The bytes of every row from column `from` on are zero. */
  predicate ZeroPadding(data: seq<Byte>, h: nat, current: nat, from: nat)
    requires from <= current
    decreases h
  {
    h == 0 || (Drop(Take(data, current), from) == Zeros(current - from)
               && ZeroPadding(Drop(data, current), h - 1, current, from))
  }

  lemma SplitEqual(a: seq<Byte>, b: seq<Byte>, c: seq<Byte>, d: seq<Byte>)
    requires |a| == |c|
    ensures a + b == c + d <==> a == c && b == d
  {
    if a + b == c + d {
      assert a == (a + b)[..|a|] && c == (c + d)[..|c|];
      assert b == (a + b)[|a|..] && d == (c + d)[|c|..];
    }
  }

  lemma NarrowRow(row: seq<Byte>, current: nat, stride: nat)
    requires |row| == current && stride <= current
    ensures |Fit(Fit(row, current, stride), stride, current)| == current
    ensures Fit(Fit(row, current, stride), stride, current) == row
       <==> Drop(row, stride) == Zeros(current - stride)
  {
    var back := Fit(Fit(row, current, stride), stride, current);
    assert back == Take(row, stride) + Zeros(current - stride);
    assert row == Take(row, stride) + Drop(row, stride);
    SplitEqual(Take(row, stride), Zeros(current - stride), Take(row, stride), Drop(row, stride));
  }

  /** Narrowing the rows and widening them again gives them back if all that was cut off was
      zero, and only then. */
  lemma {:induction false} NarrowWidenRows(data: seq<Byte>, h: nat, current: nat, stride: nat)
    requires |data| == Span(h, current) && stride <= current
    ensures Restride(Restride(data, h, current, stride), h, stride, current) == data
       <==> ZeroPadding(data, h, current, stride)
    decreases h
  {
    hide Take, Drop, Restride;
    if h > 0 {
      FirstRow(data, h, current);
      var row, rest := Take(data, current), Drop(data, current);
      var narrow := Restride(rest, h - 1, current, stride);
      RestrideRow(row, rest, h, current, stride);
      RestrideRow(Fit(row, current, stride), narrow, h, stride, current);
      NarrowRow(row, current, stride);
      SplitEqual(Fit(Fit(row, current, stride), stride, current), Restride(narrow, h - 1, stride, current), row, rest);
      NarrowWidenRows(rest, h - 1, current, stride);
    } else {
      NoRows(data, current, stride);
      NoRows([], stride, current);
    }
  }

  /** Rows that run out of data: widening still adds the full difference to each, narrowing
      takes off less. */
  lemma {:induction false} ShortRows(data: seq<Byte>, h: nat, current: nat, stride: nat)
    requires |data| < Span(h, current)
    ensures stride >= current ==> |Restride(data, h, current, stride)| == |data| + Span(h, stride - current)
    ensures stride < current ==> |data| - |Restride(data, h, current, stride)| < Span(h, current - stride)
    decreases h
  {
    var rest := Drop(data, current);
    if |rest| < Span(h - 1, current) {
      ShortRows(rest, h - 1, current, stride);
    } else {
      assert rest == [];
      RestrideLength(rest, h - 1, current, stride);
    }
  }

  lemma NextRow(data: seq<Byte>, n: nat, at: nat, current: nat, stride: nat)
    requires n > 0
    ensures Restride(Drop(data, at), n, current, stride) ==
      (if stride < current then Slice(data, at, at + stride)
       else Slice(data, at, at + current) + Zeros(stride - current))
      + Restride(Drop(data, at + current), n - 1, current, stride)
  {
    DropDrop(data, at, current);
  }

  /** The loops of change_stride. */
  method ChangeStride(data: seq<Byte>, h: nat, current: nat, stride: nat) returns (out: seq<Byte>)
    ensures out == Restride(data, h, current, stride)
  {
    hide *;
    out := [];
    DropEnds(data, 0);
    if stride < current {
      for i := 0 to h
        invariant out + Restride(Drop(data, i * current), h - i, current, stride) == Restride(data, h, current, stride)
      {
        var start := i * current;
        var end := start + stride;
        NextRow(data, h - i, start, current, stride);
        assert (i + 1) * current == start + current;
        out := out + Slice(data, start, end);
      }
    } else {
      var padding := Zeros(stride - current);
      for i := 0 to h
        invariant out + Restride(Drop(data, i * current), h - i, current, stride) == Restride(data, h, current, stride)
      {
        NextRow(data, h - i, i * current, current, stride);
        assert (i + 1) * current == i * current + current;
        out := out + Slice(data, i * current, (i + 1) * current);
        out := out + padding;
      }
    }
    NoRows(Drop(data, h * current), current, stride);
  }
}
