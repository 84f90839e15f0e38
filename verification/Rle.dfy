/** The run-length encoder of scripts/lvgl_img_converter/LVGLImage.py. */
module Rle {
  import opened Arith
  import opened Bytes

  const MAX_COUNT: nat := 127

  type Block = seq<Byte>

  predicate Uniform(xs: seq<Block>, size: nat) {
    forall k :: 0 <= k < |xs| ==> |xs[k]| == size
  }

  // ---------------------------------------------------------------- the two counts

  /** How many leading blocks of xs equal x. */
  function Run(x: Block, xs: seq<Block>): (n: nat)
    ensures n <= |xs|
    ensures forall k :: 0 <= k < n ==> xs[k] == x
    ensures n < |xs| ==> xs[n] != x
  {
    if xs == [] || xs[0] != x then 0 else 1 + Run(x, xs[1..])
  }

  function RepeatCount(xs: seq<Block>): (n: nat)
    ensures n <= |xs| && n <= MAX_COUNT
    ensures xs != [] ==> n > 0
  {
    if xs == [] then 0
    else if Run(xs[0], xs) < MAX_COUNT then Run(xs[0], xs) else MAX_COUNT
  }

  /** Where the scan for literals stops, from position i on: `pre` is the value last seen,
      `rep` its repetitions not yet counted, `non` the blocks counted as literals. */
  function Scan(xs: seq<Block>, i: nat, pre: Block, rep: nat, non: nat, threshold: nat): nat
    requires i < |xs|
    decreases |xs| - i
  {
    if xs[i] == pre then
      if rep + 1 > threshold then non
      else if i + 1 == |xs| then non + rep + 1
      else Scan(xs, i + 1, pre, rep + 1, non, threshold)
    else
      var non1 := non + 1 + rep;
      if non1 >= MAX_COUNT then MAX_COUNT
      else if i + 1 == |xs| then non1
      else Scan(xs, i + 1, xs[i], 0, non1, threshold)
  }

  function LiteralCount(xs: seq<Block>, threshold: nat): nat {
    if xs == [] then 0 else Scan(xs, 0, xs[0], 0, 0, threshold)
  }

  /** Blocks from..to all equal x. */
  predicate AllEqual(xs: seq<Block>, from: nat, to: nat, x: Block)
    requires from <= to <= |xs|
  {
    forall k :: from <= k < to ==> xs[k] == x
  }

  /** A literal ends with the data, at 127 blocks, or where more than `threshold` equal blocks
      follow; only a literal that ends with the data can be longer than 127. */
  predicate GoodLiteral(xs: seq<Block>, n: nat, threshold: nat) {
    && n <= |xs|
    && (n > MAX_COUNT ==> n == |xs| && n < MAX_COUNT + threshold)
    && (n < MAX_COUNT && n < |xs| ==>
          n + threshold < |xs| && AllEqual(xs, n, n + threshold + 1, xs[n]))
  }

  lemma {:induction false} ScanGood(xs: seq<Block>, i: nat, pre: Block, rep: nat, non: nat, threshold: nat)
    requires i < |xs| && non + rep == i && rep <= threshold && non < MAX_COUNT
    requires AllEqual(xs, non, i, pre)
    ensures var n := Scan(xs, i, pre, rep, non, threshold);
      GoodLiteral(xs, n, threshold) && non <= n
    decreases |xs| - i
  {
    if xs[i] == pre {
      if rep + 1 <= threshold && i + 1 < |xs| { ScanGood(xs, i + 1, pre, rep + 1, non, threshold); }
    } else if non + 1 + rep < MAX_COUNT && i + 1 < |xs| {
      ScanGood(xs, i + 1, xs[i], 0, non + 1 + rep, threshold);
    }
  }

  lemma {:induction false} ScanGrows(xs: seq<Block>, i: nat, pre: Block, rep: nat, non: nat, threshold: nat)
    requires i < |xs|
    ensures Scan(xs, i, pre, rep, non, threshold) >= if non < MAX_COUNT then non else MAX_COUNT
    decreases |xs| - i
  {
    if xs[i] == pre {
      if rep + 1 <= threshold && i + 1 < |xs| { ScanGrows(xs, i + 1, pre, rep + 1, non, threshold); }
    } else if non + 1 + rep < MAX_COUNT && i + 1 < |xs| {
      ScanGrows(xs, i + 1, xs[i], 0, non + 1 + rep, threshold);
    }
  }

  /** While the leading run has not been left, nothing is counted; the scan stops at zero only
      if that run is longer than the threshold. */
  lemma {:induction false} ScanPositive(xs: seq<Block>, i: nat, pre: Block, rep: nat, threshold: nat)
    requires i < |xs| && rep == i <= Run(pre, xs) <= threshold
    ensures Scan(xs, i, pre, rep, 0, threshold) > 0
    decreases |xs| - i
  {
    if xs[i] == pre {
      if i + 1 < |xs| { ScanPositive(xs, i + 1, pre, rep + 1, threshold); }
    } else if 1 + rep < MAX_COUNT && i + 1 < |xs| {
      ScanGrows(xs, i + 1, xs[i], 0, 1 + rep, threshold);
    }
  }

  /** The literal taken where the encoder takes one: it makes progress, and when it stops
      short of 127 blocks and of the end, more than `threshold` equal blocks follow. */
  lemma LiteralGood(xs: seq<Block>, threshold: nat)
    requires xs != [] && threshold <= MAX_COUNT && RepeatCount(xs) < threshold
    ensures LiteralCount(xs, threshold) > 0 && GoodLiteral(xs, LiteralCount(xs, threshold), threshold)
  {
    ScanGood(xs, 0, xs[0], 0, 0, threshold);
    ScanPositive(xs, 0, xs[0], 0, threshold);
  }

  // ---------------------------------------------------------------- chunks

  datatype Chunk = Repeat(count: nat, block: Block) | Literal(blocks: seq<Block>)

  function Count(c: Chunk): nat { if c.Repeat? then c.count else |c.blocks| }

  function Copies(x: Block, n: nat): (xs: seq<Block>)
    ensures |xs| == n && forall k :: 0 <= k < n ==> xs[k] == x
  {
    seq(n, _ => x)
  }

  function BlocksOf(c: Chunk): seq<Block> {
    match c
    case Repeat(n, x) => Copies(x, n)
    case Literal(blocks) => blocks
  }

  /** The encoder's choice for the first chunk. */
  function Head(xs: seq<Block>, threshold: nat): (c: Chunk)
    requires xs != [] && threshold <= MAX_COUNT
    ensures 0 < Count(c) <= |xs| && Count(c) < 256
  {
    var n := RepeatCount(xs);
    if n < threshold then
      LiteralGood(xs, threshold);
      Literal(xs[..LiteralCount(xs, threshold)])
    else Repeat(n, xs[0])
  }

  /** The first chunk stands for the first blocks; a count above 127 belongs to a literal that
      ends the data. */
  lemma HeadGood(xs: seq<Block>, threshold: nat)
    requires xs != [] && threshold <= MAX_COUNT
    ensures var c := Head(xs, threshold);
      && BlocksOf(c) == xs[..Count(c)]
      && (Count(c) > MAX_COUNT ==> c == Literal(xs) && Count(c) < MAX_COUNT + threshold)
  {
    if RepeatCount(xs) < threshold {
      LiteralGood(xs, threshold);
      assert xs[..|xs|] == xs;
    }
  }

  function Chunks(xs: seq<Block>, threshold: nat): (cs: seq<Chunk>)
    requires threshold <= MAX_COUNT
    decreases |xs|
  {
    if xs == [] then []
    else var c := Head(xs, threshold); [c] + Chunks(xs[Count(c)..], threshold)
  }

  function Expand(cs: seq<Chunk>): seq<Block> {
    if cs == [] then [] else BlocksOf(cs[0]) + Expand(cs[1..])
  }

  /** The chunks cover the input exactly; none is empty, and none but a last literal exceeds
      127 blocks. */
  lemma {:induction false} ChunksCover(xs: seq<Block>, threshold: nat)
    requires threshold <= MAX_COUNT
    ensures var cs := Chunks(xs, threshold);
      && Expand(cs) == xs
      && forall i :: 0 <= i < |cs| ==>
           && 0 < Count(cs[i]) < MAX_COUNT + threshold + 1
           && (Count(cs[i]) > MAX_COUNT ==> i == |cs| - 1 && cs[i].Literal?)
    decreases |xs|
  {
    hide Head, BlocksOf;
    if xs != [] {
      var c := Head(xs, threshold);
      var rest := xs[Count(c)..];
      HeadGood(xs, threshold);
      ChunksCover(rest, threshold);
      assert xs == xs[..Count(c)] + rest;
      assert Chunks(xs, threshold)[1..] == Chunks(rest, threshold);
    }
  }

  // ---------------------------------------------------------------- bytes

  function Flat(xs: seq<Block>): seq<Byte> {
    if xs == [] then [] else xs[0] + Flat(xs[1..])
  }

  /** n | 0x80 for a byte n. */
  function Flagged(n: nat): Byte
    requires n < 256
  {
    if n < 128 then n + 128 else n
  }

  function ChunkBytes(c: Chunk): seq<Byte>
    requires Count(c) < 256
  {
    match c
    case Repeat(n, x) => [n] + x
    case Literal(blocks) => [Flagged(|blocks|)] + Flat(blocks)
  }

  /** rle_compress on whole blocks. */
  function Encode(xs: seq<Block>, threshold: nat): seq<Byte>
    requires threshold <= MAX_COUNT
    decreases |xs|
  {
    if xs == [] then []
    else
      var c := Head(xs, threshold);
      ChunkBytes(c) + Encode(xs[Count(c)..], threshold)
  }

  function Prepend(prefix: seq<Byte>, r: Option<seq<Byte>>): Option<seq<Byte>> {
    match r
    case None => None
    case Some(rest) => Some(prefix + rest)
  }

  /** The decoder of the chunk format: a control byte below 0x80 repeats the block that
      follows, otherwise its low seven bits count the literal blocks that follow. */
  function Decode(s: seq<Byte>, size: nat): Option<seq<Byte>>
    decreases |s|
  {
    if s == [] then Some([])
    else if s[0] < 128 then
      if |s| < 1 + size then None
      else Prepend(Flat(Copies(s[1..1 + size], s[0])), Decode(s[1 + size..], size))
    else
      var n := Span(s[0] - 128, size);
      if |s| < 1 + n then None else Prepend(s[1..1 + n], Decode(s[1 + n..], size))
  }

  lemma {:induction false} FlatSize(xs: seq<Block>, size: nat)
    requires Uniform(xs, size)
    ensures |Flat(xs)| == Span(|xs|, size)
  {
    if xs != [] { FlatSize(xs[1..], size); }
  }

  lemma {:induction false} FlatAppend(xs: seq<Block>, ys: seq<Block>)
    ensures Flat(xs + ys) == Flat(xs) + Flat(ys)
  {
    if xs == [] {
      assert xs + ys == ys;
    } else {
      assert (xs + ys)[1..] == xs[1..] + ys;
      FlatAppend(xs[1..], ys);
    }
  }

  // ---------------------------------------------------------------- round trip

  /** The length of the final literal if it exceeds 127 blocks, and 0 otherwise. */
  function Overlong(xs: seq<Block>, threshold: nat): (n: nat)
    requires threshold <= MAX_COUNT
    ensures n > 0 ==> MAX_COUNT < n <= |xs|
    decreases |xs|
  {
    if xs == [] then 0
    else
      var n := Count(Head(xs, threshold));
      if n > MAX_COUNT then n else Overlong(xs[n..], threshold)
  }

  lemma DecodeRepeat(n: Byte, x: Block, rest: seq<Byte>)
    requires n < 128
    ensures Decode([n] + x + rest, |x|) == Prepend(Flat(Copies(x, n)), Decode(rest, |x|))
  {
    hide Flat, Copies, Prepend, Span;
    var s := [n] + x + rest;
    assert s[1..1 + |x|] == x && s[1 + |x|..] == rest;
  }

  lemma DecodeLiteral(n: nat, body: seq<Byte>, rest: seq<Byte>, size: nat)
    requires n < 128 && |body| == Span(n, size)
    ensures Decode([n + 128] + body + rest, size) == Prepend(body, Decode(rest, size))
  {
    hide Flat, Copies, Prepend, Span;
    var s := [n + 128] + body + rest;
    assert s[1..1 + |body|] == body && s[1 + |body|..] == rest;
  }

  /** The decoder inverts any chunk whose count fits in seven bits. */
  lemma ChunkDecodes(c: Chunk, rest: seq<Byte>, size: nat)
    requires 0 < Count(c) <= MAX_COUNT && Uniform(BlocksOf(c), size)
    ensures Decode(ChunkBytes(c) + rest, size) == Prepend(Flat(BlocksOf(c)), Decode(rest, size))
  {
    hide Decode, Flat, Prepend, Span;
    match c
    case Repeat(n, x) =>
      assert Copies(x, n)[0] == x;
      DecodeRepeat(n, x, rest);
    case Literal(blocks) =>
      FlatSize(blocks, size);
      DecodeLiteral(|blocks|, Flat(blocks), rest, size);
  }

  lemma FlatSplit(xs: seq<Block>, n: nat)
    requires n <= |xs|
    ensures Flat(xs) == Flat(xs[..n]) + Flat(xs[n..])
  {
    FlatAppend(xs[..n], xs[n..]);
    assert xs == xs[..n] + xs[n..];
  }

  /** Of an overlong literal the decoder copies all but the last 128 blocks and then reads
      those as chunks. */
  lemma OverlongDecodes(xs: seq<Block>, size: nat)
    requires MAX_COUNT < |xs| < 256 && Uniform(xs, size)
    ensures var k := |xs| - 128;
      Decode(ChunkBytes(Literal(xs)) + [], size) == Prepend(Flat(xs[..k]), Decode(Flat(xs[k..]), size))
  {
    hide Decode, Flat, Prepend, Span;
    var k := |xs| - 128;
    FlatSize(xs[..k], size);
    FlatSplit(xs, k);
    DecodeLiteral(k, Flat(xs[..k]), Flat(xs[k..]), size);
    assert ChunkBytes(Literal(xs)) + [] == [k + 128] + Flat(xs[..k]) + Flat(xs[k..]);
  }

  /** The decoder reads the last 128 blocks, taken as chunks, back as themselves. */
  predicate ReadsAsItself(xs: seq<Block>, size: nat)
    requires |xs| > MAX_COUNT
  {
    var last := Flat(xs[|xs| - 128..]);
    Decode(last, size) == Some(last)
  }

  predicate RoundTrips(xs: seq<Block>, threshold: nat, size: nat)
    requires threshold <= MAX_COUNT
  {
    Decode(Encode(xs, threshold), size) == Some(Flat(xs))
  }

  lemma PrependCancels(prefix: seq<Byte>, r: Option<seq<Byte>>, s: seq<Byte>)
    ensures Prepend(prefix, r) == Some(prefix + s) <==> r == Some(s)
  {
    if r.Some? && prefix + r.value == prefix + s {
      assert r.value == (prefix + r.value)[|prefix|..] == (prefix + s)[|prefix|..] == s;
    }
  }

  lemma NothingRoundTrips(threshold: nat, size: nat)
    requires threshold <= MAX_COUNT
    ensures RoundTrips([], threshold, size)
  {}

  lemma EncodeCons(xs: seq<Block>, threshold: nat)
    requires xs != [] && threshold <= MAX_COUNT
    ensures var c := Head(xs, threshold);
      Encode(xs, threshold) == ChunkBytes(c) + Encode(xs[Count(c)..], threshold)
    ensures Encode([], threshold) == []
  {}

  /** A first chunk with a good count round trips by itself. */
  lemma FirstChunkRoundTrips(xs: seq<Block>, threshold: nat, size: nat)
    requires xs != [] && threshold <= MAX_COUNT && Uniform(xs, size)
    requires Count(Head(xs, threshold)) <= MAX_COUNT
    ensures RoundTrips(xs, threshold, size)
       <==> RoundTrips(xs[Count(Head(xs, threshold))..], threshold, size)
  {
    hide Head, BlocksOf, ChunkBytes, Decode, Flat, Encode;
    var c := Head(xs, threshold);
    var rest := xs[Count(c)..];
    HeadGood(xs, threshold);
    EncodeCons(xs, threshold);
    ChunkDecodes(c, Encode(rest, threshold), size);
    PrependCancels(Flat(xs[..Count(c)]), Decode(Encode(rest, threshold), size), Flat(rest));
    FlatSplit(xs, Count(c));
  }

  lemma OverlongRoundTrips(xs: seq<Block>, size: nat)
    requires MAX_COUNT < |xs| < 256 && Uniform(xs, size)
    ensures Decode(ChunkBytes(Literal(xs)) + [], size) == Some(Flat(xs)) <==> ReadsAsItself(xs, size)
  {
    var m := |xs| - 128;
    OverlongDecodes(xs, size);
    FlatSplit(xs, m);
    PrependCancels(Flat(xs[..m]), Decode(Flat(xs[m..]), size), Flat(xs[m..]));
  }

  lemma SameTail(xs: seq<Block>, k: nat, threshold: nat, size: nat)
    requires k <= |xs| && threshold <= MAX_COUNT && Overlong(xs[k..], threshold) > 0
    ensures ReadsAsItself(xs[k..], size) <==> ReadsAsItself(xs, size)
  {
    assert xs[k..][|xs| - k - 128..] == xs[|xs| - 128..];
  }

  /** Decoding returns the input exactly when the final literal has at most 127 blocks, or
      when its last 128 blocks happen to decode to themselves. */
  lemma {:induction false} RoundTripsByLiteral(xs: seq<Block>, threshold: nat, size: nat)
    requires threshold <= MAX_COUNT && Uniform(xs, size)
    ensures RoundTrips(xs, threshold, size) <==>
            Overlong(xs, threshold) == 0 || ReadsAsItself(xs, size)
    decreases |xs|
  {
    hide Head, BlocksOf, ChunkBytes, Decode, Flat, ReadsAsItself, Encode;
    if xs == [] {
      assert Overlong(xs, threshold) == 0;
      NothingRoundTrips(threshold, size);
    } else {
      var n := Count(Head(xs, threshold));
      if n > MAX_COUNT {
        HeadGood(xs, threshold);
        EncodeCons(xs, threshold);
        assert xs[n..] == [];
        OverlongRoundTrips(xs, size);
      } else {
        FirstChunkRoundTrips(xs, threshold, size);
        RoundTripsByLiteral(xs[n..], threshold, size);
        if Overlong(xs[n..], threshold) > 0 { SameTail(xs, n, threshold, size); }
      }
    }
  }

  // ---------------------------------------------------------------- size

  function Ceil127(n: nat): nat { (n + MAX_COUNT - 1) / MAX_COUNT }

  lemma ChunkSize(c: Chunk, size: nat)
    requires 0 < Count(c) < 256 && Uniform(BlocksOf(c), size)
    ensures |ChunkBytes(c)| == 1 + if c.Repeat? then size else Span(Count(c), size)
  {
    match c
    case Repeat(n, x) => assert Copies(x, n)[0] == x;
    case Literal(blocks) => FlatSize(blocks, size);
  }

  /** A literal that stops short of 127 blocks and of the end is followed by a repeat chunk of
      more than `threshold` blocks (or 127). */
  lemma LiteralThenRepeat(xs: seq<Block>, threshold: nat)
    requires xs != [] && threshold <= MAX_COUNT
    requires var c := Head(xs, threshold); c.Literal? && Count(c) < MAX_COUNT && Count(c) < |xs|
    ensures var next := Head(xs[Count(Head(xs, threshold))..], threshold);
      next.Repeat? && (next.count > threshold || next.count == MAX_COUNT)
  {
    LiteralGood(xs, threshold);
    var n := LiteralCount(xs, threshold);
    var rest := xs[n..];
    assert rest[0] == xs[n];
    assert Run(rest[0], rest) > threshold;
  }

  /** A repeat chunk of at least two blocks is no longer than its blocks, and one of at least
      three also pays for the control byte of the literal before it. */
  lemma RepeatPays(n: nat, size: nat)
    requires size > 0 && n > 1
    ensures size + n - 1 <= Span(n, size)
  {}

  lemma RepeatIsLong(xs: seq<Block>, threshold: nat)
    requires xs != [] && threshold <= MAX_COUNT && Head(xs, threshold).Repeat?
    ensures Head(xs, threshold).count >= threshold
  {}

  lemma {:induction false} EncodedSize(xs: seq<Block>, threshold: nat, size: nat)
    requires 2 <= threshold <= MAX_COUNT && Uniform(xs, size) && size > 0
    ensures |Encode(xs, threshold)| <= Span(|xs|, size) + Ceil127(|xs|)
    decreases |xs|
  {
    hide Head, BlocksOf, ChunkBytes;
    if xs != [] {
      var c := Head(xs, threshold);
      var n := Count(c);
      var rest := xs[n..];
      HeadGood(xs, threshold);
      ChunkSize(c, size);
      EncodeCons(xs, threshold);
      SpanAdd(n, |rest|, size);
      EncodedSize(rest, threshold, size);
      if c.Repeat? {
        RepeatIsLong(xs, threshold);
        RepeatPays(n, size);
      } else if n < MAX_COUNT && n < |xs| {
        SizeAfterShortLiteral(rest, threshold, size) by { LiteralThenRepeat(xs, threshold); }
      }
    }
  }

  lemma {:induction false} SizeAfterShortLiteral(xs: seq<Block>, threshold: nat, size: nat)
    requires 2 <= threshold <= MAX_COUNT && Uniform(xs, size) && size > 0 && xs != []
    requires Head(xs, threshold).Repeat? && Head(xs, threshold).count > 2
    ensures |Encode(xs, threshold)| + 1 <= Span(|xs|, size) + Ceil127(|xs|)
    decreases |xs|
  {
    hide Head, BlocksOf, ChunkBytes;
    var c := Head(xs, threshold);
    var n := Count(c);
    var rest := xs[n..];
    HeadGood(xs, threshold);
    ChunkSize(c, size);
    EncodeCons(xs, threshold);
    SpanAdd(n, |rest|, size);
    EncodedSize(rest, threshold, size);
    RepeatPays(n, size);
  }

  /** The output exceeds the input by at most one byte for every 127 blocks begun. */
  lemma SizeBound(xs: seq<Block>, threshold: nat, size: nat)
    requires 2 <= threshold <= MAX_COUNT && Uniform(xs, size) && size > 0
    ensures |Encode(xs, threshold)| <= |Flat(xs)| + Ceil127(|xs|)
  {
    FlatSize(xs, size);
    EncodedSize(xs, threshold, size);
  }
}
