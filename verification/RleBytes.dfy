/** rle_compress on bytes: the loops of scripts/lvgl_img_converter/LVGLImage.py and the block
    functions they refine. A last block may be short. */
module RleBytes {
  import opened Arith
  import opened Bytes
  import opened Rle
  import opened RleTail

  function Blocks(data: seq<Byte>, size: nat): (xs: seq<Block>)
    requires size > 0
    ensures xs == [] <==> data == []
    decreases |data|
  {
    if data == [] then [] else [Take(data, size)] + Blocks(Drop(data, size), size)
  }

  lemma {:induction false} FlatBlocks(data: seq<Byte>, size: nat)
    requires size > 0
    ensures Flat(Blocks(data, size)) == data
    decreases |data|
  {
    if data != [] {
      FlatBlocks(Drop(data, size), size);
      assert data == Take(data, size) + Drop(data, size);
    }
  }

  lemma {:induction false} BlocksDrop(data: seq<Byte>, size: nat, k: nat)
    requires size > 0 && k <= |Blocks(data, size)|
    ensures Blocks(Drop(data, Span(k, size)), size) == Blocks(data, size)[k..]
    decreases k
  {
    if k > 0 {
      BlocksDrop(Drop(data, size), size, k - 1);
      DropDrop(data, size, Span(k - 1, size));
      assert Blocks(data, size)[1..] == Blocks(Drop(data, size), size);
      assert Blocks(data, size)[k..] == Blocks(data, size)[1..][k - 1..];
    }
  }

  lemma {:induction false} BlocksTake(data: seq<Byte>, size: nat, k: nat)
    requires size > 0 && k <= |Blocks(data, size)|
    ensures Flat(Blocks(data, size)[..k]) == Take(data, Span(k, size))
    decreases k
  {
    hide Drop, Take;
    if k > 0 {
      BlocksTake(Drop(data, size), size, k - 1);
      TakeSplit(data, size, Span(k - 1, size));
      assert Blocks(data, size)[..k][1..] == Blocks(Drop(data, size), size)[..k - 1];
    } else {
      TakeNone(data);
    }
  }

  lemma {:induction false} BlocksUniform(data: seq<Byte>, size: nat)
    requires size > 0 && |data| % size == 0
    ensures Uniform(Blocks(data, size), size)
    decreases |data|
  {
    if data != [] {
      ModStep(|data|, size);
      BlocksUniform(Drop(data, size), size);
    }
  }

  /** The value get_repeat_count returns. */
  function RepeatOf(data: seq<Byte>, size: nat): nat
    requires size > 0
  {
    if |data| < size then 0 else RepeatCount(Blocks(data, size))
  }

  /** How many blocks from byte `index` on equal start. */
  function RunAt(start: Block, data: seq<Byte>, size: nat, index: nat): nat
    requires size > 0
  {
    Run(start, Blocks(Drop(data, index), size))
  }

  /** One step of counting: the block at index, if any, joins the run or ends it. */
  lemma RunStep(start: Block, data: seq<Byte>, size: nat, index: nat)
    requires size > 0
    ensures RunAt(start, data, size, index) ==
      if index < |data| && Slice(data, index, index + size) == start
      then 1 + RunAt(start, data, size, index + size) else 0
  {
    if index < |data| {
      DropDrop(data, index, size);
      assert Blocks(Drop(data, index), size)[1..] == Blocks(Drop(data, index + size), size);
    }
  }

  lemma RepeatIsRun(data: seq<Byte>, size: nat)
    requires size > 0
    ensures var run := RunAt(Take(data, size), data, size, 0);
      RepeatOf(data, size) == if |data| < size then 0 else if run < 127 then run else 127
  {}

  method GetRepeatCount(data: seq<Byte>, size: nat) returns (n: nat)
    requires size > 0
    ensures n == RepeatOf(data, size)
  {
    hide *;
    RepeatIsRun(data, size);
    if |data| < size { return 0; }
    var start := Take(data, size);
    var index := 0;
    n := 0;
    while index < |data|
      invariant n < 127
      invariant RunAt(start, data, size, 0) == n + RunAt(start, data, size, index)
    {
      RunStep(start, data, size, index);
      var value := Slice(data, index, index + size);
      if value == start {
        n := n + 1;
        if n == 127 { return; }
      } else {
        return;
      }
      index := index + size;
    }
    RunStep(start, data, size, index);
  }

  /** Block i of the data starts at byte index. */
  ghost predicate At(data: seq<Byte>, size: nat, i: nat, index: nat)
    requires size > 0
  {
    i <= |Blocks(data, size)| && Blocks(data, size)[i..] == Blocks(Drop(data, index), size)
  }

  lemma AtStep(data: seq<Byte>, size: nat, i: nat, index: nat)
    requires size > 0 && index < |data| && At(data, size, i, index)
    ensures i < |Blocks(data, size)| && Blocks(data, size)[i] == Slice(data, index, index + size)
    ensures At(data, size, i + 1, index + size)
    ensures i + 1 == |Blocks(data, size)| <==> index + size >= |data|
  {
    var xs := Blocks(data, size);
    DropDrop(data, index, size);
    assert xs[i + 1..] == xs[i..][1..];
    assert xs[i] == xs[i..][0];
  }

  /** What one turn of the scan adds to its counters. */
  lemma ScanStep(xs: seq<Block>, i: nat, pre: Block, rep: nat, non: nat, threshold: nat)
    requires i < |xs|
    ensures xs[i] == pre && rep + 1 > threshold ==> Scan(xs, i, pre, rep, non, threshold) == non
    ensures xs[i] == pre && rep + 1 <= threshold ==>
      Scan(xs, i, pre, rep, non, threshold) ==
      if i + 1 == |xs| then non + (rep + 1) else Scan(xs, i + 1, pre, rep + 1, non, threshold)
    ensures xs[i] != pre && non + 1 + rep >= 127 ==> Scan(xs, i, pre, rep, non, threshold) == 127
    ensures xs[i] != pre && non + 1 + rep < 127 ==>
      Scan(xs, i, pre, rep, non, threshold) ==
      if i + 1 == |xs| then non + 1 + rep else Scan(xs, i + 1, xs[i], 0, non + 1 + rep, threshold)
  {}

  lemma LiteralStart(data: seq<Byte>, size: nat, threshold: nat)
    requires size > 0 && data != []
    ensures At(data, size, 0, 0)
    ensures LiteralCount(Blocks(data, size), threshold)
         == Scan(Blocks(data, size), 0, Take(data, size), 0, 0, threshold)
  {}

  method GetNonrepeatCount(data: seq<Byte>, size: nat, threshold: nat) returns (n: nat)
    requires size > 0
    ensures n == if |data| < size then 0 else LiteralCount(Blocks(data, size), threshold)
  {
    hide *;
    if |data| < size { return 0; }
    ghost var xs := Blocks(data, size);
    ghost var i: nat := 0;
    LiteralStart(data, size, threshold);
    var pre := Take(data, size);
    var index, repeats := 0, 0;
    n := 0;
    while true
      invariant index < |data| && i < |xs| && At(data, size, i, index)
      invariant Scan(xs, i, pre, repeats, n, threshold) == LiteralCount(xs, threshold)
      decreases |data| - index
    {
      var value := Slice(data, index, index + size);
      AtStep(data, size, i, index);
      ScanStep(xs, i, pre, repeats, n, threshold);
      if value == pre {
        repeats := repeats + 1;
        if repeats > threshold { break; }
      } else {
        pre := value;
        n := n + 1 + repeats;
        repeats := 0;
        if n >= 127 {
          n := 127;
          break;
        }
      }
      index := index + size;
      i := i + 1;
      if index >= |data| {
        n := n + repeats;
        break;
      }
    }
  }

  lemma CountBytes(c: Chunk, size: nat)
    requires size > 0 && Count(c) > 0
    ensures Span(Count(c), size) >= size
  {}

  /** What rle_compress returns. */
  function Compressed(data: seq<Byte>, size: nat, threshold: nat): seq<Byte>
    requires size > 0 && threshold <= MAX_COUNT
    decreases |data|
  {
    if |data| < size then []
    else
      var c := Head(Blocks(data, size), threshold);
      CountBytes(c, size);
      ChunkBytes(c) + Compressed(Drop(data, Span(Count(c), size)), size, threshold)
  }

  lemma TurnAdvances(xs: seq<Block>, threshold: nat, size: nat)
    requires size > 0 && xs != [] && !(threshold > MAX_COUNT && Run(xs[0], xs) > threshold)
    ensures TurnCount(xs, threshold) > 0 && Span(TurnCount(xs, threshold), size) >= size
  {
    TurnAdvancesIff(xs, threshold);
  }

  /** The loop ends: at no turn do more equal blocks than a threshold above 127 lie ahead. An
      overflowing control byte ends it too, by an exception. */
  ghost predicate Halts(data: seq<Byte>, size: nat, threshold: nat)
    requires size > 0
    decreases |data|
  {
    |data| < size ||
    var xs := Blocks(data, size);
    && !(threshold > MAX_COUNT && Run(xs[0], xs) > threshold)
    && (TurnCount(xs, threshold) >= 256 ||
        (TurnAdvances(xs, threshold, size);
         Halts(Drop(data, Span(TurnCount(xs, threshold), size)), size, threshold)))
  }

  /** What rle_compress returns at any threshold. None: OverflowError of the control byte. */
  ghost function CompressedAt(data: seq<Byte>, size: nat, threshold: nat): Option<seq<Byte>>
    requires size > 0 && Halts(data, size, threshold)
    decreases |data|
  {
    if |data| < size then Some([])
    else
      var xs := Blocks(data, size);
      var n := TurnCount(xs, threshold);
      if n >= 256 then None
      else
        TurnAdvances(xs, threshold, size);
        Prepend(if RepeatCount(xs) < threshold then [Flagged(n)] + Take(data, Span(n, size)) else [n] + xs[0],
                CompressedAt(Drop(data, Span(n, size)), size, threshold))
  }

  lemma TurnTakesPart(data: seq<Byte>, size: nat, threshold: nat)
    requires size > 0 && threshold <= MAX_COUNT && |data| >= size
    ensures var xs := Blocks(data, size); var c := Head(xs, threshold);
      && TurnCount(xs, threshold) == Count(c)
      && ChunkBytes(c) == if RepeatCount(xs) < threshold then [Flagged(Count(c))] + Take(data, Span(Count(c), size))
                          else [Count(c)] + xs[0]
  {
    hide LiteralCount, RepeatCount, Blocks, Take;
    var xs := Blocks(data, size);
    if RepeatCount(xs) < threshold {
      LiteralGood(xs, threshold);
      BlocksTake(data, size, LiteralCount(xs, threshold));
    }
  }

  /** At a threshold of at most 127 the loop always ends, without an exception. */
  lemma {:induction false} AlwaysHalts(data: seq<Byte>, size: nat, threshold: nat)
    requires size > 0 && threshold <= MAX_COUNT
    ensures Halts(data, size, threshold)
    ensures CompressedAt(data, size, threshold) == Some(Compressed(data, size, threshold))
    decreases |data|
  {
    hide Head, ChunkBytes, Flagged, TurnCount;
    if |data| >= size {
      var xs := Blocks(data, size);
      TurnTakesPart(data, size, threshold);
      TurnAdvances(xs, threshold, size);
      AlwaysHalts(Drop(data, Span(TurnCount(xs, threshold), size)), size, threshold);
    }
  }

  lemma LastTurn(data: seq<Byte>, size: nat, threshold: nat)
    requires size > 0 && Halts(data, size, threshold)
    ensures RepeatOf(data, size) == 0 <==> |data| < size
    ensures |data| < size ==> CompressedAt(data, size, threshold) == Some([])
  {}

  lemma LiteralTurn(data: seq<Byte>, size: nat, threshold: nat)
    requires size > 0 && Halts(data, size, threshold)
    requires |data| >= size && RepeatOf(data, size) < threshold
    ensures var n := LiteralCount(Blocks(data, size), threshold);
      && n > 0
      && (n >= 256 ==> CompressedAt(data, size, threshold) == None)
      && (n < 256 ==>
            && Halts(Drop(data, Span(n, size)), size, threshold)
            && CompressedAt(data, size, threshold) ==
                 Prepend([Flagged(n)] + Take(data, Span(n, size)), CompressedAt(Drop(data, Span(n, size)), size, threshold)))
  {
    TurnAdvances(Blocks(data, size), threshold, size);
  }

  lemma RepeatTurn(data: seq<Byte>, size: nat, threshold: nat)
    requires size > 0 && Halts(data, size, threshold)
    requires |data| >= size && RepeatOf(data, size) >= threshold
    ensures var n := RepeatOf(data, size);
      && 0 < n < 256
      && Halts(Drop(data, Span(n, size)), size, threshold)
      && CompressedAt(data, size, threshold) ==
           Prepend([n] + Take(data, size), CompressedAt(Drop(data, Span(n, size)), size, threshold))
  {
    TurnAdvances(Blocks(data, size), threshold, size);
  }

  lemma PrependTwice(a: seq<Byte>, b: seq<Byte>, r: Option<seq<Byte>>)
    ensures Prepend(a, Prepend(b, r)) == Prepend(a + b, r)
    ensures Prepend([], r) == r && Prepend(a, Some([])) == Some(a) && Prepend(a, None) == None
  {
    if r.Some? { assert a + (b + r.value) == (a + b) + r.value && [] + r.value == r.value; }
    assert a + [] == a;
  }

  lemma Step(data: seq<Byte>, index: nat, n: nat, size: nat)
    requires n > 0 && size > 0
    ensures Span(n, size) == n * size > 0
    ensures Drop(Drop(data, index), Span(n, size)) == Drop(data, index + n * size)
    ensures Slice(data, index, index + n * size) == Take(Drop(data, index), Span(n, size))
    ensures Slice(data, index, index + size) == Take(Drop(data, index), size)
  {
    SpanIsTimes(n, size);
    DropDrop(data, index, n * size);
  }

  lemma Regroup(a: seq<Byte>, b: seq<Byte>, c: seq<Byte>)
    ensures a + (b + c) == a + b + c
  {}

  /** rle_compress; None is the OverflowError of a literal of 256 blocks or more. */
  method RleCompress(data: seq<Byte>, size: nat, threshold: nat) returns (r: Option<seq<Byte>>)
    requires size > 0 && Halts(data, size, threshold)
    ensures r == CompressedAt(data, size, threshold)
    ensures threshold <= MAX_COUNT ==> r == Some(Compressed(data, size, threshold))
  {
    hide *;
    if threshold <= MAX_COUNT { AlwaysHalts(data, size, threshold); }
    var index := 0;
    var out: seq<Byte> := [];
    ghost var all := CompressedAt(data, size, threshold);
    DropEnds(data, 0);
    PrependTwice([], [], all);
    while index < |data|
      invariant Halts(Drop(data, index), size, threshold)
      invariant Prepend(out, CompressedAt(Drop(data, index), size, threshold)) == all
      decreases |data| - index
    {
      ghost var rest := Drop(data, index);
      LastTurn(rest, size, threshold);
      PrependTwice(out, [], CompressedAt(rest, size, threshold));
      var repeats := GetRepeatCount(Drop(data, index), size);
      if repeats == 0 {
        break;
      } else if repeats < threshold {
        var literals := GetNonrepeatCount(Drop(data, index), size, threshold);
        LiteralTurn(rest, size, threshold);
        if literals >= 256 { return None; }
        Step(data, index, literals, size);
        ghost var more := CompressedAt(Drop(rest, Span(literals, size)), size, threshold);
        PrependTwice(out, [Flagged(literals)] + Take(rest, Span(literals, size)), more);
        Regroup(out, [Flagged(literals)], Take(rest, Span(literals, size)));
        out := out + [Flagged(literals)];
        out := out + Slice(data, index, index + literals * size);
        index := index + literals * size;
      } else {
        RepeatTurn(rest, size, threshold);
        Step(data, index, repeats, size);
        ghost var more := CompressedAt(Drop(rest, Span(repeats, size)), size, threshold);
        PrependTwice(out, [repeats] + Take(rest, size), more);
        Regroup(out, [repeats], Take(rest, size));
        out := out + [repeats];
        out := out + Slice(data, index, index + size);
        index := index + repeats * size;
      }
    }
    DropEnds(data, index);
    LastTurn(Drop(data, index), size, threshold);
    PrependTwice(out, [], Some([]));
    return Some(out);
  }

  // ---------------------------------------------------------------- round trip on bytes

  lemma {:induction false} AlignedDrop(data: seq<Byte>, size: nat, k: nat)
    requires size > 0 && |data| % size == 0
    ensures |Drop(data, Span(k, size))| % size == 0
    decreases k
  {
    if k > 0 {
      ModStep(|data|, size);
      AlignedDrop(Drop(data, size), size, k - 1);
      DropDrop(data, size, Span(k - 1, size));
    }
  }

  lemma {:induction false} AlignedCompressed(data: seq<Byte>, size: nat, threshold: nat)
    requires size > 0 && threshold <= MAX_COUNT && |data| % size == 0
    ensures Compressed(data, size, threshold) == Encode(Blocks(data, size), threshold)
    decreases |data|
  {
    hide Head, ChunkBytes;
    if data != [] {
      ModStep(|data|, size);
      var c := Head(Blocks(data, size), threshold);
      BlocksDrop(data, size, Count(c));
      AlignedDrop(data, size, Count(c));
      CountBytes(c, size);
      AlignedCompressed(Drop(data, Span(Count(c), size)), size, threshold);
    }
  }

  /** What the first chunk decodes to is whole blocks, and the rest decodes too. */
  lemma FirstDecoded(s: seq<Byte>, size: nat) returns (n: nat, rest: seq<Byte>)
    requires size > 0 && s != [] && Decode(s, size).Some?
    ensures |rest| < |s| && Decode(rest, size).Some?
    ensures |Decode(s, size).value| == Span(n, size) + |Decode(rest, size).value|
  {
    if s[0] < 128 {
      n, rest := s[0], s[1 + size..];
      FlatSize(Copies(s[1..1 + size], n), size);
    } else {
      n := s[0] - 128;
      rest := s[1 + Span(n, size)..];
    }
  }

  /** Whatever decodes, decodes to whole blocks. */
  lemma {:induction false} DecodesToWholeBlocks(s: seq<Byte>, size: nat)
    requires size > 0 && Decode(s, size).Some?
    ensures |Decode(s, size).value| % size == 0
    decreases |s|
  {
    if s != [] {
      var n, rest := FirstDecoded(s, size);
      DecodesToWholeBlocks(rest, size);
      ModSpan(|Decode(rest, size).value|, n, size);
    }
  }

  /** Decoding gives the bytes back exactly when they are whole blocks that do not end in a
      long literal, or else in one whose last 128 blocks decode to themselves. */
  lemma BytesRoundTripIff(data: seq<Byte>, size: nat, threshold: nat)
    requires size > 0 && threshold <= MAX_COUNT
    ensures Decode(Compressed(data, size, threshold), size) == Some(data) <==>
            && |data| % size == 0
            && TailReadsAsItself(Blocks(data, size), threshold, size)
  {
    hide Decode, Encode, Compressed, TailReadsAsItself, Blocks;
    if |data| % size == 0 {
      AlignedCompressed(data, size, threshold);
      BlocksUniform(data, size);
      FlatBlocks(data, size);
      RoundTripIff(Blocks(data, size), threshold, size);
    } else if Decode(Compressed(data, size, threshold), size) == Some(data) {
      DecodesToWholeBlocks(Compressed(data, size, threshold), size);
    }
  }

  /** In particular whole blocks always come back if they are fewer than 128 or the last three
      are not all equal. */
  lemma HarmlessBytesRoundTrip(data: seq<Byte>, size: nat, threshold: nat)
    requires size > 0 && threshold <= MAX_COUNT && |data| % size == 0 && Harmless(Blocks(data, size))
    ensures Decode(Compressed(data, size, threshold), size) == Some(data)
  {
    hide Decode, Compressed, LongTail, Blocks, Harmless;
    BytesRoundTripIff(data, size, threshold);
    forall k: nat ensures !LongTail(Blocks(data, size), threshold, k) {
      if LongTail(Blocks(data, size), threshold, k) { LongTailIsHarmful(Blocks(data, size), threshold, k); }
    }
  }

  /** Whole blocks grow by at most one byte for every 127 of them begun. */
  lemma BytesSizeBound(data: seq<Byte>, size: nat, threshold: nat)
    requires size > 0 && 2 <= threshold <= MAX_COUNT && |data| % size == 0
    ensures |Compressed(data, size, threshold)| <= |data| + Ceil127(|Blocks(data, size)|)
  {
    AlignedCompressed(data, size, threshold);
    BlocksUniform(data, size);
    FlatBlocks(data, size);
    SizeBound(Blocks(data, size), threshold, size);
  }

  lemma PaddingFills(len: nat, size: nat)
    requires size > 0 && len % size != 0
    ensures (len + (size - len % size)) % size == 0
  {
    ModUnique(len + (size - len % size), len / size + 1, 0, size);
  }

  /** The zero bytes LVGLCompressData adds to fill the last block. */
  function Padding(len: nat, size: nat): (pad: seq<Byte>)
    requires size > 0
    ensures |pad| < size && (len + |pad|) % size == 0
  {
    if len % size == 0 then []
    else
      PaddingFills(len, size);
      seq(size - len % size, _ => 0)
  }

  /** LVGLCompressData._compress with RLE: the raw bytes filled up to whole blocks. A decoder
      gets the filled-up bytes back under the same exact condition, and with them the raw ones. */
  method CompressPadded(raw: seq<Byte>, size: nat) returns (out: seq<Byte>)
    requires size > 0
    ensures var padded := raw + Padding(|raw|, size);
      && Take(padded, |raw|) == raw
      && (Decode(out, size) == Some(padded) <==> TailReadsAsItself(Blocks(padded, size), 16, size))
      && |out| <= |padded| + Ceil127(|Blocks(padded, size)|)
  {
    hide Decode, Blocks, TailReadsAsItself;
    AlwaysHalts(raw + Padding(|raw|, size), size, 16);
    var r := RleCompress(raw + Padding(|raw|, size), size, 16);
    out := r.value;
    BytesRoundTripIff(raw + Padding(|raw|, size), size, 16);
    BytesSizeBound(raw + Padding(|raw|, size), size, 16);
  }
}
