/** Which data the run-length encoder ends with a literal of more than 127 blocks, and so
    which data round trip; and what other thresholds do. */
module RleTail {
  import opened Arith
  import opened Rle

  /** From position j on more than threshold + 1 blocks are equal. */
  predicate RunStarts(xs: seq<Block>, j: nat, threshold: nat) {
    j + threshold + 1 < |xs| && AllEqual(xs, j, j + threshold + 2, xs[j])
  }

  predicate NoLongRun(xs: seq<Block>, threshold: nat) {
    forall j :: 0 <= j < |xs| ==> !RunStarts(xs, j, threshold)
  }

  /** Nothing changes from position 126 on. */
  predicate FlatEnd(xs: seq<Block>) { forall j :: 126 <= j < |xs| ==> xs[j] == xs[j - 1] }

  /** What makes the encoder take all of the data as one literal of more than 127 blocks. */
  predicate LongLiteral(xs: seq<Block>, threshold: nat) {
    && |xs| > MAX_COUNT
    && RepeatCount(xs) < threshold
    && NoLongRun(xs, threshold)
    && FlatEnd(xs)
  }

  /** How far the scan has come: `rep` blocks like `pre` follow position non, and the block
      before them is like them too, unless the scan is still in the leading run. */
  predicate InRun(xs: seq<Block>, i: nat, pre: Block, rep: nat, non: nat, threshold: nat) {
    && i < |xs| && non + rep == i && rep <= threshold && non <= 126
    && AllEqual(xs, if non == 0 then 0 else non - 1, i, pre)
    && (non == 0 ==> pre == xs[0])
  }

  lemma RunGrows(xs: seq<Block>, i: nat, pre: Block, non: nat)
    requires non <= i < |xs| && AllEqual(xs, if non == 0 then 0 else non - 1, i, pre)
    ensures xs[i] == pre ==> AllEqual(xs, if non == 0 then 0 else non - 1, i + 1, pre)
    ensures AllEqual(xs, i, i + 1, xs[i])
  {}

  lemma LeadingRun(xs: seq<Block>, n: nat)
    requires 0 < n <= |xs| && AllEqual(xs, 0, n, xs[0])
    ensures Run(xs[0], xs) >= n
  {}

  lemma RunIsShort(xs: seq<Block>, i: nat, pre: Block, non: nat, threshold: nat)
    requires NoLongRun(xs, threshold) && non <= i < |xs| && Run(xs[0], xs) <= threshold
    requires AllEqual(xs, if non == 0 then 0 else non - 1, i + 1, pre)
    ensures i + 1 - non <= threshold
  {
    if non == 0 {
      assert xs[0] == pre;
      LeadingRun(xs, i + 1);
    } else {
      assert xs[non - 1] == pre && !RunStarts(xs, non - 1, threshold);
    }
  }

  lemma ChangesEarly(xs: seq<Block>, i: nat, non: nat, pre: Block)
    requires FlatEnd(xs) && non <= i < |xs| && xs[i] != pre
    requires AllEqual(xs, if non == 0 then 0 else non - 1, i, pre) && (non == 0 ==> pre == xs[0])
    ensures 0 < i <= 125
  {
    if i > 0 { assert xs[i - 1] == pre; }
  }

  /** If no run is too long and nothing changes from position 126 on, the scan counts
      everything. */
  lemma {:induction false} ScanAll(xs: seq<Block>, i: nat, pre: Block, rep: nat, non: nat, threshold: nat)
    requires InRun(xs, i, pre, rep, non, threshold)
    requires FlatEnd(xs) && NoLongRun(xs, threshold) && Run(xs[0], xs) <= threshold
    ensures Scan(xs, i, pre, rep, non, threshold) == |xs|
    decreases |xs| - i
  {
    hide FlatEnd, NoLongRun, AllEqual, Run;
    RunGrows(xs, i, pre, non);
    if xs[i] == pre {
      RunIsShort(xs, i, pre, non, threshold);
      if i + 1 < |xs| { ScanAll(xs, i + 1, pre, rep + 1, non, threshold); }
    } else {
      ChangesEarly(xs, i, non, pre);
      if i + 1 < |xs| { ScanAll(xs, i + 1, xs[i], 0, i + 1, threshold); }
    }
  }

  /** No run that starts at position `from` or later is too long. */
  predicate NoLongRunFrom(xs: seq<Block>, from: nat, threshold: nat) {
    forall j :: from <= j && j + threshold + 1 < |xs| ==> !AllEqual(xs, j, j + threshold + 2, xs[j])
  }

  predicate FlatFrom(xs: seq<Block>, from: nat) {
    forall j :: 126 <= j < |xs| && from <= j ==> xs[j] == xs[j - 1]
  }

  lemma ShortEnd(xs: seq<Block>, from: nat, threshold: nat)
    requires from + threshold + 1 >= |xs|
    ensures NoLongRunFrom(xs, from, threshold)
  {}

  lemma FlatPast(xs: seq<Block>, from: nat)
    requires from >= |xs|
    ensures FlatFrom(xs, from)
  {}

  lemma FlatBack(xs: seq<Block>, i: nat, non: nat, pre: Block)
    requires FlatFrom(xs, i + 1) && non <= i < |xs| && xs[i] == pre
    requires AllEqual(xs, if non == 0 then 0 else non - 1, i, pre)
    ensures FlatFrom(xs, i)
  {
    if i > 0 { assert xs[i - 1] == pre; }
  }

  lemma FlatEarly(xs: seq<Block>, i: nat)
    requires FlatFrom(xs, i + 1) && i <= 125
    ensures FlatFrom(xs, i)
  {}

  lemma ShortRun(xs: seq<Block>, i: nat, pre: Block, rep: nat, non: nat, threshold: nat)
    requires InRun(xs, i, pre, rep, non, threshold) && xs[i] != pre
    requires NoLongRunFrom(xs, i, threshold)
    ensures NoLongRunFrom(xs, if non == 0 then 0 else non - 1, threshold)
  {
    var from := if non == 0 then 0 else non - 1;
    forall j | from <= j && j + threshold + 1 < |xs| ensures !AllEqual(xs, j, j + threshold + 2, xs[j]) {
      if j < i { assert xs[j] == pre && i < j + threshold + 2; }
    }
  }

  /** The other way: a count above 127 tells all this about what the scan has passed over. */
  lemma {:induction false} ScanLong(xs: seq<Block>, i: nat, pre: Block, rep: nat, non: nat, threshold: nat)
    requires InRun(xs, i, pre, rep, non, threshold)
    requires Scan(xs, i, pre, rep, non, threshold) > MAX_COUNT
    ensures |xs| > MAX_COUNT && FlatFrom(xs, i)
    ensures NoLongRunFrom(xs, if non == 0 then 0 else non - 1, threshold)
    decreases |xs| - i
  {
    hide NoLongRunFrom, FlatFrom, AllEqual;
    RunGrows(xs, i, pre, non);
    if xs[i] == pre {
      if i + 1 < |xs| {
        ScanLong(xs, i + 1, pre, rep + 1, non, threshold);
      } else {
        ShortEnd(xs, if non == 0 then 0 else non - 1, threshold);
        FlatPast(xs, i + 1);
      }
      FlatBack(xs, i, non, pre);
    } else {
      ScanLong(xs, i + 1, xs[i], 0, i + 1, threshold);
      ShortRun(xs, i, pre, rep, non, threshold);
      FlatEarly(xs, i);
    }
  }

  /** A first chunk of more than 127 blocks is exactly data of this kind. */
  lemma LongLiteralIff(xs: seq<Block>, threshold: nat)
    requires xs != [] && threshold <= MAX_COUNT
    ensures Count(Head(xs, threshold)) > MAX_COUNT <==> LongLiteral(xs, threshold)
  {
    if RepeatCount(xs) < threshold {
      assert InRun(xs, 0, xs[0], 0, 0, threshold);
      LiteralGood(xs, threshold);
      if LongLiteral(xs, threshold) { ScanAll(xs, 0, xs[0], 0, 0, threshold); }
      if LiteralCount(xs, threshold) > MAX_COUNT { ScanLong(xs, 0, xs[0], 0, 0, threshold); }
    }
  }

  /** A chunk of the encoding starts at block k. */
  ghost predicate ChunkStart(xs: seq<Block>, threshold: nat, k: nat)
    requires threshold <= MAX_COUNT
    decreases |xs|
  {
    k == 0 ||
    (xs != [] && Count(Head(xs, threshold)) <= k
     && ChunkStart(xs[Count(Head(xs, threshold))..], threshold, k - Count(Head(xs, threshold))))
  }

  /** From block k on, where a chunk starts, the data are one long literal. */
  ghost predicate LongTail(xs: seq<Block>, threshold: nat, k: nat)
    requires threshold <= MAX_COUNT
  {
    k <= |xs| && ChunkStart(xs, threshold, k) && LongLiteral(xs[k..], threshold)
  }

  lemma LongTailStep(xs: seq<Block>, threshold: nat, k: nat)
    requires xs != [] && threshold <= MAX_COUNT
    ensures var n := Count(Head(xs, threshold));
      LongTail(xs, threshold, k) <==>
      if k == 0 then n > MAX_COUNT else k >= n && LongTail(xs[n..], threshold, k - n)
  {
    hide Head, LongLiteral;
    var n := Count(Head(xs, threshold));
    if k == 0 {
      assert xs[0..] == xs;
      LongLiteralIff(xs, threshold);
    } else if n <= k <= |xs| {
      assert xs[k..] == xs[n..][k - n..];
    }
  }

  lemma NoLongTail(threshold: nat, k: nat)
    requires threshold <= MAX_COUNT
    ensures !LongTail([], threshold, k)
  {}

  /** A first chunk of more than 127 blocks is all of the data. */
  lemma LongIsAll(xs: seq<Block>, threshold: nat)
    requires xs != [] && threshold <= MAX_COUNT
    ensures Count(Head(xs, threshold)) > MAX_COUNT ==> xs[Count(Head(xs, threshold))..] == []
  {
    HeadGood(xs, threshold);
  }

  /** The final literal exceeds 127 blocks exactly if the data end in such a tail. */
  lemma {:induction false} OverlongIff(xs: seq<Block>, threshold: nat)
    requires threshold <= MAX_COUNT
    ensures Overlong(xs, threshold) > 0 <==> exists k: nat :: LongTail(xs, threshold, k)
    decreases |xs|
  {
    hide Head, LongTail;
    if xs == [] {
      forall k: nat ensures !LongTail(xs, threshold, k) { NoLongTail(threshold, k); }
    } else {
      var n := Count(Head(xs, threshold));
      var rest := xs[n..];
      OverlongIff(rest, threshold);
      LongTailStep(xs, threshold, 0);
      if k: nat :| LongTail(xs, threshold, k) { LongTailStep(xs, threshold, k); }
      if k: nat :| LongTail(rest, threshold, k) { LongTailStep(xs, threshold, k + n); }
      LongIsAll(xs, threshold);
    }
  }

  /** Fewer than 128 blocks, or not all of the last three equal. */
  predicate Harmless(xs: seq<Block>) {
    var n := |xs|;
    n <= MAX_COUNT || xs[n - 1] != xs[n - 2] || xs[n - 2] != xs[n - 3]
  }

  lemma LongTailIsHarmful(xs: seq<Block>, threshold: nat, k: nat)
    requires threshold <= MAX_COUNT && LongTail(xs, threshold, k)
    ensures !Harmless(xs)
  {
    hide ChunkStart, RepeatCount, NoLongRun;
    var y := xs[k..];
    assert y[|y| - 1] == xs[|xs| - 1] && y[|y| - 2] == xs[|xs| - 2] && y[|y| - 3] == xs[|xs| - 3];
  }

  /** Such data have no overlong literal, and so always round trip. */
  lemma HarmlessRoundTrips(xs: seq<Block>, threshold: nat, size: nat)
    requires threshold <= MAX_COUNT && Uniform(xs, size) && Harmless(xs)
    ensures Overlong(xs, threshold) == 0 && RoundTrips(xs, threshold, size)
  {
    hide RoundTrips, ReadsAsItself, LongTail, Overlong;
    OverlongIff(xs, threshold);
    RoundTripsByLiteral(xs, threshold, size);
    if k: nat :| LongTail(xs, threshold, k) { LongTailIsHarmful(xs, threshold, k); }
  }

  /** If the data end in a long literal, its last 128 blocks decode to themselves. */
  ghost predicate TailReadsAsItself(xs: seq<Block>, threshold: nat, size: nat)
    requires threshold <= MAX_COUNT
  {
    forall k: nat :: LongTail(xs, threshold, k) ==> ReadsAsItself(xs, size)
  }

  /** Decoding returns the input exactly on such data. */
  lemma RoundTripIff(xs: seq<Block>, threshold: nat, size: nat)
    requires threshold <= MAX_COUNT && Uniform(xs, size)
    ensures RoundTrips(xs, threshold, size) <==> TailReadsAsItself(xs, threshold, size)
  {
    hide RoundTrips, ReadsAsItself, Overlong;
    OverlongIff(xs, threshold);
    RoundTripsByLiteral(xs, threshold, size);
  }

  // ---------------------------------------------------------------- other thresholds

  lemma SizeBoundForAll(threshold: nat, size: nat)
    requires 2 <= threshold <= MAX_COUNT && size > 0
    ensures forall xs :: Uniform(xs, size) ==> |Encode(xs, threshold)| <= |Flat(xs)| + Ceil127(|xs|)
  {
    forall xs | Uniform(xs, size) ensures |Encode(xs, threshold)| <= |Flat(xs)| + Ceil127(|xs|) {
      SizeBound(xs, threshold, size);
    }
  }

  /** Two different blocks: below a threshold of 2 each becomes a chunk of its own. */
  function TwoBlocks(size: nat): (xs: seq<Block>)
    requires size > 0
    ensures Uniform(xs, size) && |xs| == 2 && xs[0] != xs[1]
  {
    var x, y := seq(size, _ => 0), seq(size, _ => 1);
    assert x[0] != y[0];
    [x, y]
  }

  lemma TwoBlocksGrow(threshold: nat, size: nat)
    requires threshold < 2 && size > 0
    ensures |Encode(TwoBlocks(size), threshold)| > |Flat(TwoBlocks(size))| + Ceil127(2)
  {
    var xs := TwoBlocks(size);
    var ys := xs[1..];
    assert ys == [xs[1]];
    assert RepeatCount(xs) == 1 && RepeatCount(ys) == 1;
    EncodeCons(xs, threshold);
    EncodeCons(ys, threshold);
    assert ys[1..] == [];
    FlatSize(xs, size);
    assert Span(1, size) == size && Span(2, size) == size + Span(1, size);
  }

  /** The size bound holds for all data exactly from a threshold of 2 on. */
  lemma SizeBoundIff(threshold: nat, size: nat)
    requires threshold <= MAX_COUNT && size > 0
    ensures (forall xs :: Uniform(xs, size) ==> |Encode(xs, threshold)| <= |Flat(xs)| + Ceil127(|xs|))
       <==> threshold >= 2
  {
    hide Encode, Flat, Ceil127, Uniform;
    if threshold >= 2 { SizeBoundForAll(threshold, size); } else { TwoBlocksGrow(threshold, size); }
  }

  /** What one turn of rle_compress adds to its position, in blocks. */
  function TurnCount(xs: seq<Block>, threshold: nat): nat {
    if RepeatCount(xs) < threshold then LiteralCount(xs, threshold) else RepeatCount(xs)
  }

  lemma {:induction false} ScanStopsAtOnce(xs: seq<Block>, i: nat, threshold: nat)
    requires i < |xs| && i <= threshold < Run(xs[0], xs)
    ensures Scan(xs, i, xs[0], i, 0, threshold) == 0
    decreases |xs| - i
  {
    assert xs[i] == xs[0];
    if i + 1 <= threshold { ScanStopsAtOnce(xs, i + 1, threshold); }
  }

  /** Whatever the threshold, a turn makes no progress, so that the loop never ends, exactly
      above 127 and in front of a run of more blocks than the threshold. */
  lemma TurnAdvancesIff(xs: seq<Block>, threshold: nat)
    requires xs != []
    ensures TurnCount(xs, threshold) == 0 <==> threshold > MAX_COUNT && Run(xs[0], xs) > threshold
  {
    if RepeatCount(xs) < threshold {
      if Run(xs[0], xs) > threshold { ScanStopsAtOnce(xs, 0, threshold); }
      else { ScanPositive(xs, 0, xs[0], 0, threshold); }
    }
  }
}
