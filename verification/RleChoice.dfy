/** What the run-length encoder chooses, read off the data, and the bytes it writes for it. */
module RleChoice {
  import opened Bytes
  import opened Rle
  import opened RleTail

  lemma {:induction false} ScanStopsByRun(xs: seq<Block>, i: nat, pre: Block, rep: nat, non: nat, threshold: nat, j: nat)
    requires InRun(xs, i, pre, rep, non, threshold)
    requires RunStarts(xs, j, threshold) && non <= j + 1
    ensures Scan(xs, i, pre, rep, non, threshold) <= j + 1
    decreases |xs| - i
  {
    if xs[i] == pre {
      if rep + 1 <= threshold { ScanStopsByRun(xs, i + 1, pre, rep + 1, non, threshold, j); }
    } else {
      assert i <= j;
      if i + 1 < MAX_COUNT { ScanStopsByRun(xs, i + 1, xs[i], 0, i + 1, threshold, j); }
    }
  }

  lemma {:induction false} ScanStopsAtRun(xs: seq<Block>, i: nat, pre: Block, rep: nat, non: nat, threshold: nat)
    requires InRun(xs, i, pre, rep, non, threshold)
    ensures var n := Scan(xs, i, pre, rep, non, threshold);
      0 < n < MAX_COUNT && n < |xs| ==> RunStarts(xs, n - 1, threshold)
    decreases |xs| - i
  {
    if xs[i] == pre {
      if rep + 1 <= threshold && i + 1 < |xs| { ScanStopsAtRun(xs, i + 1, pre, rep + 1, non, threshold); }
    } else if i + 1 < MAX_COUNT && i + 1 < |xs| {
      ScanStopsAtRun(xs, i + 1, xs[i], 0, i + 1, threshold);
    }
  }

  /** A literal takes one block of the first run of more than threshold + 1 equal blocks, and stops
      nowhere else but at 127 blocks and at the end of the data. */
  lemma LiteralStopsIff(xs: seq<Block>, threshold: nat)
    requires xs != [] && threshold <= MAX_COUNT && RepeatCount(xs) < threshold
    ensures var n := LiteralCount(xs, threshold);
      && 0 < n <= |xs|
      && (forall j: nat :: RunStarts(xs, j, threshold) ==> n <= j + 1)
      && (n < MAX_COUNT && n < |xs| ==> RunStarts(xs, n - 1, threshold))
  {
    LiteralGood(xs, threshold);
    ScanStopsAtRun(xs, 0, xs[0], 0, 0, threshold);
    forall j: nat | RunStarts(xs, j, threshold) ensures LiteralCount(xs, threshold) <= j + 1 {
      ScanStopsByRun(xs, 0, xs[0], 0, 0, threshold, j);
    }
  }

  /** A repeat chunk is chosen exactly where at least `threshold` equal blocks begin, and takes all of
      them up to 127. */
  lemma RepeatIff(xs: seq<Block>, threshold: nat)
    requires xs != [] && threshold <= MAX_COUNT
    ensures var c := Head(xs, threshold);
      && (c.Repeat? <==> threshold <= |xs| && AllEqual(xs, 0, threshold, xs[0]))
      && (c.Repeat? ==>
            && c.block == xs[0] && c.count <= MAX_COUNT && c.count <= |xs| && AllEqual(xs, 0, c.count, xs[0])
            && (c.count < MAX_COUNT && c.count < |xs| ==> xs[c.count] != xs[0]))
  {}

  // ---------------------------------------------------------------- the bytes

  lemma {:induction false} RunOfCopies(x: Block, n: nat, rest: seq<Block>)
    ensures Run(x, Copies(x, n) + rest) == n + Run(x, rest)
  {
    var xs := Copies(x, n) + rest;
    if n == 0 {
      assert xs == rest;
    } else {
      assert xs[1..] == Copies(x, n - 1) + rest;
      RunOfCopies(x, n - 1, rest);
    }
  }

  /** A run is written as its count and one block. */
  lemma RunBytes(x: Block, n: nat, rest: seq<Block>, threshold: nat)
    requires 0 < n && threshold <= n <= MAX_COUNT && (rest == [] || rest[0] != x || n == MAX_COUNT)
    ensures Encode(Copies(x, n) + rest, threshold) == [n] + x + Encode(rest, threshold)
  {
    var xs := Copies(x, n) + rest;
    assert xs[0] == x && xs[n..] == rest;
    RunOfCopies(x, n, rest);
    assert Head(xs, threshold) == Repeat(n, x);
  }

  /** At most 127 blocks without a long run are written as 0x80 plus their number and the blocks. */
  lemma LiteralBytes(xs: seq<Block>, threshold: nat)
    requires 0 < |xs| <= MAX_COUNT && threshold <= MAX_COUNT
    requires RepeatCount(xs) < threshold && NoLongRun(xs, threshold)
    ensures Encode(xs, threshold) == [0x80 + |xs|] + Flat(xs)
  {
    LiteralStopsIff(xs, threshold);
    LiteralGood(xs, threshold);
    assert xs[..|xs|] == xs && xs[|xs|..] == [];
    assert Encode([], threshold) == [];
  }
}
