/** Two inputs with an overlong final literal: one is lost, one survives by luck. */
module RleExamples {
  import opened Bytes
  import opened Rle
  import opened RleTail

  function B(v: Byte): Block { [v] }

  function Singles(s: seq<Byte>): (xs: seq<Block>)
    ensures |xs| == |s| && Uniform(xs, 1)
    ensures forall i :: 0 <= i < |s| ==> xs[i] == B(s[i])
  {
    seq(|s|, i requires 0 <= i < |s| => B(s[i]))
  }

  lemma {:induction false} FlatSingles(s: seq<Byte>)
    ensures Flat(Singles(s)) == s
  {
    if s != [] {
      assert Singles(s)[1..] == Singles(s[1..]);
      FlatSingles(s[1..]);
    }
  }

  lemma Broken(xs: seq<Block>, from: nat, to: nat, p: nat, q: nat)
    requires from < to <= |xs| && from <= p < to && from <= q < to && xs[p] != xs[q]
    ensures !AllEqual(xs, from, to, xs[from])
  {}

  lemma RunStops(xs: seq<Block>, n: nat)
    requires n < |xs| && xs[n] != xs[0]
    ensures RepeatCount(xs) <= n
  {}

  lemma OneLiteral(xs: seq<Block>)
    requires |xs| == 128 && RepeatCount(xs) < 16 && NoLongRun(xs, 16) && FlatEnd(xs)
    ensures Overlong(xs, 16) == 128
  {
    LongLiteralIff(xs, 16);
    HeadGood(xs, 16);
  }

  // ---------------------------------------------------------------- lost

  function Alternating(): (s: seq<Byte>)
    ensures |s| == 128
    ensures forall i :: 0 <= i < 128 ==> s[i] == if i < 126 && i % 2 == 0 then 1 else 0
  {
    seq(128, i => if i < 126 && i % 2 == 0 then 1 else 0)
  }

  lemma AlternatingIsOverlong()
    ensures Overlong(Singles(Alternating()), 16) == 128
  {
    hide Overlong, RepeatCount, AllEqual, Head;
    var xs := Singles(Alternating());
    forall j | 0 <= j && j + 17 < |xs| ensures !AllEqual(xs, j, j + 18, xs[j]) {
      Broken(xs, j, j + 18, j, j + 1);
    }
    RunStops(xs, 1);
    OneLiteral(xs);
  }

  /** Read as chunks, data that starts with the bytes 1, 0 decodes to a leading 0. */
  lemma OneZeroReadsDifferently(s: seq<Byte>)
    requires |s| >= 2 && s[0] == 1 && s[1] == 0
    ensures Decode(s, 1) != Some(s)
  {
    assert s == ChunkBytes(Repeat(1, B(0))) + s[2..];
    ChunkDecodes(Repeat(1, B(0)), s[2..], 1);
    assert Copies(B(0), 1) == [B(0)] && Flat([B(0)]) == B(0);
    assert forall r: seq<Byte> :: (B(0) + r)[0] == 0;
  }

  lemma LostIfReadDifferently(s: seq<Byte>)
    requires |s| == 128 && Decode(s, 1) != Some(s) && Overlong(Singles(s), 16) > 0
    ensures !RoundTrips(Singles(s), 16, 1)
  {
    hide Decode, Encode, Overlong, Flat, RoundTrips;
    var xs := Singles(s);
    RoundTripsByLiteral(xs, 16, 1);
    assert xs[|xs| - 128..] == xs;
    FlatSingles(s);
  }

  /** An overlong literal can break the round trip. */
  lemma OverlongBreaksRoundTrip()
    ensures var xs := Singles(Alternating()); Overlong(xs, 16) == 128 && !RoundTrips(xs, 16, 1)
  {
    hide Decode, Overlong, RoundTrips, Singles;
    AlternatingIsOverlong();
    OneZeroReadsDifferently(Alternating());
    LostIfReadDifferently(Alternating());
  }

  // ---------------------------------------------------------------- lucky

  /** Eight bytes that, read as chunks, decode to themselves. */
  const LUCKY: seq<Byte> := [3, 3, 3, 0x81, 0x81, 0x81, 0x81, 0]

  function Twos(k: nat): (s: seq<Byte>)
    ensures |s| == 2 * k && forall i :: 0 <= i < |s| ==> s[i] == 2
  {
    if k == 0 then [] else [2, 2] + Twos(k - 1)
  }

  function LuckyData(k: nat): (s: seq<Byte>)
    ensures |s| == 8 * k + 8
  {
    if k == 0 then Twos(4) else LUCKY + LuckyData(k - 1)
  }

  lemma {:induction false} LuckyAt(k: nat, m: nat)
    requires m < k
    ensures LuckyData(k)[8 * m] == 3 && LuckyData(k)[8 * m + 3] == 0x81 && LuckyData(k)[8 * m + 7] == 0
  {
    if m > 0 {
      LuckyAt(k - 1, m - 1);
      assert forall i :: 8 <= i < 8 * k + 8 ==> LuckyData(k)[i] == LuckyData(k - 1)[i - 8];
    }
  }

  lemma {:induction false} LuckyEnds(k: nat)
    ensures forall i :: 8 * k <= i < 8 * k + 8 ==> LuckyData(k)[i] == 2
  {
    if k > 0 { LuckyEnds(k - 1); }
  }

  lemma ThreeDecode(v: Byte, rest: seq<Byte>)
    ensures Decode([3, v] + rest, 1) == Prepend([v, v, v], Decode(rest, 1))
  {
    ChunkDecodes(Repeat(3, B(v)), rest, 1);
    assert Copies(B(v), 3) == [B(v)] + ([B(v)] + [B(v)]);
    FlatAppend([B(v)], [B(v)] + [B(v)]);
    FlatAppend([B(v)], [B(v)]);
    assert Flat([B(v)]) == [v];
    assert [v] + ([v] + [v]) == [v, v, v];
  }

  lemma TwoDecode(rest: seq<Byte>)
    ensures Decode([2, 2] + rest, 1) == Prepend([2, 2], Decode(rest, 1))
  {
    ChunkDecodes(Repeat(2, B(2)), rest, 1);
    assert Copies(B(2), 2) == [B(2)] + [B(2)];
    FlatAppend([B(2)], [B(2)]);
    assert Flat([B(2)]) == [2] && [2] + [2] == [2, 2];
    assert ChunkBytes(Repeat(2, B(2))) == [2, 2];
  }

  lemma LiteralDecode(v: Byte, rest: seq<Byte>)
    ensures Decode([0x81, v] + rest, 1) == Prepend([v], Decode(rest, 1))
  {
    ChunkDecodes(Literal([B(v)]), rest, 1);
    assert Flat([B(v)]) == [v];
    assert ChunkBytes(Literal([B(v)])) == [0x81, v];
  }

  lemma LuckyDecode(rest: seq<Byte>)
    ensures Decode(LUCKY + rest, 1) == Prepend(LUCKY, Decode(rest, 1))
  {
    hide Decode;
    var s := LUCKY + rest;
    assert s == [3, 3] + s[2..] && s[2..] == [3, 0x81] + s[4..];
    assert s[4..] == [0x81, 0x81] + s[6..] && s[6..] == [0x81, 0] + rest;
    ThreeDecode(3, s[2..]);
    ThreeDecode(0x81, s[4..]);
    LiteralDecode(0x81, s[6..]);
    LiteralDecode(0, rest);
    if Decode(rest, 1).Some? {
      var r := Decode(rest, 1).value;
      assert [3, 3, 3] + ([0x81, 0x81, 0x81] + ([0x81] + ([0] + r))) == LUCKY + r;
    }
  }

  lemma {:induction false} TwosDecode(k: nat)
    ensures Decode(Twos(k), 1) == Some(Twos(k))
  {
    if k > 0 {
      TwosDecode(k - 1);
      TwoDecode(Twos(k - 1));
    }
  }

  lemma {:induction false} LuckyDecodes(k: nat)
    ensures Decode(LuckyData(k), 1) == Some(LuckyData(k))
  {
    hide Decode;
    if k == 0 {
      TwosDecode(4);
    } else {
      LuckyDecode(LuckyData(k - 1));
      LuckyDecodes(k - 1);
    }
  }

  lemma LuckyBroken(j: nat)
    requires j + 17 < 128
    ensures var xs := Singles(LuckyData(15)); !AllEqual(xs, j, j + 18, xs[j])
  {
    hide LuckyData, AllEqual;
    var s := LuckyData(15);
    var m := (j + 7) / 8;
    LuckyAt(15, m);
    Broken(Singles(s), j, j + 18, 8 * m, 8 * m + 7);
  }

  lemma LuckyIsOverlong()
    ensures Overlong(Singles(LuckyData(15)), 16) == 128
  {
    hide Overlong, RepeatCount, AllEqual, LuckyData, Head;
    var s := LuckyData(15);
    var xs := Singles(s);
    forall j | 0 <= j && j + 17 < |xs| ensures !AllEqual(xs, j, j + 18, xs[j]) {
      LuckyBroken(j);
    }
    LuckyAt(15, 0);
    LuckyEnds(15);
    RunStops(xs, 3);
    OneLiteral(xs);
  }

  /** So a count of at most 127 is not necessary: these 128 one-byte blocks end in an overlong
      literal and still round trip. */
  lemma OverlongMayRoundTrip()
    ensures var xs := Singles(LuckyData(15)); Overlong(xs, 16) == 128 && RoundTrips(xs, 16, 1)
  {
    hide Decode, Encode, Overlong, Flat, LuckyData;
    var xs := Singles(LuckyData(15));
    LuckyIsOverlong();
    RoundTripsByLiteral(xs, 16, 1);
    assert xs[|xs| - 128..] == xs;
    FlatSingles(LuckyData(15));
    LuckyDecodes(15);
  }
}
