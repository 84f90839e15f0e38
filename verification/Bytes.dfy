module Bytes {
  type Byte = b: int | 0 <= b < 256

  datatype Option<+T> = None | Some(value: T)

  /** Python's s[:n]: no more than there is. */
  function Take<T>(s: seq<T>, n: nat): seq<T> {
    if n <= |s| then s[..n] else s
  }

  /** Python's s[n:]: empty past the end. */
  function Drop<T>(s: seq<T>, n: nat): seq<T> {
    if n <= |s| then s[n..] else []
  }

  /** Python's s[from:to]. */
  function Slice<T>(s: seq<T>, from: nat, to: nat): seq<T>
    requires from <= to
  {
    Take(Drop(s, from), to - from)
  }

  lemma DropDrop<T>(s: seq<T>, m: nat, n: nat)
    ensures Drop(Drop(s, m), n) == Drop(s, m + n)
  {}

  lemma DropEnds<T>(s: seq<T>, n: nat)
    ensures n >= |s| ==> Drop(s, n) == []
    ensures n == 0 ==> Drop(s, n) == s
  {}

  lemma TakeNone<T>(s: seq<T>)
    ensures Take(s, 0) == []
  {}

  lemma TakeSplit<T>(s: seq<T>, m: nat, n: nat)
    ensures Take(s, m + n) == Take(s, m) + Take(Drop(s, m), n)
  {}
}
