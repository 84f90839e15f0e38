/** Products and remainders. */
module Arith {
  /** The number of bytes of n blocks or rows of the given size. */
  function Span(n: nat, size: nat): (r: nat)
    ensures n > 0 ==> r >= size
    ensures size > 0 ==> r >= n
  {
    if n == 0 then 0 else size + Span(n - 1, size)
  }

  lemma {:induction false} SpanAdd(a: nat, b: nat, size: nat)
    ensures Span(a + b, size) == Span(a, size) + Span(b, size)
    decreases a
  {
    if a > 0 { SpanAdd(a - 1, b, size); }
  }

  lemma {:induction false} SpanIsTimes(k: nat, size: nat)
    ensures Span(k, size) == k * size
  {
    if k > 0 { SpanIsTimes(k - 1, size); }
  }

  lemma MulGrows(d: int, size: int)
    requires size > 0
    ensures d >= 1 ==> d * size >= size
    ensures d <= -1 ==> d * size <= -size
  {}

  lemma ModUnique(n: nat, q: nat, r: nat, size: nat)
    requires n == q * size + r && r < size
    ensures n % size == r
  {
    var d := n / size - q;
    assert d * size == r - n % size;
    MulGrows(d, size);
  }

  lemma ModShift(n: nat, size: nat)
    requires size > 0
    ensures (n + size) % size == n % size
  {
    var q, r := n / size, n % size;
    assert n + size == (q + 1) * size + r;
    ModUnique(n + size, q + 1, r, size);
  }

  lemma ModStep(n: nat, size: nat)
    requires size > 0
    ensures n % size == if n < size then n else (n - size) % size
  {
    if n < size { ModUnique(n, 0, n, size); } else { ModShift(n - size, size); }
  }

  lemma {:induction false} ModSpan(n: nat, k: nat, size: nat)
    requires size > 0
    ensures (Span(k, size) + n) % size == n % size
  {
    if k > 0 {
      ModSpan(n, k - 1, size);
      ModShift(Span(k - 1, size) + n, size);
    }
  }

  lemma ModNext(n: nat, size: nat)
    requires size > 0
    ensures (n + 1) % size == if n % size + 1 == size then 0 else n % size + 1
  {
    var q, r := n / size, n % size;
    if r + 1 == size {
      assert n + 1 == (q + 1) * size + 0;
      ModUnique(n + 1, q + 1, 0, size);
    } else {
      ModUnique(n + 1, q, r + 1, size);
    }
  }
}
