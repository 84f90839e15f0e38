/** The searches of src/ui/util.c, and that next and previous undo each other. */
module FocusSearch {
  import opened Bytes
  import opened Focus

  // ---------------------------------------------------------------- first child, parent

  function FirstOf(list: seq<Path>): Option<Path> { if list == [] then None else Some(list[0]) }

  /** What find_first_focusable_child_dfs returns; nothing while there is no current group. */
  function FirstChild(node: Widget, base: Path, g: Group): Option<Path> {
    if g == 0 then None else FirstOf(Topmost(node, base, g))
  }

  method FindFirstFocusableChild(node: Widget, base: Path, g: Group) returns (r: Option<Path>)
    ensures r == FirstChild(node, base, g)
    decreases node
  {
    if g == 0 { return None; }
    for i := 0 to |node.children|
      invariant FirstOf(TopmostFrom(node, base, g, i)) == FirstOf(Topmost(node, base, g))
    {
      var child := node.children[i];
      if child.group == g { return Some(base + [i]); }
      var found := FindFirstFocusableChild(child, base + [i], g);
      if found.Some? { return found; }
    }
    return None;
  }

  lemma SameAt(p: Path, q: Path, n: nat, k: nat)
    requires k < n <= |p| && n <= |q| && p[..n] == q[..n]
    ensures p[k] == q[k]
  {
    assert p[k] == p[..n][k] == q[..n][k];
  }

  lemma NotBeforeEachOther(p: Path, q: Path)
    requires Before(p, q)
    ensures !Before(q, p)
  {
    var k :| 0 <= k < |p| && k < |q| && p[..k] == q[..k] && p[k] < q[k];
    forall j | 0 <= j < |q| && j < |p| && q[..j] == p[..j] ensures q[j] >= p[j] {
      if j < k { SameAt(p, q, k, j); }
      if j > k { SameAt(p, q, j, k); }
    }
  }

  lemma ListedAt(node: Widget, base: Path, g: Group, rel: Path) returns (n: nat)
    requires TopmostAt(node, rel, g)
    ensures n < |Topmost(node, base, g)| && Topmost(node, base, g)[n] == base + rel
  {
    ListedIff(node, base, g, 0, rel);
    n :| 0 <= n < |Topmost(node, base, g)| && Topmost(node, base, g)[n] == base + rel;
  }

  lemma FirstListed(node: Widget, base: Path, g: Group) returns (rel: Path)
    requires Topmost(node, base, g) != []
    ensures Topmost(node, base, g)[0] == base + rel && TopmostAt(node, rel, g)
  {
    hide TopmostAt;
    var p := Topmost(node, base, g)[0];
    ListedUnder(node, base, g, 0, 0);
    rel := p[|base|..];
    assert p == base + rel;
    ListedIff(node, base, g, 0, rel);
  }

  lemma SamePath(base: Path, p: Path, q: Path)
    ensures base + p == base + q ==> p == q
  {
    assert (base + p)[|base|..] == p && (base + q)[|base|..] == q;
  }

  /** The first focusable child is the first topmost focusable descendant in preorder; there is none
      exactly while there is no current group or no such descendant. */
  lemma FirstChildIff(node: Widget, base: Path, g: Group, rel: Path)
    ensures FirstChild(node, base, g) == Some(base + rel) <==>
      && g != 0 && TopmostAt(node, rel, g)
      && forall r :: TopmostAt(node, r, g) && r != rel ==> Before(base + rel, base + r)
    ensures FirstChild(node, base, g) == None <==> g == 0 || forall r :: !TopmostAt(node, r, g)
  {
    hide TopmostAt, Before;
    var list := Topmost(node, base, g);
    if list != [] {
      var first := FirstListed(node, base, g);
      assert base + first == base + rel ==> first == rel by { SamePath(base, first, rel); }
      forall r | TopmostAt(node, r, g) && r != first ensures Before(base + first, base + r) {
        var n := ListedAt(node, base, g, r);
        SamePath(base, first, r);
        ListedInOrder(node, base, g, 0, 0, n);
      }
      if first != rel && TopmostAt(node, rel, g) { NotBeforeEachOther(base + first, base + rel); }
    } else {
      forall r ensures !TopmostAt(node, r, g) {
        if TopmostAt(node, r, g) { var n := ListedAt(node, base, g, r); }
      }
    }
  }

  /** The nearest focusable strict ancestor. */
  function Roof(t: Widget, g: Group, obj: Path): (r: Option<Path>)
    ensures r.Some? ==>
      && |r.value| < |obj| && r.value == obj[..|r.value|] && Focusable(t, g, r.value)
      && forall k :: |r.value| < k < |obj| ==> !Focusable(t, g, obj[..k])
    ensures r.None? ==> forall k :: 0 <= k < |obj| ==> !Focusable(t, g, obj[..k])
  {
    if obj == [] then None
    else
      var parent := obj[..|obj| - 1];
      assert forall k :: 0 <= k < |parent| ==> parent[..k] == obj[..k];
      if Focusable(t, g, parent) then Some(parent) else Roof(t, g, parent)
  }

  method FindFirstFocusableParent(t: Widget, g: Group, obj: Path) returns (r: Option<Path>)
    requires Valid(t, obj)
    ensures r == Roof(t, g, obj)
  {
    var p := obj;
    while p != []
      invariant Valid(t, p) && Roof(t, g, p) == Roof(t, g, obj)
      decreases |p|
    {
      ValidPrefix(t, p, |p| - 1);
      p := p[..|p| - 1];
      if At(t, p).group == g { return Some(p); }
    }
    return None;
  }

  // ---------------------------------------------------------------- the scan

  /** Forward over a list: the first entry after the origin, and whether it was passed. */
  function Forward(list: seq<Path>, origin: Path, passed: bool): (Option<Path>, bool) {
    if list == [] then (None, passed)
    else if passed then (Some(list[0]), true)
    else Forward(list[1..], origin, list[0] == origin)
  }

  /** Backward: the entry before the origin, `last` being the one before the list. */
  function Backward(list: seq<Path>, origin: Path, last: Option<Path>): Option<Path> {
    if list == [] then None
    else if list[0] == origin then last
    else Backward(list[1..], origin, Some(list[0]))
  }

  function LastOf(list: seq<Path>, last: Option<Path>): Option<Path> {
    if list == [] then last else Some(list[|list| - 1])
  }

  lemma {:induction false} ForwardAppend(a: seq<Path>, b: seq<Path>, origin: Path, passed: bool)
    ensures var (r, p) := Forward(a, origin, passed);
      Forward(a + b, origin, passed) == if r.Some? then (r, p) else Forward(b, origin, p)
  {
    if a == [] {
      assert a + b == b;
    } else {
      assert (a + b)[1..] == a[1..] + b;
      if !passed { ForwardAppend(a[1..], b, origin, a[0] == origin); }
    }
  }

  lemma {:induction false} BackwardAppend(a: seq<Path>, b: seq<Path>, origin: Path, last: Option<Path>)
    ensures Backward(a + b, origin, last) ==
      if origin in a then Backward(a, origin, last) else Backward(b, origin, LastOf(a, last))
    ensures LastOf(a + b, last) == LastOf(b, LastOf(a, last))
  {
    if a == [] {
      assert a + b == b;
    } else {
      assert (a + b)[1..] == a[1..] + b;
      if a[0] != origin { BackwardAppend(a[1..], b, origin, Some(a[0])); }
    }
  }

  lemma {:induction false} BackwardMisses(list: seq<Path>, origin: Path, last: Option<Path>)
    requires origin !in list
    ensures Backward(list, origin, last) == None
  {
    if list != [] { BackwardMisses(list[1..], origin, Some(list[0])); }
  }

  /** What one child contributes is not contributed again. */
  lemma OnlyOnce(node: Widget, base: Path, g: Group, i: nat, p: Path)
    requires i < |node.children| && p in InChild(node, base, g, i)
    ensures p !in TopmostFrom(node, base, g, i + 1)
  {
    var n: nat :| n < |InChild(node, base, g, i)| && InChild(node, base, g, i)[n] == p;
    InChildUnder(node, base, g, i, n);
    UnderChild(p, base, i);
    var rest := TopmostFrom(node, base, g, i + 1);
    forall m: nat | m < |rest| ensures rest[m] != p { ListedUnder(node, base, g, i + 1, m); }
  }

  /** One turn of the backward scan over child i that did not end it. */
  lemma BackwardTurn(node: Widget, base: Path, g: Group, i: nat, origin: Path, last: Option<Path>, last': Option<Path>)
    requires i < |node.children|
    requires Backward(InChild(node, base, g, i), origin, last) == None
    requires origin !in InChild(node, base, g, i) ==> last' == LastOf(InChild(node, base, g, i), last)
    ensures var list, rest := TopmostFrom(node, base, g, i), TopmostFrom(node, base, g, i + 1);
      && Backward(list, origin, last) == Backward(rest, origin, last')
      && (origin !in list ==> origin !in rest && LastOf(list, last) == LastOf(rest, last'))
  {
    var a, rest := InChild(node, base, g, i), TopmostFrom(node, base, g, i + 1);
    BackwardAppend(a, rest, origin, last);
    if origin in a {
      OnlyOnce(node, base, g, i, origin);
      BackwardMisses(rest, origin, last');
    }
  }

  lemma OneEntry(p: Path, origin: Path, last: Option<Path>, passed: bool)
    ensures Forward([p], origin, passed) == if passed then (Some(p), true) else (None, p == origin)
    ensures Backward([p], origin, last) == if p == origin then last else None
    ensures LastOf([p], last) == Some(p)
  {}

  lemma EndOfList(origin: Path, last: Option<Path>, passed: bool)
    ensures Forward([], origin, passed) == (None, passed)
    ensures Backward([], origin, last) == None && LastOf([], last) == last
  {}

  /** scan_subtree_focus_sequence; last and passed are its in-out parameters. */
  method Scan(node: Widget, base: Path, g: Group, origin: Path, last: Option<Path>, passed: bool, forwards: bool)
    returns (r: Option<Path>, last': Option<Path>, passed': bool)
    ensures forwards ==> (r, passed') == Forward(Topmost(node, base, g), origin, passed)
    ensures !forwards ==>
      && r == Backward(Topmost(node, base, g), origin, last)
      && (origin !in Topmost(node, base, g) ==> last' == LastOf(Topmost(node, base, g), last))
    decreases node
  {
    hide Backward, Forward;
    last', passed' := last, passed;
    for i := 0 to |node.children|
      invariant forwards ==>
        Forward(TopmostFrom(node, base, g, i), origin, passed') == Forward(Topmost(node, base, g), origin, passed)
      invariant !forwards ==>
        var list := TopmostFrom(node, base, g, i);
        && Backward(list, origin, last') == Backward(Topmost(node, base, g), origin, last)
        && (origin !in Topmost(node, base, g) ==>
              origin !in list && LastOf(list, last') == LastOf(Topmost(node, base, g), last))
    {
      var child := node.children[i];
      ghost var a, rest := InChild(node, base, g, i), TopmostFrom(node, base, g, i + 1);
      ghost var before := last';
      ForwardAppend(a, rest, origin, passed');
      BackwardAppend(a, rest, origin, last');
      if child.group == g {
        OneEntry(base + [i], origin, last', passed');
        if forwards {
          if passed' { return Some(base + [i]), last', passed'; }
          if base + [i] == origin { passed' := true; }
        } else {
          if base + [i] == origin { return last', last', passed'; }
          last' := Some(base + [i]);
          BackwardTurn(node, base, g, i, origin, before, last');
        }
        continue;
      }
      r, last', passed' := Scan(child, base + [i], g, origin, last', passed', forwards);
      if origin !in a { BackwardMisses(a, origin, before); }
      if r.Some? { return; }
      if !forwards { BackwardTurn(node, base, g, i, origin, before, last'); }
    }
    EndOfList(origin, last', passed');
    r := None;
  }

  // ---------------------------------------------------------------- siblings

  /** The focus sequence an object belongs to: the topmost focusable descendants of its roof. */
  function Sequence(t: Widget, g: Group, obj: Path): Option<seq<Path>> {
    match Roof(t, g, obj)
    case None => None
    case Some(roof) => Some(Topmost(At(t, roof), roof, g))
  }

  function NextSibling(t: Widget, g: Group, obj: Path): Option<Path> {
    match Sequence(t, g, obj)
    case None => None
    case Some(list) => Forward(list, obj, false).0
  }

  function PrevSibling(t: Widget, g: Group, obj: Path): Option<Path> {
    match Sequence(t, g, obj)
    case None => None
    case Some(list) => Backward(list, obj, None)
  }

  method FindNextFocusableSibling(t: Widget, g: Group, obj: Path) returns (r: Option<Path>)
    requires Valid(t, obj)
    ensures r == NextSibling(t, g, obj)
  {
    var roof := FindFirstFocusableParent(t, g, obj);
    if roof.None? { return None; }
    var last, passed;
    r, last, passed := Scan(At(t, roof.value), roof.value, g, obj, None, false, true);
  }

  method FindPrevFocusableSibling(t: Widget, g: Group, obj: Path) returns (r: Option<Path>)
    requires Valid(t, obj)
    ensures r == PrevSibling(t, g, obj)
  {
    var roof := FindFirstFocusableParent(t, g, obj);
    if roof.None? { return None; }
    var last, passed;
    r, last, passed := Scan(At(t, roof.value), roof.value, g, obj, None, false, false);
  }

  // ---------------------------------------------------------------- neighbours in the list

  predicate Distinct(list: seq<Path>) {
    forall m, n :: 0 <= m < n < |list| ==> list[m] != list[n]
  }

  lemma TopmostDistinct(node: Widget, base: Path, g: Group)
    ensures Distinct(Topmost(node, base, g))
  {
    var list := Topmost(node, base, g);
    forall m, n | 0 <= m < n < |list| ensures list[m] != list[n] {
      ListedInOrder(node, base, g, 0, m, n);
      BeforeDiffers(list[m], list[n]);
    }
  }

  lemma {:induction false} ForwardAt(list: seq<Path>, n: nat)
    requires Distinct(list) && n < |list|
    ensures Forward(list, list[n], false).0 == if n + 1 < |list| then Some(list[n + 1]) else None
  {
    if n > 0 {
      assert Distinct(list[1..]);
      ForwardAt(list[1..], n - 1);
    } else if |list| > 1 {
      assert Forward(list[1..], list[0], true).0 == Some(list[1]);
    }
  }

  lemma {:induction false} BackwardAt(list: seq<Path>, n: nat, last: Option<Path>)
    requires Distinct(list) && n < |list|
    ensures Backward(list, list[n], last) == if n > 0 then Some(list[n - 1]) else last
  {
    if n > 0 {
      assert Distinct(list[1..]);
      BackwardAt(list[1..], n - 1, Some(list[0]));
    }
  }

  lemma {:induction false} ForwardMisses(list: seq<Path>, origin: Path)
    requires origin !in list
    ensures Forward(list, origin, false) == (None, false)
  {
    if list != [] { ForwardMisses(list[1..], origin); }
  }

  /** Whatever is listed under a focusable node has that node as its roof. */
  lemma RoofOfListed(t: Widget, g: Group, roof: Path, n: nat)
    requires Focusable(t, g, roof) && n < |Topmost(At(t, roof), roof, g)|
    ensures var p := Topmost(At(t, roof), roof, g)[n];
      Focusable(t, g, p) && Roof(t, g, p) == Some(roof)
  {
    var node := At(t, roof);
    var p := Topmost(node, roof, g)[n];
    ListedUnder(node, roof, g, 0, n);
    var rel := p[|roof|..];
    assert p == roof + rel;
    ListedIff(node, roof, g, 0, rel);
    AtAppend(t, roof, rel);
    forall k | |roof| < k < |p| ensures !Focusable(t, g, p[..k]) {
      AtAppend(t, roof, rel[..k - |roof|]);
      assert p[..k] == roof + rel[..k - |roof|];
      assert !Focusable(node, g, rel[..k - |roof|]);
    }
    assert p[..|roof|] == roof;
  }

  /** An object is in its own focus sequence exactly if it is focusable. */
  lemma ListedInOwn(t: Widget, g: Group, obj: Path)
    requires Valid(t, obj) && Roof(t, g, obj).Some?
    ensures obj in Sequence(t, g, obj).value <==> Focusable(t, g, obj)
  {
    var roof := Roof(t, g, obj).value;
    var node, rel := At(t, roof), obj[|roof|..];
    assert obj == roof + rel;
    AtAppend(t, roof, rel);
    ListedIff(node, roof, g, 0, rel);
    forall k | 0 < k < |rel| ensures !Focusable(node, g, rel[..k]) {
      assert roof + rel[..k] == obj[..|roof| + k];
      AtAppend(t, roof, rel[..k]);
    }
  }

  /** Next gives the successor in the focus sequence, previous the predecessor; both give
      nothing for an object that is not focusable. */
  lemma Neighbours(t: Widget, g: Group, obj: Path, n: nat)
    requires Valid(t, obj) && Roof(t, g, obj).Some?
    ensures var list := Sequence(t, g, obj).value;
      && (!Focusable(t, g, obj) ==> NextSibling(t, g, obj) == None && PrevSibling(t, g, obj) == None)
      && (n < |list| && list[n] == obj ==>
            && NextSibling(t, g, obj) == (if n + 1 < |list| then Some(list[n + 1]) else None)
            && PrevSibling(t, g, obj) == (if n > 0 then Some(list[n - 1]) else None))
  {
    hide Roof, Topmost, Forward, Backward;
    ListedInOwn(t, g, obj);
    var roof := Roof(t, g, obj).value;
    var list := Sequence(t, g, obj).value;
    TopmostDistinct(At(t, roof), roof, g);
    if !Focusable(t, g, obj) {
      ForwardMisses(list, obj);
      BackwardMisses(list, obj, None);
    } else if n < |list| && list[n] == obj {
      ForwardAt(list, n);
      BackwardAt(list, n, None);
    }
  }

  /** Objects of one focus sequence. */
  lemma SameSequence(t: Widget, g: Group, obj: Path, n: nat)
    requires Valid(t, obj) && Roof(t, g, obj).Some? && n < |Sequence(t, g, obj).value|
    ensures var p := Sequence(t, g, obj).value[n];
      Focusable(t, g, p) && Roof(t, g, p) == Roof(t, g, obj) && Sequence(t, g, p) == Sequence(t, g, obj)
  {
    hide Topmost;
    RoofOfListed(t, g, Roof(t, g, obj).value, n);
  }

  /** Where an object with a next or previous one stands. */
  lemma PositionOf(t: Widget, g: Group, obj: Path) returns (n: nat)
    requires Valid(t, obj) && (NextSibling(t, g, obj).Some? || PrevSibling(t, g, obj).Some?)
    ensures Roof(t, g, obj).Some?
    ensures var list := Sequence(t, g, obj).value;
      && n < |list| && list[n] == obj
      && NextSibling(t, g, obj) == (if n + 1 < |list| then Some(list[n + 1]) else None)
      && PrevSibling(t, g, obj) == (if n > 0 then Some(list[n - 1]) else None)
  {
    hide Roof, Topmost, Forward, Backward;
    var list := Sequence(t, g, obj).value;
    ListedInOwn(t, g, obj);
    Neighbours(t, g, obj, 0);
    n :| n < |list| && list[n] == obj;
    Neighbours(t, g, obj, n);
  }

  /** Next and previous undo each other. */
  lemma NextPrevInverse(t: Widget, g: Group, obj: Path, q: Path)
    requires Valid(t, obj) && Valid(t, q)
    ensures NextSibling(t, g, obj) == Some(q) <==> PrevSibling(t, g, q) == Some(obj)
  {
    hide Roof, Topmost, Forward, Backward;
    if NextSibling(t, g, obj) == Some(q) {
      var n := PositionOf(t, g, obj);
      SameSequence(t, g, obj, n + 1);
      Neighbours(t, g, q, n + 1);
    }
    if PrevSibling(t, g, q) == Some(obj) {
      var n := PositionOf(t, g, q);
      SameSequence(t, g, q, n - 1);
      Neighbours(t, g, obj, n - 1);
    }
  }

  lemma InOrder(node: Widget, base: Path, g: Group, n: nat)
    requires 0 < n < |Topmost(node, base, g)|
    ensures Before(Topmost(node, base, g)[0], Topmost(node, base, g)[n])
  {
    ListedInOrder(node, base, g, 0, 0, n);
  }

  /** The focusable parent of the first focusable child of a focusable object is that object,
      and an object with any focusable child below it has a first one. */
  lemma ParentOfFirstChild(t: Widget, g: Group, obj: Path, c: Path)
    requires Focusable(t, g, obj) && g != 0
    ensures FirstChild(At(t, obj), obj, g) == Some(c) ==> Focusable(t, g, c) && Roof(t, g, c) == Some(obj)
    ensures Focusable(t, g, c) && Roof(t, g, c) == Some(obj) ==>
      var first := FirstChild(At(t, obj), obj, g);
      first.Some? && (first.value == c || Before(first.value, c))
  {
    hide Roof, Topmost;
    var list := Topmost(At(t, obj), obj, g);
    if list != [] { RoofOfListed(t, g, obj, 0); }
    if Focusable(t, g, c) && Roof(t, g, c) == Some(obj) {
      ListedInOwn(t, g, c);
      var n: nat :| n < |list| && list[n] == c;
      if n > 0 { InOrder(At(t, obj), obj, g, n); }
    }
  }

  function NextTimes(t: Widget, g: Group, obj: Path, n: nat): Option<Path> {
    if n == 0 then Some(obj)
    else match NextTimes(t, g, obj, n - 1)
    case None => None
    case Some(p) => NextSibling(t, g, p)
  }

  /** Going from the first focusable child to next and next visits every focusable object that
      has this roof, in preorder, and then stops. */
  lemma {:induction false} WalkVisitsAll(t: Widget, g: Group, roof: Path, n: nat)
    requires Focusable(t, g, roof) && g != 0 && FirstChild(At(t, roof), roof, g).Some?
    ensures var list := Topmost(At(t, roof), roof, g);
      && (n < |list| ==> NextTimes(t, g, FirstChild(At(t, roof), roof, g).value, n) == Some(list[n]))
      && (n == |list| ==> NextTimes(t, g, FirstChild(At(t, roof), roof, g).value, n) == None)
  {
    hide Roof, Topmost, NextSibling;
    var list := Topmost(At(t, roof), roof, g);
    if 0 < n <= |list| {
      WalkVisitsAll(t, g, roof, n - 1);
      RoofOfListed(t, g, roof, n - 1);
      Neighbours(t, g, list[n - 1], n - 1);
    }
  }
}
