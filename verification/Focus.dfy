/** Focus traversal over the widget tree of src/ui/util.c. */
module Focus {

  /** An encoder group; 0 is NULL. */
  type Group = nat

  datatype Widget = Widget(group: Group, children: seq<Widget>)

  /** An object is named by the child indices that lead to it from the screen. */
  type Path = seq<nat>

  predicate Valid(t: Widget, p: Path) {
    p == [] || (p[0] < |t.children| && Valid(t.children[p[0]], p[1..]))
  }

  function At(t: Widget, p: Path): Widget
    requires Valid(t, p)
  {
    if p == [] then t else At(t.children[p[0]], p[1..])
  }

  predicate Focusable(t: Widget, g: Group, p: Path) { Valid(t, p) && At(t, p).group == g }

  lemma {:induction false} AtAppend(t: Widget, p: Path, q: Path)
    requires Valid(t, p)
    ensures Valid(t, p + q) <==> Valid(At(t, p), q)
    ensures Valid(t, p + q) ==> At(t, p + q) == At(At(t, p), q)
  {
    if p == [] {
      assert p + q == q;
    } else {
      assert (p + q)[1..] == p[1..] + q;
      AtAppend(t.children[p[0]], p[1..], q);
    }
  }

  lemma ValidPrefix(t: Widget, p: Path, k: nat)
    requires Valid(t, p) && k <= |p|
    ensures Valid(t, p[..k])
    decreases |p|
  {
    if k > 0 {
      ValidPrefix(t.children[p[0]], p[1..], k - 1);
      assert p[..k][1..] == p[1..][..k - 1];
    }
  }

  // ---------------------------------------------------------------- the ordered list

  /** Preorder list of the topmost focusable descendants of a node at path `base`, from child
      i on: below a focusable one nothing is listed. */
  function TopmostFrom(node: Widget, base: Path, g: Group, i: nat): seq<Path>
    requires i <= |node.children|
    decreases node, |node.children| - i
  {
    if i == |node.children| then []
    else InChild(node, base, g, i) + TopmostFrom(node, base, g, i + 1)
  }

  function InChild(node: Widget, base: Path, g: Group, i: nat): seq<Path>
    requires i < |node.children|
    decreases node, |node.children| - i, 0
  {
    var child := node.children[i];
    if child.group == g then [base + [i]] else TopmostFrom(child, base + [i], g, 0)
  }

  function Topmost(node: Widget, base: Path, g: Group): seq<Path> { TopmostFrom(node, base, g, 0) }

  /** Preorder: p comes before q, neither being below the other. */
  predicate Before(p: Path, q: Path) {
    exists k :: 0 <= k < |p| && k < |q| && p[..k] == q[..k] && p[k] < q[k]
  }

  /** p is base or lies below it. */
  predicate Under(p: Path, base: Path) { |base| <= |p| && p[..|base|] == base }

  lemma UnderChild(p: Path, base: Path, i: nat)
    requires Under(p, base + [i])
    ensures |base| < |p| && Under(p, base) && p[|base|] == i
  {
    assert p[..|base|] == p[..|base| + 1][..|base|];
    assert p[|base|] == p[..|base| + 1][|base|];
  }

  /** What child i contributes lies under it. */
  lemma {:induction false} InChildUnder(node: Widget, base: Path, g: Group, i: nat, n: nat)
    requires i < |node.children| && n < |InChild(node, base, g, i)|
    ensures Under(InChild(node, base, g, i)[n], base + [i])
    decreases node, |node.children| - i, 0
  {
    if node.children[i].group != g {
      ListedUnder(node.children[i], base + [i], g, 0, n);
    }
  }

  lemma {:induction false} ListedUnder(node: Widget, base: Path, g: Group, i: nat, n: nat)
    requires i <= |node.children| && n < |TopmostFrom(node, base, g, i)|
    ensures var p := TopmostFrom(node, base, g, i)[n];
      |base| < |p| && Under(p, base) && i <= p[|base|] < |node.children|
    decreases node, |node.children| - i
  {
    var first := InChild(node, base, g, i);
    if n < |first| {
      InChildUnder(node, base, g, i, n);
      UnderChild(first[n], base, i);
    } else {
      ListedUnder(node, base, g, i + 1, n - |first|);
    }
  }

  lemma BeforeAt(p: Path, q: Path, k: nat)
    requires k < |p| && k < |q| && p[..k] == q[..k] && p[k] < q[k]
    ensures Before(p, q) && p != q
  {}

  /** The list is in preorder. */
  lemma {:induction false} ListedInOrder(node: Widget, base: Path, g: Group, i: nat, m: nat, n: nat)
    requires i <= |node.children| && m < n < |TopmostFrom(node, base, g, i)|
    ensures Before(TopmostFrom(node, base, g, i)[m], TopmostFrom(node, base, g, i)[n])
    decreases node, |node.children| - i
  {
    var list := TopmostFrom(node, base, g, i);
    var first := InChild(node, base, g, i);
    if n < |first| {
      ListedInOrder(node.children[i], base + [i], g, 0, m, n);
    } else if m >= |first| {
      ListedInOrder(node, base, g, i + 1, m - |first|, n - |first|);
    } else {
      ListedUnder(node, base, g, i + 1, n - |first|);
      InChildUnder(node, base, g, i, m);
      UnderChild(first[m], base, i);
      BeforeAt(list[m], list[n], |base|);
    }
  }

  lemma BeforeDiffers(p: Path, q: Path)
    requires Before(p, q)
    ensures p != q
  {}

  /** rel leads down to a focusable object with no focusable one strictly between. */
  predicate TopmostAt(node: Widget, rel: Path, g: Group) {
    && rel != []
    && Focusable(node, g, rel)
    && forall k :: 0 < k < |rel| ==> !Focusable(node, g, rel[..k])
  }

  lemma FocusableStep(node: Widget, rel: Path, g: Group)
    requires rel != [] && rel[0] < |node.children|
    ensures Focusable(node, g, rel) <==> Focusable(node.children[rel[0]], g, rel[1..])
  {}

  lemma FocusableHere(t: Widget, g: Group)
    ensures Focusable(t, g, []) <==> t.group == g
  {}

  /** Whether rel leads to a topmost focusable descendant, one step at a time. */
  lemma TopmostStep(node: Widget, rel: Path, g: Group)
    requires rel != [] && rel[0] < |node.children|
    ensures var child := node.children[rel[0]];
      TopmostAt(node, rel, g) <==>
      if |rel| == 1 then child.group == g else child.group != g && TopmostAt(child, rel[1..], g)
  {
    hide Focusable;
    var child := node.children[rel[0]];
    FocusableStep(node, rel, g);
    FocusableHere(child, g);
    assert |rel| == 1 ==> rel[1..] == [];
    forall k | 0 < k < |rel|
      ensures Focusable(node, g, rel[..k]) <==> Focusable(child, g, rel[1..][..k - 1])
    {
      FocusableStep(node, rel[..k], g);
      assert rel[..k][1..] == rel[1..][..k - 1];
    }
    if |rel| > 1 {
      assert rel[1..][..0] == [];
      if child.group != g && TopmostAt(child, rel[1..], g) {
        forall k | 0 < k < |rel| ensures !Focusable(node, g, rel[..k]) {
          if k > 1 { assert !Focusable(child, g, rel[1..][..k - 1]); }
        }
      }
      if TopmostAt(node, rel, g) {
        assert !Focusable(node, g, rel[..1]);
        forall k | 0 < k < |rel| - 1 ensures !Focusable(child, g, rel[1..][..k]) {
          assert !Focusable(node, g, rel[..k + 1]);
        }
      }
    }
  }

  lemma TopmostNotRoot(node: Widget, rel: Path, g: Group)
    ensures TopmostAt(node, rel, g) ==> rel != [] && rel[0] < |node.children|
  {}

  /** The list holds exactly the topmost focusable descendants. */
  lemma {:induction false} ListedIff(node: Widget, base: Path, g: Group, i: nat, rel: Path)
    requires i <= |node.children|
    ensures base + rel in TopmostFrom(node, base, g, i) <==> TopmostAt(node, rel, g) && rel[0] >= i
    decreases node, |node.children| - i
  {
    hide TopmostAt;
    if i < |node.children| {
      ListedIff(node, base, g, i + 1, rel);
      InChildIff(node, base, g, i, rel);
      TopmostNotRoot(node, rel, g);
    } else {
      TopmostNotRoot(node, rel, g);
    }
  }

  lemma {:induction false} InChildIff(node: Widget, base: Path, g: Group, i: nat, rel: Path)
    requires i < |node.children|
    ensures base + rel in InChild(node, base, g, i) <==> TopmostAt(node, rel, g) && rel[0] == i
    decreases node, |node.children| - i, 0
  {
    hide TopmostAt;
    TopmostNotRoot(node, rel, g);
    if base + rel in InChild(node, base, g, i) {
      var n: nat :| n < |InChild(node, base, g, i)| && InChild(node, base, g, i)[n] == base + rel;
      InChildUnder(node, base, g, i, n);
      UnderChild(base + rel, base, i);
      assert rel != [] && rel[0] == i;
    }
    if rel != [] && rel[0] == i {
      TopmostStep(node, rel, g);
      assert base + rel == base + [i] + rel[1..];
      ListedIff(node.children[i], base + [i], g, 0, rel[1..]);
      TopmostNotRoot(node.children[i], rel[1..], g);
      assert |rel| == 1 <==> base + rel == base + [i];
    }
  }
}
