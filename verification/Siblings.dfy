/** What the links of a forest say node by node: siblings in their order, and children inside their parents. */
module Siblings {
  import opened Options
  import opened Order
  import opened Forest
  import opened Resort

  /** Which part of a non-empty forest the `k`th link belongs to. */
  lemma LinkPart<P>(f: Forest<P>, top: Option<P>, k: nat)
    requires k < |Links(f, top)|
    ensures f != []
    ensures var n, p := Size(f[0].kids), f[0].root;
            && |Links(f[0].kids, Some(p))| == n && |Links(f, top)| == Size(f) == 1 + n + |Links(f[1..], top)|
            && (k == 0 ==> Links(f, top)[k] == (p, top))
            && (1 <= k <= n ==> Links(f, top)[k] == Links(f[0].kids, Some(p))[k - 1])
            && (k > n ==> Links(f, top)[k] == Links(f[1..], top)[k - 1 - n])
  {
    Lengths(f[0].kids, 0, 0, 0, Some(f[0].root));
    Lengths(f[1..], 0, 0, 0, top);
  }

  lemma NodesOf<P>(f: Forest<P>)
    requires f != []
    ensures Nodes(f) == {f[0].root} + Nodes(f[0].kids) + Nodes(f[1..])
    ensures Elements(Roots(f)) == {f[0].root} + Elements(Roots(f[1..]))
  {
    assert Pre(f) == [f[0].root] + Pre(f[0].kids) + Pre(f[1..]);
    assert Roots(f) == [f[0].root] + Roots(f[1..]);
  }

  lemma NoDupApart<T>(a: seq<T>, b: seq<T>)
    requires NoDup(a + b)
    ensures NoDup(a) && NoDup(b) && forall x :: x in a ==> x !in b
  {
    var s := a + b;
    assert forall i :: 0 <= i < |a| ==> s[i] == a[i];
    assert forall i :: 0 <= i < |b| ==> s[i + |a|] == b[i];
  }

  lemma NoDupParts<P>(f: Forest<P>)
    requires f != [] && NoDup(Pre(f))
    ensures f[0].root !in Nodes(f[0].kids) && f[0].root !in Nodes(f[1..]) && Nodes(f[0].kids) !! Nodes(f[1..])
    ensures NoDup(Pre(f[0].kids)) && NoDup(Pre(f[1..]))
  {
    var head, a, b := [f[0].root], Pre(f[0].kids), Pre(f[1..]);
    assert Pre(f) == head + a + b;
    hide Pre;
    NoDupApart(head + a, b);
    NoDupApart(head, a);
    assert head[0] in head && head[0] in head + a;
    assert forall x :: x in a ==> x in head + a;
  }

  /** A link leads from a node to `top` or to another node; only roots hang under `top`. */
  lemma {:induction false} LinkInside<P>(f: Forest<P>, top: Option<P>, k: nat)
    requires k < |Links(f, top)|
    ensures var (p, parent) := Links(f, top)[k];
            && p in Nodes(f) && (parent == top || (parent.Some? && parent.value in Nodes(f)))
            && (parent == top && (top.Some? ==> top.value !in Nodes(f)) ==> p in Elements(Roots(f)))
  {
    hide Links, Pre, Roots, Size;
    LinkPart(f, top, k);
    NodesOf(f);
    var n := Size(f[0].kids);
    if 1 <= k <= n {
      LinkInside(f[0].kids, Some(f[0].root), k - 1);
    } else if k > n {
      LinkInside(f[1..], top, k - 1 - n);
    }
  }

  /** In every group of siblings, `r` holds of any two in their order. */
  ghost predicate Grouped<P>(r: (P, P) -> bool, f: Forest<P>) {
    f == [] || (
      && (forall q :: q in Elements(Roots(f[1..])) ==> r(f[0].root, q))
      && Grouped(r, f[0].kids) && Grouped(r, f[1..]))
  }

  /** Nodes with the same parent are siblings. */
  lemma {:induction false} SiblingsRelated<P>(r: (P, P) -> bool, f: Forest<P>, top: Option<P>, j: nat, k: nat)
    requires Grouped(r, f) && NoDup(Pre(f)) && (top.Some? ==> top.value !in Nodes(f))
    requires j < k < |Links(f, top)| && Links(f, top)[j].1 == Links(f, top)[k].1
    ensures r(Links(f, top)[j].0, Links(f, top)[k].0)
  {
    hide Links, Pre, Roots, Size, NoDup;
    LinkPart(f, top, j);
    LinkPart(f, top, k);
    NodesOf(f);
    NoDupParts(f);
    var n, p := Size(f[0].kids), f[0].root;
    if 1 <= j <= n { LinkInside(f[0].kids, Some(p), j - 1); }
    if 1 <= k <= n { LinkInside(f[0].kids, Some(p), k - 1); }
    if j > n { LinkInside(f[1..], top, j - 1 - n); }
    if k > n { LinkInside(f[1..], top, k - 1 - n); }
    if 1 <= j && k <= n {
      SiblingsRelated(r, f[0].kids, Some(p), j - 1, k - 1);
    } else if j > n {
      SiblingsRelated(r, f[1..], top, j - 1 - n, k - 1 - n);
    }
  }

  function NotAbove<P>(cmp: (P, P) -> int): (P, P) -> bool { (p: P, q: P) => cmp(p, q) <= 0 }

  lemma {:induction false} SortedGrouped<P>(cmp: (P, P) -> int, f: Forest<P>)
    requires SiblingsSorted(cmp, f)
    ensures Grouped(NotAbove(cmp), f)
    decreases f
  {
    if f != [] {
      var rest := Roots(f[1..]);
      assert Roots(f) == [f[0].root] + rest;
      assert forall i :: 0 <= i < |rest| ==> rest[i] == Roots(f)[i + 1];
      forall q | q in Elements(rest) ensures NotAbove(cmp)(f[0].root, q) {
        var i :| 0 <= i < |rest| && rest[i] == q;
        assert cmp(Roots(f)[0], Roots(f)[i + 1]) <= 0;
      }
      assert f[0] in f && forall t :: t in f[1..] ==> t in f;
      SortedGrouped(cmp, f[0].kids);
      SortedGrouped(cmp, f[1..]);
    }
  }

  /** In a re-sorted forest siblings are in the order of the comparison. */
  lemma ResortedSiblings<P>(cmp: (P, P) -> int, f: Forest<P>, j: nat, k: nat)
    requires TotalPreorder(cmp, Nodes(f)) && NoDup(Pre(f))
    requires var links := Links(Resorted(cmp, f), None); j < k < |links| && links[j].1 == links[k].1
    ensures var links := Links(Resorted(cmp, f), None); cmp(links[j].0, links[k].0) <= 0
  {
    hide Resorted, Links, Pre, NoDup, TotalPreorder, Grouped, SiblingsSorted;
    var g := Resorted(cmp, f);
    ResortSorts(cmp, f, Nodes(f));
    SortedGrouped(cmp, g);
    ResortKeepsNodes(cmp, f);
    NoDupPermutes(Pre(f), Pre(g));
    SiblingsRelated(NotAbove(cmp), g, None, j, k);
  }

  /** A child lies inside its parent, one level deeper. */
  lemma {:induction false} ChildInside<P>(f: Forest<P>, top: Option<P>, i: nat, l: nat, d: nat, k: nat) returns (j: int)
    requires k < Size(f)
    ensures -1 <= j < k < |Links(f, top)| == |Pre(f)| == |Slots(f, i, l, d)|
    ensures Links(f, top)[k] == (Pre(f)[k], if j < 0 then top else Some(Pre(f)[j]))
    ensures var ss := Slots(f, i, l, d);
            if j < 0 then ss[k].depth == d
            else ss[k].depth == ss[j].depth + 1 && ss[j].left < ss[k].left && ss[k].right < ss[j].right
  {
    hide Links, Pre, Slots, Size;
    Lengths(f, i, l, d, top);
    LinkPart(f, top, k);
    SlotPart(f, i, l, d, k);
    PrePart(f, k);
    var n, p := Size(f[0].kids), f[0].root;
    if k == 0 {
      j := -1;
    } else if k <= n {
      var j' := ChildInside(f[0].kids, Some(p), i + 1, l + 1, d + 1, k - 1);
      SlotBounds(f[0].kids, i + 1, l + 1, d + 1, k - 1);
      j := j' + 1;
      SlotPart(f, i, l, d, j);
      PrePart(f, j);
    } else {
      var j' := ChildInside(f[1..], top, i + 1 + n, l + 2 * n + 2, d, k - 1 - n);
      j := if j' < 0 then -1 else j' + 1 + n;
      if j >= 0 {
        SlotPart(f, i, l, d, j);
        PrePart(f, j);
      }
    }
  }

  lemma PrePart<P>(f: Forest<P>, k: nat)
    requires k < |Pre(f)|
    ensures f != []
    ensures var n := Size(f[0].kids);
            && |Pre(f[0].kids)| == n && |Pre(f)| == Size(f) == 1 + n + |Pre(f[1..])|
            && (k == 0 ==> Pre(f)[k] == f[0].root)
            && (1 <= k <= n ==> Pre(f)[k] == Pre(f[0].kids)[k - 1])
            && (k > n ==> Pre(f)[k] == Pre(f[1..])[k - 1 - n])
  {
    Lengths(f[0].kids, 0, 0, 0, None);
    Lengths(f[1..], 0, 0, 0, None);
  }
}
