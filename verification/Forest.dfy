/** Ordered forests, and the nested-set coordinates htop writes into its processes:
    what the builder and the re-sorter of ProcessList.c both promise to leave behind. */
module Forest {
  import opened Options

  datatype Tree<P> = Node(root: P, kids: seq<Tree<P>>)

  type Forest<P> = seq<Tree<P>>

  /** `tree_index`, `tree_left`, `tree_right` and `tree_depth` of one process. */
  datatype Slot = Slot(index: nat, left: nat, right: nat, depth: nat)

  ghost function Size<P>(f: Forest<P>): nat {
    if f == [] then 0 else 1 + Size(f[0].kids) + Size(f[1..])
  }

  /** The roots, in order. */
  ghost function Roots<P>(f: Forest<P>): seq<P> {
    if f == [] then [] else [f[0].root] + Roots(f[1..])
  }

  /** The nodes in preorder. */
  ghost function Pre<P>(f: Forest<P>): seq<P> {
    if f == [] then [] else [f[0].root] + Pre(f[0].kids) + Pre(f[1..])
  }

  ghost function Nodes<P>(f: Forest<P>): set<P> { set p | p in Pre(f) }

  /** The nested-set coordinates of `f`, in preorder: indices count nodes from `i`, bounds count
      entries and exits from `l`, roots have depth `d`. */
  ghost function Slots<P>(f: Forest<P>, i: nat, l: nat, d: nat): seq<Slot> {
    if f == [] then []
    else
      var n := Size(f[0].kids);
      [Slot(i, l, l + 2 * n + 1, d)] + Slots(f[0].kids, i + 1, l + 1, d + 1) + Slots(f[1..], i + 1 + n, l + 2 * n + 2, d)
  }

  /** Every node with its parent, in preorder; `top` is the parent of the roots. */
  ghost function Links<P>(f: Forest<P>, top: Option<P>): seq<(P, Option<P>)> {
    if f == [] then []
    else [(f[0].root, top)] + Links(f[0].kids, Some(f[0].root)) + Links(f[1..], top)
  }

  lemma {:induction false} Lengths<P>(f: Forest<P>, i: nat, l: nat, d: nat, top: Option<P>)
    ensures |Pre(f)| == |Slots(f, i, l, d)| == |Links(f, top)| == Size(f)
    ensures |Roots(f)| == |f| <= Size(f)
  {
    if f != [] {
      Lengths(f[0].kids, i + 1, l + 1, d + 1, Some(f[0].root));
      Lengths(f[1..], i + 1 + Size(f[0].kids), l + 2 * Size(f[0].kids) + 2, d, top);
    }
  }

  lemma {:induction false} SizeAppend<P>(a: Forest<P>, b: Forest<P>)
    ensures Size(a + b) == Size(a) + Size(b)
  {
    if a == [] {
      assert a + b == b;
    } else {
      assert (a + b)[1..] == a[1..] + b;
      SizeAppend(a[1..], b);
    }
  }

  lemma {:induction false} PreAppend<P>(a: Forest<P>, b: Forest<P>)
    ensures Pre(a + b) == Pre(a) + Pre(b)
  {
    if a == [] {
      assert a + b == b;
    } else {
      assert (a + b)[1..] == a[1..] + b;
      PreAppend(a[1..], b);
    }
  }

  lemma {:induction false} RootsAppend<P>(a: Forest<P>, b: Forest<P>)
    ensures Roots(a + b) == Roots(a) + Roots(b)
  {
    if a == [] {
      assert a + b == b;
    } else {
      assert (a + b)[1..] == a[1..] + b;
      RootsAppend(a[1..], b);
    }
  }

  lemma Assoc<T>(a: seq<T>, b: seq<T>, c: seq<T>)
    ensures a + (b + c) == a + b + c
  {
  }

  lemma SlotsCons<P>(f: Forest<P>, i: nat, l: nat, d: nat)
    ensures Slots(f, i, l, d) ==
            if f == [] then []
            else
              var n := Size(f[0].kids);
              [Slot(i, l, l + 2 * n + 1, d)] + Slots(f[0].kids, i + 1, l + 1, d + 1)
              + Slots(f[1..], i + 1 + n, l + 2 * n + 2, d)
  {
  }

  lemma SizeCons<P>(f: Forest<P>)
    ensures Size(f) == if f == [] then 0 else 1 + Size(f[0].kids) + Size(f[1..])
  {
  }

  lemma {:induction false} SlotsAppend<P>(a: Forest<P>, b: Forest<P>, i: nat, l: nat, d: nat)
    ensures Slots(a + b, i, l, d) == Slots(a, i, l, d) + Slots(b, i + Size(a), l + 2 * Size(a), d)
  {
    hide Size, Slots;
    SizeCons(a);
    SlotsCons(a, i, l, d);
    SlotsCons(a + b, i, l, d);
    if a == [] {
      assert a + b == b;
    } else {
      assert (a + b)[1..] == a[1..] + b;
      var n := Size(a[0].kids);
      SlotsAppend(a[1..], b, i + 1 + n, l + 2 * n + 2, d);
      Assoc([Slot(i, l, l + 2 * n + 1, d)] + Slots(a[0].kids, i + 1, l + 1, d + 1),
            Slots(a[1..], i + 1 + n, l + 2 * n + 2, d), Slots(b, i + Size(a), l + 2 * Size(a), d));
    }
  }

  lemma {:induction false} LinksAppend<P>(a: Forest<P>, b: Forest<P>, top: Option<P>)
    ensures Links(a + b, top) == Links(a, top) + Links(b, top)
  {
    if a == [] {
      assert a + b == b;
    } else {
      assert (a + b)[1..] == a[1..] + b;
      LinksAppend(a[1..], b, top);
    }
  }

  lemma One<P>(t: Tree<P>, i: nat, l: nat, d: nat, top: Option<P>)
    ensures Size([t]) == 1 + Size(t.kids)
    ensures Pre([t]) == [t.root] + Pre(t.kids)
    ensures Roots([t]) == [t.root]
    ensures Slots([t], i, l, d) == [Slot(i, l, l + 2 * Size(t.kids) + 1, d)] + Slots(t.kids, i + 1, l + 1, d + 1)
    ensures Links([t], top) == [(t.root, top)] + Links(t.kids, Some(t.root))
  {
    assert [t][1..] == [];
  }

  /** The preorder position, relative to `f`, of its `j`th tree. */
  ghost function Start<P>(f: Forest<P>, j: nat): nat
    requires j <= |f|
  {
    Size(f[..j])
  }

  lemma StartNext<P>(f: Forest<P>, j: nat)
    requires j < |f|
    ensures Start(f, j + 1) == Start(f, j) + 1 + Size(f[j].kids)
    ensures Start(f, j + 1) <= Size(f)
  {
    hide Size;
    var a, b, c := f[..j], [f[j]], f[j + 1..];
    assert f[..j + 1] == a + b && f == (a + b) + c;
    SizeAppend(a, b);
    One(f[j], 0, 0, 0, None);
    SizeAppend(a + b, c);
  }

  lemma LocatePre<P>(f: Forest<P>, j: nat)
    requires j < |f|
    ensures var s, e := Start(f, j), Start(f, j + 1);
            && e <= |Pre(f)| == Size(f) && e == s + 1 + Size(f[j].kids)
            && Pre(f)[s..e] == [f[j].root] + Pre(f[j].kids)
  {
    hide Size, Pre;
    var a, b, c := f[..j], [f[j]], f[j + 1..];
    assert f == a + (b + c);
    StartNext(f, j);
    PreAppend(a, b + c);
    PreAppend(b, c);
    One(f[j], 0, 0, 0, None);
    Lengths(f, 0, 0, 0, None);
    Lengths(a, 0, 0, 0, None);
    Lengths(f[j].kids, 0, 0, 0, None);
  }

  lemma LocateSlots<P>(f: Forest<P>, j: nat, i: nat, l: nat, d: nat)
    requires j < |f|
    ensures var s, e := Start(f, j), Start(f, j + 1);
            && e <= |Slots(f, i, l, d)| == Size(f) && e == s + 1 + Size(f[j].kids)
            && Slots(f, i, l, d)[s..e] == [Slot(i + s, l + 2 * s, l + 2 * s + 2 * Size(f[j].kids) + 1, d)]
                                        + Slots(f[j].kids, i + s + 1, l + 2 * s + 1, d + 1)
  {
    hide Size, Slots;
    var a, b, c := f[..j], [f[j]], f[j + 1..];
    assert f == a + (b + c);
    StartNext(f, j);
    SlotsAppend(a, b + c, i, l, d);
    SlotsAppend(b, c, i + Size(a), l + 2 * Size(a), d);
    One(f[j], i + Size(a), l + 2 * Size(a), d, None);
    Lengths(f, i, l, d, None);
    Lengths(a, i, l, d, None);
    Lengths(b, i + Size(a), l + 2 * Size(a), d, None);
    Middle(Slots(a, i, l, d), Slots(b, i + Size(a), l + 2 * Size(a), d), Slots(c, i + Size(a) + Size(b), l + 2 * Size(a) + 2 * Size(b), d));
  }

  lemma Middle<T>(a: seq<T>, b: seq<T>, c: seq<T>)
    ensures (a + (b + c))[|a|..|a| + |b|] == b
  {
  }

  /** Which part of a non-empty forest the `k`th coordinates belong to. */
  lemma SlotPart<P>(f: Forest<P>, i: nat, l: nat, d: nat, k: nat)
    requires k < |Slots(f, i, l, d)|
    ensures f != []
    ensures var n := Size(f[0].kids);
            && |Slots(f[0].kids, i + 1, l + 1, d + 1)| == n
            && |Slots(f, i, l, d)| == 1 + n + |Slots(f[1..], i + 1 + n, l + 2 * n + 2, d)|
            && Size(f) == 1 + n + Size(f[1..])
            && (k == 0 ==> Slots(f, i, l, d)[k] == Slot(i, l, l + 2 * n + 1, d))
            && (1 <= k <= n ==> Slots(f, i, l, d)[k] == Slots(f[0].kids, i + 1, l + 1, d + 1)[k - 1])
            && (k > n ==> Slots(f, i, l, d)[k] == Slots(f[1..], i + 1 + n, l + 2 * n + 2, d)[k - 1 - n])
  {
    Lengths(f[0].kids, i + 1, l + 1, d + 1, None);
  }

  /** Coordinates lie where they should: inside the enclosing bounds, and at or below depth `d`. */
  lemma {:induction false} SlotBounds<P>(f: Forest<P>, i: nat, l: nat, d: nat, k: nat)
    requires k < |Slots(f, i, l, d)|
    ensures var s := Slots(f, i, l, d)[k];
            s.index == i + k && l <= s.left < s.right < l + 2 * Size(f) && s.depth >= d
  {
    hide Slots, Size;
    SlotPart(f, i, l, d, k);
    var n := Size(f[0].kids);
    if 1 <= k <= n {
      SlotBounds(f[0].kids, i + 1, l + 1, d + 1, k - 1);
    } else if k > n {
      SlotBounds(f[1..], i + 1 + n, l + 2 * n + 2, d, k - 1 - n);
    }
  }

  /** Strictly inside a tree, nodes are deeper than its root. */
  lemma InnerDepth<P>(f: Forest<P>, j: nat, i: nat, l: nat, d: nat, k: nat)
    requires j < |f| && Start(f, j) <= k < Start(f, j + 1)
    ensures k < |Slots(f, i, l, d)| == |Pre(f)|
    ensures k == Start(f, j) ==> Slots(f, i, l, d)[k].depth == d && Pre(f)[k] == f[j].root
    ensures k > Start(f, j) ==> Slots(f, i, l, d)[k].depth > d && Pre(f)[k] in Pre(f[j].kids)
  {
    hide Size, Pre, Slots, Start;
    LocatePre(f, j);
    LocateSlots(f, j, i, l, d);
    var s, e := Start(f, j), Start(f, j + 1);
    assert Slots(f, i, l, d)[k] == Slots(f, i, l, d)[s..e][k - s];
    assert Pre(f)[k] == Pre(f)[s..e][k - s];
    Lengths(f[j].kids, i + s + 1, l + 2 * s + 1, d + 1, None);
    if k > s {
      SlotBounds(f[j].kids, i + s + 1, l + 2 * s + 1, d + 1, k - s - 1);
    }
  }

  lemma {:induction false} StartMonotone<P>(f: Forest<P>, j: nat, k: nat)
    requires j < k <= |f|
    ensures Start(f, j) < Start(f, k) <= Size(f)
  {
    StartNext(f, k - 1);
    if j < k - 1 { StartMonotone(f, j, k - 1); }
  }

  lemma StartEnds<P>(f: Forest<P>)
    ensures Start(f, 0) == 0 && Start(f, |f|) == Size(f)
  {
    assert f[..|f|] == f;
  }

  lemma {:induction false} RootsAt<P>(f: Forest<P>)
    ensures |Roots(f)| == |f|
    ensures forall j :: 0 <= j < |f| ==> Roots(f)[j] == f[j].root
  {
    if f != [] { RootsAt(f[1..]); }
  }

  // ----- the coordinates are a canonical nested set

  /** The length of the block of nodes from a node to the last one below it. */
  function Block(s: Slot): int { (s.right - s.left + 1) / 2 }

  /** The node at `j` encloses the node at a later position `k` exactly when `k` falls into the
      contiguous block that starts at `j`; otherwise it ends before. */
  lemma {:induction false} Nesting<P>(f: Forest<P>, i: nat, l: nat, d: nat, j: nat, k: nat)
    requires j < k < |Slots(f, i, l, d)|
    ensures var s, t := Slots(f, i, l, d)[j], Slots(f, i, l, d)[k];
            && s.left < t.left
            && (k < j + Block(s) <==> t.right < s.right)
            && (k >= j + Block(s) <==> s.right < t.left)
  {
    hide Slots, Size;
    SlotPart(f, i, l, d, j);
    SlotPart(f, i, l, d, k);
    var n := Size(f[0].kids);
    if 1 <= j && k <= n {
      Nesting(f[0].kids, i + 1, l + 1, d + 1, j - 1, k - 1);
    } else if j > n {
      Nesting(f[1..], i + 1 + n, l + 2 * n + 2, d, j - 1 - n, k - 1 - n);
    } else {
      if k > n { SlotBounds(f[1..], i + 1 + n, l + 2 * n + 2, d, k - 1 - n); }
      if k <= n { SlotBounds(f[0].kids, i + 1, l + 1, d + 1, k - 1); }
      if j >= 1 {
        SlotBounds(f[0].kids, i + 1, l + 1, d + 1, j - 1);
        BlockInside(f[0].kids, i + 1, l + 1, d + 1, j - 1);
      }
    }
  }

  /** A node's block ends within the forest. */
  lemma {:induction false} BlockInside<P>(f: Forest<P>, i: nat, l: nat, d: nat, j: nat)
    requires j < |Slots(f, i, l, d)|
    ensures 1 <= Block(Slots(f, i, l, d)[j]) <= Size(f) - j
  {
    hide Slots, Size;
    SlotPart(f, i, l, d, j);
    var n := Size(f[0].kids);
    if 1 <= j <= n {
      BlockInside(f[0].kids, i + 1, l + 1, d + 1, j - 1);
    } else if j > n {
      BlockInside(f[1..], i + 1 + n, l + 2 * n + 2, d, j - 1 - n);
    }
  }

  lemma LeftsGrow<P>(f: Forest<P>, i: nat, l: nat, d: nat, j: nat, k: nat)
    requires j < k < |Slots(f, i, l, d)|
    ensures Slots(f, i, l, d)[j].left < Slots(f, i, l, d)[k].left
  {
    Nesting(f, i, l, d, j, k);
  }

  /** Left and right bounds of all nodes are distinct. */
  lemma BoundsDistinct<P>(f: Forest<P>, i: nat, l: nat, d: nat, j: nat, k: nat)
    requires j < |Slots(f, i, l, d)| && k < |Slots(f, i, l, d)|
    ensures var s, t := Slots(f, i, l, d)[j], Slots(f, i, l, d)[k];
            s.left != t.right && (s.left == t.left || s.right == t.right ==> j == k)
  {
    hide Slots;
    SlotBounds(f, i, l, d, j);
    SlotBounds(f, i, l, d, k);
    if j < k { Nesting(f, i, l, d, j, k); }
    if k < j { Nesting(f, i, l, d, k, j); }
  }

  /** Every number from `l` on, up to twice the number of nodes, is some node's bound. */
  lemma {:induction false} BoundsCover<P>(f: Forest<P>, i: nat, l: nat, d: nat, x: nat) returns (k: nat)
    requires l <= x < l + 2 * Size(f)
    ensures k < |Slots(f, i, l, d)| && (Slots(f, i, l, d)[k].left == x || Slots(f, i, l, d)[k].right == x)
  {
    hide Slots, Size;
    Lengths(f, i, l, d, None);
    SlotPart(f, i, l, d, 0);
    var n := Size(f[0].kids);
    if x == l || x == l + 2 * n + 1 {
      k := 0;
    } else if x < l + 2 * n + 1 {
      var j := BoundsCover(f[0].kids, i + 1, l + 1, d + 1, x);
      k := j + 1;
    } else {
      var j := BoundsCover(f[1..], i + 1 + n, l + 2 * n + 2, d, x);
      k := j + 1 + n;
    }
    SlotPart(f, i, l, d, k);
  }

  /** How many of `ss` enclose `s`. */
  function Enclosers(ss: seq<Slot>, s: Slot): nat {
    if ss == [] then 0
    else (if ss[0].left < s.left && s.right < ss[0].right then 1 else 0) + Enclosers(ss[1..], s)
  }

  lemma {:induction false} EnclosersAppend(a: seq<Slot>, b: seq<Slot>, s: Slot)
    ensures Enclosers(a + b, s) == Enclosers(a, s) + Enclosers(b, s)
  {
    if a == [] {
      assert a + b == b;
    } else {
      assert (a + b)[1..] == a[1..] + b;
      EnclosersAppend(a[1..], b, s);
    }
  }

  lemma {:induction false} NoEnclosers(ss: seq<Slot>, s: Slot)
    requires forall k :: 0 <= k < |ss| ==> s.left <= ss[k].left || ss[k].right <= s.right
    ensures Enclosers(ss, s) == 0
  {
    if ss != [] { NoEnclosers(ss[1..], s); }
  }

  lemma OutsideBounds<P>(f: Forest<P>, i: nat, l: nat, d: nat, s: Slot)
    requires s.left <= l || l + 2 * Size(f) <= s.right + 1
    ensures Enclosers(Slots(f, i, l, d), s) == 0
  {
    hide Slots, Size, Enclosers;
    forall k | 0 <= k < |Slots(f, i, l, d)|
      ensures s.left <= Slots(f, i, l, d)[k].left || Slots(f, i, l, d)[k].right <= s.right
    {
      SlotBounds(f, i, l, d, k);
    }
    NoEnclosers(Slots(f, i, l, d), s);
  }

  lemma EnclosersParts<P>(f: Forest<P>, i: nat, l: nat, d: nat, s: Slot)
    requires f != []
    ensures var n := Size(f[0].kids);
            Enclosers(Slots(f, i, l, d), s) == (if l < s.left && s.right < l + 2 * n + 1 then 1 else 0)
              + Enclosers(Slots(f[0].kids, i + 1, l + 1, d + 1), s)
              + Enclosers(Slots(f[1..], i + 1 + n, l + 2 * n + 2, d), s)
  {
    hide Size, Enclosers;
    var n := Size(f[0].kids);
    var h := [Slot(i, l, l + 2 * n + 1, d)];
    EnclosersAppend(h + Slots(f[0].kids, i + 1, l + 1, d + 1), Slots(f[1..], i + 1 + n, l + 2 * n + 2, d), s);
    EnclosersAppend(h, Slots(f[0].kids, i + 1, l + 1, d + 1), s);
    OneEncloser(h[0], s);
  }

  lemma OneEncloser(t: Slot, s: Slot)
    ensures Enclosers([t], s) == if t.left < s.left && s.right < t.right then 1 else 0
  {
    assert [t][1..] == [];
  }

  /** The depth of a node is the number of nodes that enclose it. */
  lemma {:induction false} DepthCounts<P>(f: Forest<P>, i: nat, l: nat, d: nat, k: nat)
    requires k < |Slots(f, i, l, d)|
    ensures Slots(f, i, l, d)[k].depth == d + Enclosers(Slots(f, i, l, d), Slots(f, i, l, d)[k])
  {
    hide Slots, Size, Enclosers;
    SlotPart(f, i, l, d, k);
    SlotBounds(f, i, l, d, k);
    var n, s := Size(f[0].kids), Slots(f, i, l, d)[k];
    EnclosersParts(f, i, l, d, s);
    if k == 0 {
      OutsideBounds(f[0].kids, i + 1, l + 1, d + 1, s);
      OutsideBounds(f[1..], i + 1 + n, l + 2 * n + 2, d, s);
    } else if k <= n {
      DepthCounts(f[0].kids, i + 1, l + 1, d + 1, k - 1);
      SlotBounds(f[0].kids, i + 1, l + 1, d + 1, k - 1);
      OutsideBounds(f[1..], i + 1 + n, l + 2 * n + 2, d, s);
    } else {
      DepthCounts(f[1..], i + 1 + n, l + 2 * n + 2, d, k - 1 - n);
      SlotBounds(f[1..], i + 1 + n, l + 2 * n + 2, d, k - 1 - n);
      OutsideBounds(f[0].kids, i + 1, l + 1, d + 1, s);
    }
  }
}
