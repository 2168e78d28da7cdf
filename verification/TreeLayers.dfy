/** What one layer of `ProcessList_updateTreeSetLayer` finds, keeps and leaves behind. */
module TreeLayers {
  import opened Options
  import opened Order
  import opened Forest
  import opened Indent
  import opened Resort
  import opened ProcessCompare
  import opened Processes

  /** Where a scan of the preorder stands: `k` roots seen, `off` positions passed. */
  ghost predicate ScanAt(f: Forest<Process>, k: nat, off: nat) {
    k <= |f| && (if k == 0 then off == 0 else Start(f, k - 1) < off <= Start(f, k))
  }

  lemma RootHere(f: Forest<Process>, i: nat, l: nat, d: nat, k: nat)
    requires k < |f| && NoDup(Pre(f))
    ensures Start(f, k) < |Pre(f)| == |Slots(f, i, l, d)|
    ensures Pre(f)[Start(f, k)] == f[k].root && Slots(f, i, l, d)[Start(f, k)].depth == d
    ensures Slots(f, i, l, d)[Start(f, k)].index == i + Start(f, k)
    ensures |Roots(f)| == |f| && f[k].root !in Roots(f)[..k]
  {
    hide Pre, Slots, Roots, Size, Start;
    StartMonotone(f, k, k + 1);
    InnerDepth(f, k, i, l, d, Start(f, k));
    SlotBounds(f, i, l, d, Start(f, k));
    RootsAt(f);
    forall j | 0 <= j < k ensures Roots(f)[j] != f[k].root {
      StartMonotone(f, j, j + 1);
      InnerDepth(f, j, i, l, d, Start(f, j));
      StartMonotone(f, j, k);
    }
  }

  lemma NoRootHere(f: Forest<Process>, i: nat, l: nat, d: nat, k: nat, off: nat)
    requires 0 < k <= |f| && NoDup(Pre(f)) && Start(f, k - 1) < off < Start(f, k)
    ensures off < |Pre(f)| == |Slots(f, i, l, d)| && Slots(f, i, l, d)[off].depth > d
    ensures Pre(f)[off] !in Roots(f)
  {
    hide Pre, Slots, Roots, Size, Start;
    InnerDepth(f, k - 1, i, l, d, off);
    RootsAt(f);
    forall j | 0 <= j < |f| ensures Roots(f)[j] != Pre(f)[off] {
      StartMonotone(f, j, j + 1);
      InnerDepth(f, j, i, l, d, Start(f, j));
      assert Start(f, j) != off by {
        if j < k - 1 { StartMonotone(f, j, k - 1); }
        if j > k - 1 && j > k { StartMonotone(f, k, j); }
      }
    }
  }

  /** One step of the scan: the process at `off` is a root exactly when the previous tree ends there. */
  lemma LayerStep(f: Forest<Process>, i: nat, l: nat, d: nat, k: nat, off: nat)
    requires NoDup(Pre(f)) && ScanAt(f, k, off) && off < Size(f)
    ensures |Roots(f)| == |f| && off < |Pre(f)| == |Slots(f, i, l + 1, d)|
    ensures var s, p := Slots(f, i, l + 1, d)[off], Pre(f)[off];
            && s.index == i + off && l < s.left && s.right < l + 1 + 2 * Size(f)
            && (s.depth == d <==> k < |f| && p == f[k].root && off == Start(f, k))
            && (s.depth == d ==> p !in Roots(f)[..k] && ScanAt(f, k + 1, off + 1) && Roots(f)[..k + 1] == Roots(f)[..k] + [p])
            && (s.depth != d ==> p !in Roots(f) && ScanAt(f, k, off + 1))
  {
    hide Pre, Slots, Roots, Size, Start;
    StartEnds(f);
    Lengths(f, i, l + 1, d, None);
    SlotBounds(f, i, l + 1, d, off);
    RootsAt(f);
    if k < |f| && off == Start(f, k) {
      RootHere(f, i, l + 1, d, k);
      StartMonotone(f, k, k + 1);
    } else {
      NoRootHere(f, i, l + 1, d, k, off);
    }
  }

  lemma RootsPrefix(f: Forest<Process>, k: nat)
    requires NoDup(Pre(f)) && k <= |Roots(f)|
    ensures NoDup(Roots(f)[..k])
    ensures k > 0 ==> Roots(f)[k - 1] in Pre(f)
  {
    hide Pre, Roots;
    RootsAt(f);
    forall j | 0 <= j < k ensures Roots(f)[j] !in Roots(f)[..j] {
      RootHere(f, 0, 0, 0, j);
    }
    if k > 0 { RootHere(f, 0, 0, 0, k - 1); }
    var r := Roots(f)[..k];
    forall i, j | 0 <= i < j < |r| ensures r[i] != r[j] {
      assert Roots(f)[..j][i] == r[i];
    }
  }

  /** What the scan does at the node `off`, with `k` roots collected. */
  lemma CollectStep(f: Forest<Process>, i: nat, l: nat, d: nat, k: nat, off: nat)
    requires NoDup(Pre(f)) && ScanAt(f, k, off) && off < Size(f) && k <= |f|
    ensures |Roots(f)| == |f| && off < |Pre(f)| == |Slots(f, i, l + 1, d)|
    ensures var layer, s, p := Roots(f)[..k], Slots(f, i, l + 1, d)[off], Pre(f)[off];
            && NoDup(layer) && p !in layer && l < s.left && s.right < l + 1 + 2 * Size(f)
            && (if s.depth != d then ScanAt(f, k, off + 1)
                else k < |f| && s.index == StartsOf(f, i)[k] && ScanAt(f, k + 1, off + 1) && Roots(f)[..k + 1] == layer + [p])
            && (k > 0 ==> layer[k - 1] in Pre(f))
  {
    hide Pre, Slots, Roots, Size, Start, NoDup, ScanAt;
    LayerStep(f, i, l, d, k, off);
    RootsPrefix(f, k);
    PrefixMembers(Roots(f), k);
  }

  lemma PrefixMembers<T>(s: seq<T>, k: nat)
    requires k <= |s|
    ensures forall x :: x in s[..k] ==> x in s
  {
  }

  lemma ScanBegins(f: Forest<Process>)
    ensures ScanAt(f, 0, 0) && Roots(f)[..0] == []
  {
    hide Roots, Size;
    StartEnds(f);
    if f != [] { StartMonotone(f, 0, |f|); }
  }

  lemma ScanOver(f: Forest<Process>, k: nat)
    requires k <= |f| && ScanAt(f, k, Size(f))
    ensures k == |f| && |Roots(f)| == |f| && Roots(f)[..k] == Roots(f)
  {
    hide Roots, Size;
    StartEnds(f);
    RootsAt(f);
    if k < |f| { StartMonotone(f, k, |f|); }
  }

  // ----- one layer of the re-sort

  /** After the scan: coordinates intact, except for the roots' `tree_depth` ... */
  ghost predicate Intact(f: Forest<Process>, i: nat, l: nat, d: nat)
    reads Nodes(f)
  {
    && |Pre(f)| == |Slots(f, i, l, d)|
    && forall k :: 0 <= k < |Pre(f)| ==>
         var p, s := Pre(f)[k], Slots(f, i, l, d)[k];
         && p.tree_index == s.index && p.tree_left == s.left && p.tree_right == s.right
         && (p !in Roots(f) ==> p.tree_depth == s.depth)
  }

  /** The processes `ps` while a layer is being collected: all as laid out, but for the depths of the roots
      collected before the last, which are where the next root starts. */
  ghost predicate Collecting(ps: seq<Process>, ss: seq<Slot>, layer: seq<Process>, starts: seq<nat>)
    reads set p | p in ps, set p | p in layer
  {
    && |ps| == |ss| && |layer| <= |starts|
    && (forall j :: 0 <= j < |ps| ==>
          && ps[j].tree_index == ss[j].index && ps[j].tree_left == ss[j].left && ps[j].tree_right == ss[j].right
          && (ps[j] !in layer || ps[j] == layer[|layer| - 1] ==> ps[j].tree_depth == ss[j].depth))
    && (forall j :: 0 <= j < |layer| - 1 ==> layer[j].tree_depth == starts[j + 1])
  }

  /** Where the trees of `f` start when its first node is at `first`. */
  ghost function StartsOf(f: Forest<Process>, first: nat): (r: seq<nat>)
    ensures |r| == |f| && forall j :: 0 <= j < |f| ==> r[j] == first + Start(f, j)
  {
    seq(|f|, j requires 0 <= j < |f| => first + Start(f, j))
  }

  lemma ScanStarts(ps: seq<Process>, ss: seq<Slot>, starts: seq<nat>)
    requires LaidOut(ps, ss)
    ensures Collecting(ps, ss, [], starts)
  {
    forall j | 0 <= j < |ps|
      ensures ps[j].tree_index == ss[j].index && ps[j].tree_left == ss[j].left && ps[j].tree_right == ss[j].right
      ensures ps[j].tree_depth == ss[j].depth
    {
      assert At(ps[j], ss[j]);
    }
  }

  lemma ScanReads(ps: seq<Process>, ss: seq<Slot>, layer: seq<Process>, starts: seq<nat>, off: nat)
    requires Collecting(ps, ss, layer, starts) && off < |ps| && ps[off] !in layer
    ensures At(ps[off], ss[off])
  {
  }

  lemma ScanEnds(f: Forest<Process>, i: nat, l: nat, d: nat, starts: seq<nat>)
    requires Collecting(Pre(f), Slots(f, i, l, d), Roots(f), starts)
    ensures Intact(f, i, l, d)
    ensures forall j :: 0 <= j < |Roots(f)| - 1 ==> Roots(f)[j].tree_depth == starts[j + 1]
  {
    hide Pre, Slots, Roots;
  }

  /** ... which holds their subtree's end. */
  ghost predicate Scratched(f: Forest<Process>, i: nat, l: nat, d: nat)
    reads Nodes(f), set p | p in Roots(f)
  {
    && Intact(f, i, l, d) && |Roots(f)| == |f|
    && forall j :: 0 <= j < |f| ==> Roots(f)[j].tree_depth == i + Start(f, j + 1)
  }

  /** A subtree that waits to be placed: bounds, scratch end, and everything below still as before. */
  ghost predicate Pending(t: Tree<Process>, d: nat, display: map<nat, Process>)
    reads t.root, Nodes(t.kids)
  {
    && t.root.tree_right == t.root.tree_left + 2 * Size(t.kids) + 1
    && t.root.tree_depth == t.root.tree_index + 1 + Size(t.kids)
    && LaidOut(Pre(t.kids), Slots(t.kids, t.root.tree_index + 1, t.root.tree_left + 1, d + 1))
    && Covers(display, t.root.tree_index, [t.root] + Pre(t.kids))
  }

  /** `f` is written out completely: coordinates and indents. */
  ghost predicate Placed(f: Forest<Process>, i: nat, l: nat, d: nat, base: int, more: bool)
    requires base >= -1
    reads Nodes(f)
  {
    LaidOut(Pre(f), Slots(f, i, l, d)) && Indented(Pre(f), Indents(f, d, base, more))
  }

  /** Tree `j` of `f`, seen in the preorder of `f`. */
  lemma TreeAt(f: Forest<Process>, i: nat, l: nat, d: nat, j: nat)
    requires NoDup(Pre(f)) && j < |f|
    ensures var t, s, ps, ss := f[j], Start(f, j), Pre(f), Slots(f, i, l, d);
            var kps, kss := Pre(t.kids), Slots(t.kids, i + s + 1, l + 2 * s + 1, d + 1);
            && s + Size(t.kids) < |ps| == |ss| && |kps| == |kss| == Size(t.kids)
            && Start(f, j + 1) == s + 1 + Size(t.kids)
            && ps[s] == t.root && ss[s] == Slot(i + s, l + 2 * s, l + 2 * s + 2 * Size(t.kids) + 1, d)
            && (forall k :: 0 <= k < |kps| ==> ps[s + 1 + k] == kps[k] && ss[s + 1 + k] == kss[k])
            && (forall k :: 0 <= k < |kps| ==> kps[k] !in Roots(f))
  {
    hide Pre, Slots, Roots, Size, Start;
    var t, s, e := f[j], Start(f, j), Start(f, j + 1);
    var ps, ss := Pre(f), Slots(f, i, l, d);
    LocatePre(f, j);
    LocateSlots(f, j, i, l, d);
    Lengths(t.kids, i + s + 1, l + 2 * s + 1, d + 1, None);
    var kps, kss := Pre(t.kids), Slots(t.kids, i + s + 1, l + 2 * s + 1, d + 1);
    assert ps[s] == ps[s..e][0] && ss[s] == ss[s..e][0];
    forall k | 0 <= k < |kps|
      ensures ps[s + 1 + k] == kps[k] && ss[s + 1 + k] == kss[k] && kps[k] !in Roots(f)
    {
      assert kps[k] == ps[s..e][k + 1];
      assert kss[k] == ss[s..e][k + 1];
      NoRootHere(f, i, l, d, j + 1, s + 1 + k);
    }
  }

  lemma ScratchedPending(f: Forest<Process>, i: nat, l: nat, d: nat, display: map<nat, Process>, j: nat)
    requires NoDup(Pre(f)) && Scratched(f, i, l, d) && Covers(display, i, Pre(f)) && j < |f|
    ensures Pending(f[j], d, display)
  {
    hide Pre, Slots, Roots, Size, Start, NoDup;
    var t, s := f[j], Start(f, j);
    var ps, ss := Pre(f), Slots(f, i, l, d);
    TreeAt(f, i, l, d, j);
    RootsAt(f);
    var kps, kss := Pre(t.kids), Slots(t.kids, i + s + 1, l + 2 * s + 1, d + 1);
    assert ps[s] == t.root == Roots(f)[j];
    assert t.root.tree_index == i + s && t.root.tree_left == l + 2 * s;
    assert t.root.tree_depth == i + s + 1 + Size(t.kids);
    forall k | 0 <= k < |kps| ensures At(kps[k], kss[k]) {
      assert kps[k] == ps[s + 1 + k];
    }
    forall k | i + s <= k < i + s + 1 + |kps| ensures k in display && display[k] == ([t.root] + kps)[k - i - s] {
      assert ([t.root] + kps)[k - i - s] == ps[k - i];
      assert k - i < |ps|;
    }
    assert t.root.tree_right == t.root.tree_left + 2 * Size(t.kids) + 1;
    assert LaidOut(kps, kss);
    assert kss == Slots(t.kids, t.root.tree_index + 1, t.root.tree_left + 1, d + 1);
    assert Covers(display, t.root.tree_index, [t.root] + kps);
  }

  lemma PendingWithout(t: Tree<Process>, d: nat, display: map<nat, Process>, gone: set<Process>)
    requires Pending(t, d, display) && t.root !in gone && forall p :: p in Pre(t.kids) ==> p !in gone
    ensures Pending(t, d, Without(display, gone))
  {
    hide Pre, Slots, Size;
    CoversWithout(display, t.root.tree_index, [t.root] + Pre(t.kids), gone);
  }

  ghost function TreeNodes(t: Tree<Process>): set<Process> { Nodes(t.kids) + {t.root} }

  /** Where a node of tree `j` stands in the preorder. */
  lemma Offset(g: Forest<Process>, j: nat, p: Process) returns (a: nat)
    requires j < |g| && NoDup(Pre(g)) && p in TreeNodes(g[j])
    ensures Start(g, j) <= a < Start(g, j + 1) <= |Pre(g)| && Pre(g)[a] == p
  {
    hide Pre, Slots, Roots, Size, Start, NoDup;
    TreeAt(g, 0, 0, 0, j);
    var kps, ps := Pre(g[j].kids), Pre(g);
    if p == g[j].root {
      a := Start(g, j);
    } else {
      var k :| 0 <= k < |kps| && kps[k] == p;
      a := Start(g, j) + 1 + k;
      assert ps[Start(g, j) + 1 + k] == kps[k];
    }
  }

  /** Different trees share no process. */
  lemma TreesApart(g: Forest<Process>, i: nat, j: nat)
    requires i < j < |g| && NoDup(Pre(g))
    ensures TreeNodes(g[i]) !! TreeNodes(g[j])
  {
    hide Pre, Start, TreeNodes;
    if i + 1 < j { StartMonotone(g, i + 1, j); }
    forall p, q | p in TreeNodes(g[i]) && q in TreeNodes(g[j]) ensures p != q {
      var a := Offset(g, i, p);
      var b := Offset(g, j, q);
    }
  }

  lemma CutAround<T>(s: seq<T>, i: nat)
    requires i < |s|
    ensures s[..i + 1] == s[..i] + [s[i]] && s == s[..i] + [s[i]] + s[i + 1..]
  {
  }

  /** A list of trees, cut around the `i`th. */
  lemma TreeCut(g: Forest<Process>, i: nat)
    requires i < |g|
    ensures Pre(g[..i + 1]) == Pre(g[..i]) + ([g[i].root] + Pre(g[i].kids))
    ensures Pre(g) == Pre(g[..i]) + ([g[i].root] + Pre(g[i].kids)) + Pre(g[i + 1..])
  {
    hide Pre;
    var a, t, b := g[..i], [g[i]], g[i + 1..];
    CutAround(g, i);
    PreAppend(a + t, b);
    PreAppend(a, t);
    One(g[i], 0, 0, 0, None);
  }

  lemma TreeInside(g: Forest<Process>, i: nat)
    requires i < |g| && NoDup(Pre(g))
    ensures g[i].root !in Pre(g[i].kids) && TreeNodes(g[i]) <= Nodes(g) && Nodes(g[i].kids) <= Nodes(g)
    ensures g[i].root in Nodes(g) && forall p :: p in Pre(g[i].kids) ==> p in Nodes(g)
    ensures Nodes(g[..i]) !! TreeNodes(g[i])
    ensures Nodes(g[..i + 1]) == Nodes(g[..i]) + TreeNodes(g[i])
    ensures Size(g[i].kids) < Size(g) && Roots(g)[..] == Roots(g) && |Roots(g)| == |g| && Roots(g)[i] == g[i].root
  {
    hide Pre, Size, Roots, NoDup;
    TreeCut(g, i);
    RootsAt(g);
    StartNext(g, i);
    CutMembers(Pre(g[..i]), g[i].root, Pre(g[i].kids), Pre(g[i + 1..]));
    ApartParts(Pre(g[..i]), g[i].root, Pre(g[i].kids), Pre(g[i + 1..]));
  }

  lemma CutMembers<T>(a: seq<T>, x: T, k: seq<T>, b: seq<T>)
    ensures x in a + ([x] + k) + b && forall y :: y in k ==> y in a + ([x] + k) + b
    ensures forall y :: y in a + ([x] + k) <==> y in a || y == x || y in k
  {
    assert x in [x] + k;
  }

  lemma ApartParts<T>(a: seq<T>, x: T, k: seq<T>, b: seq<T>)
    requires NoDup(a + ([x] + k) + b)
    ensures x !in k && forall y :: y in a ==> y !in k && y != x
  {
    var s := a + ([x] + k) + b;
    forall j | 0 <= j < |k| ensures k[j] != x && k[j] !in a {
      assert s[|a|] == x && s[|a| + 1 + j] == k[j];
      forall i | 0 <= i < |a| ensures a[i] != k[j] { assert s[i] == a[i]; }
    }
    forall i | 0 <= i < |a| ensures a[i] != x { assert s[i] == a[i] && s[|a|] == x; }
  }

  lemma PlacedAppend(a: Forest<Process>, t: Tree<Process>, i: nat, l: nat, d: nat, base: int, more: bool)
    requires base >= -1
    requires Placed(a, i, l, d, base, true)
    requires Placed([t], i + Size(a), l + 2 * Size(a), d, base, more)
    ensures Placed(a + [t], i, l, d, base, more)
  {
    hide Pre, Slots, Size, Indents;
    PreAppend(a, [t]);
    SlotsAppend(a, [t], i, l, d);
    IndentsAppend(a, [t], d, base, more);
  }

  lemma PlacedTree(t: Tree<Process>, i: nat, l: nat, d: nat, base: int, last: bool)
    requires base >= -1
    requires At(t.root, Slot(i, l, l + 2 * Size(t.kids) + 1, d)) && t.root.indent == Own(d, base, last)
    requires Placed(t.kids, i + 1, l + 1, d + 1, Below(d, base, last), false)
    ensures Placed([t], i, l, d, base, !last)
  {
    hide Pre, Slots, Size, Indents;
    One(t, i, l, d, None);
    IndentsOne(t, d, base, !last);
  }

  lemma EmptyForest(f: Forest<Process>)
    requires Size(f) == 0
    ensures f == []
  {
  }

  lemma NothingToPlace(cmp: (Process, Process) -> int, i: nat, l: nat, d: nat, base: int, more: bool,
                       display: map<nat, Process>, drafting: map<nat, Process>)
    requires base >= -1
    ensures Size<Process>([]) == 0 && Pre<Process>([]) == [] && Nodes<Process>([]) == {}
    ensures Resorted(cmp, []) == [] && ResortKids(cmp, []) == []
    ensures Placed([], i, l, d, base, more)
    ensures drafting + Numbered(i, []) == drafting && Without(display, {}) == display
  {
  }

  lemma PendingElsewhere(t: Tree<Process>, d: nat, display: map<nat, Process>, gone: Tree<Process>)
    requires Pending(t, d, display) && TreeNodes(t) !! TreeNodes(gone)
    ensures Pending(t, d, Without(display, TreeNodes(gone)))
  {
    hide Pending;
    assert t.root in TreeNodes(t);
    assert forall p :: p in Pre(t.kids) ==> p in TreeNodes(t);
    PendingWithout(t, d, display, TreeNodes(gone));
  }

  /** Placing tree `i` touches neither the trees after it ... */
  lemma RestApart(g: Forest<Process>, i: nat)
    requires i < |g| && NoDup(Pre(g))
    ensures forall j :: i < j < |g| ==> TreeNodes(g[j]) !! TreeNodes(g[i])
    ensures forall j, p :: i < j < |g| && p in Nodes(g[j].kids) ==> p !in Pre(g[i].kids) && p != g[i].root
    ensures forall j :: i < j < |g| ==> g[j].root !in Pre(g[i].kids) && g[j].root != g[i].root
  {
    hide Pre, NoDup;
    forall j | i < j < |g|
      ensures TreeNodes(g[j]) !! TreeNodes(g[i])
      ensures g[j].root !in Pre(g[i].kids) && g[j].root != g[i].root
      ensures forall p :: p in Nodes(g[j].kids) ==> p !in Pre(g[i].kids) && p != g[i].root
    {
      TreesApart(g, i, j);
      assert g[j].root in TreeNodes(g[j]) && g[i].root in TreeNodes(g[i]);
      assert forall p :: p in Nodes(g[j].kids) ==> p in TreeNodes(g[j]);
      assert forall p :: p in Pre(g[i].kids) ==> p in TreeNodes(g[i]);
    }
  }

  /** ... nor what is already placed. */
  lemma DoneApart(cmp: (Process, Process) -> int, g: Forest<Process>, i: nat)
    requires i < |g| && NoDup(Pre(g))
    ensures forall p :: p in Nodes(ResortKids(cmp, g[..i])) ==> p !in Pre(g[i].kids) && p != g[i].root
  {
    hide Pre, NoDup, ResortKids;
    TreeInside(g, i);
    NextTree(cmp, g, i);
    assert g[i].root in TreeNodes(g[i]);
    assert forall p :: p in Pre(g[i].kids) ==> p in TreeNodes(g[i]);
  }

  /** Sizes and preorder as one more tree is placed. */
  lemma NextTree(cmp: (Process, Process) -> int, g: Forest<Process>, i: nat)
    requires i < |g|
    ensures var t' := Node(g[i].root, Resorted(cmp, g[i].kids));
            && Size([t']) == 1 + Size(g[i].kids)
            && Pre([t']) == [g[i].root] + Pre(Resorted(cmp, g[i].kids))
            && Size(ResortKids(cmp, g[..i]) + [t']) == Size(ResortKids(cmp, g[..i])) + 1 + Size(g[i].kids)
            && |Pre(ResortKids(cmp, g[..i]))| == Size(ResortKids(cmp, g[..i]))
            && Nodes(ResortKids(cmp, g[..i])) == Nodes(g[..i])
  {
    hide Pre, Size, Resorted, ResortKids, Nodes;
    var t' := Node(g[i].root, Resorted(cmp, g[i].kids));
    One(t', 0, 0, 0, None);
    ResortKeepsNodes(cmp, g[i].kids);
    ResortKeepsNodes(cmp, g[..i]);
    SizeAppend(ResortKids(cmp, g[..i]), [t']);
    Lengths(ResortKids(cmp, g[..i]), 0, 0, 0, None);
  }

  lemma RootsInside(f: Forest<Process>)
    ensures Elements(Roots(f)) <= Nodes(f) && forall p :: p in Roots(f) ==> p in Pre(f)
  {
    RootsAt(f);
    forall p | p in Roots(f) ensures p in Nodes(f) && p in Pre(f) {
      var j :| 0 <= j < |f| && Roots(f)[j] == p;
      RootsInPre(f, f[j]);
    }
  }

  /** The sorted layer, tree by tree. */
  lemma SortedPending(f: Forest<Process>, i: nat, l: nat, d: nat, display: map<nat, Process>,
                      cmp: (Process, Process) -> int)
    requires NoDup(Pre(f)) && Scratched(f, i, l, d) && Covers(display, i, Pre(f))
    ensures var g := SortBy(ByRoot(cmp), f);
            && NoDup(Pre(g)) && Nodes(g) == Nodes(f) && Size(g) == Size(f)
            && Roots(g) == SortBy(cmp, Roots(f)) && |Roots(g)| == |g|
            && ResortKids(cmp, g) == Resorted(cmp, f)
            && forall j :: 0 <= j < |g| ==> Pending(g[j], d, display)
  {
    hide Pre, Slots, Size, Resorted, ResortKids, SortBy, Pending, Covers, Roots, NoDup, Scratched;
    var g := SortBy(ByRoot(cmp), f);
    SortedTrees(cmp, f);
    NoDupPermutes(Pre(f), Pre(g));
    SameElements(f, g);
    forall j | 0 <= j < |g| ensures Pending(g[j], d, display) {
      assert g[j] in Elements(f);
      var k :| 0 <= k < |f| && f[k] == g[j];
      ScratchedPending(f, i, l, d, display, k);
    }
  }

  lemma TopLayer(f: Forest<Process>, display: map<nat, Process>, processes: seq<Process>)
    requires display == Numbered(0, Pre(f)) && LaidOut(Pre(f), Slots(f, 0, 1, 0))
    requires multiset(processes) == multiset(Pre(f))
    ensures |processes| == Size(f) && Covers(display, 0, Pre(f)) && Keyed(display)
  {
    hide Pre, Slots;
    SameElements(processes, Pre(f));
    Lengths(f, 0, 1, 0, None);
    NumberedCovers(0, Pre(f));
    NumberedAt(0, Pre(f));
    forall k | k in display ensures display[k].tree_index == k {
      SlotBounds(f, 0, 1, 0, k);
      assert At(Pre(f)[k], Slots(f, 0, 1, 0)[k]);
    }
  }

  lemma ListedOrders(processes: seq<Process>, f: Forest<Process>, settings: Settings)
    requires multiset(processes) == multiset(Pre(f)) && PidsDistinct(Nodes(f))
    ensures Orders(Comparator(AttributesOf(processes), settings), Nodes(f))
  {
    hide Pre, PidsDistinct;
    SameElements(processes, Pre(f));
    forall p | p in Nodes(f) ensures p in processes { assert p in Elements(processes); }
    ComparatorOrders(Nodes(f), AttributesOf(processes), settings);
  }

  /** Once every node has moved, nothing is left behind. */
  lemma AllMoved<T>(before: seq<T>, after: seq<T>)
    ensures Without(Numbered(0, before), set p | p in before) == map[]
    ensures map[] + Numbered(0, after) == Numbered(0, after)
  {
    NumberedAt(0, before);
    var m := Without(Numbered(0, before), set p | p in before);
    forall k | k in Numbered(0, before) ensures Numbered(0, before)[k] in before {
      assert Numbered(0, before)[k] == before[k];
    }
    assert m.Keys == {};
  }

  /** `ProcessList_treeProcessCompare` over the left bounds as they stand while the vector is sorted. */
  function ByLeft(lefts: map<Process, nat>): (Process, Process) -> int {
    (p: Process, q: Process) => if p in lefts && q in lefts then Spaceship(lefts[p], lefts[q]) else 0
  }

  lemma ByLeftOrders(lefts: map<Process, nat>)
    ensures TotalPreorder(ByLeft(lefts), lefts.Keys)
    ensures forall p, q :: p in lefts && q in lefts ==> ByLeft(lefts)(p, q) == Spaceship(lefts[p], lefts[q])
  {
    var cmp := ByLeft(lefts);
    forall p, q | p in lefts && q in lefts ensures cmp(p, q) == Spaceship(lefts[p], lefts[q]) {
    }
  }

  lemma LeftsDistinct(f: Forest<Process>, j: nat, k: nat)
    requires LaidOut(Pre(f), Slots(f, 0, 1, 0)) && j < k < |Pre(f)|
    ensures Pre(f)[j].tree_left < Pre(f)[k].tree_left
  {
    hide Pre, Slots;
    LeftsGrow(f, 0, 1, 0, j, k);
    assert At(Pre(f)[j], Slots(f, 0, 1, 0)[j]) && At(Pre(f)[k], Slots(f, 0, 1, 0)[k]);
  }

  /** The preorder is the arrangement by left bound, and left bounds never tie. */
  lemma PreorderByLeft(f: Forest<Process>, processes: seq<Process>, lefts: map<Process, nat>)
    requires LaidOut(Pre(f), Slots(f, 0, 1, 0)) && multiset(processes) == multiset(Pre(f))
    requires lefts.Keys == Elements(processes) && forall p :: p in lefts ==> lefts[p] == p.tree_left
    ensures TotalPreorder(ByLeft(lefts), Elements(processes)) && TieFree(ByLeft(lefts), Elements(processes))
    ensures Sorted(ByLeft(lefts), Pre(f))
  {
    hide Pre, Slots, LaidOut, TotalPreorder;
    var ps := Pre(f);
    ByLeftOrders(lefts);
    SameElements(processes, ps);
    forall j | 0 <= j < |ps| ensures ps[j] in lefts { assert ps[j] in Elements(ps); }
    forall p, q | p in Elements(processes) && q in Elements(processes) && lefts[p] == lefts[q] ensures p == q {
      var j :| 0 <= j < |ps| && ps[j] == p;
      var k :| 0 <= k < |ps| && ps[k] == q;
      if j < k { LeftsDistinct(f, j, k); }
      if k < j { LeftsDistinct(f, k, j); }
    }
    forall j, k | 0 <= j < k < |ps| ensures ByLeft(lefts)(ps[j], ps[k]) <= 0 {
      LeftsDistinct(f, j, k);
    }
  }
}
