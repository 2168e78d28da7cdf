/** What sorting and building the tree leave behind, on the fields of the processes themselves. */
module TreeFields {
  import opened Options
  import opened Order
  import opened Forest
  import opened Resort
  import opened Siblings
  import opened Indent
  import opened ProcessCompare
  import opened Processes
  import opened TreeLayers
  import opened TreeBuilding
  import opened TreeMeaning
  import opened TreeUnique

  lemma ComparedAt(ps: seq<Process>, settings: Settings, p: Process, q: Process)
    requires p in ps && q in ps
    ensures Comparator(AttributesOf(ps), settings)(p, q) == Compare(p.Columns(), q.Columns(), settings)
  {
    hide Compare;
  }

  /** Any two processes of a sorted list stand in the order of the comparison. */
  lemma SortedCompares(ps: seq<Process>, settings: Settings, qs: seq<Process>)
    requires PidsDistinct(Elements(ps)) && qs == SortBy(Comparator(AttributesOf(ps), settings), ps)
    ensures forall i, j :: 0 <= i < j < |qs| ==> Compare(qs[i].Columns(), qs[j].Columns(), settings) <= 0
  {
    hide Compare, SortBy, Comparator, PidsDistinct, TotalPreorder;
    var cmp := Comparator(AttributesOf(ps), settings);
    ComparatorOrders(Elements(ps), AttributesOf(ps), settings);
    SortPermutes(cmp, ps);
    SameElements(ps, qs);
    SortSorts(cmp, ps, Elements(ps));
    forall i, j | 0 <= i < j < |qs| ensures Compare(qs[i].Columns(), qs[j].Columns(), settings) <= 0 {
      assert qs[i] in Elements(qs) && qs[j] in Elements(qs);
      ComparedAt(ps, settings, qs[i], qs[j]);
    }
  }

  /** Any two siblings of a re-sorted tree do. */
  lemma ResortedCompares(ps: seq<Process>, settings: Settings, f: Forest<Process>, g: Forest<Process>)
    requires multiset(ps) == multiset(Pre(f)) && PidsDistinct(Nodes(f)) && NoDup(Pre(f))
    requires g == Resorted(Comparator(AttributesOf(ps), settings), f)
    ensures |Links(g, None)| == |Pre(g)| == |ps|
    ensures forall i, j :: 0 <= i < j < |Pre(g)| && Links(g, None)[i].1 == Links(g, None)[j].1 ==>
              Compare(Pre(g)[i].Columns(), Pre(g)[j].Columns(), settings) <= 0
  {
    hide Compare, Resorted, Comparator, PidsDistinct, TotalPreorder, TieFree, Links, Pre, NoDup;
    var cmp := Comparator(AttributesOf(ps), settings);
    ListedOrders(ps, f, settings);
    ResortKeepsNodes(cmp, f);
    SameElements(ps, Pre(g));
    Lengths(g, 0, 0, 0, None);
    forall i, j | 0 <= i < j < |Pre(g)| && Links(g, None)[i].1 == Links(g, None)[j].1
      ensures Compare(Pre(g)[i].Columns(), Pre(g)[j].Columns(), settings) <= 0
    {
      ResortedSiblings(cmp, f, i, j);
      var _ := ChildInside(g, None, 0, 0, 0, i);
      var _ := ChildInside(g, None, 0, 0, 0, j);
      assert Pre(g)[i] in Elements(ps) && Pre(g)[j] in Elements(ps);
      ComparedAt(ps, settings, Pre(g)[i], Pre(g)[j]);
    }
  }

  lemma VisibleFields(ps: seq<Process>)
    ensures forall p :: p in ps ==> (p in VisibleOf(ps) <==> p.show) && (p.show ==> VisibleOf(ps)[p] == ParentPid(p))
    ensures forall p :: p in ps ==> (p in OpenOf(ps) <==> p.showChildren)
  {
  }

  lemma BuiltNodes(f: Forest<Process>, qs: seq<Process>, ps: seq<Process>)
    requires multiset(qs) == multiset(Pre(f)) && multiset(qs) == multiset(ps) && NoDup(ps)
    ensures Nodes(f) == Elements(ps) && NoDup(Pre(f))
  {
    hide Pre, NoDup;
    SameElements(ps, Pre(f));
    NoDupPermutes(ps, Pre(f));
  }

  /** Parent and visibility of a node of the built forest: `vis` were visible, `open` are unfolded. */
  lemma BuiltLink(f: Forest<Process>, ps: seq<Process>, vis: map<Process, int>, open: set<Process>, k: nat)
    requires Planted(f, Elements(ps), vis) && Nodes(f) == Elements(ps) && NoDup(Pre(f)) && PidsDistinct(Elements(ps))
    requires Displayed(Pre(f), Shown(f, true, vis, open)) && k < |Links(f, None)|
    requires forall p :: p in ps && p in vis ==> vis[p] == ParentPid(p)
    ensures var (p, parent) := Links(f, None)[k];
            var ppid := if p.attr.tgid == p.pid then p.attr.ppid else p.attr.tgid;
            && p in ps
            && (parent.Some? <==> p in vis && ppid != 0 && ppid != p.pid && exists q :: q in ps && q.pid == ppid)
            && (parent.Some? ==> parent.value in ps && parent.value.pid == ppid)
            && (p.show <==> p in vis && (parent.Some? ==> parent.value.show && parent.value in open))
  {
    hide Links, Pre, Planted, PidsDistinct, NoDup, Shown, Size;
    Lengths(f, 0, 0, 0, None);
    LineageOfAll(f, Elements(ps), vis);
    assert Lineage(Links(f, None)[k].0, Links(f, None)[k].1, Elements(ps), vis);
    LinkInside(f, None, k);
    var j := ParentBefore(f, None, true, vis, open, k);
    assert Pre(f)[k].show == Shown(f, true, vis, open)[k];
    if j >= 0 { assert Pre(f)[j].show == Shown(f, true, vis, open)[j]; }
  }

  /** Descending PIDs among siblings, ascending ones among roots. */
  function ByRank(roots: set<Process>): (Process, Process) -> bool {
    (p: Process, q: Process) => if p in roots then p.pid < q.pid else p.pid > q.pid
  }

  lemma {:induction false} AttachedGrouped(f: Forest<Process>, pid: int, vis: map<Process, int>, roots: set<Process>)
    requires Attached(f, pid, vis) && Nodes(f) !! roots
    ensures Grouped(ByRank(roots), f)
  {
    hide Pre, Roots;
    if f != [] {
      NodesOf(f);
      RootsFall(f, pid, vis);
      AttachedGrouped(f[0].kids, f[0].root.pid, vis, roots);
      AttachedGrouped(f[1..], pid, vis, roots);
    }
  }

  lemma {:induction false} PlantedGrouped(f: Forest<Process>, ps: set<Process>, vis: map<Process, int>, roots: set<Process>)
    requires Planted(f, ps, vis) && NoDup(Pre(f)) && Elements(Roots(f)) <= roots
    requires Nodes(f) * roots == Elements(Roots(f))
    ensures Grouped(ByRank(roots), f)
  {
    hide Pre, Roots, NoDup;
    if f != [] {
      NodesOf(f);
      NoDupParts(f);
      RootsInNodes(f[1..]);
      RootsRise(f, ps, vis);
      AttachedGrouped(f[0].kids, f[0].root.pid, vis, roots);
      PlantedGrouped(f[1..], ps, vis, roots);
    }
  }

  lemma {:induction false} RootsInNodes<P>(f: Forest<P>)
    ensures Elements(Roots(f)) <= Nodes(f)
  {
    if f != [] {
      NodesOf(f);
      RootsInNodes(f[1..]);
    }
  }

  /** Where the `j`th and the `k`th node of the built forest are siblings, or both roots. */
  lemma BuiltSiblings(f: Forest<Process>, ps: set<Process>, vis: map<Process, int>, j: nat, k: nat)
    requires Planted(f, ps, vis) && NoDup(Pre(f))
    requires j < k < |Links(f, None)| && Links(f, None)[j].1 == Links(f, None)[k].1
    ensures var (p, parent) := Links(f, None)[j]; var q := Links(f, None)[k].0;
            if parent.None? then p.pid < q.pid else p.pid > q.pid
  {
    hide Pre, Roots, NoDup, Planted, Links, Grouped;
    RootsInNodes(f);
    PlantedGrouped(f, ps, vis, Elements(Roots(f)));
    SiblingsRelated(ByRank(Elements(Roots(f))), f, None, j, k);
    RootLinks(f, None, j);
  }

  /** Exactly the roots hang under `top`. */
  lemma {:induction false} RootLinks<P>(f: Forest<P>, top: Option<P>, k: nat)
    requires k < |Links(f, top)| && NoDup(Pre(f)) && (top.Some? ==> top.value !in Nodes(f))
    ensures Links(f, top)[k].1 == top <==> Links(f, top)[k].0 in Elements(Roots(f))
  {
    hide Pre, Roots, NoDup, Links;
    LinkPart(f, top, k);
    NodesOf(f);
    NoDupParts(f);
    RootsInNodes(f[1..]);
    var n := Size(f[0].kids);
    if 1 <= k <= n {
      LinkInside(f[0].kids, Some(f[0].root), k - 1);
    } else if k > n {
      RootLinks(f[1..], top, k - 1 - n);
      LinkInside(f[1..], top, k - 1 - n);
    }
  }

  // ----- coordinates

  /** Where a laid-out node stands, and where its parent does. */
  lemma PlacedInside(f: Forest<Process>, k: nat)
    requires LaidOut(Pre(f), Slots(f, 0, 1, 0)) && k < |Pre(f)|
    ensures |Links(f, None)| == |Pre(f)| && Links(f, None)[k].0 == Pre(f)[k]
    ensures var (p, parent) := Links(f, None)[k];
            && p.tree_index == k && 1 <= p.tree_left < p.tree_right <= 2 * |Pre(f)|
            && (parent.None? ==> p.tree_depth == 0)
            && (parent.Some? ==>
                  && p.tree_depth == parent.value.tree_depth + 1 && parent.value.tree_index < k
                  && parent.value.tree_left < p.tree_left && p.tree_right < parent.value.tree_right)
  {
    hide Links, Pre, Slots, Size;
    Lengths(f, 0, 1, 0, None);
    SlotBounds(f, 0, 1, 0, k);
    var j := ChildInside(f, None, 0, 1, 0, k);
    assert At(Pre(f)[k], Slots(f, 0, 1, 0)[k]);
    if j >= 0 {
      SlotBounds(f, 0, 1, 0, j);
      assert At(Pre(f)[j], Slots(f, 0, 1, 0)[j]);
    }
  }

  /** Of two nodes, the later one lies inside the earlier one or behind it. */
  lemma PlacedApart(f: Forest<Process>, j: nat, k: nat)
    requires LaidOut(Pre(f), Slots(f, 0, 1, 0)) && j < k < |Pre(f)|
    ensures var p, q := Pre(f)[j], Pre(f)[k];
            p.tree_left < q.tree_left && (q.tree_right < p.tree_right || p.tree_right < q.tree_left)
  {
    hide Pre, Slots;
    Nesting(f, 0, 1, 0, j, k);
    assert At(Pre(f)[j], Slots(f, 0, 1, 0)[j]) && At(Pre(f)[k], Slots(f, 0, 1, 0)[k]);
  }

  // ----- indents

  /** A later link has the same parent as the `k`th. */
  ghost predicate LaterSibling<P>(links: seq<(P, Option<P>)>, k: nat)
    requires k < |links|
  {
    exists m :: k < m < |links| && links[m].1 == links[k].1
  }

  lemma LaterSplit<P>(links: seq<(P, Option<P>)>, h: (P, Option<P>), a: seq<(P, Option<P>)>, b: seq<(P, Option<P>)>, k: nat)
    requires links == [h] + a + b && k < |links|
    requires forall l :: l in a ==> l.1 != h.1
    requires forall l, m :: l in a && m in b ==> l.1 != m.1
    ensures k == 0 && LaterSibling(links, k) ==> b != []
    ensures k == 0 && b != [] && b[0].1 == h.1 ==> LaterSibling(links, k)
    ensures 1 <= k <= |a| ==> (LaterSibling(links, k) <==> LaterSibling(a, k - 1))
    ensures k > |a| ==> (LaterSibling(links, k) <==> LaterSibling(b, k - 1 - |a|))
  {
    if LaterSibling(links, k) { LaterWithin(links, h, a, b, k); }
    if k == 0 && b != [] && b[0].1 == h.1 { assert links[0 + 1 + |a|] == b[0]; }
    if 1 <= k <= |a| && LaterSibling(a, k - 1) { LaterPart([h], a, b, k - 1); }
    if k > |a| && LaterSibling(b, k - 1 - |a|) {
      LaterPart([h] + a, b, [], k - 1 - |a|);
      assert links + [] == links;
    }
  }

  lemma LaterPart<P>(a: seq<(P, Option<P>)>, b: seq<(P, Option<P>)>, c: seq<(P, Option<P>)>, k: nat)
    requires k < |b| && LaterSibling(b, k)
    ensures LaterSibling(a + b + c, |a| + k)
  {
    var m :| k < m < |b| && b[m].1 == b[k].1;
    assert (a + b + c)[|a| + m] == b[m] && (a + b + c)[|a| + k] == b[k];
  }

  lemma LaterWithin<P>(links: seq<(P, Option<P>)>, h: (P, Option<P>), a: seq<(P, Option<P>)>, b: seq<(P, Option<P>)>, k: nat)
    requires links == [h] + a + b && k < |links| && LaterSibling(links, k)
    requires forall l :: l in a ==> l.1 != h.1
    requires forall l, m :: l in a && m in b ==> l.1 != m.1
    ensures if k == 0 then b != [] else if k <= |a| then LaterSibling(a, k - 1) else LaterSibling(b, k - 1 - |a|)
  {
    var n := |a|;
    var m :| k < m < |links| && links[m].1 == links[k].1;
    if m <= n {
      assert links[m] == a[m - 1] && a[m - 1] in a;
    } else {
      assert links[m] == b[m - 1 - n] && b[m - 1 - n] in b;
    }
    if 1 <= k <= n {
      assert links[k] == a[k - 1] && a[k - 1] in a;
    } else if k > n {
      assert links[k] == b[k - 1 - n];
    }
  }

  lemma PathPart<P>(f: Forest<P>, path: Option<seq<bool>>, more: bool, k: nat)
    requires k < |Paths(f, path, more)|
    ensures f != []
    ensures var n, own := Size(f[0].kids), OwnPath(path, |f| > 1 || more);
            && |Paths(f[0].kids, Some(own), false)| == n && |Paths(f, path, more)| == Size(f) == 1 + n + |Paths(f[1..], path, more)|
            && (k == 0 ==> Paths(f, path, more)[k] == own)
            && (1 <= k <= n ==> Paths(f, path, more)[k] == Paths(f[0].kids, Some(own), false)[k - 1])
            && (k > n ==> Paths(f, path, more)[k] == Paths(f[1..], path, more)[k - 1 - n])
  {
    PathsLength(f[0].kids, Some(OwnPath(path, |f| > 1 || more)), false);
    PathsLength(f[1..], path, more);
  }

  /** Where a later sibling may be: in the same tree for a node below its root, in the other trees for the rest. */
  lemma LaterParts<P>(f: Forest<P>, top: Option<P>, k: nat)
    requires k < |Links(f, top)| && NoDup(Pre(f)) && (top.Some? ==> top.value !in Nodes(f))
    ensures f != []
    ensures var links, a, b := Links(f, top), Links(f[0].kids, Some(f[0].root)), Links(f[1..], top); var n := Size(f[0].kids);
            && |a| == n && |links| == 1 + n + |b|
            && (k == 0 ==> (LaterSibling(links, k) <==> |f| > 1))
            && (1 <= k <= n ==> (LaterSibling(links, k) <==> LaterSibling(a, k - 1)) && links[k].1 != top)
            && (k > n ==> (LaterSibling(links, k) <==> LaterSibling(b, k - 1 - n)))
  {
    hide Links, Pre, NoDup, Size, Roots, LaterSibling;
    LinkPart(f, top, k);
    var a, b := Links(f[0].kids, Some(f[0].root)), Links(f[1..], top);
    LinksCons(f, top);
    ParentsApart(f, top);
    if 1 <= k <= |a| { assert Links(f, top)[k] == a[k - 1] && a[k - 1] in a; }
    if |f| > 1 { LinkHead(f[1..], top); } else { LinkNone(f[1..], top); }
    LaterSplit(Links(f, top), (f[0].root, top), a, b, k);
  }

  lemma LinksCons<P>(f: Forest<P>, top: Option<P>)
    requires f != []
    ensures Links(f, top) == [(f[0].root, top)] + Links(f[0].kids, Some(f[0].root)) + Links(f[1..], top)
  {
  }

  lemma ParentsApart<P>(f: Forest<P>, top: Option<P>)
    requires f != [] && NoDup(Pre(f)) && (top.Some? ==> top.value !in Nodes(f))
    ensures var a, b := Links(f[0].kids, Some(f[0].root)), Links(f[1..], top);
            (forall l :: l in a ==> l.1 != top) && (forall l, m :: l in a && m in b ==> l.1 != m.1)
  {
    hide Links, Pre, NoDup, Size, Roots;
    var p := f[0].root;
    var a, b := Links(f[0].kids, Some(p)), Links(f[1..], top);
    NodesOf(f);
    NoDupParts(f);
    forall l | l in a ensures l.1.Some? && l.1.value in {p} + Nodes(f[0].kids) {
      var m :| 0 <= m < |a| && a[m] == l;
      LinkInside(f[0].kids, Some(p), m);
    }
    forall l | l in b ensures l.1 == top || (l.1.Some? && l.1.value in Nodes(f[1..])) {
      var m :| 0 <= m < |b| && b[m] == l;
      LinkInside(f[1..], top, m);
    }
  }

  lemma LinkHead<P>(f: Forest<P>, top: Option<P>)
    requires f != []
    ensures |Links(f, top)| > 0 && Links(f, top)[0] == (f[0].root, top)
  {
  }

  lemma LinkNone<P>(f: Forest<P>, top: Option<P>)
    requires f == []
    ensures Links(f, top) == []
  {
  }

  /** The path of a node is that of its parent, and whether a sibling follows. */
  lemma {:induction false} PathParent<P>(f: Forest<P>, top: Option<P>, path: Option<seq<bool>>, more: bool, k: nat) returns (j: int)
    requires k < Size(f) && NoDup(Pre(f)) && (top.Some? ==> top.value !in Nodes(f))
    ensures -1 <= j < k < |Links(f, top)| == |Pre(f)| == |Paths(f, path, more)|
    ensures Links(f, top)[k] == (Pre(f)[k], if j < 0 then top else Some(Pre(f)[j]))
    ensures var later := LaterSibling(Links(f, top), k) || (more && Links(f, top)[k].1 == top);
            Paths(f, path, more)[k] == OwnPath(if j < 0 then path else Some(Paths(f, path, more)[j]), later)
  {
    hide Links, Pre, Paths, Size, NoDup, LaterSibling, OwnPath, Roots;
    Lengths(f, 0, 0, 0, top);
    PathsLength(f, path, more);
    LinkPart(f, top, k);
    PrePart(f, k);
    PathPart(f, path, more, k);
    NodesOf(f);
    NoDupParts(f);
    LaterParts(f, top, k);
    Lengths(f[1..], 0, 0, 0, top);
    var n, p, own := Size(f[0].kids), f[0].root, OwnPath(path, |f| > 1 || more);
    if k == 0 {
      j := -1;
    } else if k <= n {
      var j' := PathParent(f[0].kids, Some(p), Some(own), false, k - 1);
      j := j' + 1;
      PrePart(f, j);
      PathPart(f, path, more, j);
    } else {
      var j' := PathParent(f[1..], top, path, more, k - 1 - n);
      j := if j' < 0 then -1 else j' + 1 + n;
      if j >= 0 {
        PrePart(f, j);
        PathPart(f, path, more, j);
      }
    }
  }

  lemma {:induction false} PathsLength<P>(f: Forest<P>, path: Option<seq<bool>>, more: bool)
    ensures |Paths(f, path, more)| == Size(f)
  {
    if f != [] {
      PathsLength(f[0].kids, Some(OwnPath(path, |f| > 1 || more)), false);
      PathsLength(f[1..], path, more);
    }
  }

  /** A path has one entry for every level below the roots. */
  lemma {:induction false} PathDepth(f: Forest<Process>, k: nat)
    requires NoDup(Pre(f)) && k < Size(f)
    ensures |Paths(f, None, false)| == |Slots(f, 0, 1, 0)| == Size(f)
    ensures |Paths(f, None, false)[k]| == Slots(f, 0, 1, 0)[k].depth
  {
    hide Links, Pre, Paths, Slots, Size, NoDup, LaterSibling;
    Lengths(f, 0, 1, 0, None);
    var i := ChildInside(f, None, 0, 1, 0, k);
    var j := PathParent(f, None, None, false, k);
    if i >= 0 && j >= 0 {
      SameNode(Pre(f), i, j);
      PathDepth(f, j);
    }
  }

  lemma SameNode<T>(s: seq<T>, i: nat, j: nat)
    requires NoDup(s) && i < |s| && j < |s| && s[i] == s[j]
    ensures i == j
  {
  }

  /** The bits of a word that encodes a path, and its sign. */
  lemma EncodedBits(path: seq<bool>, b: nat)
    requires path != []
    ensures var d := |path| - 1; var w := Encoded(path);
            && w != 0 && (w > 0 <==> path[d])
            && (Bit(if w < 0 then -w else w, b) <==> b == d || (b < d && path[b]))
  {
    hide Bit;
    var d := |path| - 1;
    var flags := path[..d] + [true];
    assert flags[..d] == path[..d];
    BitOfWord(flags, b);
  }

  /** What the indent word says on the fields: roots have none; elsewhere the sign tells the last sibling, the top
      bit the depth, the bit below it whether a sibling of the parent follows, and the rest is the parent's. */
  lemma IndentFields(f: Forest<Process>, k: nat, b: nat)
    requires LaidOut(Pre(f), Slots(f, 0, 1, 0)) && Indented(Pre(f), Indents(f, 0, -1, false)) && k < |Pre(f)|
    ensures |Links(f, None)| == |Pre(f)| && Links(f, None)[k].0 == Pre(f)[k]
    ensures var (p, parent) := Links(f, None)[k];
            && (parent.None? ==> p.indent == 0)
            && (parent.Some? ==>
                  var q, word := parent.value, (w: int) => if w < 0 then -w else w;
                  && p.indent != 0 && p.tree_depth == q.tree_depth + 1
                  && (p.indent > 0 <==> exists m :: k < m < |Links(f, None)| && Links(f, None)[m].1 == parent)
                  && (Bit(word(p.indent), b) <==>
                        b == p.tree_depth - 1
                        || (b == p.tree_depth - 2 && q.indent > 0)
                        || (b < p.tree_depth - 2 && Bit(word(q.indent), b))))
  {
    hide Links, Pre, Paths, Slots, Size, NoDup, Indents, Encoded, Bit;
    LaidOutNoDup(f, 0, 1, 0);
    Lengths(f, 0, 1, 0, None);
    PlacedInside(f, k);
    IndentsEncode(f, 0, -1, None, false);
    PathDepth(f, k);
    var j := PathParent(f, None, None, false, k);
    assert At(Pre(f)[k], Slots(f, 0, 1, 0)[k]) && Pre(f)[k].indent == Encoded(Paths(f, None, false)[k]);
    if j >= 0 {
      PathDepth(f, j);
      assert At(Pre(f)[j], Slots(f, 0, 1, 0)[j]) && Pre(f)[j].indent == Encoded(Paths(f, None, false)[j]);
      EncodedBits(Paths(f, None, false)[k], b);
      if Paths(f, None, false)[j] != [] { EncodedBits(Paths(f, None, false)[j], b); }
    } else {
      NothingEncoded();
    }
  }

  lemma NothingEncoded()
    ensures Encoded([]) == 0
  {
  }
}
