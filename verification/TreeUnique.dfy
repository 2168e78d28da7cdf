/** The specification of the built forest leaves no choice: at most one forest meets it. */
module TreeUnique {
  import opened Options
  import opened Order
  import opened Forest
  import opened Siblings
  import opened Processes
  import opened TreeBuilding

  type Link = (Process, Option<Process>)

  /** The processes of `ps` that belong under `p`. */
  ghost function KidsOf(p: Process, ps: set<Process>, vis: map<Process, int>): set<Process> {
    set q | q in ps && !Orphan(q, ps, vis) && vis[q] == p.pid
  }

  /** Every group of siblings in `f` is complete. */
  ghost predicate Full(f: Forest<Process>, ps: set<Process>, vis: map<Process, int>) {
    f == [] || (
      && Elements(Roots(f[0].kids)) == KidsOf(f[0].root, ps, vis)
      && Full(f[0].kids, ps, vis) && Full(f[1..], ps, vis))
  }

  ghost function LinkSet(f: Forest<Process>, top: Option<Process>): set<Link> { set l | l in Links(f, top) }

  lemma {:induction false} LinkSetParts(f: Forest<Process>, top: Option<Process>)
    requires f != []
    ensures LinkSet(f, top) == {(f[0].root, top)} + LinkSet(f[0].kids, Some(f[0].root)) + LinkSet(f[1..], top)
  {
    var a, b := Links(f[0].kids, Some(f[0].root)), Links(f[1..], top);
    assert Links(f, top) == [(f[0].root, top)] + a + b;
  }

  /** A link's parent is `top` or a node, and its child is a node; below `top` are the roots. */
  ghost predicate Ends(f: Forest<Process>, top: Option<Process>, links: set<Link>) {
    && (forall l :: l in links ==> l.0 in Nodes(f) && (l.1 == top || (l.1.Some? && l.1.value in Nodes(f))))
    && (forall l :: l in links && l.1 == top && (top == None || top.value !in Nodes(f)) ==> l.0 in Elements(Roots(f)))
    && (forall p :: p in Nodes(f) ==> exists l :: l in links && l.0 == p)
  }

  lemma {:induction false} EndsParts(f: Forest<Process>, top: Option<Process>, a: set<Link>, b: set<Link>)
    requires f != [] && Ends(f[0].kids, Some(f[0].root), a) && Ends(f[1..], top, b)
    ensures Ends(f, top, {(f[0].root, top)} + a + b)
  {
    NodesOf(f);
    hide Pre, Roots;
    var links := {(f[0].root, top)} + a + b;
    assert (f[0].root, top) in links;
  }

  lemma {:induction false} LinkEnds(f: Forest<Process>, top: Option<Process>)
    ensures Ends(f, top, LinkSet(f, top))
  {
    if f != [] {
      hide Ends;
      LinkSetParts(f, top);
      LinkEnds(f[0].kids, Some(f[0].root));
      LinkEnds(f[1..], top);
      EndsParts(f, top, LinkSet(f[0].kids, Some(f[0].root)), LinkSet(f[1..], top));
    }
  }

  /** The links below nodes of `f` are all in `f`. */
  ghost predicate Closed(f: Forest<Process>, top: Option<Process>, links: set<Link>) {
    forall l :: l in links && l.1.Some? && l.1.value in Nodes(f) ==> l in LinkSet(f, top)
  }

  lemma {:induction false} ClosedParts(f: Forest<Process>, top: Option<Process>, links: set<Link>)
    requires f != [] && NoDup(Pre(f)) && Closed(f, top, links) && (top.Some? ==> top.value !in Nodes(f))
    ensures Closed(f[0].kids, Some(f[0].root), links) && Closed(f[1..], top, links)
    ensures forall l :: l in links && l.1 == Some(f[0].root) ==> l in LinkSet(f[0].kids, Some(f[0].root))
  {
    hide Pre, Links, NoDup, Roots, LinkSet;
    var p, kids, rest := f[0].root, f[0].kids, f[1..];
    LinkSetParts(f, top);
    NodesOf(f);
    LinkEnds(kids, Some(p));
    LinkEnds(rest, top);
    NoDupParts(f);
  }

  /** `links` gives every process of `ps` the parent it is meant to have. */
  ghost predicate Right(links: set<Link>, ps: set<Process>, vis: map<Process, int>) {
    && (forall l :: l in links ==> l.0 in ps && Lineage(l.0, l.1, ps, vis))
    && (forall q :: q in ps ==> exists l :: l in links && l.0 == q)
  }

  lemma {:induction false} FullParts(f: Forest<Process>, top: Option<Process>, links: set<Link>, ps: set<Process>, vis: map<Process, int>)
    requires LinkSet(f, top) <= links && Closed(f, top, links) && Right(links, ps, vis)
    requires NoDup(Pre(f)) && (top.Some? ==> top.value !in Nodes(f)) && Nodes(f) <= ps && PidsDistinct(ps)
    ensures Full(f, ps, vis)
  {
    if f != [] {
      var p, kids, rest := f[0].root, f[0].kids, f[1..];
      LinkSetParts(f, top);
      NodesOf(f);
      NoDupParts(f);
      ClosedParts(f, top, links);
      KidsComplete(p, kids, links, ps, vis);
      FullParts(kids, Some(p), links, ps, vis);
      FullParts(rest, top, links, ps, vis);
    }
  }

  lemma {:induction false} KidsComplete(p: Process, kids: Forest<Process>, links: set<Link>, ps: set<Process>, vis: map<Process, int>)
    requires LinkSet(kids, Some(p)) <= links && Right(links, ps, vis) && p in ps && p !in Nodes(kids) && PidsDistinct(ps)
    requires forall l :: l in links && l.1 == Some(p) ==> l in LinkSet(kids, Some(p))
    ensures Elements(Roots(kids)) == KidsOf(p, ps, vis)
  {
    hide Orphan;
    LinkEnds(kids, Some(p));
    forall q | q in Roots(kids) ensures q in KidsOf(p, ps, vis) {
      RootLink(kids, Some(p), q);
      assert (q, Some(p)) in links;
    }
    forall q | q in KidsOf(p, ps, vis) ensures q in Roots(kids) {
      var l :| l in links && l.0 == q;
      assert Lineage(l.0, l.1, ps, vis);
      assert l.1 == Some(p);
    }
  }

  lemma {:induction false} RootLink(f: Forest<Process>, top: Option<Process>, q: Process)
    requires q in Roots(f)
    ensures (q, top) in LinkSet(f, top)
  {
    LinkSetParts(f, top);
    NodesOf(f);
    if q != f[0].root { RootLink(f[1..], top, q); }
  }

  // ----- complete, ordered groups leave no choice

  lemma {:induction false} RootsFall(f: Forest<Process>, pid: int, vis: map<Process, int>)
    requires Attached(f, pid, vis) && f != []
    ensures forall q :: q in Elements(Roots(f[1..])) ==> q.pid < f[0].root.pid
  {
    if |f| > 1 {
      RootsFall(f[1..], pid, vis);
      NodesOf(f[1..]);
    }
  }

  lemma {:induction false} RootsRise(f: Forest<Process>, ps: set<Process>, vis: map<Process, int>)
    requires Planted(f, ps, vis) && f != []
    ensures forall q :: q in Elements(Roots(f[1..])) ==> q.pid > f[0].root.pid
  {
    if |f| > 1 {
      RootsRise(f[1..], ps, vis);
      NodesOf(f[1..]);
    }
  }

  lemma {:induction false} NoRoots(f: Forest<Process>)
    ensures Elements(Roots(f)) == {} <==> f == []
  {
    if f != [] { assert f[0].root in Elements(Roots(f)) by { NodesOf(f); } }
  }

  lemma {:induction false} AttachedUnique(f: Forest<Process>, g: Forest<Process>, pid: int, ps: set<Process>, vis: map<Process, int>)
    requires Attached(f, pid, vis) && Attached(g, pid, vis) && Full(f, ps, vis) && Full(g, ps, vis)
    requires Elements(Roots(f)) == Elements(Roots(g))
    ensures f == g
    decreases f
  {
    NoRoots(f);
    NoRoots(g);
    if f != [] {
      RootsFall(f, pid, vis);
      RootsFall(g, pid, vis);
      NodesOf(f);
      NodesOf(g);
      hide Roots;
      assert f[0].root == g[0].root;
      AttachedUnique(f[0].kids, g[0].kids, f[0].root.pid, ps, vis);
      AttachedUnique(f[1..], g[1..], pid, ps, vis);
      assert f == [f[0]] + f[1..] && g == [g[0]] + g[1..];
    }
  }

  lemma {:induction false} PlantedUnique(f: Forest<Process>, g: Forest<Process>, ps: set<Process>, vis: map<Process, int>)
    requires Planted(f, ps, vis) && Planted(g, ps, vis) && Full(f, ps, vis) && Full(g, ps, vis)
    requires Elements(Roots(f)) == Elements(Roots(g))
    ensures f == g
    decreases f
  {
    NoRoots(f);
    NoRoots(g);
    if f != [] {
      RootsRise(f, ps, vis);
      RootsRise(g, ps, vis);
      NodesOf(f);
      NodesOf(g);
      hide Roots;
      assert f[0].root == g[0].root;
      AttachedUnique(f[0].kids, g[0].kids, f[0].root.pid, ps, vis);
      PlantedUnique(f[1..], g[1..], ps, vis);
      assert f == [f[0]] + f[1..] && g == [g[0]] + g[1..];
    }
  }

  lemma {:induction false} PlantedFull(f: Forest<Process>, ps: set<Process>, vis: map<Process, int>)
    requires Planted(f, ps, vis) && Nodes(f) == ps && NoDup(Pre(f)) && PidsDistinct(ps)
    ensures Full(f, ps, vis) && Elements(Roots(f)) == set q | q in ps && Orphan(q, ps, vis)
  {
    hide Orphan, Planted, Pre, Links;
    var links := LinkSet(f, None);
    LinkEnds(f, None);
    LineageOfAll(f, ps, vis);
    forall l | l in links ensures l.0 in ps && Lineage(l.0, l.1, ps, vis) {
      var k :| 0 <= k < |Links(f, None)| && Links(f, None)[k] == l;
    }
    FullParts(f, None, links, ps, vis);
    forall q | q in ps && Orphan(q, ps, vis) ensures q in Elements(Roots(f)) {
      var l :| l in links && l.0 == q;
    }
    forall q | q in Roots(f) ensures Orphan(q, ps, vis) && q in ps {
      RootLink(f, None, q);
      assert (q, None) in links;
    }
  }

  /** The same processes can be laid out in only one way. */
  lemma {:induction false} ForestUnique(f: Forest<Process>, g: Forest<Process>, ps: set<Process>, vis: map<Process, int>)
    requires Planted(f, ps, vis) && Nodes(f) == ps && NoDup(Pre(f))
    requires Planted(g, ps, vis) && Nodes(g) == ps && NoDup(Pre(g)) && PidsDistinct(ps)
    ensures f == g
  {
    PlantedFull(f, ps, vis);
    PlantedFull(g, ps, vis);
    PlantedUnique(f, g, ps, vis);
  }
}
