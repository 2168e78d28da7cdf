/** What the built forest says about each process: its parent, its visibility, and when a forest
    can be built at all. */
module TreeMeaning {
  import opened Options
  import opened Order
  import opened Forest
  import opened Processes
  import opened TreeBuilding

  lemma {:induction false} ShownLength(f: Forest<Process>, show: bool, vis: map<Process, int>, open: set<Process>)
    ensures |Shown(f, show, vis, open)| == Size(f)
  {
    if f != [] {
      ShownLength(f[0].kids, show && f[0].root in vis && f[0].root in open, vis, open);
      ShownLength(f[1..], show, vis, open);
    }
  }

  lemma AllLengths(f: Forest<Process>, top: Option<Process>, show: bool, vis: map<Process, int>, open: set<Process>)
    ensures |Pre(f)| == |Links(f, top)| == |Shown(f, show, vis, open)| == Size(f)
  {
    Lengths(f, 0, 0, 0, top);
    ShownLength(f, show, vis, open);
  }

  /** The parts of a preorder: the root of the first tree, what is below it, the other trees. */
  ghost predicate Parts<T>(whole: seq<T>, x: T, a: seq<T>, b: seq<T>, n: nat, m: nat) {
    && |whole| == 1 + n + m && |a| == n && |b| == m && whole[0] == x
    && (forall k :: 1 <= k <= n ==> whole[k] == a[k - 1])
    && (forall k :: n < k <= n + m ==> whole[k] == b[k - 1 - n])
  }

  lemma PartsOf<T>(x: T, a: seq<T>, b: seq<T>)
    ensures Parts([x] + a + b, x, a, b, |a|, |b|)
  {
  }

  /** Where the nodes of `f` are, in `f[0]` or in the rest. */
  lemma HeadParts(f: Forest<Process>, top: Option<Process>, show: bool, vis: map<Process, int>, open: set<Process>)
    requires f != []
    ensures Size(f) == 1 + Size(f[0].kids) + Size(f[1..])
    ensures var own, n, m := show && f[0].root in vis, Size(f[0].kids), Size(f[1..]);
            && Parts(Links(f, top), (f[0].root, top), Links(f[0].kids, Some(f[0].root)), Links(f[1..], top), n, m)
            && Parts(Pre(f), f[0].root, Pre(f[0].kids), Pre(f[1..]), n, m)
            && Parts(Shown(f, show, vis, open), own,
                     Shown(f[0].kids, own && f[0].root in open, vis, open), Shown(f[1..], show, vis, open), n, m)
  {
    hide Parts;
    var own := show && f[0].root in vis;
    var below := own && f[0].root in open;
    AllLengths(f[0].kids, Some(f[0].root), below, vis, open);
    AllLengths(f[1..], top, show, vis, open);
    PartsOf((f[0].root, top), Links(f[0].kids, Some(f[0].root)), Links(f[1..], top));
    PartsOf(f[0].root, Pre(f[0].kids), Pre(f[1..]));
    PartsOf(own, Shown(f[0].kids, below, vis, open), Shown(f[1..], show, vis, open));
  }

  /** The parent of the `k`th node stands before it (position -1 is `top`), and decides with it what shows. */
  lemma {:induction false} ParentBefore(f: Forest<Process>, top: Option<Process>, show: bool,
                                        vis: map<Process, int>, open: set<Process>, k: nat) returns (j: int)
    requires k < Size(f)
    ensures -1 <= j < k < |Links(f, top)| == |Pre(f)| == |Shown(f, show, vis, open)|
    ensures Links(f, top)[k] == (Pre(f)[k], if j < 0 then top else Some(Pre(f)[j]))
    ensures var shown := Shown(f, show, vis, open);
            shown[k] <==> Pre(f)[k] in vis && if j < 0 then show else shown[j] && Pre(f)[j] in open
  {
    hide Links, Pre, Shown, Size;
    EmptySize();
    HeadParts(f, top, show, vis, open);
    var n, own := Size(f[0].kids), show && f[0].root in vis;
    if k == 0 {
      j := -1;
    } else if k <= n {
      var i := ParentBefore(f[0].kids, Some(f[0].root), own && f[0].root in open, vis, open, k - 1);
      j := i + 1;
    } else {
      var i := ParentBefore(f[1..], top, show, vis, open, k - 1 - n);
      j := if i < 0 then -1 else i + 1 + n;
    }
  }

  /** A root shows when it was visible; any other process when it was, its parent shows, and its
      parent is unfolded. */
  lemma ShownByParent(f: Forest<Process>, vis: map<Process, int>, open: set<Process>, k: nat)
    requires k < Size(f)
    ensures |Links(f, None)| == |Shown(f, true, vis, open)| == |Pre(f)| == Size(f)
    ensures var (p, parent) := Links(f, None)[k]; var shown := Shown(f, true, vis, open);
            && p == Pre(f)[k]
            && (parent == None ==> (shown[k] <==> p in vis))
            && (parent.Some? ==> exists j :: 0 <= j < k && Pre(f)[j] == parent.value &&
                                             (shown[k] <==> p in vis && shown[j] && parent.value in open))
  {
    hide Links, Pre, Shown, Size;
    AllLengths(f, None, true, vis, open);
    var j := ParentBefore(f, None, true, vis, open, k);
  }

  /** A forest with the intended parents exists only for processes without cycles: what `BuildTree`
      asks for cannot be weakened. */
  lemma PlantedAcyclic(f: Forest<Process>, ps: set<Process>, vis: map<Process, int>)
    requires Planted(f, ps, vis) && Nodes(f) == ps && NoDup(Pre(f)) && PidsDistinct(ps)
    ensures Acyclic(ps, vis)
  {
    hide Planted, Links, Shown, Size;
    forall s: set<Process> | s <= ps && s != {} ensures exists p :: p in s && Orphan(p, s, vis) {
      var p :| p in s;
      assert p in Nodes(f);
      var k := FirstIn(Pre(f), s);
      AllLengths(f, None, true, vis, {});
      var j := ParentBefore(f, None, true, vis, {}, k);
      LineageOfAll(f, ps, vis);
      assert Lineage(Links(f, None)[k].0, Links(f, None)[k].1, ps, vis);
      assert Orphan(Pre(f)[k], s, vis);
    }
  }

  lemma {:induction false} FirstIn<T>(ps: seq<T>, s: set<T>) returns (k: nat)
    requires exists p :: p in ps && p in s
    ensures k < |ps| && ps[k] in s && forall j :: 0 <= j < k ==> ps[j] !in s
  {
    if ps[0] in s {
      k := 0;
    } else {
      var i := FirstIn(ps[1..], s);
      k := i + 1;
    }
  }
}
