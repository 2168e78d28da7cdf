/** Sorting every sibling group of a forest: what `ProcessList_updateTreeSet` is for. */
module Resort {
  import opened Options
  import opened Order
  import opened Forest

  ghost function ByRoot<P>(cmp: (P, P) -> int): (Tree<P>, Tree<P>) -> int {
    (s: Tree<P>, t: Tree<P>) => cmp(s.root, t.root)
  }

  /** The trees of `f` with every sibling group below the roots sorted. */
  ghost function ResortKids<P>(cmp: (P, P) -> int, f: Forest<P>): Forest<P>
    decreases f, 0
  {
    if f == [] then [] else [Node(f[0].root, Resorted(cmp, f[0].kids))] + ResortKids(cmp, f[1..])
  }

  /** `f` with every sibling group sorted. */
  ghost function Resorted<P>(cmp: (P, P) -> int, f: Forest<P>): Forest<P>
    decreases f, 1
  {
    SortBy(ByRoot(cmp), ResortKids(cmp, f))
  }

  lemma {:induction false} ResortKidsAppend<P>(cmp: (P, P) -> int, a: Forest<P>, b: Forest<P>)
    ensures ResortKids(cmp, a + b) == ResortKids(cmp, a) + ResortKids(cmp, b)
  {
    if a == [] {
      assert a + b == b;
    } else {
      assert (a + b)[1..] == a[1..] + b;
      ResortKidsAppend(cmp, a[1..], b);
    }
  }

  lemma ResortKidsOne<P>(cmp: (P, P) -> int, t: Tree<P>)
    ensures ResortKids(cmp, [t]) == [Node(t.root, Resorted(cmp, t.kids))]
  {
    assert [t][1..] == [];
  }

  lemma SplitLast<T>(s: seq<T>)
    requires s != []
    ensures s == s[..|s| - 1] + [s[|s| - 1]]
  {
  }

  lemma {:induction false} ResortKidsInsert<P>(cmp: (P, P) -> int, f: Forest<P>, t: Tree<P>)
    ensures ResortKids(cmp, InsertLast(ByRoot(cmp), f, t))
         == InsertLast(ByRoot(cmp), ResortKids(cmp, f), Node(t.root, Resorted(cmp, t.kids)))
  {
    var t' := Node(t.root, Resorted(cmp, t.kids));
    ResortKidsOne(cmp, t);
    if f != [] {
      var front, last := f[..|f| - 1], f[|f| - 1];
      var front', last' := ResortKids(cmp, front), Node(last.root, Resorted(cmp, last.kids));
      SplitLast(f);
      ResortKidsAppend(cmp, front, [last]);
      ResortKidsOne(cmp, last);
      if cmp(last.root, t.root) <= 0 {
        ResortKidsAppend(cmp, f, [t]);
      } else {
        ResortKidsInsert(cmp, front, t);
        ResortKidsAppend(cmp, InsertLast(ByRoot(cmp), front, t), [last]);
        InsertLastAbove(ByRoot(cmp), front', last', t');
      }
    }
  }

  /** Sorting the roots first and the groups below afterwards comes to the same. */
  lemma {:induction false} ResortCommutes<P>(cmp: (P, P) -> int, f: Forest<P>)
    ensures ResortKids(cmp, SortBy(ByRoot(cmp), f)) == SortBy(ByRoot(cmp), ResortKids(cmp, f))
  {
    if f != [] {
      var front, last := f[..|f| - 1], f[|f| - 1];
      ResortCommutes(cmp, front);
      SplitLast(f);
      ResortKidsAppend(cmp, front, [last]);
      ResortKidsOne(cmp, last);
      ResortKidsInsert(cmp, SortBy(ByRoot(cmp), front), last);
      SortOne(ByRoot(cmp), ResortKids(cmp, front), Node(last.root, Resorted(cmp, last.kids)));
    }
  }

  lemma {:induction false} RootsInsert<P>(cmp: (P, P) -> int, f: Forest<P>, t: Tree<P>)
    ensures Roots(InsertLast(ByRoot(cmp), f, t)) == InsertLast(cmp, Roots(f), t.root)
  {
    assert Roots([t]) == [t.root];
    if f != [] {
      var front, last := f[..|f| - 1], f[|f| - 1];
      SplitLast(f);
      RootsAppend(front, [last]);
      assert Roots([last]) == [last.root];
      if cmp(last.root, t.root) <= 0 {
        RootsAppend(f, [t]);
      } else {
        RootsInsert(cmp, front, t);
        RootsAppend(InsertLast(ByRoot(cmp), front, t), [last]);
        InsertLastAbove(cmp, Roots(front), last.root, t.root);
      }
    }
  }

  /** Sorting trees by their roots sorts the roots. */
  lemma {:induction false} RootsSort<P>(cmp: (P, P) -> int, f: Forest<P>)
    ensures Roots(SortBy(ByRoot(cmp), f)) == SortBy(cmp, Roots(f))
  {
    if f != [] {
      var front, last := f[..|f| - 1], f[|f| - 1];
      RootsSort(cmp, front);
      SplitLast(f);
      RootsAppend(front, [last]);
      assert Roots([last]) == [last.root];
      RootsInsert(cmp, SortBy(ByRoot(cmp), front), last);
      SortOne(cmp, Roots(front), last.root);
    }
  }

  lemma LinksPull<P>(a: Forest<P>, t: Tree<P>, b: Forest<P>, top: Option<P>)
    ensures multiset(Links(a + [t] + b, top)) == multiset(Links([t], top)) + multiset(Links(a + b, top))
  {
    hide Links;
    LinksAppend(a + [t], b, top);
    LinksAppend(a, [t], top);
    LinksAppend(a, b, top);
  }

  lemma PullOut<T>(s: seq<T>, t: T) returns (a: seq<T>, b: seq<T>)
    requires t in s
    ensures s == a + [t] + b && multiset(a + b) == multiset(s) - multiset{t}
  {
    var j :| 0 <= j < |s| && s[j] == t;
    a, b := s[..j], s[j + 1..];
    assert s == a + [t] + b;
  }

  lemma HeadAway<T>(s: seq<T>)
    requires s != []
    ensures s == [s[0]] + s[1..] && multiset(s[1..]) == multiset(s) - multiset{s[0]}
  {
    assert s == [s[0]] + s[1..];
  }

  /** The links of a forest depend on the order of its trees only by order. */
  lemma {:induction false} LinksPermute<P>(f: Forest<P>, g: Forest<P>, top: Option<P>)
    requires multiset(f) == multiset(g)
    ensures multiset(Links(f, top)) == multiset(Links(g, top))
    decreases |f|
  {
    if f == [] {
      SameElements(f, g);
    } else {
      hide Links;
      var t := f[0];
      SameElements(f, g);
      assert t in Elements(f);
      var a, b := PullOut(g, t);
      HeadAway(f);
      LinksPermute(f[1..], a + b, top);
      LinksAppend([t], f[1..], top);
      LinksPull(a, t, b, top);
    }
  }

  /** Re-sorting keeps every process and every parent. */
  lemma {:induction false} ResortKeepsLinks<P>(cmp: (P, P) -> int, f: Forest<P>, top: Option<P>)
    ensures multiset(Links(Resorted(cmp, f), top)) == multiset(Links(f, top))
    decreases f, 1
  {
    SortPermutes(ByRoot(cmp), ResortKids(cmp, f));
    LinksPermute(Resorted(cmp, f), ResortKids(cmp, f), top);
    ResortKidsKeepsLinks(cmp, f, top);
  }

  lemma {:induction false} ResortKidsKeepsLinks<P>(cmp: (P, P) -> int, f: Forest<P>, top: Option<P>)
    ensures multiset(Links(ResortKids(cmp, f), top)) == multiset(Links(f, top))
    decreases f, 0
  {
    if f != [] {
      var t := Node(f[0].root, Resorted(cmp, f[0].kids));
      ResortKeepsLinks(cmp, f[0].kids, Some(f[0].root));
      ResortKidsKeepsLinks(cmp, f[1..], top);
      LinksAppend([t], ResortKids(cmp, f[1..]), top);
      LinksAppend([f[0]], f[1..], top);
      assert f == [f[0]] + f[1..];
      One(t, 0, 0, 0, top);
      One(f[0], 0, 0, 0, top);
    }
  }

  /** Every sibling group of `f` is in order. */
  ghost predicate SiblingsSorted<P>(cmp: (P, P) -> int, f: Forest<P>) {
    Sorted(cmp, Roots(f)) && forall t :: t in f ==> SiblingsSorted(cmp, t.kids)
  }

  lemma {:induction false} RootsInPre<P>(f: Forest<P>, t: Tree<P>)
    requires t in f
    ensures t.root in Nodes(f) && Nodes(t.kids) <= Nodes(f)
  {
    if t != f[0] { RootsInPre(f[1..], t); }
  }

  lemma {:induction false} ResortKidsAt<P>(cmp: (P, P) -> int, f: Forest<P>)
    ensures |ResortKids(cmp, f)| == |f|
    ensures forall j :: 0 <= j < |f| ==> ResortKids(cmp, f)[j] == Node(f[j].root, Resorted(cmp, f[j].kids))
  {
    if f != [] { ResortKidsAt(cmp, f[1..]); }
  }

  /** Re-sorting sorts every sibling group. */
  lemma {:induction false} ResortSorts<P>(cmp: (P, P) -> int, f: Forest<P>, u: set<P>)
    requires Nodes(f) <= u && TotalPreorder(cmp, u)
    ensures SiblingsSorted(cmp, Resorted(cmp, f))
    decreases f
  {
    hide TotalPreorder;
    var r, k := Resorted(cmp, f), ResortKids(cmp, f);
    ResortKidsAt(cmp, f);
    SortPermutes(ByRoot(cmp), k);
    RootsSort(cmp, k);
    RootsAt(k);
    forall p | p in Elements(Roots(k)) ensures p in u {
      var j :| 0 <= j < |k| && Roots(k)[j] == p;
      RootsInPre(f, f[j]);
    }
    SortSorts(cmp, Roots(k), u);
    forall t | t in r ensures SiblingsSorted(cmp, t.kids) {
      assert t in multiset(r);
      var j :| 0 <= j < |k| && k[j] == t;
      RootsInPre(f, f[j]);
      ResortSorts(cmp, f[j].kids, u);
    }
  }

  ghost function Firsts<P>(s: seq<(P, Option<P>)>): seq<P> {
    if s == [] then [] else [s[0].0] + Firsts(s[1..])
  }

  lemma {:induction false} FirstsAppend<P>(a: seq<(P, Option<P>)>, b: seq<(P, Option<P>)>)
    ensures Firsts(a + b) == Firsts(a) + Firsts(b)
  {
    if a == [] {
      assert a + b == b;
    } else {
      assert (a + b)[1..] == a[1..] + b;
      FirstsAppend(a[1..], b);
    }
  }

  lemma {:induction false} FirstsOfLinks<P>(f: Forest<P>, top: Option<P>)
    ensures Firsts(Links(f, top)) == Pre(f)
  {
    if f != [] {
      FirstsOfLinks(f[0].kids, Some(f[0].root));
      FirstsOfLinks(f[1..], top);
      var h: seq<(P, Option<P>)> := [(f[0].root, top)];
      FirstsAppend(h + Links(f[0].kids, Some(f[0].root)), Links(f[1..], top));
      FirstsAppend(h, Links(f[0].kids, Some(f[0].root)));
      assert Firsts(h) == [f[0].root] + Firsts(h[1..]);
    }
  }

  lemma {:induction false} FirstsPermute<P>(a: seq<(P, Option<P>)>, b: seq<(P, Option<P>)>)
    requires multiset(a) == multiset(b)
    ensures multiset(Firsts(a)) == multiset(Firsts(b))
    decreases |a|
  {
    SameElements(a, b);
    if a != [] {
      hide Firsts;
      assert a[0] in Elements(a);
      var x, y := PullOut(b, a[0]);
      HeadAway(a);
      FirstsPermute(a[1..], x + y);
      FirstsAppend([a[0]], a[1..]);
      FirstsAppend(x + [a[0]], y);
      FirstsAppend(x, [a[0]]);
      FirstsAppend(x, y);
    }
  }

  /** Equal links up to order mean equal processes up to order. */
  lemma SameLinksSamePre<P>(f: Forest<P>, g: Forest<P>, top: Option<P>)
    requires multiset(Links(f, top)) == multiset(Links(g, top))
    ensures multiset(Pre(f)) == multiset(Pre(g)) && Size(f) == Size(g) && Nodes(f) == Nodes(g)
  {
    hide Links, Firsts;
    FirstsPermute(Links(f, top), Links(g, top));
    FirstsOfLinks(f, top);
    FirstsOfLinks(g, top);
    SameElements(Pre(f), Pre(g));
    Lengths(f, 0, 0, 0, top);
    Lengths(g, 0, 0, 0, top);
  }

  lemma ResortKeepsNodes<P>(cmp: (P, P) -> int, f: Forest<P>)
    ensures var g := Resorted(cmp, f); multiset(Pre(g)) == multiset(Pre(f)) && Size(g) == Size(f) && Nodes(g) == Nodes(f)
    ensures var g := ResortKids(cmp, f); multiset(Pre(g)) == multiset(Pre(f)) && Size(g) == Size(f) && Nodes(g) == Nodes(f)
  {
    hide Links, Resorted, ResortKids;
    ResortKeepsLinks(cmp, f, None);
    ResortKidsKeepsLinks(cmp, f, None);
    SameLinksSamePre(Resorted(cmp, f), f, None);
    SameLinksSamePre(ResortKids(cmp, f), f, None);
  }

  lemma {:induction false} PrePermute<P>(f: Forest<P>, g: Forest<P>)
    requires multiset(f) == multiset(g)
    ensures multiset(Pre(f)) == multiset(Pre(g)) && Size(f) == Size(g) && Nodes(f) == Nodes(g)
  {
    hide Links;
    LinksPermute(f, g, None);
    SameLinksSamePre(f, g, None);
  }

  /** What sorting the trees of `f` by their roots keeps. */
  lemma SortedTrees<P>(cmp: (P, P) -> int, f: Forest<P>)
    ensures var g := SortBy(ByRoot(cmp), f);
            && multiset(g) == multiset(f) && multiset(Pre(g)) == multiset(Pre(f))
            && Size(g) == Size(f) && Nodes(g) == Nodes(f)
            && Roots(g) == SortBy(cmp, Roots(f)) && |Roots(g)| == |g|
            && ResortKids(cmp, g) == Resorted(cmp, f)
  {
    hide Pre, Size, Nodes, Roots;
    SortPermutes(ByRoot(cmp), f);
    PrePermute(SortBy(ByRoot(cmp), f), f);
    RootsSort(cmp, f);
    RootsAt(SortBy(ByRoot(cmp), f));
    ResortCommutes(cmp, f);
  }

  lemma PrefixNext<T>(s: seq<T>, i: nat)
    requires i < |s|
    ensures s[..i + 1] == s[..i] + [s[i]] && s[..|s|] == s && s[..0] == []
  {
  }

  lemma NoKids<P>(cmp: (P, P) -> int)
    ensures ResortKids<P>(cmp, []) == []
  {
  }

  lemma ResortKidsNext<P>(cmp: (P, P) -> int, g: Forest<P>, i: nat)
    requires i < |g|
    ensures ResortKids(cmp, g[..i + 1]) == ResortKids(cmp, g[..i]) + [Node(g[i].root, Resorted(cmp, g[i].kids))]
    ensures ResortKids(cmp, g[..0]) == []
    ensures ResortKids(cmp, g[..|g|]) == ResortKids(cmp, g)
  {
    hide Resorted, ResortKids;
    NoKids(cmp);
    PrefixNext(g, i);
    ResortKidsAppend(cmp, g[..i], [g[i]]);
    ResortKidsOne(cmp, g[i]);
  }
}
