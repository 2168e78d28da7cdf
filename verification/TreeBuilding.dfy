/** What `ProcessList_buildTree` promises: who hangs under whom, and who is shown. */
module TreeBuilding {
  import opened Options
  import opened Order
  import opened Forest
  import opened Indent
  import opened ProcessCompare
  import opened Processes
  import opened TreeLayers
  import opened Siblings

  // ----- parents

  /** Among `ps`, `p` has nobody to hang under; `vis` gives the visible processes their parent PIDs. */
  ghost predicate Orphan(p: Process, ps: set<Process>, vis: map<Process, int>) {
    p !in vis || vis[p] == 0 || vis[p] == p.pid || forall q :: q in ps ==> q.pid != vis[p]
  }

  /** No cycle of visible processes: every non-empty group has a member without a parent in the group. */
  ghost predicate Acyclic(ps: set<Process>, vis: map<Process, int>) {
    forall s: set<Process> :: s <= ps && s != {} ==> exists p :: p in s && Orphan(p, s, vis)
  }

  /** The tree parent a process is meant to have. */
  ghost predicate Lineage(p: Process, parent: Option<Process>, ps: set<Process>, vis: map<Process, int>) {
    match parent
    case None => Orphan(p, ps, vis)
    case Some(q) => !Orphan(p, ps, vis) && q in ps && q.pid == vis[p]
  }

  /** `f` hangs under the process `pid`: every edge below is a parent PID, every node was visible, and
      siblings stand in descending order of their PIDs. */
  ghost predicate Attached(f: Forest<Process>, pid: int, vis: map<Process, int>) {
    f == [] || (
      && pid != 0 && f[0].root in vis && vis[f[0].root] == pid
      && Attached(f[0].kids, f[0].root.pid, vis) && Attached(f[1..], pid, vis)
      && (|f| > 1 ==> f[0].root.pid > f[1].root.pid))
  }

  /** The trees of the whole list: orphans, in ascending order, with what hangs under them. */
  ghost predicate Planted(f: Forest<Process>, ps: set<Process>, vis: map<Process, int>) {
    f == [] || (
      && Orphan(f[0].root, ps, vis) && Attached(f[0].kids, f[0].root.pid, vis) && Planted(f[1..], ps, vis)
      && (|f| > 1 ==> f[0].root.pid < f[1].root.pid))
  }

  /** No visible process of `rest` was left behind by a placed parent. */
  ghost predicate Complete(rest: seq<Process>, placed: seq<Process>, vis: map<Process, int>) {
    forall p, q :: p in placed && q in rest && q in vis && p.pid != 0 ==> vis[q] != p.pid
  }

  lemma {:induction false} AttachedAppend(a: Forest<Process>, b: Forest<Process>, pid: int, vis: map<Process, int>)
    requires Attached(a, pid, vis) && Attached(b, pid, vis)
    requires a != [] && b != [] ==> a[|a| - 1].root.pid > b[0].root.pid
    ensures Attached(a + b, pid, vis)
  {
    if a == [] {
      assert a + b == b;
    } else {
      assert (a + b)[1..] == a[1..] + b;
      assert a[1..] != [] ==> a[1..][|a| - 2] == a[|a| - 1];
      AttachedAppend(a[1..], b, pid, vis);
    }
  }

  lemma {:induction false} PlantedAppend(a: Forest<Process>, b: Forest<Process>, ps: set<Process>, vis: map<Process, int>)
    requires Planted(a, ps, vis) && Planted(b, ps, vis)
    requires a != [] && b != [] ==> a[|a| - 1].root.pid < b[0].root.pid
    ensures Planted(a + b, ps, vis)
  {
    if a == [] {
      assert a + b == b;
    } else {
      assert (a + b)[1..] == a[1..] + b;
      assert a[1..] != [] ==> a[1..][|a| - 2] == a[|a| - 1];
      PlantedAppend(a[1..], b, ps, vis);
    }
  }

  // ----- visibility

  /** Whether each node is shown in the end: it was visible, what is above it is shown and unfolded. */
  ghost function Shown(f: Forest<Process>, show: bool, vis: map<Process, int>, open: set<Process>): seq<bool> {
    if f == [] then []
    else
      var own := show && f[0].root in vis;
      [own] + Shown(f[0].kids, own && f[0].root in open, vis, open) + Shown(f[1..], show, vis, open)
  }

  ghost predicate Displayed(ps: seq<Process>, flags: seq<bool>)
    reads set p | p in ps
  {
    |ps| == |flags| && forall j :: 0 <= j < |ps| ==> ps[j].show == flags[j]
  }

  lemma {:induction false} ShownAppend(a: Forest<Process>, b: Forest<Process>, show: bool, vis: map<Process, int>, open: set<Process>)
    ensures Shown(a + b, show, vis, open) == Shown(a, show, vis, open) + Shown(b, show, vis, open)
  {
    if a == [] {
      assert a + b == b;
    } else {
      assert (a + b)[1..] == a[1..] + b;
      ShownAppend(a[1..], b, show, vis, open);
    }
  }

  lemma ShownOne(t: Tree<Process>, show: bool, vis: map<Process, int>, open: set<Process>)
    ensures var own := show && t.root in vis;
            Shown([t], show, vis, open) == [own] + Shown(t.kids, own && t.root in open, vis, open)
  {
    assert [t][1..] == [];
  }

  // ----- order

  function Reverse<T>(s: seq<T>): (r: seq<T>) {
    if s == [] then [] else Reverse(s[1..]) + [s[0]]
  }

  lemma {:induction false} ReverseAppend<T>(a: seq<T>, b: seq<T>)
    ensures Reverse(a + b) == Reverse(b) + Reverse(a)
  {
    if a == [] {
      assert a + b == b;
    } else {
      assert (a + b)[1..] == a[1..] + b;
      ReverseAppend(a[1..], b);
    }
  }

  lemma {:induction false} ReversePermutes<T>(s: seq<T>)
    ensures multiset(Reverse(s)) == multiset(s)
  {
    if s != [] {
      ReversePermutes(s[1..]);
      assert s == [s[0]] + s[1..];
    }
  }

  /** `ps` added to `queue`, one by one: behind it, or each in front when descending. */
  function Queued<T>(ascending: bool, queue: seq<T>, ps: seq<T>): seq<T> {
    if ascending then queue + ps else Reverse(ps) + queue
  }

  lemma QueuedAppend<T>(ascending: bool, queue: seq<T>, a: seq<T>, b: seq<T>)
    ensures Queued(ascending, Queued(ascending, queue, a), b) == Queued(ascending, queue, a + b)
  {
    hide Reverse;
    ReverseAppend(a, b);
    assert queue + a + b == queue + (a + b);
    assert Reverse(b) + (Reverse(a) + queue) == Reverse(b) + Reverse(a) + queue;
  }

  ghost predicate PidSorted(ps: seq<Process>) {
    forall i, j :: 0 <= i < j < |ps| ==> ps[i].pid < ps[j].pid
  }

  function IsChild(pid: int, vis: map<Process, int>): Process -> bool {
    p => p in vis && vis[p] == pid
  }

  function IsOther(pid: int, vis: map<Process, int>): Process -> bool {
    p => !(p in vis && vis[p] == pid)
  }

  lemma {:induction false} FilterSplits(pid: int, vis: map<Process, int>, s: seq<Process>)
    ensures multiset(Filter(IsChild(pid, vis), s)) + multiset(Filter(IsOther(pid, vis), s)) == multiset(s)
  {
    hide Filter;
    FilterNothing(IsChild(pid, vis));
    FilterNothing(IsOther(pid, vis));
    if s != [] {
      var front, last := s[..|s| - 1], s[|s| - 1];
      FilterSplits(pid, vis, front);
      assert s == front + [last];
      FilterOne(IsChild(pid, vis), front, last);
      FilterOne(IsOther(pid, vis), front, last);
    }
  }

  lemma {:induction false} FilterPidSorted(keep: Process -> bool, s: seq<Process>)
    requires PidSorted(s)
    ensures PidSorted(Filter(keep, s))
  {
    if s != [] {
      var front, last := s[..|s| - 1], s[|s| - 1];
      FilterPidSorted(keep, front);
      forall i | 0 <= i < |Filter(keep, front)| ensures Filter(keep, front)[i].pid < last.pid {
        FilterAt(keep, front, i);
      }
    }
  }

  lemma TakeStep<T>(keep: T -> bool, s: seq<T>, i: nat)
    requires i < |s|
    ensures Filter(keep, s[i..]) == if keep(s[i]) then [s[i]] + Filter(keep, s[i + 1..]) else Filter(keep, s[i + 1..])
  {
    assert s[i..] == [s[i]] + s[i + 1..];
    FilterAppend(keep, [s[i]], s[i + 1..]);
    assert [s[i]][..0] == [];
    assert Filter(keep, [s[i]]) == if keep(s[i]) then [s[i]] else [];
  }

  lemma ReverseGrows<T>(s: seq<T>, x: T)
    ensures Reverse([x] + s) == Reverse(s) + [x]
  {
    assert ([x] + s)[1..] == s;
  }

  /** Processes not yet placed carry the flags they came with. */
  ghost predicate Unbuilt(ps: seq<Process>, vis: map<Process, int>, open: set<Process>)
    reads set p | p in ps
  {
    forall p :: p in ps ==>
      (p.show <==> p in vis) && (p.showChildren <==> p in open) && (p in vis ==> vis[p] == ParentPid(p))
  }

  /** Three disjoint parts of a list without repetition. */
  lemma PartsApart<T>(whole: seq<T>, a: seq<T>, b: seq<T>, c: seq<T>)
    requires NoDup(whole) && multiset(whole) == multiset(a) + multiset(b) + multiset(c)
    ensures NoDup(a)
    ensures forall x :: x in a || x in b || x in c ==> x in whole
    ensures forall x :: x in a ==> x !in b && x !in c
    ensures forall x :: x in b ==> x !in c
  {
    NoDupOnce(whole);
    forall x ensures multiset(a)[x] + multiset(b)[x] + multiset(c)[x] <= 1 {
      assert multiset(whole)[x] <= 1;
    }
    OnceNoDup(a);
    forall x | x in a || x in b || x in c ensures x in whole {
      assert x in multiset(whole);
    }
    forall x | x in a ensures x !in b && x !in c { assert multiset(a)[x] >= 1; }
    forall x | x in b ensures x !in c { assert multiset(b)[x] >= 1; }
  }

  lemma CompleteShrinks(rest: seq<Process>, rest': seq<Process>, placed: seq<Process>, vis: map<Process, int>)
    requires Complete(rest, placed, vis) && forall q :: q in rest' ==> q in rest
    ensures Complete(rest', placed, vis)
  {
  }

  lemma CompleteAppend(rest: seq<Process>, a: seq<Process>, b: seq<Process>, vis: map<Process, int>)
    requires Complete(rest, a, vis) && Complete(rest, b, vis)
    ensures Complete(rest, a + b, vis)
  {
  }

  lemma DisplayedAppend(a: Forest<Process>, t: Tree<Process>, show: bool, vis: map<Process, int>, open: set<Process>)
    requires Displayed(Pre(a), Shown(a, show, vis, open))
    requires Displayed(Pre([t]), Shown([t], show, vis, open))
    ensures Displayed(Pre(a + [t]), Shown(a + [t], show, vis, open))
  {
    hide Pre, Shown;
    PreAppend(a, [t]);
    ShownAppend(a, [t], show, vis, open);
  }

  lemma DisplayedTree(t: Tree<Process>, show: bool, vis: map<Process, int>, open: set<Process>)
    requires t.root.show == (show && t.root in vis)
    requires Displayed(Pre(t.kids), Shown(t.kids, show && t.root in vis && t.root in open, vis, open))
    ensures Displayed(Pre([t]), Shown([t], show, vis, open))
  {
    hide Pre, Shown;
    One(t, 0, 0, 0, None);
    ShownOne(t, show, vis, open);
  }

  lemma SameSize<T>(whole: seq<T>, a: seq<T>, b: seq<T>)
    requires multiset(whole) == multiset(a) + multiset(b)
    ensures |whole| == |a| + |b|
  {
    assert |multiset(whole)| == |multiset(a)| + |multiset(b)|;
  }

  lemma {:induction false} ReverseAt<T>(s: seq<T>)
    ensures |Reverse(s)| == |s| && forall k :: 0 <= k < |s| ==> Reverse(s)[k] == s[|s| - 1 - k]
  {
    if s != [] { ReverseAt(s[1..]); }
  }

  lemma ReverseFalls(ps: seq<Process>)
    requires PidSorted(ps)
    ensures Falling(Reverse(ps))
  {
    ReverseAt(ps);
  }

  /** What taking the children of `pid` leaves. */
  lemma TakenChildren(pid: int, ps: seq<Process>, vis: map<Process, int>)
    ensures var rest, children := Filter(IsOther(pid, vis), ps), Reverse(Filter(IsChild(pid, vis), ps));
            && multiset(ps) == multiset(rest) + multiset(children)
            && |rest| + |children| == |ps|
            && (forall c :: c in children ==> c in ps && c in vis && vis[c] == pid)
            && (forall q :: q in rest ==> q in ps && (q in vis ==> vis[q] != pid))
            && (PidSorted(ps) ==> PidSorted(rest) && Falling(children))
  {
    hide Filter, Reverse, PidSorted, Falling;
    var rest, taken := Filter(IsOther(pid, vis), ps), Filter(IsChild(pid, vis), ps);
    FilterSplits(pid, vis, ps);
    ReversePermutes(taken);
    SameSize(ps, rest, Reverse(taken));
    if PidSorted(ps) {
      FilterPidSorted(IsOther(pid, vis), ps);
      FilterPidSorted(IsChild(pid, vis), ps);
      ReverseFalls(taken);
    }
    forall c | c in Reverse(taken) ensures c in ps && c in vis && vis[c] == pid {
      assert c in multiset(Reverse(taken));
      FilterMember(IsChild(pid, vis), ps, c);
    }
    forall q | q in rest ensures q in ps && (q in vis ==> vis[q] != pid) {
      FilterMember(IsOther(pid, vis), ps, q);
    }
  }

  /** The list and the taken children when the downward scan has passed position `i`. */
  ghost function Rest(pid: int, vis: map<Process, int>, s: seq<Process>, i: nat): seq<Process>
    requires i <= |s|
  {
    s[..i] + Filter(IsOther(pid, vis), s[i..])
  }

  ghost function Taken(pid: int, vis: map<Process, int>, s: seq<Process>, i: nat): seq<Process>
    requires i <= |s|
  {
    Reverse(Filter(IsChild(pid, vis), s[i..]))
  }

  lemma TakeEnds(pid: int, vis: map<Process, int>, s: seq<Process>)
    ensures Rest(pid, vis, s, |s|) == s && Taken(pid, vis, s, |s|) == []
    ensures Rest(pid, vis, s, 0) == Filter(IsOther(pid, vis), s) && Taken(pid, vis, s, 0) == Reverse(Filter(IsChild(pid, vis), s))
  {
    assert s[0..] == s && s[..|s|] == s && s[|s|..] == [];
  }

  lemma TakeRound(pid: int, vis: map<Process, int>, s: seq<Process>, i: nat)
    requires i < |s|
    ensures var now, p := Rest(pid, vis, s, i + 1), s[i];
            && i < |now| && now[i] == p
            && if p in vis && vis[p] == pid
               then now[..i] + now[i + 1..] == Rest(pid, vis, s, i)
                    && Taken(pid, vis, s, i + 1) + [p] == Taken(pid, vis, s, i)
               else now == Rest(pid, vis, s, i) && Taken(pid, vis, s, i + 1) == Taken(pid, vis, s, i)
  {
    hide Filter, Reverse;
    TakeStep(IsOther(pid, vis), s, i);
    TakeStep(IsChild(pid, vis), s, i);
    TakeAt(s, i, Filter(IsOther(pid, vis), s[i + 1..]));
    ReverseGrows(Filter(IsChild(pid, vis), s[i + 1..]), s[i]);
  }

  lemma TakeAt<T>(s: seq<T>, i: nat, rest: seq<T>)
    requires i < |s|
    ensures var now := s[..i + 1] + rest;
            now[i] == s[i] && now[..i] + now[i + 1..] == s[..i] + rest && now == s[..i] + ([s[i]] + rest)
  {
  }

  /** Putting a node in after everything below it, or before. */
  lemma NumberedFirst<T>(m: map<nat, T>, i: nat, p: T, ps: seq<T>)
    ensures m[i := p] + Numbered(i + 1, ps) == m + Numbered(i, [p] + ps)
  {
    NumberedAppend(i, [p], ps);
    NumberedAt(i, [p]);
    NumberedAt(i + 1, ps);
  }

  lemma Inside<T>(whole: seq<T>, a: seq<T>, b: seq<T>)
    requires multiset(whole) == multiset(a) + multiset(b)
    ensures forall x :: x in a || x in b ==> x in whole
    ensures NoDup(whole) ==> NoDup(a)
  {
    forall x | x in a || x in b ensures x in whole {
      assert x in multiset(whole);
    }
    if NoDup(whole) { PartsApart(whole, a, b, []); }
  }

  lemma CompleteTree(rest: seq<Process>, t: Tree<Process>, vis: map<Process, int>)
    requires Complete(rest, Pre(t.kids), vis)
    requires t.root.pid != 0 ==> forall q :: q in rest && q in vis ==> vis[q] != t.root.pid
    ensures Complete(rest, Pre([t]), vis)
  {
    hide Pre;
    One(t, 0, 0, 0, None);
  }

  lemma QueuedOne<T>(ascending: bool, queue: seq<T>, x: T)
    ensures Queued(ascending, queue, [x]) == if ascending then queue + [x] else [x] + queue
  {
    assert [x][1..] == [] && Reverse<T>([]) == [];
  }

  lemma IndentStep(level: nat, indent: nat, last: bool)
    ensures var next: int := SetBit(indent, level); Own(level + 1, indent, last) == if last then -next else next
    ensures Below(level + 1, indent, last) == if last then indent else SetBit(indent, level)
  {
  }

  lemma UnbuiltPart(ps: seq<Process>, part: seq<Process>, vis: map<Process, int>, open: set<Process>)
    requires Unbuilt(ps, vis, open) && forall p :: p in part ==> p in ps
    ensures Unbuilt(part, vis, open)
  {
  }

  lemma UnbuiltHead(ps: seq<Process>, vis: map<Process, int>, open: set<Process>)
    requires Unbuilt(ps, vis, open) && ps != []
    ensures (ps[0].show <==> ps[0] in vis) && (ps[0].showChildren <==> ps[0] in open) && Unbuilt(ps[1..], vis, open)
  {
    assert ps[0] in ps;
  }

  lemma AttachedOne(t: Tree<Process>, pid: int, vis: map<Process, int>)
    requires pid != 0 && t.root in vis && vis[t.root] == pid && Attached(t.kids, t.root.pid, vis)
    ensures Attached([t], pid, vis)
  {
    assert [t][1..] == [];
  }

  /** Everything is either left in the list, placed, or waiting. */
  ghost predicate Accounted(whole: seq<Process>, rest: seq<Process>, placed: seq<Process>, waiting: seq<Process>) {
    multiset(whole) == multiset(rest) + multiset(placed) + multiset(waiting)
  }

  lemma NextChild(whole: seq<Process>, before: seq<Process>, after: seq<Process>, placed: seq<Process>,
                  waiting: seq<Process>, kids: seq<Process>, tree: seq<Process>)
    requires waiting != [] && tree == [waiting[0]] + kids
    requires Accounted(whole, before, placed, waiting)
    requires multiset(before) == multiset(after) + multiset(kids)
    ensures Accounted(whole, after, placed + tree, waiting[1..])
  {
    assert waiting == [waiting[0]] + waiting[1..];
  }

  lemma AccountStarts(rest: seq<Process>, waiting: seq<Process>)
    ensures Accounted(rest + waiting, rest, Pre([]), waiting)
  {
  }

  lemma AccountEnds(whole: seq<Process>, rest: seq<Process>, placed: seq<Process>)
    requires Accounted(whole, rest, placed, [])
    ensures multiset(whole) == multiset(rest) + multiset(placed)
  {
  }

  /** Before a child is placed: it and those still waiting are apart from the list and from the placed. */
  lemma ChildApart(whole: seq<Process>, rest: seq<Process>, placed: seq<Process>, waiting: seq<Process>)
    requires NoDup(whole) && waiting != [] && Accounted(whole, rest, placed, waiting)
    ensures NoDup(rest) && waiting[0] !in rest && waiting[0] !in waiting[1..]
    ensures forall p :: p in placed ==> p !in rest && p != waiting[0]
    ensures forall p :: p in waiting[1..] ==> p !in rest && p != waiting[0] && p in waiting
  {
    PartsApart(whole, rest, placed, waiting);
    assert multiset(whole) == multiset(waiting) + multiset(rest) + multiset(placed);
    PartsApart(whole, waiting, rest, placed);
    assert waiting[0] in waiting;
    forall p | p in waiting[1..] ensures p != waiting[0] && p in waiting {
      var j :| 0 <= j < |waiting[1..]| && waiting[1..][j] == p;
      assert waiting[j + 1] == p;
    }
  }

  lemma JoinedNoDup<T>(whole: seq<T>, a: seq<T>, b: seq<T>)
    requires NoDup(whole) && multiset(whole) == multiset(a) + multiset(b)
    ensures NoDup(a + b)
  {
    NoDupPermutes(whole, a + b);
  }

  lemma VisibleShow(ps: seq<Process>, vis: map<Process, int>, open: set<Process>)
    requires Unbuilt(ps, vis, open)
    ensures forall p :: p in ps ==> (p.show <==> p in vis) && (p in vis ==> vis[p] == ParentPid(p))
  {
  }

  // ----- what building a group of siblings leaves behind

  /** The trees of `f` are written out, shown as they should be, filed in the table and queued in preorder. */
  ghost predicate Grown(f: Forest<Process>, i: nat, l: nat, d: nat, base: int, more: bool,
                        show: bool, vis: map<Process, int>, open: set<Process>,
                        display0: map<nat, Process>, display: map<nat, Process>,
                        ascending: bool, queue0: seq<Process>, queue: seq<Process>)
    requires base >= -1
    reads Nodes(f), set p | p in Pre(f)
  {
    && Placed(f, i, l, d, base, more)
    && Displayed(Pre(f), Shown(f, show, vis, open))
    && display == display0 + Numbered(i, Pre(f))
    && queue == Queued(ascending, queue0, Pre(f))
  }

  lemma GrownNothing(i: nat, l: nat, d: nat, base: int, more: bool, show: bool, vis: map<Process, int>, open: set<Process>,
                     display: map<nat, Process>, ascending: bool, queue: seq<Process>)
    requires base >= -1
    ensures Grown([], i, l, d, base, more, show, vis, open, display, display, ascending, queue, queue)
  {
  }

  lemma GrownAppend(f: Forest<Process>, t: Tree<Process>, i: nat, l: nat, d: nat, base: int, more: bool,
                    show: bool, vis: map<Process, int>, open: set<Process>,
                    display0: map<nat, Process>, display1: map<nat, Process>, display2: map<nat, Process>,
                    ascending: bool, queue0: seq<Process>, queue1: seq<Process>, queue2: seq<Process>)
    requires base >= -1
    requires Grown(f, i, l, d, base, true, show, vis, open, display0, display1, ascending, queue0, queue1)
    requires Grown([t], i + Size(f), l + 2 * Size(f), d, base, more, show, vis, open, display1, display2, ascending, queue1, queue2)
    ensures Grown(f + [t], i, l, d, base, more, show, vis, open, display0, display2, ascending, queue0, queue2)
  {
    hide Pre, Size, Placed, Displayed, Shown, Numbered, Queued;
    PlacedAppend(f, t, i, l, d, base, more);
    DisplayedAppend(f, t, show, vis, open);
    Lengths(f, 0, 0, 0, None);
    NumberedGrows(display0, i, Pre(f), Pre([t]));
    QueuedAppend(ascending, queue0, Pre(f), Pre([t]));
    PreAppend(f, [t]);
  }

  ghost predicate Falling(ps: seq<Process>) {
    forall i, j :: 0 <= i < j < |ps| ==> ps[i].pid > ps[j].pid
  }

  /** ... and it hangs where it should, with nobody of `rest` left behind; `waiting` goes behind it. */
  ghost predicate Hung(f: Forest<Process>, pid: int, vis: map<Process, int>, rest: seq<Process>, waiting: seq<Process>) {
    && Attached(f, pid, vis) && Complete(rest, Pre(f), vis)
    && Falling(waiting) && (f != [] && waiting != [] ==> f[|f| - 1].root.pid > waiting[0].pid)
  }

  lemma HungNothing(pid: int, vis: map<Process, int>, rest: seq<Process>, waiting: seq<Process>)
    requires Falling(waiting)
    ensures Hung([], pid, vis, rest, waiting)
  {
  }

  lemma FallingNothing()
    ensures Falling([])
  {
  }

  lemma HungNext(f: Forest<Process>, t: Tree<Process>, pid: int, vis: map<Process, int>, rest: seq<Process>, rest': seq<Process>,
                 waiting: seq<Process>)
    requires waiting != [] && waiting[0] == t.root
    requires Hung(f, pid, vis, rest, waiting) && forall q :: q in rest' ==> q in rest
    requires pid != 0 && t.root in vis && vis[t.root] == pid
    requires Attached(t.kids, t.root.pid, vis) && Complete(rest', Pre([t]), vis)
    ensures Hung(f + [t], pid, vis, rest', waiting[1..])
  {
    hide Pre, Attached, Complete;
    AttachedOne(t, pid, vis);
    AttachedAppend(f, [t], pid, vis);
    CompleteShrinks(rest, rest', Pre(f), vis);
    CompleteAppend(rest', Pre(f), Pre([t]), vis);
    PreAppend(f, [t]);
  }

  lemma HungParts(f: Forest<Process>, pid: int, vis: map<Process, int>, rest: seq<Process>, waiting: seq<Process>)
    requires Hung(f, pid, vis, rest, waiting)
    ensures Attached(f, pid, vis) && Complete(rest, Pre(f), vis)
  {
  }

  lemma EmptySize()
    ensures Size<Process>([]) == 0 && Pre<Process>([]) == []
  {
  }

  /** One more child of `pid`, with everything below it. */
  lemma ChildDone(whole: seq<Process>, before: seq<Process>, after: seq<Process>, f: Forest<Process>, t: Tree<Process>,
                  pid: int, vis: map<Process, int>, waiting: seq<Process>)
    requires Accounted(whole, before, Pre(f), waiting) && multiset(before) == multiset(after) + multiset(Pre(t.kids))
    requires NoDup(before)
    requires waiting != [] && waiting[0] == t.root && Hung(f, pid, vis, before, waiting)
    requires pid != 0 && t.root in vis && vis[t.root] == pid
    requires Attached(t.kids, t.root.pid, vis) && Complete(after, Pre([t]), vis)
    ensures Accounted(whole, after, Pre(f + [t]), waiting[1..]) && Hung(f + [t], pid, vis, after, waiting[1..])
    ensures Size(f + [t]) == Size(f) + 1 + Size(t.kids)
    ensures |after| <= |before| && forall q :: q in after ==> q in before
  {
    hide Pre, Size, Attached, Complete, Accounted, Hung, NoDup;
    Inside(before, after, Pre(t.kids));
    SameSize(before, after, Pre(t.kids));
    One(t, 0, 0, 0, None);
    NextChild(whole, before, after, Pre(f), waiting, Pre(t.kids), Pre([t]));
    HungNext(f, t, pid, vis, before, after, waiting);
    PreAppend(f, [t]);
    SizeAppend(f, [t]);
  }

  /** A process placed around everything that has grown below it. */
  lemma GrownTree(t: Tree<Process>, i: nat, l: nat, d: nat, base: int, last: bool,
                  show: bool, vis: map<Process, int>, open: set<Process>,
                  display0: map<nat, Process>, display1: map<nat, Process>,
                  ascending: bool, queue0: seq<Process>, queue1: seq<Process>, queue2: seq<Process>)
    requires base >= -1
    requires At(t.root, Slot(i, l, l + 2 * Size(t.kids) + 1, d)) && t.root.indent == Own(d, base, last)
    requires t.root.show == (show && t.root in vis)
    requires queue1 == Queued(ascending, queue0, [t.root])
    requires Grown(t.kids, i + 1, l + 1, d + 1, Below(d, base, last), false, show && t.root in vis && t.root in open, vis, open,
                   display0, display1, ascending, queue1, queue2)
    ensures Grown([t], i, l, d, base, !last, show, vis, open, display0, display1[i := t.root], ascending, queue0, queue2)
  {
    hide Pre, Size, Placed, Displayed, Shown, Numbered, Queued;
    One(t, i, l, d, None);
    PlacedTree(t, i, l, d, base, last);
    DisplayedTree(t, show, vis, open);
    NumberedHead(display0, i, t.root, Pre(t.kids));
    QueuedAppend(ascending, queue0, [t.root], Pre(t.kids));
  }

  // ----- the roots

  ghost function VisibleOf(ps: seq<Process>): map<Process, int>
    reads (set p | p in ps)`show, (set p | p in ps)`attr
  {
    map p | p in ps && p.show :: ParentPid(p)
  }

  ghost function OpenOf(ps: seq<Process>): set<Process>
    reads (set p | p in ps)`showChildren
  {
    set p | p in ps && p.showChildren
  }

  /** The processes that `before` does not list are unfolded. */
  ghost predicate NewOpen(ps: seq<Process>, before: seq<Process>)
    reads (set p | p in ps)`showChildren
  {
    forall p :: p in ps && p !in before ==> p.showChildren
  }

  lemma NewOpenPart(ps: seq<Process>, qs: seq<Process>, before: seq<Process>)
    requires NewOpen(ps, before) && Elements(qs) <= Elements(ps)
    ensures NewOpen(qs, before)
  {
    assert forall q :: q in qs ==> q in Elements(ps);
  }

  lemma NewOpenNothing(ps: seq<Process>)
    ensures NewOpen(ps, ps)
  {
  }

  lemma NewOpenAdd(ps: seq<Process>, p: Process)
    requires p.showChildren
    ensures NewOpen(ps + [p], ps)
  {
  }

  function WithPid(ps: seq<Process>, pid: int): set<Process> {
    set p | p in ps && p.pid == pid
  }

  /** A group in which nobody is an orphan is a cycle, or leads into one. */
  lemma Cyclic(ps: seq<Process>, all: set<Process>, vis: map<Process, int>)
    requires ps != [] && Elements(ps) <= all && forall p :: p in ps ==> !Orphan(p, Elements(ps), vis)
    ensures !Acyclic(all, vis)
  {
    hide Orphan;
    assert ps[0] in Elements(ps);
  }

  /** The trees of the list so far: written out, shown, filed and queued. */
  ghost predicate Forested(f: Forest<Process>, i: nat, l: nat, vis: map<Process, int>, open: set<Process>,
                           display0: map<nat, Process>, display: map<nat, Process>,
                           ascending: bool, queue0: seq<Process>, queue: seq<Process>)
    reads Nodes(f), set p | p in Pre(f)
  {
    && Placed(f, i, l, 0, -1, true)
    && Displayed(Pre(f), Shown(f, true, vis, open))
    && display == display0 + Numbered(i, Pre(f))
    && multiset(queue) == multiset(queue0) + multiset(Pre(f))
    && queue == Listing(ascending, queue0, f)
  }

  /** The nodes that are not roots, in preorder. */
  ghost function BelowRoots<P>(f: Forest<P>): seq<P> {
    if f == [] then [] else Pre(f[0].kids) + BelowRoots(f[1..])
  }

  /** The order in which building leaves the list: in preorder when ascending, else everything below
      the roots backwards before the roots. */
  ghost function Listing<P>(ascending: bool, queue: seq<P>, f: Forest<P>): seq<P> {
    if ascending then queue + Pre(f) else Reverse(BelowRoots(f)) + queue + Roots(f)
  }

  lemma {:induction false} BelowAppend<P>(f: Forest<P>, t: Tree<P>)
    ensures BelowRoots(f + [t]) == BelowRoots(f) + Pre(t.kids)
  {
    if f == [] {
      assert f + [t] == [t];
    } else {
      assert (f + [t])[1..] == f[1..] + [t];
      BelowAppend(f[1..], t);
    }
  }

  lemma ListingAppend<P>(ascending: bool, queue: seq<P>, f: Forest<P>, t: Tree<P>)
    ensures Listing(ascending, Listing(ascending, queue, f), [t]) == Listing(ascending, queue, f + [t])
  {
    hide Pre, Roots, BelowRoots, Reverse;
    PreAppend(f, [t]);
    RootsAppend(f, [t]);
    BelowAppend(f, t);
    BelowOne(t);
    ReverseAppend(BelowRoots(f), Pre(t.kids));
  }

  lemma BelowOne<P>(t: Tree<P>)
    ensures BelowRoots([t]) == Pre(t.kids) && Roots([t]) == [t.root]
  {
    assert [t][1..] == [];
  }

  lemma ListingOne<P>(ascending: bool, queue: seq<P>, t: Tree<P>)
    ensures Queued(ascending, queue + [t.root], Pre(t.kids)) == Listing(ascending, queue, [t])
  {
    hide Reverse;
    BelowOne(t);
    One(t, 0, 0, 0, None);
  }

  lemma ForestedNothing(vis: map<Process, int>, open: set<Process>, ascending: bool)
    ensures Forested([], 0, 1, vis, open, map[], map[], ascending, [], [])
  {
  }

  lemma ForestedAppend(f: Forest<Process>, t: Tree<Process>, i: nat, l: nat, vis: map<Process, int>, open: set<Process>,
                       display0: map<nat, Process>, display1: map<nat, Process>, display2: map<nat, Process>,
                       ascending: bool, queue0: seq<Process>, queue1: seq<Process>, queue2: seq<Process>)
    requires Forested(f, i, l, vis, open, display0, display1, ascending, queue0, queue1)
    requires Forested([t], i + Size(f), l + 2 * Size(f), vis, open, display1, display2, ascending, queue1, queue2)
    ensures Forested(f + [t], i, l, vis, open, display0, display2, ascending, queue0, queue2)
  {
    hide Pre, Size, Placed, Displayed, Shown, Numbered, Listing;
    PlacedAppend(f, t, i, l, 0, -1, true);
    DisplayedAppend(f, t, true, vis, open);
    Lengths(f, 0, 0, 0, None);
    NumberedGrows(display0, i, Pre(f), Pre([t]));
    PreAppend(f, [t]);
    ListingAppend(ascending, queue0, f, t);
  }

  lemma QueuedKeeps<T>(ascending: bool, queue: seq<T>, ps: seq<T>)
    ensures multiset(Queued(ascending, queue, ps)) == multiset(queue) + multiset(ps)
  {
    ReversePermutes(ps);
  }

  /** A root around everything that has grown below it, filed before or after it. */
  lemma ForestedTree(t: Tree<Process>, i: nat, l: nat, unfolded: bool, vis: map<Process, int>, open: set<Process>,
                     display0: map<nat, Process>, display1: map<nat, Process>, display2: map<nat, Process>,
                     ascending: bool, queue0: seq<Process>, queue2: seq<Process>)
    requires At(t.root, Slot(i, l, l + 2 * Size(t.kids) + 1, 0)) && t.root.indent == 0
    requires t.root.show == (t.root in vis)
    requires unfolded == (t.root in vis && t.root in open)
    requires Grown(t.kids, i + 1, l + 1, 1, 0, false, unfolded, vis, open,
                   display1, display2, ascending, queue0 + [t.root], queue2)
    requires display1 == if t.root in vis then display0[i := t.root] else display0
    ensures Forested([t], i, l, vis, open, display0, if t.root in vis then display2 else display2[i := t.root],
                     ascending, queue0, queue2)
  {
    hide Pre, Size, Placed, Displayed, Shown, Numbered, Queued, Listing;
    One(t, i, l, 0, None);
    PlacedTree(t, i, l, 0, -1, false);
    DisplayedTree(t, true, vis, open);
    NumberedHead(display0, i, t.root, Pre(t.kids));
    NumberedFirst(display0, i, t.root, Pre(t.kids));
    QueuedKeeps(ascending, queue0 + [t.root], Pre(t.kids));
    ListingOne(ascending, queue0, t);
  }

  lemma PlantedOne(t: Tree<Process>, ps: set<Process>, vis: map<Process, int>)
    requires Orphan(t.root, ps, vis) && Attached(t.kids, t.root.pid, vis)
    ensures Planted([t], ps, vis)
  {
    assert [t][1..] == [];
  }

  /** An orphan of what is left is an orphan of the whole list: its parent would have taken it along. */
  lemma OrphanOfAll(p: Process, all: seq<Process>, rest: seq<Process>, placed: seq<Process>, vis: map<Process, int>)
    requires multiset(all) == multiset(rest) + multiset(placed)
    requires p in rest && Orphan(p, Elements(rest), vis) && Complete(rest, placed, vis)
    ensures Orphan(p, Elements(all), vis)
  {
    if p in vis && vis[p] != 0 && vis[p] != p.pid {
      forall q | q in Elements(all) ensures q.pid != vis[p] {
        assert q in multiset(all);
        if q in rest {
          assert q in Elements(rest);
        } else {
          assert q in placed;
        }
      }
    }
  }

  // ----- sorting and searching by PID

  function ByPid(p: Process, q: Process): int { Spaceship(p.pid, q.pid) }

  lemma ByPidOrders(ps: seq<Process>)
    ensures TotalPreorder(ByPid, Elements(ps))
  {
    var cmp := ByPid;
    forall p, q ensures cmp(p, q) == Spaceship(p.pid, q.pid) {
    }
  }

  lemma ByPidSorted(ps: seq<Process>)
    requires Sorted(ByPid, ps) && NoDup(ps) && PidsDistinct(Elements(ps))
    ensures PidSorted(ps)
  {
    forall i, j | 0 <= i < j < |ps| ensures ps[i].pid < ps[j].pid {
      assert ByPid(ps[i], ps[j]) <= 0;
      assert ps[i] in Elements(ps) && ps[j] in Elements(ps);
    }
  }

  lemma RootTaken(ps: seq<Process>, i: nat, vis: map<Process, int>, open: set<Process>)
    requires i < |ps| && NoDup(ps) && PidSorted(ps) && Unbuilt(ps, vis, open)
    ensures var rest := ps[..i] + ps[i + 1..];
            && NoDup(rest) && PidSorted(rest) && Unbuilt(rest, vis, open)
            && ps[i] !in rest && (forall p :: p in rest ==> p in ps)
            && multiset(ps) == multiset(rest) + multiset([ps[i]])
    ensures (ps[i].show <==> ps[i] in vis) && (ps[i].showChildren <==> ps[i] in open)
  {
    assert ps[i] in ps;
    assert ps == ps[..i] + [ps[i]] + ps[i + 1..];
  }

  lemma RootAccount(whole: seq<Process>, before: seq<Process>, after: seq<Process>, p: Process, kids: seq<Process>)
    requires multiset(whole) == multiset(before) + multiset([p])
    requires multiset(before) == multiset(after) + multiset(kids)
    ensures multiset(whole) == multiset(after) + multiset([p] + kids)
  {
    assert multiset([p] + kids) == multiset([p]) + multiset(kids);
  }

  /** For the top layer it does not matter whether siblings follow. */
  lemma {:induction false} TopIndents(f: Forest<Process>, more: bool)
    ensures Indents(f, 0, -1, more) == Indents(f, 0, -1, false)
  {
    if f != [] { TopIndents(f[1..], more); }
  }

  lemma OpenPermutes(ps: seq<Process>, qs: seq<Process>)
    requires multiset(ps) == multiset(qs)
    ensures OpenOf(ps) == OpenOf(qs)
  {
    SameElements(ps, qs);
    assert forall p :: p in ps <==> p in Elements(ps);
    assert forall p :: p in qs <==> p in Elements(ps);
  }

  lemma FlagsOf(ps: seq<Process>)
    ensures Unbuilt(ps, VisibleOf(ps), OpenOf(ps))
  {
  }

  lemma {:induction false} LineageOf(f: Forest<Process>, parent: Process, ps: set<Process>, vis: map<Process, int>)
    requires Attached(f, parent.pid, vis) && parent in ps && Nodes(f) <= ps && parent !in Nodes(f)
    requires NoDup(Pre(f)) && PidsDistinct(ps)
    ensures forall k :: 0 <= k < |Links(f, Some(parent))| ==>
              Lineage(Links(f, Some(parent))[k].0, Links(f, Some(parent))[k].1, ps, vis)
  {
    if f != [] {
      var p, kids, rest := f[0].root, f[0].kids, f[1..];
      NodesOf(f);
      NoDupParts(f);
      assert Lineage(p, Some(parent), ps, vis);
      LineageOf(kids, p, ps, vis);
      LineageOf(rest, parent, ps, vis);
    }
  }

  /** Every process of the built forest has exactly the parent it is meant to have. */
  lemma {:induction false} LineageOfAll(f: Forest<Process>, ps: set<Process>, vis: map<Process, int>)
    requires Planted(f, ps, vis) && Nodes(f) <= ps && NoDup(Pre(f)) && PidsDistinct(ps)
    ensures forall k :: 0 <= k < |Links(f, None)| ==> Lineage(Links(f, None)[k].0, Links(f, None)[k].1, ps, vis)
  {
    if f != [] {
      NodesOf(f);
      NoDupParts(f);
      LineageOf(f[0].kids, f[0].root, ps, vis);
      LineageOfAll(f[1..], ps, vis);
    }
  }

  /** The trees planted so far: nobody was left behind, and every orphan still listed comes later. */
  ghost predicate Sown(f: Forest<Process>, all: seq<Process>, rest: seq<Process>, vis: map<Process, int>) {
    && Planted(f, Elements(all), vis) && Complete(rest, Pre(f), vis)
    && (f != [] ==> forall p :: p in rest && Orphan(p, Elements(all), vis) ==> p.pid > f[|f| - 1].root.pid)
  }

  lemma StartForest(all: seq<Process>, rest: seq<Process>, vis: map<Process, int>, open: set<Process>, ascending: bool)
    requires multiset(all) == multiset(rest) && Unbuilt(all, vis, open)
    ensures Forested([], 0, 1, vis, open, map[], map[], ascending, [], [])
    ensures multiset(all) == multiset(rest) + multiset(Pre<Process>([])) && Size<Process>([]) == 0
    ensures Unbuilt(rest, vis, open) && Elements(rest) == Elements(all)
  {
    ForestedNothing(vis, open, ascending);
    SameElements(all, rest);
    forall p | p in rest ensures p in all { assert p in Elements(rest); }
    UnbuiltPart(all, rest, vis, open);
  }

  lemma SownStarts(all: seq<Process>, rest: seq<Process>, vis: map<Process, int>)
    ensures Sown([], all, rest, vis)
  {
  }

  lemma SownEnds(f: Forest<Process>, all: seq<Process>, vis: map<Process, int>)
    requires Sown(f, all, [], vis)
    ensures Planted(f, Elements(all), vis)
  {
  }

  lemma OrphanOfPart(p: Process, all: set<Process>, rest: set<Process>, vis: map<Process, int>)
    requires Orphan(p, all, vis) && rest <= all
    ensures Orphan(p, rest, vis)
  {
  }

  /** The first orphan comes before every other. */
  ghost predicate FirstOrphan(r: Process, rest: seq<Process>, vis: map<Process, int>) {
    && r in rest && Orphan(r, Elements(rest), vis)
    && forall p :: p in rest && Orphan(p, Elements(rest), vis) ==> p == r || p.pid > r.pid
  }

  lemma OrphanFound(rest: seq<Process>, i: nat, vis: map<Process, int>)
    requires i < |rest| && PidSorted(rest) && Orphan(rest[i], Elements(rest), vis)
    requires forall j :: 0 <= j < i ==> !Orphan(rest[j], Elements(rest), vis)
    ensures FirstOrphan(rest[i], rest, vis)
  {
    hide Orphan;
  }

  /** Of the orphans still listed, none comes before the root just taken. */
  lemma OrphansLeft(all: seq<Process>, before: seq<Process>, after: seq<Process>, t: Tree<Process>, vis: map<Process, int>)
    requires Elements(before) <= Elements(all) && FirstOrphan(t.root, before, vis)
    requires forall p :: p in after ==> p in before && p != t.root
    ensures forall p :: p in after && Orphan(p, Elements(all), vis) ==> p.pid > t.root.pid
  {
    hide Orphan;
    forall p | p in after && Orphan(p, Elements(all), vis) ensures p.pid > t.root.pid {
      OrphanOfPart(p, Elements(all), Elements(before), vis);
    }
  }

  lemma Apart<T>(whole: seq<T>, a: seq<T>, b: seq<T>)
    requires NoDup(whole) && multiset(whole) == multiset(a) + multiset(b)
    ensures forall x :: x in a ==> x !in b
  {
    PartsApart(whole, a, b, []);
  }

  lemma PartOf<T>(whole: seq<T>, a: seq<T>, b: seq<T>)
    requires multiset(whole) == multiset(a) + multiset(b)
    ensures Elements(a) <= Elements(whole)
  {
    forall x | x in a ensures x in whole { assert x in multiset(whole); }
  }

  /** One more tree. */
  lemma SownNext(all: seq<Process>, before: seq<Process>, after: seq<Process>, f: Forest<Process>, t: Tree<Process>, vis: map<Process, int>)
    requires Sown(f, all, before, vis) && t.root in before && Orphan(t.root, Elements(all), vis)
    requires forall p :: p in after ==> p in before
    requires forall p :: p in after && Orphan(p, Elements(all), vis) ==> p.pid > t.root.pid
    requires Attached(t.kids, t.root.pid, vis) && Complete(after, Pre([t]), vis)
    ensures Sown(f + [t], all, after, vis)
  {
    hide Pre, Planted, Complete, Attached, Orphan;
    PlantedOne(t, Elements(all), vis);
    PlantedAppend(f, [t], Elements(all), vis);
    CompleteShrinks(before, after, Pre(f), vis);
    CompleteAppend(after, Pre(f), Pre([t]), vis);
    PreAppend(f, [t]);
  }

  lemma NextRoot(all: seq<Process>, before: seq<Process>, after: seq<Process>, f: Forest<Process>, t: Tree<Process>, vis: map<Process, int>)
    requires multiset(all) == multiset(before) + multiset(Pre(f))
    requires multiset(before) == multiset(after) + multiset(Pre([t]))
    requires NoDup(before) && Sown(f, all, before, vis) && FirstOrphan(t.root, before, vis)
    requires Attached(t.kids, t.root.pid, vis) && Complete(after, Pre([t]), vis)
    ensures multiset(all) == multiset(after) + multiset(Pre(f + [t])) && NoDup(after)
    ensures Sown(f + [t], all, after, vis)
  {
    hide Pre, NoDup, Complete, Attached, Orphan, Sown, FirstOrphan;
    RootFirst(t);
    FirstListed(t.root, before, vis);
    SownComplete(f, all, before, vis);
    OrphanOfAll(t.root, all, before, Pre(f), vis);
    Inside(before, after, Pre([t]));
    PartOf(all, before, Pre(f));
    Apart(before, after, Pre([t]));
    OrphansLeft(all, before, after, t, vis);
    SownNext(all, before, after, f, t, vis);
    PreAppend(f, [t]);
  }

  lemma RootFirst(t: Tree<Process>)
    ensures t.root in Pre([t])
  {
    One(t, 0, 0, 0, None);
    assert Pre([t])[0] == t.root;
  }

  lemma FirstListed(r: Process, rest: seq<Process>, vis: map<Process, int>)
    requires FirstOrphan(r, rest, vis)
    ensures r in rest && Orphan(r, Elements(rest), vis)
  {
  }

  lemma SownComplete(f: Forest<Process>, all: seq<Process>, rest: seq<Process>, vis: map<Process, int>)
    requires Sown(f, all, rest, vis)
    ensures Complete(rest, Pre(f), vis)
  {
  }

  lemma ForestDone(f: Forest<Process>, all: seq<Process>, vis: map<Process, int>, open: set<Process>,
                   display: map<nat, Process>, ascending: bool, queue: seq<Process>)
    requires Forested(f, 0, 1, vis, open, map[], display, ascending, [], queue)
    requires multiset(all) == multiset([]) + multiset(Pre(f)) && PidsDistinct(Elements(all))
    ensures display == Numbered(0, Pre(f)) && LaidOut(Pre(f), Slots(f, 0, 1, 0))
    ensures Indented(Pre(f), Indents(f, 0, -1, false)) && Displayed(Pre(f), Shown(f, true, vis, open))
    ensures multiset(queue) == multiset(Pre(f)) == multiset(all) && PidsDistinct(Nodes(f)) && Nodes(f) == Elements(all)
    ensures queue == Listing(ascending, [], f)
  {
    hide Pre, Slots, Indents, Shown, Numbered, PidsDistinct;
    TopIndents(f, true);
    AllMoved(Pre(f), Pre(f));
    SameElements(all, Pre(f));
    assert [] + Pre(f) == Pre(f);
  }
}
