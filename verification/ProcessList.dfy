/** The process list: its tree view, its life cycle and its panel (ProcessList.c). */
module ProcessLists {
  import opened Options
  import opened Order
  import opened VectorSort
  import opened Forest
  import opened Indent
  import opened Resort
  import opened ProcessCompare
  import opened Processes
  import opened TreeLayers
  import opened TreeBuilding
  import opened TreeMeaning
  import opened TreeFields
  import opened Lifecycle
  import opened Scanning
  import opened ScanTrees
  import opened Text

  class ProcessList {
    var processes: seq<Process>
    /** Where the builder collects the new list. */
    var processes2: seq<Process>
    var displayTreeSet: map<nat, Process>
    var draftingTreeSet: map<nat, Process>
    var settings: Settings
    var processTable: map<int, Process>
    /** The items, the selected one and the scroll position of the panel. */
    var panel: seq<Process>
    var selected: nat
    var scrollV: int
    var userId: Option<nat>
    var incFilter: Option<string>
    var pidMatchList: Option<set<int>>
    /** The PID the selection follows, or -1. */
    var following: int
    var monotonicMs: nat
    var firstScanDone: bool
    /** The forest that `displayTreeSet` lays out. */
    ghost var forest: Forest<Process>

    constructor (settings: Settings, pidMatchList: Option<set<int>>, userId: Option<nat>)
      ensures TableValid() && TreeValid() && processes == [] && processes2 == [] && displayTreeSet == map[]
      ensures following == -1 && !firstScanDone && panel == [] && incFilter == None
      ensures this.settings == settings && this.pidMatchList == pidMatchList && this.userId == userId
    {
      processes, processes2, displayTreeSet, draftingTreeSet := [], [], map[], map[];
      this.settings, this.pidMatchList, this.userId := settings, pidMatchList, userId;
      processTable, following, monotonicMs, firstScanDone := map[], -1, 0, false;
      panel, selected, scrollV, incFilter := [], 0, 0, None;
      forest := [];
    }

    /** The bounds passed to one layer delimit exactly the forest `f`, whose first node is at `first`. */
    ghost predicate Delimits(leftBound: nat, rightBound: nat, deep: nat, left: nat, right: nat,
                             f: Forest<Process>, first: nat)
      reads this, Nodes(f), displayTreeSet.Values
    {
      && leftBound <= first <= leftBound + 1 && rightBound == first + Size(f) && right == left + 2 * Size(f) + 1
      && LaidOut(Pre(f), Slots(f, first, left + 1, deep))
      && Covers(displayTreeSet, first, Pre(f))
      && (leftBound < first ==> leftBound in displayTreeSet && displayTreeSet[leftBound].tree_left == left)
    }

    /** Keeps the end of the last collected subtree in its root's `tree_depth`. */
    static method BoundLast(layer: seq<Process>, bound: nat)
      requires NoDup(layer)
      modifies (if layer == [] then {} else {layer[|layer| - 1]})`tree_depth
      ensures layer != [] ==> layer[|layer| - 1].tree_depth == bound
      ensures forall j :: 0 <= j < |layer| - 1 ==> layer[j].tree_depth == old(layer[j].tree_depth)
    {
      if |layer| > 0 {
        var previous := layer[|layer| - 1];
        previous.tree_depth := bound;
      }
    }

    /** The scan of one layer: collects exactly the roots, and leaves in each one's `tree_depth`
        the position where its subtree ends. */
    method CollectLayer(leftBound: nat, rightBound: nat, deep: nat, left: nat, right: nat,
                        ghost f: Forest<Process>, ghost first: nat)
      returns (layer: seq<Process>)
      requires Delimits(leftBound, rightBound, deep, left, right, f, first)
      modifies Pre(f)`tree_depth
      ensures layer == Roots(f) && Scratched(f, first, left + 1, deep)
    {
      hide Pre, Slots, Roots, Size, Start;
      layer := ScanRange(leftBound, rightBound, deep, left, right, f, first);
      RootsPrefix(f, |f|);
      StartEnds(f);
      assert allocated(Pre(f));
      BoundLast(layer, rightBound);
    }

    /** The loop of the scan; the last root still has its depth. */
    method ScanRange(leftBound: nat, rightBound: nat, deep: nat, left: nat, right: nat,
                     ghost f: Forest<Process>, ghost first: nat)
      returns (layer: seq<Process>)
      requires Delimits(leftBound, rightBound, deep, left, right, f, first)
      modifies Pre(f)`tree_depth
      ensures layer == Roots(f) && |layer| == |f| && NoDup(Pre(f))
      ensures Intact(f, first, left + 1, deep)
      ensures forall j :: 0 <= j < |f| - 1 ==> layer[j].tree_depth == first + Start(f, j + 1)
    {
      hide Pre, Slots, Roots, Size, Start, NoDup, Collecting, Intact, ScanAt;
      layer := [];
      ghost var k, ps, ss, starts := 0, Pre(f), Slots(f, first, left + 1, deep), StartsOf(f, first);
      LaidOutNoDup(f, first, left + 1, deep);
      Lengths(f, first, left + 1, deep, None);
      RootsAt(f);
      StartEnds(f);
      ScanStarts(ps, ss, starts);
      ScanBegins(f);
      var i := leftBound;
      assert old(allocated(ps));
      while i < rightBound
        invariant leftBound <= i <= rightBound
        invariant k <= |f| && (if i < first then k == 0 else ScanAt(f, k, i - first))
        invariant layer == Roots(f)[..k] && Collecting(ps, ss, layer, starts)
      {
        if i >= first {
          CollectStep(f, first, left, deep, k, i - first);
          ScanReads(ps, ss, layer, starts, i - first);
        }
        var proc := displayTreeSet[i];
        if proc.tree_depth == deep && proc.tree_left > left && proc.tree_right < right {
          layer := CollectOne(layer, proc, ps, ss, starts);
          k := k + 1;
        }
        i := i + 1;
      }
      ScanOver(f, k);
      ScanEnds(f, first, left + 1, deep, starts);
    }

    /** Takes a root into the layer, and bounds the one before it. */
    static method CollectOne(layer: seq<Process>, proc: Process, ghost ps: seq<Process>, ghost ss: seq<Slot>,
                             ghost starts: seq<nat>)
      returns (layer': seq<Process>)
      requires Collecting(ps, ss, layer, starts) && NoDup(layer)
      requires proc !in layer && |layer| < |starts| && proc.tree_index == starts[|layer|]
      modifies (if layer == [] then {} else {layer[|layer| - 1]})`tree_depth
      ensures layer' == layer + [proc] && Collecting(ps, ss, layer', starts)
    {
      BoundLast(layer, proc.tree_index);
      layer' := layer + [proc];
    }

    /** Sorts a layer with the quicksort of the vector; PIDs leave no ties, so the order is determined. */
    static method SortLayer(layer: seq<Process>, cmp: (Process, Process) -> int) returns (sorted: seq<Process>)
      requires Orders(cmp, Elements(layer))
      ensures sorted == SortBy(cmp, layer)
    {
      hide SortBy, TotalPreorder, TieFree;
      var a := new Process[|layer|](i requires 0 <= i < |layer| => layer[i]);
      assert a[..] == layer;
      QuickSort(a, cmp);
      sorted := a[..];
    }

    lemma PendingDelimits(proc: Process, kids: Forest<Process>, deep: nat)
      requires Pending(Node(proc, kids), deep, displayTreeSet)
      ensures Delimits(proc.tree_index, proc.tree_depth, deep + 1, proc.tree_left, proc.tree_right, kids, proc.tree_index + 1)
      ensures proc.tree_index in displayTreeSet && displayTreeSet[proc.tree_index] == proc
      ensures proc.tree_right == proc.tree_left + 2 * Size(kids) + 1
    {
      hide Pre, Slots, Size, Covers;
      CoversTail(displayTreeSet, proc.tree_index, proc, Pre(kids));
    }

    /** Gives one process of a sorted layer its new place, after everything below it. */
    method PlaceSubtree(proc: Process, last: bool, deep: nat, indent: int, index0: nat, treeIndex0: nat,
                        cmp: (Process, Process) -> int, ghost kids: Forest<Process>)
      returns (index: nat, treeIndex: nat)
      requires indent >= -1
      requires Pending(Node(proc, kids), deep, displayTreeSet) && Keyed(displayTreeSet)
      requires proc !in Pre(kids) && Orders(cmp, Nodes(kids))
      modifies this`displayTreeSet, this`draftingTreeSet
      modifies proc`indent, proc`tree_left, proc`tree_right, proc`tree_depth, proc`tree_index
      modifies Pre(kids)`indent, Pre(kids)`tree_left, Pre(kids)`tree_right, Pre(kids)`tree_depth, Pre(kids)`tree_index
      ensures index == index0 + 1 + Size(kids) && treeIndex == treeIndex0 + 2 + 2 * Size(kids)
      ensures Placed([Node(proc, Resorted(cmp, kids))], index0, treeIndex0, deep, indent, !last)
      ensures draftingTreeSet ==
              old(draftingTreeSet) + Numbered(index0, [proc] + Pre(Resorted(cmp, kids)))
      ensures displayTreeSet == Without(old(displayTreeSet), Nodes(kids) + {proc}) && Keyed(displayTreeSet)
      decreases Size(kids), 2
    {
      hide Pre, Slots, Size, Indents, Resorted, Numbered, Pending, Placed, Covers, Delimits, Without, Orders;
      ghost var sorted := Resorted(cmp, kids);
      ghost var display := displayTreeSet;
      PendingDelimits(proc, kids, deep);
      index := index0 + 1;
      treeIndex := treeIndex0 + 1;
      var level := if deep == 0 then 0 else deep - 1;
      var currentIndent := if indent == -1 then 0 else SetBit(indent, level);
      var nextIndent := if indent == -1 then 0 else if !last then currentIndent else indent;
      assert nextIndent == Below(deep, indent, last);
      var newLeftBound := proc.tree_index;
      var newRightBound := proc.tree_depth;
      index, treeIndex := UpdateTreeSetLayer(newLeftBound, newRightBound, deep + 1, proc.tree_left, proc.tree_right,
                                             index, treeIndex, nextIndent, cmp, kids, newLeftBound + 1);
      ResortKeepsNodes(cmp, kids);
      WithoutAt(display, Nodes(kids), newLeftBound);
      WithoutOne(displayTreeSet, newLeftBound);
      WithoutTwice(display, Nodes(kids), {proc});
      NumberedHead(old(draftingTreeSet), index0, proc, Pre(sorted));
      assert forall p :: p in Pre(sorted) ==> p in Nodes(kids);
      var newRight := treeIndex;
      treeIndex := treeIndex + 1;
      assert proc !in Pre(sorted) && proc !in Nodes(sorted) && allocated(Pre(sorted)) && allocated(Nodes(sorted));
      WriteNode(proc, Slot(index0, treeIndex0, newRight, deep),
                if indent == -1 then 0 else if last then -currentIndent else currentIndent);
      draftingTreeSet := draftingTreeSet[proc.tree_index := proc];
      displayTreeSet := displayTreeSet - {newLeftBound};
      assert Placed(sorted, index0 + 1, treeIndex0 + 1, deep + 1, nextIndent, false);
      PlacedTree(Node(proc, sorted), index0, treeIndex0, deep, indent, last);
    }

    /** Re-sorts the forest `f` whose nodes stand from `first` on: moves it from one table to the other,
        every sibling group in order, counting positions from `index0` and bounds from `treeIndex0`. */
    method UpdateTreeSetLayer(leftBound: nat, rightBound: nat, deep: nat, left: nat, right: nat,
                              index0: nat, treeIndex0: nat, indent: int,
                              cmp: (Process, Process) -> int, ghost f: Forest<Process>, ghost first: nat)
      returns (index: nat, treeIndex: nat)
      requires indent >= -1
      requires Delimits(leftBound, rightBound, deep, left, right, f, first) && Keyed(displayTreeSet)
      requires Orders(cmp, Nodes(f))
      modifies this`displayTreeSet, this`draftingTreeSet
      modifies Pre(f)`indent, Pre(f)`tree_left, Pre(f)`tree_right, Pre(f)`tree_depth, Pre(f)`tree_index
      ensures index == index0 + Size(f) && treeIndex == treeIndex0 + 2 * Size(f)
      ensures Placed(Resorted(cmp, f), index0, treeIndex0, deep, indent, false)
      ensures draftingTreeSet == old(draftingTreeSet) + Numbered(index0, Pre(Resorted(cmp, f)))
      ensures displayTreeSet == Without(old(displayTreeSet), Nodes(f)) && Keyed(displayTreeSet)
      decreases Size(f), 1
    {
      hide Pre, Slots, Size, Indents, Resorted, ResortKids, SortBy, Numbered, Pending, Placed, Covers, Roots,
           Without, Orders, NoDup, Scratched;
      ghost var display, drafting := displayTreeSet, draftingTreeSet;
      NothingToPlace(cmp, index0, treeIndex0, deep, indent, false, display, drafting);
      index, treeIndex := index0, treeIndex0;
      var layerSize := (right - left) / 2;
      if layerSize == 0 {
        EmptyForest(f);
        return;
      }
      LaidOutNoDup(f, first, left + 1, deep);
      assert allocated(Pre(f)) && allocated(Roots(f));
      var layer := CollectLayer(leftBound, rightBound, deep, left, right, f, first);
      RootsInside(f);
      OrdersSubset(cmp, Elements(Roots(f)), Nodes(f));
      ghost var g := SortBy(ByRoot(cmp), f);
      layer := SortLayer(layer, cmp);
      SortedPending(f, first, left + 1, deep, display, cmp);
      index, treeIndex := PlaceLayer(layer, deep, indent, index0, treeIndex0, cmp, g);
    }

    /** The placing loop of `ProcessList_updateTreeSetLayer`, over the sorted layer. */
    method PlaceLayer(layer: seq<Process>, deep: nat, indent: int, index0: nat, treeIndex0: nat,
                      cmp: (Process, Process) -> int, ghost g: Forest<Process>)
      returns (index: nat, treeIndex: nat)
      requires indent >= -1 && g != [] && layer == Roots(g)
      requires NoDup(Pre(g)) && Orders(cmp, Nodes(g))
      requires Keyed(displayTreeSet) && forall j :: 0 <= j < |g| ==> Pending(g[j], deep, displayTreeSet)
      modifies this`displayTreeSet, this`draftingTreeSet
      modifies Nodes(g)`indent, Nodes(g)`tree_left, Nodes(g)`tree_right, Nodes(g)`tree_depth, Nodes(g)`tree_index
      ensures index == index0 + Size(g) && treeIndex == treeIndex0 + 2 * Size(g)
      ensures Placed(ResortKids(cmp, g), index0, treeIndex0, deep, indent, false)
      ensures draftingTreeSet == old(draftingTreeSet) + Numbered(index0, Pre(ResortKids(cmp, g)))
      ensures displayTreeSet == Without(old(displayTreeSet), Nodes(g)) && Keyed(displayTreeSet)
      decreases Size(g), 0
    {
      hide Pre, Slots, Size, Indents, Resorted, ResortKids, SortBy, Numbered, Pending, Placed, Covers, Roots,
           Without, Orders, NoDup, Nodes, Keyed;
      ghost var display, drafting := displayTreeSet, draftingTreeSet;
      NothingToPlace(cmp, index0, treeIndex0, deep, indent, true, display, drafting);
      index, treeIndex := index0, treeIndex0;
      var size := |layer|;
      ghost var done: Forest<Process> := [];
      assert g[..0] == [] && g[..|g|] == g;
      RootsAt(g);
      var i := 0;
      while i < size
        invariant 0 <= i <= size == |g|
        invariant done == ResortKids(cmp, g[..i])
        invariant index == index0 + Size(done) && treeIndex == treeIndex0 + 2 * Size(done)
        invariant Placed(done, index0, treeIndex0, deep, indent, i < size)
        invariant draftingTreeSet == drafting + Numbered(index0, Pre(done))
        invariant displayTreeSet == Without(display, Nodes(g[..i])) && Keyed(displayTreeSet)
        invariant forall j :: i <= j < size ==> Pending(g[j], deep, displayTreeSet)
      {
        ghost var t := g[i];
        ghost var t' := Node(t.root, Resorted(cmp, t.kids));
        TreeInside(g, i);
        ResortKidsNext(cmp, g, i);
        NextTree(cmp, g, i);
        OrdersSubset(cmp, Nodes(t.kids), Nodes(g));
        RestApart(g, i);
        DoneApart(cmp, g, i);
        assert allocated(Nodes(done)) && forall j :: i < j < size ==> allocated(g[j].root) && allocated(Nodes(g[j].kids));
        ghost var shown := displayTreeSet;
        label L:
        index, treeIndex := PlaceSubtree(layer[i], i == size - 1, deep, indent, index, treeIndex, cmp, t.kids);
        forall j | i < j < size ensures Pending(g[j], deep, shown) {
          assert forall p :: p in Nodes(g[j].kids) ==> p !in Pre(t.kids) && p != layer[i];
          assert unchanged@L(g[j].root) && unchanged@L(Nodes(g[j].kids));
        }
        assert Placed(done, index0, treeIndex0, deep, indent, true);
        forall j | i < j < size ensures Pending(g[j], deep, displayTreeSet) {
          PendingElsewhere(g[j], deep, shown, t);
        }
        PlacedAppend(done, t', index0, treeIndex0, deep, indent, i + 1 < size);
        PreAppend(done, [t']);
        NumberedGrows(drafting, index0, Pre(done), Pre([t']));
        WithoutTwice(display, Nodes(g[..i]), TreeNodes(t));
        done := done + [t'];
        i := i + 1;
      }
      ResortKeepsNodes(cmp, g);
    }

    /** What building the tree establishes and every re-sort keeps: `displayTreeSet` lays out `forest`,
        whose nodes are exactly the listed processes. */
    ghost predicate TreeValid()
      reads this`processes, this`displayTreeSet, this`draftingTreeSet, this`forest
      reads Nodes(forest)`tree_index, Nodes(forest)`tree_left, Nodes(forest)`tree_right, Nodes(forest)`tree_depth
    {
      && draftingTreeSet == map[]
      && displayTreeSet == Numbered(0, Pre(forest))
      && LaidOut(Pre(forest), Slots(forest, 0, 1, 0))
      && multiset(processes) == multiset(Pre(forest))
      && PidsDistinct(Nodes(forest))
    }

    /** What a valid tree is, on the table and the fields: the table has the processes by preorder position, every
        process stands inside its parent and one level deeper, and any two lie inside or beside each other. */
    lemma TreePlaces(k: nat)
      requires TreeValid() && k < |processes|
      ensures (forall i :: i in displayTreeSet <==> 0 <= i < |processes|) && |Links(forest, None)| == |processes|
      ensures var (p, parent) := Links(forest, None)[k];
              && p == displayTreeSet[k] && p in processes
              && p.tree_index == k && 1 <= p.tree_left < p.tree_right <= 2 * |processes|
              && (parent.None? ==> p.tree_depth == 0)
              && (parent.Some? ==>
                    && p.tree_depth == parent.value.tree_depth + 1 && parent.value.tree_index < k
                    && parent.value.tree_left < p.tree_left && p.tree_right < parent.value.tree_right)
      ensures forall j :: 0 <= j < k ==>
                var (q, p) := (displayTreeSet[j], displayTreeSet[k]);
                q.tree_left < p.tree_left && (p.tree_right < q.tree_right || q.tree_right < p.tree_left)
    {
      hide Pre, Slots, Links, Numbered, LaidOut;
      SameElements(processes, Pre(forest));
      NumberedAt(0, Pre(forest));
      Lengths(forest, 0, 0, 0, None);
      PlacedInside(forest, k);
      assert Pre(forest)[k] in Elements(processes);
      forall j | 0 <= j < k
        ensures var (q, p) := (displayTreeSet[j], displayTreeSet[k]);
                q.tree_left < p.tree_left && (p.tree_right < q.tree_right || q.tree_right < p.tree_left)
      {
        PlacedApart(forest, j, k);
      }
    }

    /** `Process_compare` with the active settings, on the processes as they are. */
    function Comparison(): (Process, Process) -> int
      reads this`processes, this`settings, (set p | p in processes)`attr
    {
      Comparator(AttributesOf(processes), settings)
    }

    method UpdateTreeSet()
      requires TreeValid()
      modifies this`displayTreeSet, this`draftingTreeSet, this`forest
      modifies Nodes(forest)`indent, Nodes(forest)`tree_left, Nodes(forest)`tree_right, Nodes(forest)`tree_depth, Nodes(forest)`tree_index
      ensures TreeValid() && forest == Resorted(old(Comparison()), old(forest))
      ensures Indented(Pre(forest), Indents(forest, 0, -1, false))
    {
      hide Pre, Slots, Indents, Resorted, Comparator, Numbered, Without, PidsDistinct, LaidOut, Indented, Covers, Keyed,
           Orders, AttributesOf;
      ghost var f := forest;
      var cmp := Comparison();
      var vsize := |processes|;
      TopLayer(f, displayTreeSet, processes);
      ListedOrders(processes, f, settings);
      var index, treeIndex := UpdateTreeSetLayer(0, vsize, 0, 0, vsize * 2 + 1, 0, 1, -1, cmp, f, 0);
      ResortKeepsNodes(cmp, f);
      forest := Resorted(cmp, f);
      AllMoved(Pre(f), Pre(forest));
      var tmp := draftingTreeSet;
      draftingTreeSet := displayTreeSet;
      displayTreeSet := tmp;
    }

    /** `ProcessList_sort`: in tree view the list becomes the preorder of the sorted forest. */
    method Sort()
      requires if settings.treeView then TreeValid() else PidsDistinct(Elements(processes))
      modifies this`processes, this`displayTreeSet, this`draftingTreeSet, this`forest
      modifies (if settings.treeView then Nodes(forest) else {})`indent,
               (if settings.treeView then Nodes(forest) else {})`tree_left,
               (if settings.treeView then Nodes(forest) else {})`tree_right,
               (if settings.treeView then Nodes(forest) else {})`tree_depth,
               (if settings.treeView then Nodes(forest) else {})`tree_index
      ensures multiset(processes) == multiset(old(processes))
      ensures settings.treeView ==> TreeValid() && forest == Resorted(old(Comparison()), old(forest))
      ensures settings.treeView ==> Indented(Pre(forest), Indents(forest, 0, -1, false))
      ensures settings.treeView ==> processes == Pre(forest)
      ensures !settings.treeView ==> processes == SortBy(old(Comparison()), old(processes))
      ensures !settings.treeView ==> unchanged(`displayTreeSet) && unchanged(`draftingTreeSet) && unchanged(`forest)
      ensures old(TreeValid()) ==> TreeValid()
      // siblings in tree view, any two processes in list view: `NumberColumns` and `TextColumns` say what this means
      ensures settings.treeView ==> |Links(forest, None)| == |processes|
      ensures forall i, j :: 0 <= i < j < |processes|
                && (settings.treeView ==> Links(forest, None)[i].1 == Links(forest, None)[j].1)
                ==> Compare(processes[i].Columns(), processes[j].Columns(), settings) <= 0
    {
      hide Pre, Slots, Links, Indents, Resorted, Comparator, Compare, Numbered, PidsDistinct, SortBy, AttributesOf, LaidOut,
           Indented;
      assert allocated(Pre(forest));
      if settings.treeView {
        SortTree();
      } else {
        SortRows();
      }
    }

    method SortTree()
      requires TreeValid()
      modifies this`processes, this`displayTreeSet, this`draftingTreeSet, this`forest
      modifies Nodes(forest)`indent, Nodes(forest)`tree_left, Nodes(forest)`tree_right, Nodes(forest)`tree_depth, Nodes(forest)`tree_index
      ensures multiset(processes) == multiset(old(processes))
      ensures TreeValid() && forest == Resorted(old(Comparison()), old(forest)) && processes == Pre(forest)
      ensures Indented(Pre(forest), Indents(forest, 0, -1, false))
      ensures |Links(forest, None)| == |processes|
      ensures forall i, j :: 0 <= i < j < |processes| && Links(forest, None)[i].1 == Links(forest, None)[j].1 ==>
                Compare(processes[i].Columns(), processes[j].Columns(), settings) <= 0
    {
      hide Pre, Slots, Links, Indents, Resorted, Comparator, Compare, Numbered, PidsDistinct, AttributesOf, NoDup;
      assert allocated(Pre(forest));
      ghost var f, ps := forest, processes;
      LaidOutNoDup(f, 0, 1, 0);
      UpdateTreeSet();
      assert allocated(Pre(forest));
      SortByLeft();
      ResortedCompares(ps, settings, f, forest);
    }

    method SortRows()
      requires PidsDistinct(Elements(processes))
      modifies this`processes
      ensures multiset(processes) == multiset(old(processes)) && processes == SortBy(old(Comparison()), old(processes))
      ensures forall i, j :: 0 <= i < j < |processes| ==>
                Compare(processes[i].Columns(), processes[j].Columns(), settings) <= 0
    {
      hide Comparator, Compare, PidsDistinct, SortBy, AttributesOf;
      ghost var ps := processes;
      var cmp := Comparison();
      var a := new Process[|processes|](i requires 0 <= i < |processes| reads this => processes[i]);
      assert a[..] == processes;
      InsertionSort(a, cmp);
      SortPermutes(cmp, processes);
      SortedCompares(ps, settings, a[..]);
      processes := a[..];
    }

    /** The quicksort by `ProcessList_treeProcessCompare`. */
    method SortByLeft()
      requires TreeValid()
      modifies this`processes
      ensures processes == Pre(forest) && multiset(processes) == multiset(old(processes)) && TreeValid()
    {
      hide Pre, Slots, Numbered, PidsDistinct, SortBy, TotalPreorder, TieFree, Sorted, ByLeft;
      var lefts := map p | p in processes :: p.tree_left;
      var a := new Process[|processes|](i requires 0 <= i < |processes| reads this => processes[i]);
      assert a[..] == processes;
      PreorderByLeft(forest, processes, lefts);
      assert allocated(Pre(forest));
      QuickSort(a, ByLeft(lefts));
      SameElements(a[..], processes);
      SortUnique(ByLeft(lefts), a[..], Pre(forest), Elements(processes));
      processes := a[..];
    }

    /** Takes the visible children of `pid` out of the list, last first. */
    method TakeChildren(pid: int, ghost vis: map<Process, int>) returns (children: seq<Process>)
      requires forall p :: p in processes ==> (p.show <==> p in vis) && (p in vis ==> vis[p] == ParentPid(p))
      modifies this`processes
      ensures processes == Filter(IsOther(pid, vis), old(processes))
      ensures children == Reverse(Filter(IsChild(pid, vis), old(processes)))
    {
      hide Rest, Taken;
      ghost var s := processes;
      TakeEnds(pid, vis, s);
      children := [];
      var i := |processes| - 1;
      while i >= 0
        invariant -1 <= i < |s|
        invariant processes == Rest(pid, vis, s, i + 1) && children == Taken(pid, vis, s, i + 1)
      {
        TakeRound(pid, vis, s, i);
        var process := processes[i];
        assert process in s;
        if process.show && ParentPid(process) == pid {
          processes := processes[..i] + processes[i + 1..];
          children := children + [process];
        }
        i := i - 1;
      }
    }

    static method WriteNode(process: Process, slot: Slot, indent: int)
      modifies process`indent, process`tree_left, process`tree_right, process`tree_depth, process`tree_index
      ensures At(process, slot) && process.indent == indent
    {
      process.indent := indent;
      process.tree_left := slot.left;
      process.tree_right := slot.right;
      process.tree_depth := slot.depth;
      process.tree_index := slot.index;
    }

    /** One round of `ProcessList_buildTreeBranch`: places a child and everything below it. */
    method BuildChild(process: Process, last: bool, level: nat, indent: nat, ascending: bool, show: bool,
                      counter0: nat, index0: nat, ghost vis: map<Process, int>, ghost open: set<Process>)
      returns (counter: nat, index: nat, ghost kids: Forest<Process>)
      requires process !in processes && process in vis && NoDup(processes) && PidSorted(processes)
      requires process.show && (process.showChildren <==> process in open) && Unbuilt(processes, vis, open)
      modifies this`processes, this`processes2, this`displayTreeSet
      modifies Elements(processes)`show, Elements(processes)`indent, Elements(processes)`tree_left,
               Elements(processes)`tree_right, Elements(processes)`tree_depth, Elements(processes)`tree_index
      modifies process`show, process`indent, process`tree_left, process`tree_right, process`tree_depth, process`tree_index
      ensures counter == counter0 + 2 + 2 * Size(kids) && index == index0 + 1 + Size(kids)
      ensures Grown([Node(process, kids)], index0, counter0, level + 1, indent, !last, show, vis, open,
                    old(displayTreeSet), displayTreeSet, ascending, old(processes2), processes2)
      ensures multiset(old(processes)) == multiset(processes) + multiset(Pre(kids))
      ensures PidSorted(processes)
      ensures Attached(kids, process.pid, vis) && Complete(processes, Pre([Node(process, kids)]), vis)
      ensures Unbuilt(processes, vis, open)
      decreases |processes| + 1, 0
    {
      hide Pre, Size, Queued, PidSorted, Attached, Complete, NoDup, Own, Below, Unbuilt, SetBit, Grown, Hung;
      index := index0 + 1;
      var lft := counter0;
      counter := counter0 + 1;
      if !show {
        process.show := false;
      }
      QueuedOne(ascending, processes2, process);
      if ascending {
        processes2 := processes2 + [process];
      } else {
        processes2 := [process] + processes2;
      }
      var nextIndent := SetBit(indent, level);
      IndentStep(level, indent, last);
      ghost var before, queued := processes, processes2;
      counter, index, kids := BuildTreeBranch(process.pid, level + 1, if !last then nextIndent else indent, ascending,
                                              if show then process.showChildren else false, counter, index, vis, open);
      HungParts(kids, process.pid, vis, processes, []);
      Inside(before, processes, Pre(kids));
      assert allocated(Nodes(kids)) && allocated(Pre(kids)) && process !in Pre(kids) && process !in processes;
      var rht := counter;
      counter := counter + 1;
      CloseChild(process, Slot(index0, lft, rht, level + 1), if last then -nextIndent else nextIndent, last, indent, show,
                 kids, vis, open, old(displayTreeSet), ascending, old(processes2), queued);
      CompleteTree(processes, Node(process, kids), vis);
    }

    /** Writes a child around what has grown below it, and files it. */
    method CloseChild(process: Process, slot: Slot, word: int, ghost last: bool, ghost indent: nat, ghost show: bool,
                      ghost kids: Forest<Process>, ghost vis: map<Process, int>, ghost open: set<Process>,
                      ghost display: map<nat, Process>, ghost ascending: bool,
                      ghost queue: seq<Process>, ghost queued: seq<Process>)
      requires process !in Nodes(kids) && slot.right == slot.left + 2 * Size(kids) + 1
      requires word == Own(slot.depth, indent, last) && process.show == (show && process in vis)
      requires queued == Queued(ascending, queue, [process])
      requires Grown(kids, slot.index + 1, slot.left + 1, slot.depth + 1, Below(slot.depth, indent, last), false,
                     show && process in vis && process in open, vis, open, display, displayTreeSet, ascending, queued, processes2)
      modifies this`displayTreeSet
      modifies process`indent, process`tree_left, process`tree_right, process`tree_depth, process`tree_index
      ensures Grown([Node(process, kids)], slot.index, slot.left, slot.depth, indent, !last, show, vis, open,
                    display, displayTreeSet, ascending, queue, processes2)
    {
      hide Pre, Size, Own, Below, Grown, Queued;
      assert allocated(Nodes(kids)) && allocated(Pre(kids));
      ghost var shown := displayTreeSet;
      WriteNode(process, slot, word);
      displayTreeSet := displayTreeSet[slot.index := process];
      GrownTree(Node(process, kids), slot.index, slot.left, slot.depth, indent, last, show, vis, open,
                display, shown, ascending, queue, queued, processes2);
    }

    /** `ProcessList_buildTreeBranch`: hangs everything below `pid` into the tree. */
    method BuildTreeBranch(pid: int, level: nat, indent: nat, ascending: bool, show: bool,
                           counter0: nat, index0: nat, ghost vis: map<Process, int>, ghost open: set<Process>)
      returns (counter: nat, index: nat, ghost f: Forest<Process>)
      requires NoDup(processes) && PidSorted(processes) && Unbuilt(processes, vis, open)
      modifies this`processes, this`processes2, this`displayTreeSet
      modifies Elements(processes)`show, Elements(processes)`indent, Elements(processes)`tree_left,
               Elements(processes)`tree_right, Elements(processes)`tree_depth, Elements(processes)`tree_index
      ensures counter == counter0 + 2 * Size(f) && index == index0 + Size(f)
      ensures Grown(f, index0, counter0, level + 1, indent, false, show, vis, open,
                    old(displayTreeSet), displayTreeSet, ascending, old(processes2), processes2)
      ensures multiset(old(processes)) == multiset(processes) + multiset(Pre(f))
      ensures PidSorted(processes)
      ensures Hung(f, pid, vis, processes, [])
      ensures pid != 0 ==> forall q :: q in processes && q in vis ==> vis[q] != pid
      ensures Unbuilt(processes, vis, open)
      decreases |processes|, 3
    {
      hide Pre, Size, PidSorted, NoDup, Unbuilt, Grown, Hung, Falling;
      counter, index, f := counter0, index0, [];
      GrownNothing(index0, counter0, level + 1, indent, false, show, vis, open, displayTreeSet, ascending, processes2);
      FallingNothing();
      HungNothing(pid, vis, processes, []);
      EmptySize();
      if pid == 0 {
        return;
      }
      ghost var whole := processes;
      TakenChildren(pid, whole, vis);
      VisibleShow(whole, vis, open);
      var children := TakeChildren(pid, vis);
      JoinedNoDup(whole, processes, children);
      UnbuiltPart(whole, processes, vis, open);
      UnbuiltPart(whole, children, vis, open);
      counter, index, f := BuildChildren(children, pid, level, indent, ascending, show, counter, index, vis, open);
    }

    /** The placing loop of `ProcessList_buildTreeBranch`, over the children of `pid`. */
    method BuildChildren(children: seq<Process>, ghost pid: int, level: nat, indent: nat, ascending: bool, show: bool,
                         counter0: nat, index0: nat, ghost vis: map<Process, int>, ghost open: set<Process>)
      returns (counter: nat, index: nat, ghost f: Forest<Process>)
      requires pid != 0 && NoDup(processes + children) && PidSorted(processes) && Falling(children)
      requires forall c :: c in children ==> c in vis && vis[c] == pid
      requires forall q :: q in processes && q in vis ==> vis[q] != pid
      requires Unbuilt(processes, vis, open) && Unbuilt(children, vis, open)
      modifies this`processes, this`processes2, this`displayTreeSet
      modifies Elements(processes + children)`show, Elements(processes + children)`indent,
               Elements(processes + children)`tree_left, Elements(processes + children)`tree_right,
               Elements(processes + children)`tree_depth, Elements(processes + children)`tree_index
      ensures counter == counter0 + 2 * Size(f) && index == index0 + Size(f)
      ensures Grown(f, index0, counter0, level + 1, indent, false, show, vis, open,
                    old(displayTreeSet), displayTreeSet, ascending, old(processes2), processes2)
      ensures multiset(old(processes) + children) == multiset(processes) + multiset(Pre(f))
      ensures PidSorted(processes)
      ensures Hung(f, pid, vis, processes, [])
      ensures forall q :: q in processes && q in vis ==> vis[q] != pid
      ensures Unbuilt(processes, vis, open)
      decreases |processes| + |children|, 2
    {
      hide Pre, Size, PidSorted, Attached, Complete, NoDup, Unbuilt, Accounted, Grown, Hung, Falling;
      counter, index, f := counter0, index0, [];
      GrownNothing(index0, counter0, level + 1, indent, children != [], show, vis, open, displayTreeSet, ascending, processes2);
      HungNothing(pid, vis, processes, children);
      EmptySize();
      ghost var whole, display, queue, first := processes + children, displayTreeSet, processes2, processes;
      var size := |children|;
      AccountStarts(processes, children);
      var i := 0;
      assert children[0..] == children && children[size..] == [];
      while i < size
        invariant 0 <= i <= size
        invariant counter == counter0 + 2 * Size(f) && index == index0 + Size(f)
        invariant Grown(f, index0, counter0, level + 1, indent, i < size, show, vis, open,
                        display, displayTreeSet, ascending, queue, processes2)
        invariant Hung(f, pid, vis, processes, children[i..])
        invariant Accounted(whole, processes, Pre(f), children[i..])
        invariant |processes| <= |first| && PidSorted(processes)
        invariant forall q :: q in processes ==> q in first
        invariant Unbuilt(processes, vis, open) && Unbuilt(children[i..], vis, open)
      {
        ghost var waiting := children[i..];
        assert waiting[1..] == children[i + 1..];
        counter, index, f := BuildNext(children[i], i == size - 1, pid, level, indent, ascending, show, counter, index,
                                       vis, open, f, waiting, whole, index0, counter0, display, queue);
        i := i + 1;
      }
      AccountEnds(whole, processes, Pre(f));
    }

    /** One more child behind the siblings `f` that have grown so far. */
    method BuildNext(process: Process, last: bool, ghost pid: int, level: nat, indent: nat, ascending: bool, show: bool,
                     counter1: nat, index1: nat, ghost vis: map<Process, int>, ghost open: set<Process>,
                     ghost f: Forest<Process>, ghost waiting: seq<Process>, ghost whole: seq<Process>,
                     ghost index0: nat, ghost counter0: nat, ghost display: map<nat, Process>, ghost queue: seq<Process>)
      returns (counter: nat, index: nat, ghost f': Forest<Process>)
      requires waiting != [] && waiting[0] == process && pid != 0 && process in vis && vis[process] == pid
      requires NoDup(whole) && PidSorted(processes) && Unbuilt(processes, vis, open) && Unbuilt(waiting, vis, open)
      requires counter1 == counter0 + 2 * Size(f) && index1 == index0 + Size(f)
      requires Grown(f, index0, counter0, level + 1, indent, true, show, vis, open,
                     display, displayTreeSet, ascending, queue, processes2)
      requires Hung(f, pid, vis, processes, waiting) && Accounted(whole, processes, Pre(f), waiting)
      modifies this`processes, this`processes2, this`displayTreeSet
      modifies Elements(processes)`show, Elements(processes)`indent, Elements(processes)`tree_left,
               Elements(processes)`tree_right, Elements(processes)`tree_depth, Elements(processes)`tree_index
      modifies process`show, process`indent, process`tree_left, process`tree_right, process`tree_depth, process`tree_index
      ensures counter == counter0 + 2 * Size(f') && index == index0 + Size(f')
      ensures Grown(f', index0, counter0, level + 1, indent, !last, show, vis, open,
                    display, displayTreeSet, ascending, queue, processes2)
      ensures Hung(f', pid, vis, processes, waiting[1..]) && Accounted(whole, processes, Pre(f'), waiting[1..])
      ensures |processes| <= |old(processes)| && PidSorted(processes) && forall q :: q in processes ==> q in old(processes)
      ensures Unbuilt(processes, vis, open) && Unbuilt(waiting[1..], vis, open)
      decreases |processes| + 1, 1
    {
      hide Pre, Size, PidSorted, Attached, Complete, NoDup, Unbuilt, Accounted, Grown, Hung, Falling;
      ghost var before, shown, queued, later := processes, displayTreeSet, processes2, waiting[1..];
      ChildApart(whole, before, Pre(f), waiting);
      UnbuiltHead(waiting, vis, open);
      assert allocated(Nodes(f)) && allocated(Pre(f)) && allocated(later);
      ghost var kids;
      counter, index, kids := BuildChild(process, last, level, indent, ascending, show, counter1, index1, vis, open);
      ghost var t := Node(process, kids);
      ChildDone(whole, before, processes, f, t, pid, vis, waiting);
      GrownAppend(f, t, index0, counter0, level + 1, indent, !last, show, vis, open,
                  display, shown, displayTreeSet, ascending, queue, queued, processes2);
      f' := f + [t];
    }

    method SortByPid()
      requires NoDup(processes) && PidsDistinct(Elements(processes))
      modifies this`processes
      ensures multiset(processes) == multiset(old(processes)) && NoDup(processes) && PidSorted(processes)
    {
      hide TotalPreorder, TieFree, SortBy, NoDup, PidsDistinct, PidSorted, Sorted;
      var a := new Process[|processes|](i requires 0 <= i < |processes| reads this => processes[i]);
      ghost var s := processes;
      assert a[..] == s;
      ByPidOrders(s);
      QuickSort(a, ByPid);
      processes := a[..];
      NoDupPermutes(s, processes);
      SameElements(s, processes);
      ByPidSorted(processes);
    }

    /** Bisects the PID-sorted list for the parent of `process`; PID 0 and the process itself are no parents. */
    method FindParent(process: Process) returns (found: bool)
      requires PidSorted(processes)
      ensures found <==> ParentPid(process) != process.pid && ParentPid(process) != 0 &&
                         exists q :: q in processes && q.pid == ParentPid(process)
    {
      var ppid := ParentPid(process);
      var l, r := 0, |processes|;
      if process.pid == ppid {
        r := 0;
      }
      if ppid == 0 {
        r := 0;
      }
      ghost var r0 := r;
      while l < r
        invariant 0 <= l <= r <= r0 <= |processes|
        invariant forall i :: 0 <= i < l ==> processes[i].pid < ppid
        invariant forall i :: r <= i < r0 ==> processes[i].pid > ppid
        decreases r - l
      {
        var c := (l + r) / 2;
        var pid := processes[c].pid;
        if ppid == pid {
          break;
        } else if ppid < pid {
          r := c;
        } else {
          l := c + 1;
        }
      }
      found := l < r;
      if found {
        assert processes[(l + r) / 2] in processes;
      }
    }

    /** The search for a process to start a tree from; it runs off the end of the list when there is none. */
    method FindRoot(ghost vis: map<Process, int>) returns (found: bool, i: nat)
      requires PidSorted(processes)
      requires forall p :: p in processes ==> (p.show <==> p in vis) && (p in vis ==> vis[p] == ParentPid(p))
      ensures found ==> i < |processes| && FirstOrphan(processes[i], processes, vis)
      ensures !found ==> forall p :: p in processes ==> !Orphan(p, Elements(processes), vis)
    {
      hide FirstOrphan;
      for k := 0 to |processes|
        invariant forall j :: 0 <= j < k ==> !Orphan(processes[j], Elements(processes), vis)
      {
        var process := processes[k];
        assert process in processes;
        if !process.show {
          OrphanFound(processes, k, vis);
          return true, k;
        }
        var parentFound := FindParent(process);
        if !parentFound {
          OrphanFound(processes, k, vis);
          return true, k;
        }
      }
      return false, |processes|;
    }

    /** Takes the process at `i` out of the list and opens a tree with it. */
    method OpenRoot(i: nat, counter0: nat, index0: nat, ghost vis: map<Process, int>, ghost open: set<Process>)
      returns (process: Process)
      requires i < |processes| && NoDup(processes) && PidSorted(processes) && Unbuilt(processes, vis, open)
      modifies this`processes, this`processes2, this`displayTreeSet
      modifies {processes[i]}`indent, {processes[i]}`tree_depth, {processes[i]}`tree_left, {processes[i]}`tree_index
      ensures process == old(processes[i]) && process !in processes && process in old(processes)
      ensures (process.show <==> process in vis) && (process.showChildren <==> process in open)
      ensures process.indent == 0 && process.tree_depth == 0 && process.tree_left == counter0 && process.tree_index == index0
      ensures NoDup(processes) && PidSorted(processes) && Unbuilt(processes, vis, open)
      ensures multiset(old(processes)) == multiset(processes) + multiset([process]) && |processes| < |old(processes)|
      ensures forall p :: p in processes ==> p in old(processes)
      ensures processes2 == old(processes2) + [process]
      ensures displayTreeSet == if process in vis then old(displayTreeSet)[index0 := process] else old(displayTreeSet)
    {
      RootTaken(processes, i, vis, open);
      hide PidSorted, NoDup, Unbuilt;
      process := processes[i];
      processes := processes[..i] + processes[i + 1..];
      process.indent := 0;
      process.tree_depth := 0;
      process.tree_left := counter0;
      process.tree_index := index0;
      processes2 := processes2 + [process];
      if process.show {
        displayTreeSet := displayTreeSet[process.tree_index := process];
      }
    }

    /** Closes the tree; a hidden root is filed only now. */
    method CloseRoot(process: Process, right: nat)
      modifies this`displayTreeSet, process`tree_right
      ensures process.tree_right == right
      ensures displayTreeSet ==
              if process.show then old(displayTreeSet) else old(displayTreeSet)[process.tree_index := process]
    {
      process.tree_right := right;
      if !process.show {
        displayTreeSet := displayTreeSet[process.tree_index := process];
      }
    }

    /** Starts a tree from the process at `i`. */
    method PlantRoot(i: nat, ascending: bool, counter0: nat, index0: nat, ghost vis: map<Process, int>, ghost open: set<Process>)
      returns (counter: nat, index: nat, ghost t: Tree<Process>)
      requires i < |processes| && NoDup(processes) && PidSorted(processes) && Unbuilt(processes, vis, open)
      modifies this`processes, this`processes2, this`displayTreeSet
      modifies Elements(processes)`show, Elements(processes)`indent, Elements(processes)`tree_left,
               Elements(processes)`tree_right, Elements(processes)`tree_depth, Elements(processes)`tree_index
      ensures t.root == old(processes[i])
      ensures counter == counter0 + 2 * Size([t]) && index == index0 + Size([t])
      ensures Forested([t], index0, counter0, vis, open, old(displayTreeSet), displayTreeSet,
                       ascending, old(processes2), processes2)
      ensures multiset(old(processes)) == multiset(processes) + multiset(Pre([t]))
      ensures PidSorted(processes) && Unbuilt(processes, vis, open) && |processes| < |old(processes)|
      ensures Attached(t.kids, t.root.pid, vis) && Complete(processes, Pre([t]), vis)
    {
      hide Pre, Size, PidSorted, NoDup, Unbuilt, Grown, Hung, Forested, Attached, Complete;
      ghost var whole, display, queue := processes, displayTreeSet, processes2;
      var process := OpenRoot(i, counter0, index0, vis, open);
      ghost var before := processes;
      counter, index, t := GrowRoot(process, ascending, counter0, index0, vis, open, display, queue);
      One(t, 0, 0, 0, None);
      Inside(before, processes, Pre(t.kids));
      SameSize(before, processes, Pre(t.kids));
      RootAccount(whole, before, processes, process, Pre(t.kids));
    }

    /** Hangs under an opened root everything that belongs there, and closes the tree. */
    method GrowRoot(process: Process, ascending: bool, counter0: nat, index0: nat,
                    ghost vis: map<Process, int>, ghost open: set<Process>,
                    ghost display: map<nat, Process>, ghost queue: seq<Process>)
      returns (counter: nat, index: nat, ghost t: Tree<Process>)
      requires process !in processes && (process.show <==> process in vis) && (process.showChildren <==> process in open)
      requires process.indent == 0 && process.tree_depth == 0 && process.tree_left == counter0 && process.tree_index == index0
      requires NoDup(processes) && PidSorted(processes) && Unbuilt(processes, vis, open)
      requires processes2 == queue + [process]
      requires displayTreeSet == if process in vis then display[index0 := process] else display
      modifies this`processes, this`processes2, this`displayTreeSet, process`tree_right
      modifies Elements(processes)`show, Elements(processes)`indent, Elements(processes)`tree_left,
               Elements(processes)`tree_right, Elements(processes)`tree_depth, Elements(processes)`tree_index
      ensures t.root == process && counter == counter0 + 2 * Size([t]) && index == index0 + Size([t])
      ensures Forested([t], index0, counter0, vis, open, display, displayTreeSet, ascending, queue, processes2)
      ensures multiset(old(processes)) == multiset(processes) + multiset(Pre(t.kids))
      ensures PidSorted(processes) && Unbuilt(processes, vis, open)
      ensures Attached(t.kids, process.pid, vis) && Complete(processes, Pre([t]), vis)
    {
      hide Pre, Size, PidSorted, NoDup, Unbuilt, Grown, Hung, Forested, Attached, Complete;
      ghost var before, shown := processes, displayTreeSet;
      var unfolded := if process.show then process.showChildren else false;
      ghost var kids;
      counter, index, kids := BuildTreeBranch(process.pid, 0, 0, ascending, unfolded,
                                              counter0 + 1, index0 + 1, vis, open);
      t := Node(process, kids);
      HungParts(kids, process.pid, vis, processes, []);
      Inside(before, processes, Pre(kids));
      assert allocated(Nodes(kids)) && allocated(Pre(kids)) && process !in Nodes(kids) && process !in processes;
      ghost var grown := displayTreeSet;
      CloseRoot(process, counter);
      counter := counter + 1;
      One(t, 0, 0, 0, None);
      CompleteTree(processes, t, vis);
      ForestedTree(t, index0, counter0, unfolded, vis, open, display, shown, grown, ascending, queue, processes2);
    }

    /** `ProcessList_buildTree`: lays the listed processes out as a forest from scratch, unless there is a cycle. */
    method BuildTree() returns (ok: bool)
      requires NoDup(processes) && PidsDistinct(Elements(processes))
      requires processes2 == [] && displayTreeSet == map[] && draftingTreeSet == map[]
      modifies this`processes, this`processes2, this`displayTreeSet, this`forest
      modifies Elements(processes)`show, Elements(processes)`indent, Elements(processes)`tree_left,
               Elements(processes)`tree_right, Elements(processes)`tree_depth, Elements(processes)`tree_index
      ensures ok <==> Acyclic(Elements(old(processes)), old(VisibleOf(processes)))
      ensures ok ==> TreeValid() && processes2 == [] && multiset(processes) == multiset(old(processes))
      ensures ok ==> Indented(Pre(forest), Indents(forest, 0, -1, false))
      ensures ok ==> Planted(forest, Elements(old(processes)), old(VisibleOf(processes)))
      ensures ok ==> Displayed(Pre(forest), Shown(forest, true, old(VisibleOf(processes)), old(OpenOf(processes))))
      ensures ok ==> processes == Listing(settings.ascending, [], forest)
      // the same on the fields: who hangs under whom, and who shows
      ensures ok ==> forall k :: 0 <= k < |Links(forest, None)| ==>
                var (p, parent) := Links(forest, None)[k];
                var ppid := if p.attr.tgid == p.pid then p.attr.ppid else p.attr.tgid;
                && p in old(processes)
                && (parent.Some? <==> old(p.show) && ppid != 0 && ppid != p.pid && exists q :: q in old(processes) && q.pid == ppid)
                && (parent.Some? ==> parent.value in old(processes) && parent.value.pid == ppid)
                && (p.show <==> old(p.show) && (parent.Some? ==> parent.value.show && parent.value.showChildren))
      // the order of siblings, of roots, and of the list
      ensures ok ==> forall j, k :: 0 <= j < k < |Links(forest, None)| && Links(forest, None)[j].1 == Links(forest, None)[k].1 ==>
                var (p, q) := (Links(forest, None)[j].0, Links(forest, None)[k].0);
                if Links(forest, None)[j].1.Some? then p.pid > q.pid else p.pid < q.pid
      ensures ok ==> processes == if settings.ascending then Pre(forest) else Reverse(BelowRoots(forest)) + Roots(forest)
    {
      hide Pre, Links, NoDup, Planted, PidsDistinct, Acyclic, VisibleOf, LaidOut, Indented, Slots, Indents, Shown,
           Numbered, ParentPid, BelowRoots, Roots, Reverse;
      ghost var ps, vis, open := processes, VisibleOf(processes), OpenOf(processes);
      VisibleFields(ps);
      ok := GrowForest();
      if !ok {
        return;
      }
      BuiltNodes(forest, processes, ps);
      forall k | 0 <= k < |Links(forest, None)|
        ensures var (p, parent) := Links(forest, None)[k];
                var ppid := if p.attr.tgid == p.pid then p.attr.ppid else p.attr.tgid;
                && p in ps
                && (parent.Some? <==> p in vis && ppid != 0 && ppid != p.pid && exists q :: q in ps && q.pid == ppid)
                && (parent.Some? ==> parent.value in ps && parent.value.pid == ppid)
                && (p.show <==> p in vis && (parent.Some? ==> parent.value.show && parent.value in open))
      {
        BuiltLink(forest, ps, vis, open, k);
      }
      forall j, k | 0 <= j < k < |Links(forest, None)| && Links(forest, None)[j].1 == Links(forest, None)[k].1
        ensures var (p, q) := (Links(forest, None)[j].0, Links(forest, None)[k].0);
                if Links(forest, None)[j].1.Some? then p.pid > q.pid else p.pid < q.pid
      {
        BuiltSiblings(forest, Elements(ps), vis, j, k);
      }
    }

    /** The whole of it, proved against the specification of the forest. */
    method GrowForest() returns (ok: bool)
      requires NoDup(processes) && PidsDistinct(Elements(processes))
      requires processes2 == [] && displayTreeSet == map[] && draftingTreeSet == map[]
      modifies this`processes, this`processes2, this`displayTreeSet, this`forest
      modifies Elements(processes)`show, Elements(processes)`indent, Elements(processes)`tree_left,
               Elements(processes)`tree_right, Elements(processes)`tree_depth, Elements(processes)`tree_index
      ensures ok <==> Acyclic(Elements(old(processes)), old(VisibleOf(processes)))
      ensures ok ==> TreeValid() && processes2 == [] && multiset(processes) == multiset(old(processes))
      ensures ok ==> Indented(Pre(forest), Indents(forest, 0, -1, false))
      ensures ok ==> Planted(forest, Elements(old(processes)), old(VisibleOf(processes)))
      ensures ok ==> Displayed(Pre(forest), Shown(forest, true, old(VisibleOf(processes)), old(OpenOf(processes))))
      ensures ok ==> processes == Listing(settings.ascending, [], forest)
    {
      hide Pre, Size, PidSorted, NoDup, Unbuilt, Forested, Attached, Complete, Planted, PidsDistinct, Acyclic, Numbered,
           VisibleOf, OpenOf, LaidOut, Indented, Displayed, Slots, Indents, Shown, Orphan, Listing;
      var ascending := settings.ascending;
      ghost var vis, open, all := VisibleOf(processes), OpenOf(processes), processes;
      FlagsOf(processes);
      SortByPid();
      StartForest(all, processes, vis, open, ascending);
      ghost var f;
      ok, f := PlantAll(ascending, all, vis, open);
      if !ok {
        return;
      }
      ForestDone(f, all, vis, open, displayTreeSet, ascending, processes2);
      NoDupPermutes(all, Pre(f));
      PlantedAcyclic(f, Elements(all), vis);
      forest := f;
      processes, processes2 := processes2, processes;
    }

    /** The outer loop: one tree after another, until the list is empty or has no root left. */
    method PlantAll(ascending: bool, ghost all: seq<Process>, ghost vis: map<Process, int>, ghost open: set<Process>)
      returns (ok: bool, ghost f: Forest<Process>)
      requires multiset(processes) == multiset(all) && NoDup(all) && PidSorted(processes)
      requires Unbuilt(processes, vis, open)
      requires processes2 == [] && displayTreeSet == map[]
      modifies this`processes, this`processes2, this`displayTreeSet
      modifies Elements(processes)`show, Elements(processes)`indent, Elements(processes)`tree_left,
               Elements(processes)`tree_right, Elements(processes)`tree_depth, Elements(processes)`tree_index
      ensures ok ==> processes == [] && multiset(all) == multiset([]) + multiset(Pre(f))
      ensures ok ==> Forested(f, 0, 1, vis, open, map[], displayTreeSet, ascending, [], processes2)
      ensures ok ==> Planted(f, Elements(all), vis)
      ensures !ok ==> !Acyclic(Elements(all), vis)
    {
      hide Pre, Size, PidSorted, NoDup, Unbuilt, Forested, Attached, Complete, Planted, Acyclic, Orphan, Sown, FirstOrphan;
      StartForest(processes, processes, vis, open, ascending);
      SownStarts(all, processes, vis);
      SameElements(all, processes);
      NoDupPermutes(all, processes);
      var counter, index := 1, 0;
      f := [];
      while |processes| > 0
        invariant counter == 1 + 2 * Size(f) && index == Size(f)
        invariant Forested(f, 0, 1, vis, open, map[], displayTreeSet, ascending, [], processes2)
        invariant multiset(all) == multiset(processes) + multiset(Pre(f))
        invariant NoDup(processes) && PidSorted(processes) && Unbuilt(processes, vis, open)
        invariant Sown(f, all, processes, vis) && Elements(processes) <= old(Elements(processes))
        decreases |processes|
      {
        PartOf(all, processes, Pre(f));
        ok, counter, index, f := PlantNext(ascending, counter, index, all, vis, open, f);
        if !ok {
          return;
        }
      }
      ok := true;
      SownEnds(f, all, vis);
    }

    /** One more tree, from the first orphan that is left. */
    method PlantNext(ascending: bool, counter0: nat, index0: nat, ghost all: seq<Process>,
                     ghost vis: map<Process, int>, ghost open: set<Process>, ghost f: Forest<Process>)
      returns (ok: bool, counter: nat, index: nat, ghost f': Forest<Process>)
      requires processes != [] && NoDup(all)
      requires counter0 == 1 + 2 * Size(f) && index0 == Size(f)
      requires Forested(f, 0, 1, vis, open, map[], displayTreeSet, ascending, [], processes2)
      requires multiset(all) == multiset(processes) + multiset(Pre(f))
      requires NoDup(processes) && PidSorted(processes) && Unbuilt(processes, vis, open) && Sown(f, all, processes, vis)
      modifies this`processes, this`processes2, this`displayTreeSet
      modifies Elements(processes)`show, Elements(processes)`indent, Elements(processes)`tree_left,
               Elements(processes)`tree_right, Elements(processes)`tree_depth, Elements(processes)`tree_index
      ensures !ok ==> !Acyclic(Elements(all), vis)
      ensures ok ==> counter == 1 + 2 * Size(f') && index == Size(f')
      ensures ok ==> Forested(f', 0, 1, vis, open, map[], displayTreeSet, ascending, [], processes2)
      ensures ok ==> multiset(all) == multiset(processes) + multiset(Pre(f')) && |processes| < |old(processes)|
      ensures ok ==> NoDup(processes) && PidSorted(processes) && Unbuilt(processes, vis, open) && Sown(f', all, processes, vis)
      ensures ok ==> Elements(processes) <= old(Elements(processes))
    {
      hide Pre, Size, PidSorted, NoDup, Unbuilt, Forested, Attached, Complete, Planted, Acyclic, Orphan, Sown, FirstOrphan;
      ghost var before, shown, queued := processes, displayTreeSet, processes2;
      PartsApart(all, before, Pre(f), []);
      VisibleShow(before, vis, open);
      assert allocated(Nodes(f)) && allocated(Pre(f));
      var i;
      ok, i := FindRoot(vis);
      if !ok {
        PartOf(all, before, Pre(f));
        Cyclic(before, Elements(all), vis);
        return false, counter0, index0, f;
      }
      assert forall p :: p in Pre(f) ==> p !in Elements(before);
      ghost var t;
      counter, index, t := PlantRoot(i, ascending, counter0, index0, vis, open);
      ForestedAppend(f, t, 0, 1, vis, open, map[], shown, displayTreeSet, ascending, [], queued, processes2);
      NextRoot(all, before, processes, f, t, vis);
      PartOf(before, processes, Pre([t]));
      SizeAppend(f, [t]);
      f' := f + [t];
    }

    // ----- folding

    /** Folds the process of a PID, or unfolds it, when it is listed. */
    method Fold(pid: int, showChildren: bool)
      requires TableValid()
      modifies Elements(processes)`showChildren
      ensures OpenOf(processes) ==
              if showChildren then old(OpenOf(processes)) + WithPid(processes, pid)
              else old(OpenOf(processes)) - WithPid(processes, pid)
      ensures forall p :: p in processes ==> p.showChildren == if p.pid == pid then showChildren else old(p.showChildren)
    {
      if pid in processTable {
        ListedUnderPid(processes, processTable, pid);
        processTable[pid].showChildren := showChildren;
      }
    }

    /** `ProcessList_expandTree`. */
    method ExpandTree()
      modifies Elements(processes)`showChildren
      ensures OpenOf(processes) == Elements(processes) && forall p :: p in processes ==> p.showChildren
    {
      for i := 0 to |processes|
        invariant forall j :: 0 <= j < i ==> processes[j].showChildren
      {
        processes[i].showChildren := true;
      }
    }

    /** `ProcessList_collapseAllBranches`. */
    method CollapseAllBranches()
      modifies Elements(processes)`showChildren
      ensures OpenOf(processes) == set p | p in old(OpenOf(processes)) && (p.tree_depth == 0 || p.pid <= 1)
      ensures forall p :: p in processes ==>
                (p.showChildren <==> old(p.showChildren) && (p.tree_depth == 0 || p.pid <= 1))
    {
      for i := 0 to |processes|
        invariant forall p :: p in processes ==> p.showChildren ==> old(p.showChildren)
        invariant forall p :: p in processes && (p.tree_depth == 0 || p.pid <= 1) ==> p.showChildren == old(p.showChildren)
        invariant forall j :: 0 <= j < i && processes[j].tree_depth > 0 && processes[j].pid > 1 ==> !processes[j].showChildren
      {
        var process := processes[i];
        if process.tree_depth > 0 && process.pid > 1 {
          process.showChildren := false;
        }
      }
    }

    // ----- the life cycle

    ghost predicate TableValid()
      reads this`processes, this`processTable, this`following
    {
      Bijection(processes, processTable) && (following == -1 || following in processTable)
    }

    /** What the list holds, as a value. */
    ghost function Contents(): State
      reads this`processes, this`following, (set p | p in processes)`attr, (set p | p in processes)`updated,
            (set p | p in processes)`show, (set p | p in processes)`wasShown, (set p | p in processes)`tombStampMs,
            (set p | p in processes)`seenStampMs
    {
      State(Snapshots(processes), following)
    }

    /** The entry of a listed process, field by field. */
    lemma ListedEntry(p: Process)
      requires TableValid() && p in processes
      ensures EntryOf(Contents().entries, p.pid) ==
              Some(Entry(attr := p.attr.(pid := p.pid), updated := p.updated, show := p.show, wasShown := p.wasShown,
                         tombStampMs := p.tombStampMs, seenStampMs := p.seenStampMs))
    {
      hide EntryOf, Snapshots, Bijection;
      EntryIsSnapshot(processes, processTable, p);
    }

    method Add(p: Process)
      requires TableValid() && p.pid !in processTable
      modifies this`processes, this`processTable, p`seenStampMs
      ensures TableValid() && processes == old(processes) + [p]
      ensures p.seenStampMs == monotonicMs
    {
      p.seenStampMs := monotonicMs;
      BijectionAdds(processes, processTable, p);
      processes := processes + [p];
      processTable := processTable[p.pid := p];
    }

    /** `Vector_indexOf` by PID. */
    method IndexOf(p: Process) returns (idx: int)
      ensures -1 <= idx < |processes|
      ensures idx >= 0 ==> processes[idx].pid == p.pid
      ensures forall i :: 0 <= i < (if idx == -1 then |processes| else idx) ==> processes[i].pid != p.pid
    {
      for i := 0 to |processes|
        invariant forall j :: 0 <= j < i ==> processes[j].pid != p.pid
      {
        if processes[i].pid == p.pid {
          return i;
        }
      }
      return -1;
    }

    method Remove(p: Process)
      requires TableValid() && p in processes
      modifies this`processes, this`processTable, this`following
      ensures TableValid() && Contents() == Removed(old(Contents()), p.pid)
      ensures processTable == old(processTable) - {p.pid}
      ensures following == if old(following) == p.pid then -1 else old(following)
      ensures forall i :: 0 <= i < |old(processes)| && old(processes)[i] == p ==> processes == TakenOut(old(processes), i)
      ensures Elements(processes) <= old(Elements(processes))
    {
      hide Filter, Bijection, Snapshots, TakenOut, Elements, NotPid;
      processTable := processTable - {p.pid};
      var pid := p.pid;
      var idx := IndexOf(p);
      if idx >= 0 {
        Removal(processes, old(processTable), p, idx);
        processes := TakenOut(processes, idx);
      }
      if following != -1 && following == pid {
        following := -1;
      }
    }

    /** `ProcessList_getProcess`; a process that was not listed is added. */
    method Obtain(attr: Attributes) returns (proc: Process, preExisting: bool)
      requires TableValid()
      modifies this`processes, this`processTable
      ensures TableValid() && (preExisting <==> attr.pid in old(processTable))
      ensures attr.pid in processTable && proc == processTable[attr.pid] && proc in processes && proc.pid == attr.pid
      ensures if preExisting then processes == old(processes) && processTable == old(processTable)
              else fresh(proc) && processes == old(processes) + [proc]
                   && Snapshot(proc) == Entry(attr, false, true, false, 0, monotonicMs)
      ensures fresh(Elements(processes) - old(Elements(processes))) && NewOpen(processes, old(processes))
    {
      hide Bijection, NewOpen;
      preExisting := attr.pid in processTable;
      NewOpenNothing(processes);
      if preExisting {
        proc := processTable[attr.pid];
        ListedUnderPid(processes, processTable, attr.pid);
      } else {
        proc := new Process(attr);
        Add(proc);
        ListedUnder(processes, processTable, proc);
        NewOpenAdd(old(processes), proc);
      }
    }

    static method FillIn(proc: Process, attr: Attributes, show: bool)
      requires proc.pid == attr.pid
      modifies proc`attr, proc`show, proc`updated
      ensures Snapshot(proc) == old(Snapshot(proc)).(attr := attr, updated := true, show := show)
    {
      proc.attr := attr;
      proc.show := show;
      proc.updated := true;
    }

    /** What the platform code does with a process it could read. */
    method Observe(attr: Attributes, show: bool)
      requires TableValid()
      modifies this`processes, this`processTable, Elements(processes)`updated, Elements(processes)`show,
               Elements(processes)`attr
      ensures TableValid() && Contents() == Step(old(Contents()), Read(attr, show), monotonicMs)
      ensures fresh(Elements(processes) - old(Elements(processes)))
      ensures NewOpen(processes, old(processes))
    {
      hide Bijection, Snapshots, Snapshot, Map, Lists, NewOpen;
      BijectionLists(processes, processTable, attr.pid);
      ghost var before := Snapshots(processes);
      var proc, preExisting := Obtain(attr);
      FillIn(proc, attr, show);
      if preExisting {
        ReadAgain(processes, processTable, attr, show, before);
      } else {
        SnapshotsAdd(old(processes), proc);
        assert Snapshots(old(processes)) == before;
      }
    }

    /** `ProcessList_goThroughEntries`, as far as the list sees it. */
    method GoThroughEntries(events: seq<Event>)
      requires TableValid()
      modifies this`processes, this`processTable, this`following
      modifies Elements(processes)`updated, Elements(processes)`show, Elements(processes)`attr
      ensures TableValid() && Contents() == Steps(old(Contents()), events, monotonicMs)
      ensures fresh(Elements(processes) - old(Elements(processes)))
      ensures NewOpen(processes, old(processes))
    {
      hide Bijection, Snapshots, Lists, Removed;
      for i := 0 to |events|
        invariant TableValid() && Contents() == Steps(old(Contents()), events[..i], monotonicMs)
        invariant fresh(Elements(processes) - old(Elements(processes)))
        invariant NewOpen(processes, old(processes))
      {
        assert events[..i + 1][..i] == events[..i];
        assert events[..i + 1] != [];
        ghost var before := Contents();
        match events[i] {
          case Read(attr, show) =>
            Observe(attr, show);
          case Failed(pid) =>
            BijectionLists(processes, processTable, pid);
            if pid in processTable {
              ListedUnderPid(processes, processTable, pid);
              Remove(processTable[pid]);
            }
        }
        assert Contents() == Step(before, events[i], monotonicMs);
      }
      assert events[..|events|] == events;
    }

    /** The first loop of a scan. */
    method MarkDirty()
      requires TableValid()
      modifies Elements(processes)`updated, Elements(processes)`show, Elements(processes)`wasShown
      ensures Snapshots(processes) == Map(Dirty, old(Snapshots(processes)))
    {
      hide Bijection, Snapshots, Snapshot, Dirty;
      BijectionDistinct(processes, processTable);
      ghost var es := Snapshots(processes);
      for i := 0 to |processes|
        invariant forall j :: 0 <= j < i ==> Snapshot(processes[j]) == Dirty(es[j])
        invariant forall j :: i <= j < |processes| ==> Snapshot(processes[j]) == es[j]
      {
        MarkOne(processes[i]);
      }
    }

    static method MarkOne(p: Process)
      modifies p`updated, p`show, p`wasShown
      ensures Snapshot(p) == Dirty(old(Snapshot(p)))
    {
      p.updated := false;
      p.wasShown := p.show;
      p.show := true;
    }

    /** One round of the sweep: removes a process that is gone, marks one that has just died. */
    method Settle(p: Process, ghost i: nat)
      requires TableValid() && i < |processes| && processes[i] == p
      modifies this`processes, this`processTable, this`following, p`tombStampMs
      ensures TableValid() && Elements(processes) <= old(Elements(processes))
      ensures Snapshots(processes) == SettledAt(old(Snapshots(processes)), i, monotonicMs,
                                                settings.highlightChanges, settings.highlightDelaySecs)
      ensures following == old(following) || following == -1
      ensures processTable.Keys <= old(processTable.Keys) && (following == old(following) || old(following) !in processTable)
    {
      hide Bijection, Filter, Snapshots, TakenOut;
      SettledByRemoval(processes, processTable, i, monotonicMs, settings.highlightChanges, settings.highlightDelaySecs);
      if p.tombStampMs > 0 {
        if monotonicMs >= p.tombStampMs {
          Remove(p);
        }
      } else if !p.updated {
        if settings.highlightChanges && p.wasShown {
          p.tombStampMs := monotonicMs + 1000 * settings.highlightDelaySecs;
        } else {
          Remove(p);
        }
      }
    }

    /** The downward loop over the list. */
    method Sweep()
      requires TableValid()
      modifies this`processes, this`processTable, this`following, Elements(processes)`tombStampMs
      ensures TableValid() && Elements(processes) <= old(Elements(processes))
      ensures Contents() == AfterSweep(old(Contents()), monotonicMs, settings.highlightChanges, settings.highlightDelaySecs)
    {
      hide Bijection, Snapshots, Filter, Swept, Lists, Stays, Marked, SettledAt, PartSwept;
      var now, highlight, delay := monotonicMs, settings.highlightChanges, settings.highlightDelaySecs;
      ghost var es := Snapshots(processes);
      SweepEnds(es, now, highlight, delay);
      FollowingListed(processes, processTable, following);
      var i := |processes| - 1;
      while i >= 0
        invariant -1 <= i < |es|
        invariant TableValid() && Elements(processes) <= old(Elements(processes))
        invariant Snapshots(processes) == PartSwept(es, i + 1, now, highlight, delay)
        invariant following == old(following) || (following == -1 && old(following) !in processTable)
      {
        assert |processes| == |PartSwept(es, i + 1, now, highlight, delay)| > i;
        var p := processes[i];
        SweepRound(es, i, now, highlight, delay);
        Settle(p, i);
        i := i - 1;
      }
      FollowingListed(processes, processTable, old(following));
    }

    /** What a scan is given. */
    ghost function ScanOf(pauseProcessUpdate: bool, clock: nat, events: seq<Event>): Lifecycle.Scan
      reads this`firstScanDone, this`settings
    {
      Lifecycle.Scan(pauseProcessUpdate, settings.treeView, if firstScanDone then clock else 0, events,
                     settings.highlightChanges, settings.highlightDelaySecs)
    }

    /** `ProcessList_scan`, up to the rebuilding of the tree. */
    method ScanEntries(pauseProcessUpdate: bool, clock: nat, events: seq<Event>)
      requires TableValid()
      modifies this`processes, this`processTable, this`following, this`monotonicMs, this`firstScanDone
      modifies Elements(processes)`updated, Elements(processes)`show, Elements(processes)`wasShown,
               Elements(processes)`tombStampMs, Elements(processes)`attr
      ensures TableValid()
      ensures Contents() == AfterScan(old(Contents()), old(ScanOf(pauseProcessUpdate, clock, events)))
      ensures !pauseProcessUpdate ==> firstScanDone && monotonicMs == if old(firstScanDone) then clock else 0
      ensures fresh(Elements(processes) - old(Elements(processes)))
      ensures NewOpen(processes, old(processes))
      ensures pauseProcessUpdate ==> unchanged(this) && unchanged(old(Elements(processes)))
    {
      hide AfterScan, AfterSweep, Steps, Bijection, Snapshots, Map, Dirty, NewOpen;
      NewOpenNothing(processes);
      ScanStages(Contents(), ScanOf(pauseProcessUpdate, clock, events));
      if pauseProcessUpdate {
        return;
      }
      ghost var dirty := Contents().(entries := Map(Dirty, Contents().entries));
      MarkDirty();
      assert Contents() == dirty;
      if firstScanDone {
        monotonicMs := clock;
      } else {
        monotonicMs := 0;
        firstScanDone := true;
      }
      assert Contents() == dirty;
      GoThroughEntries(events);
      ghost var ps := processes;
      Sweep();
      NewOpenPart(ps, processes, old(processes));
    }

    /** The end of `ProcessList_scan` in tree view: the tree is built anew. */
    method RebuildTree() returns (ok: bool)
      requires TableValid() && processes2 == [] && draftingTreeSet == map[]
      modifies this`processes, this`processes2, this`displayTreeSet, this`forest
      modifies Elements(processes)`show, Elements(processes)`indent, Elements(processes)`tree_left,
               Elements(processes)`tree_right, Elements(processes)`tree_depth, Elements(processes)`tree_index
      ensures ok <==> Acyclic(Elements(old(processes)), old(VisibleOf(processes)))
      ensures ok ==> TableValid() && TreeValid() && processes2 == [] && multiset(processes) == multiset(old(processes))
      ensures ok ==> Indented(Pre(forest), Indents(forest, 0, -1, false))
      ensures ok ==> Planted(forest, Elements(old(processes)), old(VisibleOf(processes)))
      ensures ok ==> Displayed(Pre(forest), Shown(forest, true, old(VisibleOf(processes)), old(OpenOf(processes))))
      ensures ok ==> processes == Listing(settings.ascending, [], forest)
    {
      hide Listing, Bijection, Acyclic, Planted, Displayed, Indented, Pre, Slots, Indents, Shown, VisibleOf, OpenOf, Numbered,
           LaidOut, Links, BelowRoots, Roots, Reverse, NoDup, PidsDistinct;
      BijectionDistinct(processes, processTable);
      displayTreeSet := map[];
      ok := BuildTree();
      if !ok {
        return;
      }
      BijectionPermutes(old(processes), processes, processTable);
    }

    /** What a tree view shows after a scan: the tree of the processes as `es` has them. */
    ghost predicate TreeOf(es: seq<Entry>)
      reads this, Nodes(forest), set p | p in processes
    {
      var vis := VisibleIn(processes, es);
      && TreeValid() && processes == Listing(settings.ascending, [], forest)
      && Planted(forest, Elements(processes), vis)
      && Displayed(Pre(forest), Shown(forest, true, vis, OpenOf(processes)))
      && Indented(Pre(forest), Indents(forest, 0, -1, false))
    }

    /** The tree after a scan on the fields: who hangs under whom, and who shows, of the entries `es`. */
    lemma ScannedTree(es: seq<Entry>, k: nat)
      requires TreeOf(es) && TableValid() && SameEntries(es, Contents().entries) && k < |Links(forest, None)|
      ensures var (p, parent) := Links(forest, None)[k];
              var ppid := if p.attr.tgid == p.pid then p.attr.ppid else p.attr.tgid;
              var e := EntryOf(es, p.pid);
              && p in processes && e.Some? && e.value.attr.tgid == p.attr.tgid && e.value.attr.ppid == p.attr.ppid
              && (parent.Some? <==> e.value.show && ppid != 0 && ppid != p.pid && ppid in processTable)
              && (parent.Some? ==> parent.value == processTable[ppid])
              && (p.show <==> e.value.show && (parent.Some? ==> parent.value.show && parent.value.showChildren))
    {
      hide Pre, Links, NoDup, Planted, PidsDistinct, LaidOut, Indented, Slots, Indents, Shown, Numbered, EntryOf, Snapshots, Listing;
      var ps, vis := processes, VisibleIn(processes, es);
      BijectionDistinct(ps, processTable);
      BuiltNodes(forest, ps, ps);
      EntriesListed(ps, processTable);
      forall p | p in ps
        ensures var e := EntryOf(es, p.pid); e.Some? && e.value.attr.tgid == p.attr.tgid && e.value.attr.ppid == p.attr.ppid
        ensures p in vis ==> vis[p] == ParentPid(p)
      {
        assert SameButShow(EntryOf(es, p.pid), EntryOf(Contents().entries, p.pid));
      }
      BuiltLink(forest, ps, vis, OpenOf(ps), k);
    }

    /** `ProcessList_scan`. In tree view a cycle among the visible processes is fatal. */
    method Scan(pauseProcessUpdate: bool, clock: nat, events: seq<Event>) returns (ok: bool)
      requires TableValid() && processes2 == [] && draftingTreeSet == map[]
      modifies this`processes, this`processTable, this`following, this`monotonicMs, this`firstScanDone
      modifies this`processes2, this`displayTreeSet, this`forest
      modifies Elements(processes)`updated, Elements(processes)`show, Elements(processes)`wasShown,
               Elements(processes)`tombStampMs, Elements(processes)`attr
      modifies Elements(processes)`indent, Elements(processes)`tree_left, Elements(processes)`tree_right,
               Elements(processes)`tree_depth, Elements(processes)`tree_index
      ensures ok <==> !Fatal(old(Contents()), old(ScanOf(pauseProcessUpdate, clock, events)))
      ensures ok ==> TableValid() && processes2 == [] && draftingTreeSet == map[]
      ensures var after := AfterScan(old(Contents()), old(ScanOf(pauseProcessUpdate, clock, events)));
              ok ==>
                if !pauseProcessUpdate && settings.treeView
                then TreeOf(after.entries) && SameEntries(after.entries, Contents().entries) && following == after.following
                else Contents() == after
      ensures ok ==> Follows(old(Contents()), old(ScanOf(pauseProcessUpdate, clock, events)), Contents())
      ensures ok ==> fresh(Elements(processes) - old(Elements(processes)))
      ensures ok ==> NewOpen(processes, old(processes))
      ensures !pauseProcessUpdate ==> firstScanDone
      ensures pauseProcessUpdate ==> unchanged(this) && unchanged(old(Elements(processes)))
    {
      hide AfterScan, Bijection, Snapshots, NoCycle, TreeOf, Follows, SameEntries, NewOpen;
      ghost var s, scan := Contents(), ScanOf(pauseProcessUpdate, clock, events);
      ghost var after := AfterScan(s, scan);
      ScanEntries(pauseProcessUpdate, clock, events);
      ok := true;
      if !pauseProcessUpdate && settings.treeView {
        ghost var ps := processes;
        ok := RebuildScanned(after.entries);
        if !ok {
          return;
        }
        NewOpenPart(ps, processes, old(processes));
      }
      SameFollows(s, scan, Contents());
    }

    method RebuildScanned(ghost es: seq<Entry>) returns (ok: bool)
      requires TableValid() && processes2 == [] && draftingTreeSet == map[]
      requires es == Snapshots(processes)
      modifies this`processes, this`processes2, this`displayTreeSet, this`forest
      modifies Elements(processes)`show, Elements(processes)`indent, Elements(processes)`tree_left,
               Elements(processes)`tree_right, Elements(processes)`tree_depth, Elements(processes)`tree_index
      ensures ok <==> NoCycle(es)
      ensures ok ==> TableValid() && TreeOf(es) && SameEntries(es, Snapshots(processes)) && |processes| == |es|
      ensures ok ==> processes2 == [] && Elements(processes) == old(Elements(processes))
    {
      hide Bijection, Snapshots, NoCycle, Acyclic, VisibleIn, EntryOf, Planted, Displayed, Indented, Pre, Indents,
           Shown, VisibleOf, OpenOf, Listing, TreeValid, SameEntries;
      ghost var ps, table := processes, processTable;
      VisibleAgrees(processes, processTable);
      NoCycleAcyclic(processes, processTable);
      EntriesListed(processes, processTable);
      forall pid | pid in table ensures table[pid] in ps { ListedUnderPid(ps, table, pid); }
      ok := RebuildTree();
      if !ok {
        return;
      }
      SameElements(ps, processes);
      VisiblePermutes(ps, processes, es);
      SameAfter(es, processes, processTable);
      OpenPermutes(ps, processes);
    }

    // ----- the panel

    /** Whether the panel lists a process. */
    ghost predicate Wanted(p: Process)
      reads this`userId, this`incFilter, this`pidMatchList, p`show, p`attr
    {
      && p.show
      && (userId == None || p.attr.stUid == userId.value)
      && (incFilter == None || ContainsI(OrElse(p.attr.command, ""), incFilter.value))
      && (pidMatchList == None || p.attr.tgid in pidMatchList.value)
    }

    ghost function WantedOf(): set<Process>
      reads this`userId, this`incFilter, this`pidMatchList, this`processes,
            (set p | p in processes)`show, (set p | p in processes)`attr
    {
      set p | p in processes && Wanted(p)
    }

    /** Whom the selection follows: the main process of a followed thread when threads are hidden. */
    function Leader(): int
      reads this, processTable.Values
    {
      if following != -1 && settings.hideUserlandThreads && following in processTable
         && (processTable[following].attr.isUserlandThread || processTable[following].attr.isKernelThread)
         && processTable[following].attr.tgid in processTable
      then processTable[following].attr.tgid
      else following
    }

    /** `Panel_setSelected`. */
    method SetSelected(selection: int)
      modifies this`selected
      ensures 0 <= selection < |panel| ==> selected == selection
      ensures selection >= |panel| > 0 ==> selected == |panel| - 1
      ensures selection < 0 || panel == [] ==> selected == 0
    {
      var selection := selection;
      if selection >= |panel| {
        selection := |panel| - 1;
      }
      if selection < 0 {
        selection := 0;
      }
      selected := selection;
    }

    /** The loop of `ProcessList_rebuildPanel`. */
    method FillPanel() returns (foundFollowed: bool)
      requires panel == [] && selected == 0
      modifies this`panel, this`selected
      ensures panel == Filter(In(WantedOf()), processes)
      ensures forall p :: p in panel <==> (
                && p in processes && p.show
                && (userId == None || p.attr.stUid == userId.value)
                && (incFilter == None || ContainsI(if p.attr.command.Some? then p.attr.command.value else "", incFilter.value))
                && (pidMatchList == None || p.attr.tgid in pidMatchList.value))
      ensures foundFollowed <==> following != -1 && exists p :: p in panel && p.pid == following
      ensures if foundFollowed then selected < |panel| && panel[selected].pid == following else selected == 0
    {
      hide Filter, PidsOf;
      ghost var wanted := WantedOf();
      foundFollowed := false;
      FilterNothing(In(wanted));
      PidsNothing();
      for i := 0 to |processes|
        invariant panel == Filter(In(wanted), processes[..i])
        invariant foundFollowed <==> following != -1 && following in PidsOf(panel)
        invariant if foundFollowed then selected < |panel| && panel[selected].pid == following else selected == 0
      {
        var p := processes[i];
        assert processes[..i + 1] == processes[..i] + [p];
        FilterOne(In(wanted), processes[..i], p);
        var wants := p.show
          && (userId == None || p.attr.stUid == userId.value)
          && (incFilter == None || ContainsI(OrElse(p.attr.command, ""), incFilter.value))
          && (pidMatchList == None || p.attr.tgid in pidMatchList.value);
        assert p in processes && (wants <==> p in wanted);
        if wants {
          PidsAppend(panel, p);
          panel := panel + [p];
          if following != -1 && p.pid == following {
            foundFollowed := true;
            SetSelected(|panel| - 1);
          }
        }
      }
      assert processes[..|processes|] == processes;
      FilterElements(In(wanted), processes);
      PidsListed(panel);
    }

    /** `ProcessList_rebuildPanel`. */
    method RebuildPanel()
      requires TableValid()
      modifies this`panel, this`selected, this`scrollV, this`following
      ensures TableValid()
      // what is listed: all that shows and passes the three filters, in the order of the list
      ensures panel == Filter(In(WantedOf()), processes) && scrollV == old(scrollV)
      ensures forall p :: p in panel <==> (
                && p in processes && p.show
                && (userId == None || p.attr.stUid == userId.value)
                && (incFilter == None || ContainsI(if p.attr.command.Some? then p.attr.command.value else "", incFilter.value))
                && (pidMatchList == None || p.attr.tgid in pidMatchList.value))
      // whom the selection follows: the main process of a followed thread when threads are hidden, if it is listed
      ensures var was := old(following);
              var leader :=
                if was != -1 && settings.hideUserlandThreads && was in processTable
                   && (processTable[was].attr.isUserlandThread || processTable[was].attr.isKernelThread)
                   && processTable[was].attr.tgid in processTable
                then processTable[was].attr.tgid else was;
              following == if leader != -1 && exists p :: p in panel && p.pid == leader then leader else -1
      // the selected item: the followed one, or the last if it was the last, or the same position as far as there is one
      ensures following != -1 ==> selected < |panel| && panel[selected].pid == following
      ensures following == -1 ==>
                selected == if panel == [] then 0
                            else if (old(selected) > 0 && old(selected) == |old(panel)| - 1) || old(selected) >= |panel|
                            then |panel| - 1
                            else old(selected)
    {
      hide Bijection, Filter, WantedOf, ContainsI;
      var currPos, currScrollV, currSize := selected, scrollV, |panel|;
      panel, scrollV, selected := [], 0, 0;
      following := Leader();
      var foundFollowed := FillPanel();
      Reselect(currPos, currScrollV, currSize, foundFollowed);
    }

    /** The end of it: what was followed but is not listed is let go, and the old position is taken up again. */
    method Reselect(currPos: nat, currScrollV: int, currSize: nat, foundFollowed: bool)
      requires foundFollowed ==> following != -1
      modifies this`selected, this`scrollV, this`following
      ensures following == if foundFollowed then old(following) else -1
      ensures scrollV == currScrollV
      ensures foundFollowed ==> selected == old(selected)
      ensures !foundFollowed ==>
                selected == if panel == [] then 0
                            else if (currPos > 0 && currPos == currSize - 1) || currPos >= |panel| then |panel| - 1
                            else currPos
    {
      if foundFollowed {
        scrollV := currScrollV;
      }
      if following != -1 && !foundFollowed {
        following := -1;
      }
      if following == -1 {
        SetSelected(if currPos > 0 && currPos == currSize - 1 then |panel| - 1 else currPos);
        scrollV := currScrollV;
      }
    }
  }
}
