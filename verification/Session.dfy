/** What the program does with its process list while it runs: scans, sorts and panel rebuilds in any order, with
    changes of the settings, of the panel's filters, of what is folded and of whom is followed in between. */
module Sessions {
  import opened Options
  import opened Order
  import opened Forest
  import opened ProcessCompare
  import opened Processes
  import opened Resort
  import opened TreeBuilding
  import opened Indent
  import opened Lifecycle
  import opened Scanning
  import opened ScanTrees
  import opened ProcessLists

  datatype Command =
    | Rescan(pause: bool, clock: nat, events: seq<Event>)
    | Resort
    | Redraw
    | Configure(settings: Settings)
    | Follow(pid: int)
    | Fold(pid: int, showChildren: bool)
    | ExpandAll
    | CollapseAll
    | Narrow(userId: Option<nat>, incFilter: Option<string>)

  /** What the user chooses: the settings, and which processes the panel lists. */
  datatype Choices = Choices(settings: Settings, userId: Option<nat>, incFilter: Option<string>, pidMatchList: Option<set<int>>)

  function Chosen(before: Choices, cmd: Command): Choices {
    match cmd
    case Configure(settings) => before.(settings := settings)
    case Narrow(userId, incFilter) => before.(userId := userId, incFilter := incFilter)
    case _ => before
  }

  /** The choices after `cmds`. */
  function ChoicesAfter(first: Choices, cmds: seq<Command>): Choices {
    if cmds == [] then first else Chosen(ChoicesAfter(first, cmds[..|cmds| - 1]), cmds[|cmds| - 1])
  }

  ghost function ChoicesOf(pl: ProcessList): Choices
    reads pl`settings, pl`userId, pl`incFilter, pl`pidMatchList
  {
    Choices(pl.settings, pl.userId, pl.incFilter, pl.pidMatchList)
  }

  /** The processes that are unfolded after a command other than a scan. */
  ghost function OpenAfter(pl: ProcessList, cmd: Command): set<Process>
    reads pl`processes, (set p | p in pl.processes)`showChildren, (set p | p in pl.processes)`tree_depth
  {
    match cmd
    case Fold(pid, showChildren) =>
      if showChildren then OpenOf(pl.processes) + WithPid(pl.processes, pid)
      else OpenOf(pl.processes) - WithPid(pl.processes, pid)
    case ExpandAll => Elements(pl.processes)
    case CollapseAll => set p | p in OpenOf(pl.processes) && (p.tree_depth == 0 || p.pid <= 1)
    case _ => OpenOf(pl.processes)
  }

  /** Whether one of `cmds` is a scan that is not paused. */
  predicate ScannedIn(cmds: seq<Command>) {
    cmds != [] &&
    var cmd := cmds[|cmds| - 1];
    (cmd.Rescan? && !cmd.pause) || ScannedIn(cmds[..|cmds| - 1])
  }

  /** The scan that a command orders after `cmds`: the first one that is not paused runs at time 0. */
  function ScanBy(first: Choices, cmds: seq<Command>, cmd: Command): Lifecycle.Scan
    requires cmd.Rescan?
  {
    var settings := ChoicesAfter(first, cmds).settings;
    Lifecycle.Scan(cmd.pause, settings.treeView, if ScannedIn(cmds) then cmd.clock else 0, cmd.events,
                   settings.highlightChanges, settings.highlightDelaySecs)
  }

  /** The scans that `cmds` order. */
  function ScansOf(first: Choices, cmds: seq<Command>): seq<Lifecycle.Scan> {
    if cmds == [] then []
    else
      var before, cmd := cmds[..|cmds| - 1], cmds[|cmds| - 1];
      ScansOf(first, before) + if cmd.Rescan? then [ScanBy(first, before, cmd)] else []
  }

  /** Whether the tree at hand is that of the list: no scan in list view after the last one in tree view. */
  predicate Current(first: Choices, cmds: seq<Command>) {
    cmds == [] ||
    var before, cmd := cmds[..|cmds| - 1], cmds[|cmds| - 1];
    if cmd.Rescan? && !cmd.pause then ChoicesAfter(first, before).settings.treeView else Current(first, before)
  }

  /** No sort in tree view since a scan in list view, unless a scan in tree view came in between. */
  ghost predicate Orderly(first: Choices, cmds: seq<Command>) {
    forall k :: 0 <= k < |cmds| && cmds[k].Resort? ==>
      var before := cmds[..k]; ChoicesAfter(first, before).settings.treeView ==> Current(first, before)
  }

  /** What one more command adds. */
  lemma OneMore(first: Choices, cmds: seq<Command>, cmd: Command)
    ensures var more := cmds + [cmd];
            && ChoicesAfter(first, more) == Chosen(ChoicesAfter(first, cmds), cmd)
            && ScannedIn(more) == ((cmd.Rescan? && !cmd.pause) || ScannedIn(cmds))
            && ScansOf(first, more) == ScansOf(first, cmds) + (if cmd.Rescan? then [ScanBy(first, cmds, cmd)] else [])
            && Current(first, more)
               == if cmd.Rescan? && !cmd.pause then ChoicesAfter(first, cmds).settings.treeView else Current(first, cmds)
  {
    assert (cmds + [cmd])[..|cmds|] == cmds;
  }

  /** What holds between any two commands. */
  ghost predicate Ready(pl: ProcessList, current: bool)
    reads pl
    reads Nodes(pl.forest)`tree_index, Nodes(pl.forest)`tree_left, Nodes(pl.forest)`tree_right, Nodes(pl.forest)`tree_depth
  {
    && pl.TableValid() && pl.processes2 == [] && pl.draftingTreeSet == map[]
    && (current ==> pl.TreeValid())
  }

  lemma TreeParts(pl: ProcessList)
    requires pl.TreeValid()
    ensures Nodes(pl.forest) == Elements(pl.processes) && pl.draftingTreeSet == map[]
  {
    hide Pre;
    SameElements(pl.processes, Pre(pl.forest));
  }

  /** How the next sort arranges the list. */
  ghost function Arranged(pl: ProcessList): seq<Process>
    reads pl`processes, pl`settings, pl`forest, (set p | p in pl.processes)`attr
  {
    if pl.settings.treeView then Pre(Resorted(pl.Comparison(), pl.forest)) else SortBy(pl.Comparison(), pl.processes)
  }

  /** Sorting rearranges the list. */
  method Rearrange(pl: ProcessList, ghost current: bool)
    requires Ready(pl, current) && (pl.settings.treeView ==> current)
    modifies pl`processes, pl`displayTreeSet, pl`draftingTreeSet, pl`forest
    modifies Elements(pl.processes)`indent, Elements(pl.processes)`tree_left, Elements(pl.processes)`tree_right,
             Elements(pl.processes)`tree_depth, Elements(pl.processes)`tree_index
    ensures multiset(pl.processes) == multiset(old(pl.processes)) && pl.processes == old(Arranged(pl))
    ensures pl.draftingTreeSet == map[] && (current ==> pl.TreeValid())
  {
    hide Bijection, ProcessList.TreeValid, Resorted, Indents, Indented, Comparator, AttributesOf, SortBy, Pre;
    BijectionDistinct(pl.processes, pl.processTable);
    if pl.settings.treeView { TreeParts(pl); }
    pl.Sort();
    if pl.settings.treeView { TreeParts(pl); }
  }

  /** It changes no entry. */
  method SortList(pl: ProcessList, ghost current: bool)
    requires Ready(pl, current) && (pl.settings.treeView ==> current)
    modifies pl`processes, pl`displayTreeSet, pl`draftingTreeSet, pl`forest
    modifies Elements(pl.processes)`indent, Elements(pl.processes)`tree_left, Elements(pl.processes)`tree_right,
             Elements(pl.processes)`tree_depth, Elements(pl.processes)`tree_index
    ensures Ready(pl, current) && Elements(pl.processes) == old(Elements(pl.processes))
    ensures Between(old(pl.Contents()), pl.Contents()) && OpenOf(pl.processes) == old(OpenOf(pl.processes))
    ensures pl.processes == old(Arranged(pl))
  {
    hide OpenOf, Arranged, Bijection, Snapshots, Alike, EntryOf, ProcessList.TreeValid, Elements;
    ghost var ps, table, es := pl.processes, pl.processTable, Snapshots(pl.processes);
    EntriesListed(ps, table);
    Rearrange(pl, current);
    SameElements(ps, pl.processes);
    OpenPermutes(ps, pl.processes);
    BijectionPermutes(ps, pl.processes, table);
    AlikeAfter(es, pl.processes, table);
  }

  /** Rebuilding the panel, or following a listed process or nobody, moves on nothing but whom the selection follows. */
  method RedrawPanel(pl: ProcessList, ghost current: bool)
    requires Ready(pl, current)
    modifies pl`panel, pl`selected, pl`scrollV, pl`following
    ensures Ready(pl, current) && Between(old(pl.Contents()), pl.Contents())
    ensures pl.panel == Filter(In(pl.WantedOf()), pl.processes)
  {
    hide ProcessList.WantedOf, Bijection, Snapshots, EntryOf, ProcessList.TreeValid, Elements, Filter;
    assert allocated(Pre(pl.forest)) && allocated(Nodes(pl.forest));
    pl.RebuildPanel();
    FollowingListed(pl.processes, pl.processTable, pl.following);
  }

  method FollowProcess(pl: ProcessList, pid: int, ghost current: bool)
    requires Ready(pl, current)
    modifies pl`following
    ensures Ready(pl, current) && Between(old(pl.Contents()), pl.Contents())
    ensures pl.following == if pid == -1 || pid in pl.processTable then pid else old(pl.following)
  {
    hide Bijection, Snapshots, EntryOf, ProcessList.TreeValid, Elements;
    assert allocated(Pre(pl.forest)) && allocated(Nodes(pl.forest));
    if pid == -1 || pid in pl.processTable {
      pl.following := pid;
    }
    FollowingListed(pl.processes, pl.processTable, pl.following);
  }

  /** Folding decides on the next tree; the one at hand, and the entries, stay as they are. */
  method FoldList(pl: ProcessList, cmd: Command, ghost current: bool)
    requires Ready(pl, current) && (cmd.Fold? || cmd.ExpandAll? || cmd.CollapseAll?)
    modifies Elements(pl.processes)`showChildren
    ensures Ready(pl, current) && pl.Contents() == old(pl.Contents())
    ensures OpenOf(pl.processes) == old(OpenAfter(pl, cmd))
  {
    hide Bijection, Snapshots, ProcessList.TreeValid;
    assert allocated(Pre(pl.forest)) && allocated(Nodes(pl.forest));
    match cmd {
      case Fold(pid, showChildren) =>
        pl.Fold(pid, showChildren);
      case ExpandAll =>
        pl.ExpandTree();
      case CollapseAll =>
        pl.CollapseAllBranches();
    }
  }

  /** Every command but a scan leaves the entries as they are, and the tree at hand in order. */
  method Attend(pl: ProcessList, cmd: Command, ghost current: bool)
    requires Ready(pl, current) && !cmd.Rescan? && (cmd.Resort? && pl.settings.treeView ==> current)
    modifies pl, Elements(pl.processes)
    ensures Ready(pl, current) && Elements(pl.processes) == old(Elements(pl.processes))
    ensures Between(old(pl.Contents()), pl.Contents()) && pl.firstScanDone == old(pl.firstScanDone)
    ensures ChoicesOf(pl) == Chosen(old(ChoicesOf(pl)), cmd)
    ensures OpenOf(pl.processes) == old(OpenAfter(pl, cmd))
    ensures pl.settings == if cmd.Configure? then cmd.settings else old(pl.settings)
    ensures pl.userId == if cmd.Narrow? then cmd.userId else old(pl.userId)
    ensures pl.incFilter == if cmd.Narrow? then cmd.incFilter else old(pl.incFilter)
    ensures cmd.Resort? ==> pl.processes == old(Arranged(pl))
    ensures cmd.Redraw? ==> pl.panel == Filter(In(pl.WantedOf()), pl.processes)
    ensures !cmd.Redraw? ==> pl.panel == old(pl.panel) && pl.selected == old(pl.selected)
    ensures cmd.Follow? ==> pl.following == if cmd.pid == -1 || cmd.pid in pl.processTable then cmd.pid else old(pl.following)
  {
    hide OpenOf, Bijection, Snapshots, ProcessList.TreeValid, Between, Arranged, ProcessList.WantedOf, Filter;
    assert allocated(Pre(pl.forest)) && allocated(Nodes(pl.forest));
    StaysBetween(pl);
    match cmd {
      case Resort =>
        SortList(pl, current);
      case Redraw =>
        RedrawPanel(pl, current);
      case Configure(settings) =>
        pl.settings := settings;
      case Follow(pid) =>
        FollowProcess(pl, pid, current);
      case Fold(_, _) =>
        FoldList(pl, cmd, current);
      case ExpandAll =>
        FoldList(pl, cmd, current);
      case CollapseAll =>
        FoldList(pl, cmd, current);
      case Narrow(userId, incFilter) =>
        pl.userId, pl.incFilter := userId, incFilter;
    }
  }

  lemma StaysBetween(pl: ProcessList)
    ensures Between(pl.Contents(), pl.Contents())
  {
    hide EntryOf, Snapshots;
  }

  /** A scan that goes through takes the state on as the scan function says. */
  method RescanList(pl: ProcessList, pause: bool, clock: nat, events: seq<Event>, ghost current: bool)
    returns (ok: bool, ghost current': bool)
    requires Ready(pl, current)
    modifies pl`processes, pl`processTable, pl`following, pl`monotonicMs, pl`firstScanDone
    modifies pl`processes2, pl`displayTreeSet, pl`forest
    modifies Elements(pl.processes)`updated, Elements(pl.processes)`show, Elements(pl.processes)`wasShown,
             Elements(pl.processes)`tombStampMs, Elements(pl.processes)`attr
    modifies Elements(pl.processes)`indent, Elements(pl.processes)`tree_left, Elements(pl.processes)`tree_right,
             Elements(pl.processes)`tree_depth, Elements(pl.processes)`tree_index
    ensures current' == if pause then current else pl.settings.treeView
    ensures ok <==> !Fatal(old(pl.Contents()), old(pl.ScanOf(pause, clock, events)))
    ensures ok ==> Ready(pl, current') && fresh(Elements(pl.processes) - old(Elements(pl.processes)))
    ensures ok ==> Follows(old(pl.Contents()), old(pl.ScanOf(pause, clock, events)), pl.Contents())
    ensures ok ==> pl.firstScanDone == (old(pl.firstScanDone) || !pause)
    ensures ok ==>
              OpenOf(pl.processes) == set p | p in pl.processes && (p in old(OpenOf(pl.processes)) || p !in old(pl.processes))
  {
    hide Bijection, Snapshots, AfterScan, Follows, Fatal, ProcessList.TreeValid;
    current' := if pause then current else pl.settings.treeView;
    if pause && current { TreeParts(pl); }
    ok := pl.Scan(pause, clock, events);
  }

  /** Where a session stands after `cmds`: the list is in order, and its states at the scans so far form a run
      that starts from nothing and ends at the list. */
  ghost predicate Underway(pl: ProcessList, first: Choices, cmds: seq<Command>, ss: seq<State>)
    reads pl, Nodes(pl.forest), set p | p in pl.processes
  {
    && Ready(pl, Current(first, cmds))
    && ChoicesOf(pl) == ChoicesAfter(first, cmds) && pl.firstScanDone == ScannedIn(cmds)
    && Stood(ss, first, cmds) && ss[|ss| - 1] == pl.Contents()
  }

  /** The states at the scans that `cmds` order, from nothing on. */
  ghost predicate Stood(ss: seq<State>, first: Choices, cmds: seq<Command>) {
    IsRun(ss, ScansOf(first, cmds)) && ss != [] && ss[0] == State([], -1)
  }

  /** One command of a session; only a scan can be fatal. */
  method Perform(pl: ProcessList, cmd: Command, ghost first: Choices, ghost cmds: seq<Command>, ghost ss: seq<State>)
    returns (ok: bool, ghost ss': seq<State>)
    requires Underway(pl, first, cmds, ss)
    requires cmd.Resort? && ChoicesAfter(first, cmds).settings.treeView ==> Current(first, cmds)
    modifies pl, Elements(pl.processes)
    ensures ok <==> !(cmd.Rescan? && Fatal(ss[|ss| - 1], ScanBy(first, cmds, cmd)))
    ensures ok ==> Underway(pl, first, cmds + [cmd], ss')
    ensures ok ==> fresh(Elements(pl.processes) - old(Elements(pl.processes)))
    ensures !cmd.Rescan? ==> OpenOf(pl.processes) == old(OpenAfter(pl, cmd))
    ensures ok && cmd.Rescan? ==>
              OpenOf(pl.processes) == set p | p in pl.processes && (p in old(OpenOf(pl.processes)) || p !in old(pl.processes))
  {
    hide Bijection, Snapshots, AfterScan, Follows, Fatal, ProcessList.TreeValid, Elements, IsRun, Between,
         ChoicesAfter, ScannedIn, ScansOf, Current, OpenOf;
    assert allocated(Pre(pl.forest)) && allocated(Nodes(pl.forest));
    ghost var current := Current(first, cmds);
    OneMore(first, cmds, cmd);
    ok, ss' := true, ss;
    match cmd {
      case Rescan(pause, clock, events) =>
        ghost var current';
        ok, current' := RescanList(pl, pause, clock, events, current);
        if ok {
          RunGrows(ss, ScansOf(first, cmds), ScanBy(first, cmds, cmd), pl.Contents());
          ss' := ss + [pl.Contents()];
        }
      case _ =>
        Attend(pl, cmd, current);
        ss' := ss[..|ss| - 1] + [pl.Contents()];
        StoodRests(ss, first, cmds, cmd, pl.Contents());
    }
  }

  lemma StoodRests(ss: seq<State>, first: Choices, cmds: seq<Command>, cmd: Command, s: State)
    requires Stood(ss, first, cmds) && Between(ss[|ss| - 1], s) && !cmd.Rescan?
    ensures Stood(ss[..|ss| - 1] + [s], first, cmds + [cmd])
  {
    hide Between, ScansOf;
    RunRests(ss, ScansOf(first, cmds), s);
    OneMore(first, cmds, cmd);
    if |ss| == 1 { BetweenNothing(s); }
  }

  /** A session from a new list on. Whatever the platform reports and the user does: list and table stay in
      correspondence, the tree at hand is that of the list whenever it is needed, and the states at the scans are
      a run of exactly the scans that were ordered. It ends early exactly at the first scan that leaves a cycle for
      the tree: a run has no such scan. */
  method Session(first: Choices, cmds: seq<Command>)
    returns (pl: ProcessList, done: nat, ghost ss: seq<State>)
    requires first.incFilter == None && Orderly(first, cmds)
    ensures done <= |cmds| && Stood(ss, first, cmds[..done])
    ensures done == |cmds| ==> Underway(pl, first, cmds, ss)
    ensures done < |cmds| ==> cmds[done].Rescan? && Fatal(ss[|ss| - 1], ScanBy(first, cmds[..done], cmds[done]))
  {
    hide Bijection, ProcessList.TreeValid, IsRun, Fatal, Snapshots, ChoicesAfter, ScannedIn, ScansOf, Current;
    pl := new ProcessList(first.settings, first.pidMatchList, first.userId);
    ss, done := [pl.Contents()], 0;
    assert cmds[..0] == [];
    NothingYet(first);
    while done < |cmds|
      invariant done <= |cmds| && fresh(pl) && fresh(Elements(pl.processes))
      invariant Underway(pl, first, cmds[..done], ss)
    {
      var cmd := cmds[done];
      assert cmds[..done + 1] == cmds[..done] + [cmd];
      var ok;
      ghost var ss';
      ok, ss' := Perform(pl, cmd, first, cmds[..done], ss);
      if !ok {
        return;
      }
      ss, done := ss', done + 1;
    }
    assert cmds[..done] == cmds;
  }

  /** Whatever was ordered, the life cycle theorems about runs apply: at every scan of a session there is
      one entry per PID, and what is followed is listed. */
  lemma SessionConsistent(ss: seq<State>, first: Choices, cmds: seq<Command>, k: nat)
    requires Stood(ss, first, cmds) && k < |ss|
    ensures Consistent(ss[k])
  {
    RunConsistent(ss, ScansOf(first, cmds), k);
  }

  lemma NothingYet(first: Choices)
    ensures ChoicesAfter(first, []) == first && !ScannedIn([]) && ScansOf(first, []) == [] && Current(first, [])
    ensures Stood([State([], -1)], first, [])
  {
  }
}
