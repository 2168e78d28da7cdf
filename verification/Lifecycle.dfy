/** What scanning does to the listed processes, as a function on what the list holds.
    `ProcessLists.ProcessList.Scan` is proved to compute it; the lemmas follow processes over whole runs. */
module Lifecycle {
  import opened Options
  import opened Order
  import opened ProcessCompare

  /** A listed process: its attributes and the fields a scan writes. */
  datatype Entry = Entry(attr: Attributes, updated: bool, show: bool, wasShown: bool,
                         tombStampMs: nat, seenStampMs: nat)

  /** What the platform code reports while it goes through the system's processes. */
  datatype Event =
    | Read(attr: Attributes, show: bool)
    | Failed(pid: int)

  datatype State = State(entries: seq<Entry>, following: int)

  datatype Scan = Scan(pause: bool, treeView: bool, now: nat, events: seq<Event>, highlight: bool, delaySecs: nat)

  ghost predicate Lists(es: seq<Entry>, pid: int) {
    exists i :: 0 <= i < |es| && es[i].attr.pid == pid
  }

  ghost predicate OnePerPid(es: seq<Entry>) {
    forall i, j :: 0 <= i < j < |es| ==> es[i].attr.pid != es[j].attr.pid
  }

  /** One entry per PID, and what is followed is listed. */
  ghost predicate Consistent(s: State) {
    OnePerPid(s.entries) && (s.following == -1 || Lists(s.entries, s.following))
  }

  function Map<T, U>(f: T -> U, s: seq<T>): (r: seq<U>)
    ensures |r| == |s| && forall i :: 0 <= i < |s| ==> r[i] == f(s[i])
  {
    seq(|s|, i requires 0 <= i < |s| => f(s[i]))
  }

  function Dirty(e: Entry): Entry { e.(updated := false, wasShown := e.show, show := true) }

  function Seen(attr: Attributes, show: bool): Entry -> Entry {
    (e: Entry) => if e.attr.pid == attr.pid then e.(attr := attr, updated := true, show := show) else e
  }

  function NotPid(pid: int): Entry -> bool { (e: Entry) => e.attr.pid != pid }

  /** `ProcessList_remove`. */
  function Removed(s: State, pid: int): State {
    State(Filter(NotPid(pid), s.entries), if s.following == pid then -1 else s.following)
  }

  ghost function Step(s: State, ev: Event, now: nat): State {
    match ev
    case Read(attr, show) =>
      if Lists(s.entries, attr.pid) then s.(entries := Map(Seen(attr, show), s.entries))
      else s.(entries := s.entries + [Entry(attr, true, show, false, 0, now)])
    case Failed(pid) => if Lists(s.entries, pid) then Removed(s, pid) else s
  }

  ghost function Steps(s: State, evs: seq<Event>, now: nat): State {
    if evs == [] then s else Step(Steps(s, evs[..|evs| - 1], now), evs[|evs| - 1], now)
  }

  /** Whether the sweep at the end of a scan keeps a process. */
  function Stays(now: nat, highlight: bool): Entry -> bool {
    (e: Entry) => if e.tombStampMs > 0 then now < e.tombStampMs else e.updated || (highlight && e.wasShown)
  }

  function Marked(now: nat, delaySecs: nat): Entry -> Entry {
    (e: Entry) => if e.tombStampMs == 0 && !e.updated then e.(tombStampMs := now + 1000 * delaySecs) else e
  }

  function Swept(es: seq<Entry>, now: nat, highlight: bool, delaySecs: nat): seq<Entry> {
    Map(Marked(now, delaySecs), Filter(Stays(now, highlight), es))
  }

  ghost function AfterSweep(s: State, now: nat, highlight: bool, delaySecs: nat): State {
    var es := Swept(s.entries, now, highlight, delaySecs);
    State(es, if Lists(es, s.following) then s.following else -1)
  }

  ghost function AfterScan(s: State, scan: Scan): State {
    if scan.pause then s
    else
      AfterSweep(Steps(s.(entries := Map(Dirty, s.entries)), scan.events, scan.now),
                 scan.now, scan.highlight, scan.delaySecs)
  }

  lemma ScanStages(s: State, scan: Scan)
    ensures AfterScan(s, scan) ==
            if scan.pause then s
            else AfterSweep(Steps(s.(entries := Map(Dirty, s.entries)), scan.events, scan.now),
                            scan.now, scan.highlight, scan.delaySecs)
  {
  }

  // ----- every step keeps one entry per PID, and follows only what is listed

  lemma {:induction false} FilterDistinct(keep: Entry -> bool, es: seq<Entry>)
    requires OnePerPid(es)
    ensures OnePerPid(Filter(keep, es))
  {
    if es != [] {
      var front := es[..|es| - 1];
      FilterDistinct(keep, front);
      var f := Filter(keep, front);
      forall i | 0 <= i < |f| ensures f[i].attr.pid != es[|es| - 1].attr.pid {
        FilterAt(keep, front, i);
      }
    }
  }

  lemma FilterLists(keep: Entry -> bool, es: seq<Entry>, pid: int)
    ensures Lists(Filter(keep, es), pid) <==> exists i :: 0 <= i < |es| && es[i].attr.pid == pid && keep(es[i])
  {
    FilterElements(keep, es);
    var f := Filter(keep, es);
    if i :| 0 <= i < |f| && f[i].attr.pid == pid {
      assert f[i] in f;
    }
    if i :| 0 <= i < |es| && es[i].attr.pid == pid && keep(es[i]) {
      assert es[i] in f;
    }
  }

  /** The maps of a scan change no attributes. */
  lemma MapLists(f: Entry -> Entry, es: seq<Entry>, pid: int)
    requires forall e :: f(e).attr.pid == e.attr.pid
    ensures Lists(Map(f, es), pid) <==> Lists(es, pid)
    ensures OnePerPid(es) ==> OnePerPid(Map(f, es))
  {
    var m := Map(f, es);
    if i :| 0 <= i < |es| && es[i].attr.pid == pid { assert m[i].attr.pid == pid; }
  }

  lemma StepConsistent(s: State, ev: Event, now: nat)
    requires Consistent(s)
    ensures Consistent(Step(s, ev, now))
  {
    match ev {
      case Read(attr, show) =>
        if Lists(s.entries, attr.pid) {
          MapLists(Seen(attr, show), s.entries, s.following);
        } else {
          var i: int := if Lists(s.entries, s.following) then (var i :| 0 <= i < |s.entries| && s.entries[i].attr.pid == s.following; i) else -1;
          assert i >= 0 ==> Step(s, ev, now).entries[i].attr.pid == s.following;
        }
      case Failed(pid) =>
        FilterDistinct(NotPid(pid), s.entries);
        FilterLists(NotPid(pid), s.entries, s.following);
    }
  }

  lemma {:induction false} StepsConsistent(s: State, evs: seq<Event>, now: nat)
    requires Consistent(s)
    ensures Consistent(Steps(s, evs, now))
  {
    hide Consistent;
    if evs != [] {
      StepsConsistent(s, evs[..|evs| - 1], now);
      StepConsistent(Steps(s, evs[..|evs| - 1], now), evs[|evs| - 1], now);
    }
  }

  lemma ScanConsistent(s: State, scan: Scan)
    requires Consistent(s)
    ensures Consistent(AfterScan(s, scan))
  {
    if !scan.pause {
      MapLists(Dirty, s.entries, s.following);
      var es := Steps(s.(entries := Map(Dirty, s.entries)), scan.events, scan.now).entries;
      StepsConsistent(s.(entries := Map(Dirty, s.entries)), scan.events, scan.now);
      FilterDistinct(Stays(scan.now, scan.highlight), es);
      MapLists(Marked(scan.now, scan.delaySecs), Filter(Stays(scan.now, scan.highlight), es), s.following);
    }
  }

  // ----- the fate of one process

  /** The entry listed for `pid`, if any. */
  function EntryOf(es: seq<Entry>, pid: int): (r: Option<Entry>) {
    if es == [] then None
    else if es[|es| - 1].attr.pid == pid then Some(es[|es| - 1])
    else EntryOf(es[..|es| - 1], pid)
  }

  function FateOfEvent(o: Option<Entry>, ev: Event, pid: int, now: nat): Option<Entry> {
    match ev
    case Read(attr, show) =>
      if attr.pid != pid then o
      else Some(if o.Some? then o.value.(attr := attr, updated := true, show := show) else Entry(attr, true, show, false, 0, now))
    case Failed(p) => if p == pid then None else o
  }

  function FateOfEvents(o: Option<Entry>, evs: seq<Event>, pid: int, now: nat): Option<Entry> {
    if evs == [] then o else FateOfEvent(FateOfEvents(o, evs[..|evs| - 1], pid, now), evs[|evs| - 1], pid, now)
  }

  function FateOfSweep(o: Option<Entry>, scan: Scan): Option<Entry> {
    if o.Some? && Stays(scan.now, scan.highlight)(o.value) then Some(Marked(scan.now, scan.delaySecs)(o.value)) else None
  }

  function FateOfScan(o: Option<Entry>, scan: Scan, pid: int): Option<Entry> {
    if scan.pause then o
    else FateOfSweep(FateOfEvents(if o.Some? then Some(Dirty(o.value)) else None, scan.events, pid, scan.now), scan)
  }

  lemma {:induction false} EntryOfLists(es: seq<Entry>, pid: int)
    ensures EntryOf(es, pid).Some? <==> Lists(es, pid)
    ensures EntryOf(es, pid).Some? ==> EntryOf(es, pid).value in es && EntryOf(es, pid).value.attr.pid == pid
  {
    if es != [] {
      var front := es[..|es| - 1];
      EntryOfLists(front, pid);
      if i :| 0 <= i < |es| && es[i].attr.pid == pid { assert i < |es| - 1 ==> front[i].attr.pid == pid; }
      if i :| 0 <= i < |front| && front[i].attr.pid == pid { assert es[i].attr.pid == pid; }
      assert es[|es| - 1].attr.pid == pid ==> Lists(es, pid);
    }
  }

  lemma {:induction false} EntryOfMap(f: Entry -> Entry, es: seq<Entry>, pid: int)
    requires forall e :: f(e).attr.pid == e.attr.pid
    ensures EntryOf(Map(f, es), pid) == if EntryOf(es, pid).Some? then Some(f(EntryOf(es, pid).value)) else None
  {
    if es != [] {
      EntryOfMap(f, es[..|es| - 1], pid);
      assert Map(f, es)[..|es| - 1] == Map(f, es[..|es| - 1]);
    }
  }

  lemma EntryOfAppend(es: seq<Entry>, e: Entry, pid: int)
    ensures EntryOf(es + [e], pid) == if e.attr.pid == pid then Some(e) else EntryOf(es, pid)
  {
    assert (es + [e])[..|es|] == es;
  }

  lemma {:induction false} EntryOfFilter(keep: Entry -> bool, es: seq<Entry>, pid: int)
    requires OnePerPid(es)
    ensures var o := EntryOf(es, pid); EntryOf(Filter(keep, es), pid) == if o.Some? && keep(o.value) then o else None
  {
    if es != [] {
      var front, last := es[..|es| - 1], es[|es| - 1];
      EntryOfFilter(keep, front, pid);
      EntryOfAppend(Filter(keep, front), last, pid);
      EntryOfLists(front, pid);
      assert Filter(keep, front) + [] == Filter(keep, front);
    }
  }

  lemma EventFate(s: State, ev: Event, pid: int, now: nat)
    requires Consistent(s)
    ensures EntryOf(Step(s, ev, now).entries, pid) == FateOfEvent(EntryOf(s.entries, pid), ev, pid, now)
  {
    match ev {
      case Read(attr, show) =>
        EntryOfLists(s.entries, attr.pid);
        EntryOfLists(s.entries, pid);
        EntryOfMap(Seen(attr, show), s.entries, pid);
        EntryOfAppend(s.entries, Entry(attr, true, show, false, 0, now), pid);
      case Failed(p) =>
        EntryOfLists(s.entries, p);
        EntryOfLists(s.entries, pid);
        EntryOfFilter(NotPid(p), s.entries, pid);
    }
  }

  lemma {:induction false} EventsFate(s: State, evs: seq<Event>, pid: int, now: nat)
    requires Consistent(s)
    ensures EntryOf(Steps(s, evs, now).entries, pid) == FateOfEvents(EntryOf(s.entries, pid), evs, pid, now)
  {
    hide Consistent, Step, FateOfEvent, EntryOf;
    if evs != [] {
      EventsFate(s, evs[..|evs| - 1], pid, now);
      StepsConsistent(s, evs[..|evs| - 1], now);
      EventFate(Steps(s, evs[..|evs| - 1], now), evs[|evs| - 1], pid, now);
    }
  }

  /** A scan decides on every PID by itself. */
  lemma ScanFate(s: State, scan: Scan, pid: int)
    requires Consistent(s)
    ensures EntryOf(AfterScan(s, scan).entries, pid) == FateOfScan(EntryOf(s.entries, pid), scan, pid)
  {
    hide Steps, FateOfEvents, Filter, EntryOf;
    if !scan.pause {
      var s0 := s.(entries := Map(Dirty, s.entries));
      MapLists(Dirty, s.entries, s.following);
      EntryOfMap(Dirty, s.entries, pid);
      EventsFate(s0, scan.events, pid, scan.now);
      StepsConsistent(s0, scan.events, scan.now);
      var es := Steps(s0, scan.events, scan.now).entries;
      EntryOfFilter(Stays(scan.now, scan.highlight), es, pid);
      EntryOfMap(Marked(scan.now, scan.delaySecs), Filter(Stays(scan.now, scan.highlight), es), pid);
    }
  }

  // ----- runs of scans

  /** `Process_getParentPid`, of an entry. */
  function ParentOf(e: Entry): int {
    if e.attr.tgid == e.attr.pid then e.attr.ppid else e.attr.tgid
  }

  /** The entry of `pid` has nobody among the PIDs `s` to hang under. */
  ghost predicate Rootless(es: seq<Entry>, pid: int, s: set<int>) {
    match EntryOf(es, pid)
    case None => true
    case Some(e) => !e.show || ParentOf(e) == 0 || ParentOf(e) == pid || ParentOf(e) !in s
  }

  /** No cycle among the visible entries. */
  ghost predicate NoCycle(es: seq<Entry>) {
    forall s: set<int> :: s <= PidsIn(es) && s != {} ==> exists pid :: pid in s && Rootless(es, pid, s)
  }

  /** Whether a scan builds a tree in the end. */
  predicate Plants(scan: Scan) { !scan.pause && scan.treeView }

  /** The scan would leave a cycle for the tree; the program stops there. */
  ghost predicate Fatal(s: State, scan: Scan) {
    Plants(scan) && !NoCycle(AfterScan(s, scan).entries)
  }

  /** The same entry, but for whether it shows. */
  predicate SameButShow(a: Option<Entry>, b: Option<Entry>) {
    && (a.Some? <==> b.Some?)
    && (a.Some? ==> b.value == a.value.(show := b.value.show))
  }

  ghost predicate SameEntries(es: seq<Entry>, es': seq<Entry>) {
    forall pid: int :: SameButShow(EntryOf(es, pid), EntryOf(es', pid))
  }

  /** The same entries, in any order. */
  ghost predicate Alike(es: seq<Entry>, es': seq<Entry>) {
    forall pid: int :: EntryOf(es', pid) == EntryOf(es, pid)
  }

  /** `s'` can be found at the next scan when `scan` is done with `s`: sorting may have rearranged the list,
      building the tree may have folded processes away, and another listed process may be followed, or none. */
  ghost predicate Follows(s: State, scan: Scan, s': State) {
    var after := AfterScan(s, scan);
    && !Fatal(s, scan) && |s'.entries| == |after.entries|
    && (if Plants(scan) then SameEntries(after.entries, s'.entries) else Alike(after.entries, s'.entries))
    && (s'.following == after.following || s'.following == -1 || Lists(s'.entries, s'.following))
  }

  ghost predicate IsRun(ss: seq<State>, scans: seq<Scan>) {
    |ss| == |scans| + 1 && forall k :: 0 <= k < |scans| ==> Follows(ss[k], scans[k], ss[k + 1])
  }

  ghost function PidsIn(es: seq<Entry>): set<int> { set e | e in es :: e.attr.pid }

  lemma PidsInLists(es: seq<Entry>)
    ensures forall pid :: pid in PidsIn(es) <==> Lists(es, pid)
  {
    forall pid | pid in PidsIn(es) ensures Lists(es, pid) {
      var e :| e in es && e.attr.pid == pid;
      var i :| 0 <= i < |es| && es[i] == e;
    }
  }

  /** There are as many PIDs as entries exactly when no two entries share one. */
  lemma {:induction false} PidsCount(es: seq<Entry>)
    ensures |PidsIn(es)| <= |es| && (|PidsIn(es)| == |es| <==> OnePerPid(es))
  {
    if es != [] {
      var front, last := es[..|es| - 1], es[|es| - 1];
      PidsCount(front);
      assert es == front + [last];
      assert PidsIn(es) == PidsIn(front) + {last.attr.pid};
      PidsInLists(front);
      if Lists(front, last.attr.pid) {
        var i :| 0 <= i < |front| && front[i].attr.pid == last.attr.pid;
        assert es[i].attr.pid == es[|es| - 1].attr.pid;
      } else {
        NewPid(front, last);
      }
    }
  }

  lemma NewPid(front: seq<Entry>, last: Entry)
    requires !Lists(front, last.attr.pid)
    ensures OnePerPid(front + [last]) <==> OnePerPid(front)
  {
    var es := front + [last];
    if OnePerPid(es) {
      forall i, j | 0 <= i < j < |front| ensures front[i].attr.pid != front[j].attr.pid {
        assert es[i].attr.pid != es[j].attr.pid;
      }
    }
  }

  /** Entries that answer every PID alike, as many of them, are one per PID alike. */
  lemma SameOnePerPid(es: seq<Entry>, es': seq<Entry>)
    requires OnePerPid(es) && SameEntries(es, es') && |es| == |es'|
    ensures OnePerPid(es')
  {
    hide OnePerPid, EntryOf, Lists;
    forall pid ensures pid in PidsIn(es) <==> pid in PidsIn(es') {
      PidsInLists(es);
      PidsInLists(es');
      EntryOfLists(es, pid);
      EntryOfLists(es', pid);
      assert SameButShow(EntryOf(es, pid), EntryOf(es', pid));
    }
    assert PidsIn(es) == PidsIn(es');
    PidsCount(es);
    PidsCount(es');
  }

  lemma SameFollows(s: State, scan: Scan, s': State)
    requires s'.following == AfterScan(s, scan).following && |s'.entries| == |AfterScan(s, scan).entries|
    requires if Plants(scan) then SameEntries(AfterScan(s, scan).entries, s'.entries) else s' == AfterScan(s, scan)
    requires !Fatal(s, scan)
    ensures Follows(s, scan, s')
  {
    hide AfterScan, EntryOf, Fatal;
  }

  /** What may happen between two scans: the entries stay as they are, and whoever is followed is listed. */
  ghost predicate Between(s: State, s': State) {
    && |s'.entries| == |s.entries| && Alike(s.entries, s'.entries)
    && (s'.following == s.following || s'.following == -1 || Lists(s'.entries, s'.following))
  }

  lemma SameLists(es: seq<Entry>, es': seq<Entry>, pid: int)
    requires SameEntries(es, es')
    ensures Lists(es, pid) <==> Lists(es', pid)
  {
    hide EntryOf, Lists;
    EntryOfLists(es, pid);
    EntryOfLists(es', pid);
    assert SameButShow(EntryOf(es, pid), EntryOf(es', pid));
  }

  lemma AlikeSame(a: seq<Entry>, b: seq<Entry>)
    requires Alike(a, b)
    ensures SameEntries(a, b)
  {
    hide EntryOf;
  }

  lemma SameAlike(a: seq<Entry>, b: seq<Entry>, c: seq<Entry>)
    requires Alike(b, c)
    ensures SameEntries(a, b) ==> SameEntries(a, c)
    ensures Alike(a, b) ==> Alike(a, c)
  {
    hide EntryOf;
    if SameEntries(a, b) {
      forall pid: int ensures SameButShow(EntryOf(a, pid), EntryOf(c, pid)) {
        assert SameButShow(EntryOf(a, pid), EntryOf(b, pid)) && EntryOf(c, pid) == EntryOf(b, pid);
      }
    }
  }

  /** Before the first scan nothing is listed and nobody followed. */
  lemma BetweenNothing(s: State)
    requires Between(State([], -1), s)
    ensures s == State([], -1)
  {
  }

  lemma FollowsBetween(s: State, scan: Scan, s': State, s'': State)
    requires Follows(s, scan, s') && Between(s', s'')
    ensures Follows(s, scan, s'')
  {
    hide AfterScan, Lists, SameEntries, Alike, Fatal;
    SameAlike(AfterScan(s, scan).entries, s'.entries, s''.entries);
    AlikeSame(s'.entries, s''.entries);
    SameLists(s'.entries, s''.entries, s'.following);
  }

  lemma FollowsConsistent(s: State, scan: Scan, s': State)
    requires Consistent(s) && Follows(s, scan, s')
    ensures Consistent(s')
  {
    hide AfterScan, Lists, SameEntries, Alike, Fatal;
    var r := AfterScan(s, scan);
    ScanConsistent(s, scan);
    if !Plants(scan) { AlikeSame(r.entries, s'.entries); }
    SameOnePerPid(r.entries, s'.entries);
    SameLists(r.entries, s'.entries, s'.following);
  }

  lemma RunGrows(ss: seq<State>, scans: seq<Scan>, scan: Scan, s: State)
    requires IsRun(ss, scans) && Follows(ss[|ss| - 1], scan, s)
    ensures IsRun(ss + [s], scans + [scan])
  {
    hide Follows;
    var ss', scans' := ss + [s], scans + [scan];
    forall k | 0 <= k < |scans'| ensures Follows(ss'[k], scans'[k], ss'[k + 1]) {
      if k < |scans| { assert Follows(ss[k], scans[k], ss[k + 1]); }
    }
  }

  lemma RunRests(ss: seq<State>, scans: seq<Scan>, s: State)
    requires IsRun(ss, scans) && Between(ss[|ss| - 1], s)
    ensures IsRun(ss[..|ss| - 1] + [s], scans)
  {
    hide Follows, Between;
    var ss' := ss[..|ss| - 1] + [s];
    forall k | 0 <= k < |scans| ensures Follows(ss'[k], scans[k], ss'[k + 1]) {
      assert Follows(ss[k], scans[k], ss[k + 1]);
      if k == |scans| - 1 { FollowsBetween(ss[k], scans[k], ss[k + 1], s); }
    }
  }

  /** Over every run of scans. */
  lemma {:induction false} RunConsistent(ss: seq<State>, scans: seq<Scan>, k: nat)
    requires IsRun(ss, scans) && Consistent(ss[0]) && k < |ss|
    ensures Consistent(ss[k])
  {
    hide Consistent, Follows;
    if k > 0 {
      RunConsistent(ss, scans, k - 1);
      assert Follows(ss[k - 1], scans[k - 1], ss[k]);
      FollowsConsistent(ss[k - 1], scans[k - 1], ss[k]);
    }
  }

  lemma FateInRun(ss: seq<State>, scans: seq<Scan>, k: nat, pid: int)
    requires IsRun(ss, scans) && Consistent(ss[0]) && k < |scans|
    ensures SameButShow(FateOfScan(EntryOf(ss[k].entries, pid), scans[k], pid), EntryOf(ss[k + 1].entries, pid))
    ensures !Plants(scans[k]) ==> EntryOf(ss[k + 1].entries, pid) == FateOfScan(EntryOf(ss[k].entries, pid), scans[k], pid)
  {
    hide Consistent, AfterScan, EntryOf, FateOfScan, Fatal;
    RunConsistent(ss, scans, k);
    ScanFate(ss[k], scans[k], pid);
    assert Follows(ss[k], scans[k], ss[k + 1]);
    assert SameButShow(EntryOf(AfterScan(ss[k], scans[k]).entries, pid), EntryOf(ss[k + 1].entries, pid));
  }

  // ----- tombs

  lemma {:induction false} TombedEvents(o: Option<Entry>, evs: seq<Event>, pid: int, now: nat)
    requires o.Some? && o.value.tombStampMs > 0 && Failed(pid) !in evs
    ensures FateOfEvents(o, evs, pid, now).Some?
    ensures FateOfEvents(o, evs, pid, now).value.tombStampMs == o.value.tombStampMs
  {
    if evs != [] {
      assert evs[|evs| - 1] in evs;
      TombedEvents(o, evs[..|evs| - 1], pid, now);
    }
  }

  lemma TombedScan(o: Option<Entry>, scan: Scan, pid: int)
    requires o.Some? && o.value.tombStampMs > 0 && Failed(pid) !in scan.events
    ensures var r := FateOfScan(o, scan, pid);
            && (r.Some? <==> scan.pause || scan.now < o.value.tombStampMs)
            && (r.Some? ==> r.value.tombStampMs == o.value.tombStampMs)
  {
    if !scan.pause { TombedEvents(Some(Dirty(o.value)), scan.events, pid, scan.now); }
  }

  /** A tombed process keeps its stamp, whatever is read about its PID, and leaves the list at the first
      scan that is not paused and whose clock has reached the stamp (unless reading it fails before). */
  lemma {:induction false} TombLeavesOnTime(ss: seq<State>, scans: seq<Scan>, k: nat, pid: int)
    requires IsRun(ss, scans) && Consistent(ss[0]) && k < |scans|
    requires forall j :: 0 <= j <= k ==> Failed(pid) !in scans[j].events
    requires EntryOf(ss[0].entries, pid).Some? && EntryOf(ss[0].entries, pid).value.tombStampMs > 0
    requires forall j :: 0 <= j < k && !scans[j].pause ==> scans[j].now < EntryOf(ss[0].entries, pid).value.tombStampMs
    ensures var stamp := EntryOf(ss[0].entries, pid).value.tombStampMs;
            var before, after := EntryOf(ss[k].entries, pid), EntryOf(ss[k + 1].entries, pid);
            && before.Some? && before.value.tombStampMs == stamp
            && (after.Some? <==> scans[k].pause || scans[k].now < stamp)
            && (after.Some? ==> after.value.tombStampMs == stamp)
  {
    hide Consistent, FateOfScan, EntryOf, Follows;
    if k > 0 { TombLeavesOnTime(ss, scans, k - 1, pid); }
    FateInRun(ss, scans, k, pid);
    TombedScan(EntryOf(ss[k].entries, pid), scans[k], pid);
  }

  // ----- who is listed after a scan

  /** The last thing reported about `pid`. */
  function LastWord(evs: seq<Event>, pid: int): Option<Event> {
    if evs == [] then None
    else
      var ev := evs[|evs| - 1];
      if (ev.Read? && ev.attr.pid == pid) || (ev.Failed? && ev.pid == pid) then Some(ev)
      else LastWord(evs[..|evs| - 1], pid)
  }

  lemma {:induction false} LastWordMeans(evs: seq<Event>, pid: int)
    ensures match LastWord(evs, pid)
            case None => forall i :: 0 <= i < |evs| ==> pid != if evs[i].Read? then evs[i].attr.pid else evs[i].pid
            case Some(ev) => exists i :: 0 <= i < |evs| && evs[i] == ev && pid == (if ev.Read? then ev.attr.pid else ev.pid)
                               && forall j :: i < j < |evs| ==> pid != if evs[j].Read? then evs[j].attr.pid else evs[j].pid
  {
    if evs != [] {
      var front, last := evs[..|evs| - 1], evs[|evs| - 1];
      LastWordMeans(front, pid);
      if pid == (if last.Read? then last.attr.pid else last.pid) {
        assert evs[|evs| - 1] == last;
      } else if LastWord(front, pid).Some? {
        var ev := LastWord(front, pid).value;
        var i :| 0 <= i < |front| && front[i] == ev
                 && forall j :: i < j < |front| ==> pid != if front[j].Read? then front[j].attr.pid else front[j].pid;
        assert evs[i] == ev && forall j :: i < j < |front| ==> evs[j] == front[j];
      }
    }
  }

  /** What the events leave of an entry, and of what it was before. */
  lemma {:induction false} EventsLast(o: Option<Entry>, evs: seq<Event>, pid: int, now: nat)
    requires o.Some? ==> !o.value.updated
    ensures var r, w := FateOfEvents(o, evs, pid, now), LastWord(evs, pid);
            && (r.Some? && r.value.updated <==> w.Some? && w.value.Read?)
            && (r.Some? && !r.value.updated <==> w == None && o.Some?)
            && (r.Some? && !r.value.updated ==> r == o)
            && (r.Some? && r.value.tombStampMs > 0 <==> o.Some? && o.value.tombStampMs > 0 && Failed(pid) !in evs)
            && (r.Some? && r.value.tombStampMs > 0 ==> r.value.tombStampMs == o.value.tombStampMs)
    ensures var r, w := FateOfEvents(o, evs, pid, now), LastWord(evs, pid);
            && (r.Some? && w.Some? ==> w.value.Read? && r.value.attr == w.value.attr && r.value.show == w.value.show)
            && (o.Some? && Failed(pid) !in evs ==>
                  r.Some? && r.value.wasShown == o.value.wasShown && r.value.seenStampMs == o.value.seenStampMs)
            && (r.Some? && (o.None? || Failed(pid) in evs) ==>
                  !r.value.wasShown && r.value.seenStampMs == now && r.value.tombStampMs == 0)
  {
    if evs != [] {
      EventsLast(o, evs[..|evs| - 1], pid, now);
      assert evs == evs[..|evs| - 1] + [evs[|evs| - 1]];
    }
  }

  lemma {:induction false} StepsFollow(s: State, evs: seq<Event>, now: nat)
    requires Consistent(s)
    ensures Steps(s, evs, now).following == if s.following != -1 && Failed(s.following) in evs then -1 else s.following
  {
    hide Consistent;
    if evs != [] {
      var front, last := evs[..|evs| - 1], evs[|evs| - 1];
      assert evs == front + [last];
      StepsFollow(s, front, now);
      StepsConsistent(s, front, now);
      ConsistentFollows(Steps(s, front, now));
    }
  }

  lemma ConsistentFollows(s: State)
    requires Consistent(s)
    ensures s.following == -1 || Lists(s.entries, s.following)
  {
  }

  /** Whom the selection follows after a scan: the same process while its entry stays, without a failure in between. */
  lemma FollowingAfterScan(s: State, scan: Scan)
    requires Consistent(s)
    ensures var after := AfterScan(s, scan);
            after.following ==
            if scan.pause then s.following
            else if s.following != -1 && Failed(s.following) !in scan.events
                    && (exists i :: 0 <= i < |after.entries| && after.entries[i].attr.pid == s.following) then s.following
            else -1
  {
    hide Steps, Swept, OnePerPid;
    if !scan.pause {
      MapLists(Dirty, s.entries, s.following);
      MapOnePerPid(Dirty, s.entries);
      StepsFollow(s.(entries := Map(Dirty, s.entries)), scan.events, scan.now);
    }
  }

  lemma MapOnePerPid(f: Entry -> Entry, es: seq<Entry>)
    requires (forall e :: f(e).attr.pid == e.attr.pid) && OnePerPid(es)
    ensures OnePerPid(Map(f, es))
  {
  }

  /** After a scan that is not paused, the processes listed without a tomb are exactly those the scan saw
      last (a tombed one must have failed first, so that a new entry takes its PID); the tombed ones were
      tombed before and are not due, or went unseen by this scan after being shown. An entry holds what was last
      reported, or what it held before; that it was shown before, and when it was first seen, it remembers. */
  lemma ListedAfterScan(s: State, scan: Scan, pid: int)
    requires Consistent(s) && !scan.pause && scan.delaySecs >= 1
    ensures var o, r, w := EntryOf(s.entries, pid), EntryOf(AfterScan(s, scan).entries, pid), LastWord(scan.events, pid);
            var tombed, failed := o.Some? && o.value.tombStampMs > 0, Failed(pid) in scan.events;
            && (r.Some? && r.value.tombStampMs == 0 <==> w.Some? && w.value.Read? && (!tombed || failed))
            && (r.Some? && r.value.tombStampMs > 0 <==>
                  if tombed then !failed && scan.now < o.value.tombStampMs
                  else o.Some? && w == None && scan.highlight && o.value.show)
            && (r.Some? && r.value.tombStampMs > 0 ==>
                  r.value.tombStampMs == if tombed then o.value.tombStampMs else scan.now + 1000 * scan.delaySecs)
    ensures var o, r, w := EntryOf(s.entries, pid), EntryOf(AfterScan(s, scan).entries, pid), LastWord(scan.events, pid);
            r.Some? ==>
              && r.value.updated == w.Some?
              && (w.Some? ==> w.value.Read? && r.value.attr == w.value.attr && r.value.show == w.value.show)
              && (w.None? ==> o.Some? && r.value.attr == o.value.attr && r.value.show)
              && (if o.Some? && Failed(pid) !in scan.events
                  then r.value.wasShown == o.value.show && r.value.seenStampMs == o.value.seenStampMs
                  else !r.value.wasShown && r.value.seenStampMs == scan.now)
  {
    hide AfterScan, Consistent, FateOfEvents, EntryOf;
    var o := EntryOf(s.entries, pid);
    var d := if o.Some? then Some(Dirty(o.value)) else None;
    ScanFate(s, scan, pid);
    EventsLast(d, scan.events, pid, scan.now);
    if o.Some? && Failed(pid) in scan.events { FailedSpoken(scan.events, pid); }
  }

  lemma {:induction false} FailedSpoken(evs: seq<Event>, pid: int)
    requires Failed(pid) in evs
    ensures LastWord(evs, pid).Some?
  {
    var ev := evs[|evs| - 1];
    if !((ev.Read? && ev.attr.pid == pid) || (ev.Failed? && ev.pid == pid)) {
      assert evs == evs[..|evs| - 1] + [ev];
      FailedSpoken(evs[..|evs| - 1], pid);
    }
  }
}
