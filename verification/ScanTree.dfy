/** What the entries that a scan leaves say about the tree that is built from them. */
module ScanTrees {
  import opened Options
  import opened Order
  import opened Processes
  import opened TreeBuilding
  import opened Lifecycle
  import opened Scanning

  // ----- what is fatal

  /** The visible entry of `pid` names `parent` as its parent. */
  ghost predicate Leads(es: seq<Entry>, pid: int, parent: int) {
    var o := EntryOf(es, pid);
    o.Some? && o.value.show && parent == ParentOf(o.value) && parent != 0 && parent != pid
  }

  ghost predicate Walk(es: seq<Entry>, c: seq<int>) {
    forall i, j :: 0 <= i < j < |c| && j == i + 1 ==> Leads(es, c[i], c[j])
  }

  /** Every member of the group has its parent there. */
  ghost predicate Blocked(es: seq<Entry>, s: set<int>) {
    forall pid :: pid in s ==> !Rootless(es, pid, s)
  }

  lemma {:induction false} LongWalk(es: seq<Entry>, s: set<int>, start: int, n: nat) returns (c: seq<int>)
    requires start in s && Blocked(es, s)
    ensures |c| == n + 1 && Walk(es, c) && forall i :: 0 <= i < |c| ==> c[i] in s
  {
    hide EntryOf;
    if n == 0 {
      c := [start];
    } else {
      var w := LongWalk(es, s, start, n - 1);
      assert !Rootless(es, w[n - 1], s);
      c := w + [ParentOf(EntryOf(es, w[n - 1]).value)];
    }
  }

  lemma {:induction false} NoDupFits<T>(c: seq<T>, s: set<T>)
    requires NoDup(c) && forall i :: 0 <= i < |c| ==> c[i] in s
    ensures |c| <= |s|
  {
    if c != [] {
      var front, last := c[..|c| - 1], c[|c| - 1];
      assert forall i :: 0 <= i < |front| ==> front[i] != last;
      NoDupFits(front, s - {last});
    }
  }

  /** Parents that lead back to where they started. */
  ghost predicate Circle(es: seq<Entry>, c: seq<int>) {
    |c| >= 2 && c[0] == c[|c| - 1] && Walk(es, c)
  }

  lemma BlockedGroup(es: seq<Entry>) returns (s: set<int>, start: int)
    requires !NoCycle(es)
    ensures start in s && Blocked(es, s)
  {
    s :| s <= PidsIn(es) && s != {} && Blocked(es, s);
    start :| start in s;
  }

  lemma CircleFound(es: seq<Entry>) returns (c: seq<int>)
    requires !NoCycle(es)
    ensures Circle(es, c)
  {
    hide Rootless, Leads, PidsIn, Blocked, NoCycle;
    var s, start := BlockedGroup(es);
    var w := LongWalk(es, s, start, |s|);
    if NoDup(w) { NoDupFits(w, s); }
    var i, j :| 0 <= i < j < |w| && w[i] == w[j];
    c := w[i..j + 1];
    forall k | 0 <= k < |c| - 1 ensures Leads(es, c[k], c[k + 1]) {
      assert Leads(es, w[i + k], w[i + k + 1]);
    }
  }

  lemma CircleBlocks(es: seq<Entry>, c: seq<int>)
    requires Circle(es, c)
    ensures !NoCycle(es)
  {
    hide EntryOf;
    var s := set pid | pid in c;
    forall pid | pid in s ensures pid in PidsIn(es) && !Rootless(es, pid, s) {
      var i :| 0 <= i < |c| && c[i] == pid;
      var k := if i == |c| - 1 then 0 else i;
      assert Leads(es, c[k], c[k + 1]) && c[k + 1] in s;
      EntryOfLists(es, pid);
      PidsInLists(es);
    }
    assert c[0] in s;
    assert s <= PidsIn(es);
  }

  /** A tree cannot be built exactly when parents lead round in a circle: visible entries, each with the next
      one's PID as its parent. */
  lemma CycleMeans(es: seq<Entry>)
    ensures !NoCycle(es) <==>
            exists c: seq<int> :: |c| >= 2 && c[0] == c[|c| - 1] && forall i {:trigger c[i]} :: 0 <= i < |c| - 1 ==>
              var o := EntryOf(es, c[i]);
              o.Some? && o.value.show &&
              var parent := if o.value.attr.tgid == o.value.attr.pid then o.value.attr.ppid else o.value.attr.tgid;
              parent != 0 && parent != c[i] && c[i + 1] == parent
  {
    hide NoCycle, Walk, Leads;
    if !NoCycle(es) {
      var c := CircleFound(es);
      WalkMeans(es, c);
      assert |c| >= 2 && c[0] == c[|c| - 1];
    }
    forall c: seq<int> | |c| >= 2 && c[0] == c[|c| - 1] && forall i {:trigger c[i]} :: 0 <= i < |c| - 1 ==>
              var o := EntryOf(es, c[i]);
              o.Some? && o.value.show &&
              var parent := if o.value.attr.tgid == o.value.attr.pid then o.value.attr.ppid else o.value.attr.tgid;
              parent != 0 && parent != c[i] && c[i + 1] == parent
      ensures !NoCycle(es)
    {
      WalkMeans(es, c);
      CircleBlocks(es, c);
    }
  }

  lemma WalkMeans(es: seq<Entry>, c: seq<int>)
    ensures Walk(es, c) <==> forall i {:trigger c[i]} :: 0 <= i < |c| - 1 ==>
              var o := EntryOf(es, c[i]);
              o.Some? && o.value.show &&
              var parent := if o.value.attr.tgid == o.value.attr.pid then o.value.attr.ppid else o.value.attr.tgid;
              parent != 0 && parent != c[i] && c[i + 1] == parent
  {
    if Walk(es, c) {
      forall i {:trigger c[i]} | 0 <= i < |c| - 1
        ensures var o := EntryOf(es, c[i]);
                o.Some? && o.value.show &&
                var parent := if o.value.attr.tgid == o.value.attr.pid then o.value.attr.ppid else o.value.attr.tgid;
                parent != 0 && parent != c[i] && c[i + 1] == parent
      {
        assert Leads(es, c[i], c[i + 1]);
      }
    }
  }

  /** Of the processes `ps`, those that `es` says are visible, with their parents. */
  ghost function VisibleIn(ps: seq<Process>, es: seq<Entry>): map<Process, int> {
    map p | p in ps && EntryOf(es, p.pid).Some? && EntryOf(es, p.pid).value.show :: ParentOf(EntryOf(es, p.pid).value)
  }

  lemma EntryIsSnapshot(ps: seq<Process>, table: map<int, Process>, p: Process)
    requires Bijection(ps, table) && p in ps
    ensures EntryOf(Snapshots(ps), p.pid) == Some(Snapshot(p))
  {
    hide EntryOf, Snapshots, Snapshot;
    var es := Snapshots(ps);
    var i :| 0 <= i < |ps| && ps[i] == p;
    EntryOfLists(es, p.pid);
    assert es[i].attr.pid == p.pid;
    var e := EntryOf(es, p.pid).value;
    var j :| 0 <= j < |es| && es[j] == e;
    assert ps[j] in ps && ps[j].pid == p.pid;
  }

  lemma SnapshotParent(p: Process)
    ensures Snapshot(p).show == p.show && ParentOf(Snapshot(p)) == ParentPid(p)
  {
  }

  lemma VisibleAgrees(ps: seq<Process>, table: map<int, Process>)
    requires Bijection(ps, table)
    ensures VisibleOf(ps) == VisibleIn(ps, Snapshots(ps))
  {
    hide EntryOf, Snapshots, Snapshot, Bijection, ParentOf;
    forall p | p in ps ensures EntryOf(Snapshots(ps), p.pid) == Some(Snapshot(p))
                       && Snapshot(p).show == p.show && ParentOf(Snapshot(p)) == ParentPid(p) {
      EntryIsSnapshot(ps, table, p);
      SnapshotParent(p);
    }
  }

  lemma VisiblePermutes(ps: seq<Process>, qs: seq<Process>, es: seq<Entry>)
    requires multiset(ps) == multiset(qs)
    ensures VisibleIn(ps, es) == VisibleIn(qs, es)
  {
    SameElements(ps, qs);
    assert forall p :: p in ps <==> p in Elements(ps);
    assert forall p :: p in qs <==> p in Elements(ps);
  }

  /** Entries without a cycle are processes without a cycle, and the other way round. */
  lemma NoCycleAcyclic(ps: seq<Process>, table: map<int, Process>)
    requires Bijection(ps, table)
    ensures NoCycle(Snapshots(ps)) <==> Acyclic(Elements(ps), VisibleOf(ps))
  {
    hide NoCycle, Acyclic;
    if NoCycle(Snapshots(ps)) { EntriesToProcesses(ps, table); }
    if Acyclic(Elements(ps), VisibleOf(ps)) { ProcessesToEntries(ps, table); }
  }

  lemma RootlessOrphan(ps: seq<Process>, table: map<int, Process>, p: Process, group: set<Process>, s: set<int>)
    requires Bijection(ps, table) && p in ps && group <= Elements(ps) && s == set q | q in group :: q.pid
    ensures Rootless(Snapshots(ps), p.pid, s) <==> Orphan(p, group, VisibleOf(ps))
  {
    hide EntryOf, Snapshots, Snapshot, Bijection, ParentOf;
    EntryIsSnapshot(ps, table, p);
    SnapshotParent(p);
  }

  lemma EntriesToProcesses(ps: seq<Process>, table: map<int, Process>)
    requires Bijection(ps, table) && NoCycle(Snapshots(ps))
    ensures Acyclic(Elements(ps), VisibleOf(ps))
  {
    hide Rootless, Orphan, Snapshots, VisibleOf;
    var es := Snapshots(ps);
    forall group: set<Process> | group <= Elements(ps) && group != {}
      ensures exists p :: p in group && Orphan(p, group, VisibleOf(ps))
    {
      var s := set q | q in group :: q.pid;
      var q0 :| q0 in group;
      assert q0.pid in s;
      PidsInLists(es);
      forall pid | pid in s ensures pid in PidsIn(es) {
        var q :| q in group && q.pid == pid;
        assert q in ps;
        BijectionLists(ps, table, pid);
      }
      assert s <= PidsIn(es);
      var pid :| pid in s && Rootless(es, pid, s);
      var p :| p in group && p.pid == pid;
      RootlessOrphan(ps, table, p, group, s);
    }
  }

  lemma ProcessesToEntries(ps: seq<Process>, table: map<int, Process>)
    requires Bijection(ps, table) && Acyclic(Elements(ps), VisibleOf(ps))
    ensures NoCycle(Snapshots(ps))
  {
    hide Rootless, Orphan, Snapshots, VisibleOf, Lists;
    var es := Snapshots(ps);
    PidsInLists(es);
    forall s: set<int> | s <= PidsIn(es) && s != {}
      ensures exists pid :: pid in s && Rootless(es, pid, s)
    {
      var group := set q | q in ps && q.pid in s;
      forall pid | pid in s ensures pid in table && table[pid] in group && table[pid].pid == pid {
        BijectionLists(ps, table, pid);
      }
      assert s == set q | q in group :: q.pid;
      var pid0 :| pid0 in s;
      assert table[pid0] in group && group <= Elements(ps);
      var p :| p in group && Orphan(p, group, VisibleOf(ps));
      RootlessOrphan(ps, table, p, group, s);
    }
  }

  /** Rearranging the list changes no entry. */
  lemma AlikeAfter(es: seq<Entry>, ps: seq<Process>, table: map<int, Process>)
    requires Bijection(ps, table)
    requires forall pid :: EntryOf(es, pid) == if pid in table then Some(Snapshot(table[pid])) else None
    ensures Alike(es, Snapshots(ps))
  {
    hide EntryOf, Snapshots, Snapshot, Bijection;
    EntriesListed(ps, table);
  }

  /** Rearranging the list and folding processes away changes their entries in nothing else. */
  lemma SameAfter(es: seq<Entry>, ps: seq<Process>, table: map<int, Process>)
    requires Bijection(ps, table)
    requires forall pid :: pid in table <==> EntryOf(es, pid).Some?
    requires forall pid :: pid in table ==> Snapshot(table[pid]) == EntryOf(es, pid).value.(show := table[pid].show)
    ensures SameEntries(es, Snapshots(ps))
  {
    hide EntryOf, Snapshots, Snapshot, Bijection;
    EntriesListed(ps, table);
  }

  lemma EntriesListed(ps: seq<Process>, table: map<int, Process>)
    requires Bijection(ps, table)
    ensures forall pid :: EntryOf(Snapshots(ps), pid) == if pid in table then Some(Snapshot(table[pid])) else None
  {
    hide EntryOf, Snapshots, Snapshot, Lists;
    forall pid ensures EntryOf(Snapshots(ps), pid) == if pid in table then Some(Snapshot(table[pid])) else None {
      BijectionLists(ps, table, pid);
      EntryOfLists(Snapshots(ps), pid);
      if pid in table { EntryIsSnapshot(ps, table, table[pid]); }
    }
  }
}
