/** The listed `Process` objects as the entries a scan works on. */
module Scanning {
  import opened Order
  import opened ProcessCompare
  import opened Processes
  import opened Lifecycle

  ghost function Snapshot(p: Process): (e: Entry)
    reads p`attr, p`updated, p`show, p`wasShown, p`tombStampMs, p`seenStampMs
    ensures e.attr.pid == p.pid
  {
    Entry(p.Columns(), p.updated, p.show, p.wasShown, p.tombStampMs, p.seenStampMs)
  }

  ghost function Snapshots(ps: seq<Process>): (es: seq<Entry>)
    reads (set p | p in ps)`attr, (set p | p in ps)`updated, (set p | p in ps)`show,
          (set p | p in ps)`wasShown, (set p | p in ps)`tombStampMs, (set p | p in ps)`seenStampMs
    ensures |es| == |ps| && forall i :: 0 <= i < |ps| ==> es[i] == Snapshot(ps[i])
  {
    if ps == [] then [] else Snapshots(ps[..|ps| - 1]) + [Snapshot(ps[|ps| - 1])]
  }

  /** `table` finds exactly the listed processes, each under its PID. */
  ghost predicate Bijection(ps: seq<Process>, table: map<int, Process>) {
    && (forall i, j :: 0 <= i < j < |ps| ==> ps[i].pid != ps[j].pid)
    && (forall p :: p in ps ==> p.pid in table && table[p.pid] == p)
    && (forall pid :: pid in table ==> table[pid] in ps && table[pid].pid == pid)
  }

  lemma BijectionDistinct(ps: seq<Process>, table: map<int, Process>)
    requires Bijection(ps, table)
    ensures NoDup(ps) && PidsDistinct(Elements(ps)) && |table| == |ps|
  {
    PidCount(ps, table);
  }

  lemma {:induction false} PidCount(ps: seq<Process>, table: map<int, Process>)
    requires Bijection(ps, table)
    ensures |table| == |ps|
  {
    if ps == [] {
      forall pid ensures pid !in table { if pid in table { assert false; } }
      assert table == map[];
    } else {
      var front, last := ps[..|ps| - 1], ps[|ps| - 1];
      var smaller := table - {last.pid};
      assert smaller.Keys == table.Keys - {last.pid};
      assert ps == front + [last];
      forall pid | pid in smaller ensures smaller[pid] in front { assert table[pid] in ps; }
      PidCount(front, smaller);
      assert table.Keys == smaller.Keys + {last.pid};
      assert |table| == |table.Keys| && |smaller| == |smaller.Keys|;
    }
  }

  lemma BijectionLists(ps: seq<Process>, table: map<int, Process>, pid: int)
    requires Bijection(ps, table)
    ensures OnePerPid(Snapshots(ps))
    ensures pid in table <==> Lists(Snapshots(ps), pid)
  {
    var es := Snapshots(ps);
    if pid in table {
      var i :| 0 <= i < |ps| && ps[i] == table[pid];
      assert es[i].attr.pid == pid;
    }
    if i :| 0 <= i < |es| && es[i].attr.pid == pid {
      assert ps[i] in ps;
    }
  }

  lemma BijectionAdds(ps: seq<Process>, table: map<int, Process>, p: Process)
    requires Bijection(ps, table) && p.pid !in table
    ensures Bijection(ps + [p], table[p.pid := p])
  {
    var qs := ps + [p];
    forall i, j | 0 <= i < j < |qs| ensures qs[i].pid != qs[j].pid {
      assert qs[i] in ps;
      if j < |ps| { assert qs[j] in ps; }
    }
    forall pid | pid in table ensures table[pid] in qs { assert table[pid] in ps; }
  }

  lemma BijectionRemoves(ps: seq<Process>, table: map<int, Process>, idx: nat)
    requires Bijection(ps, table) && idx < |ps|
    ensures Bijection(ps[..idx] + ps[idx + 1..], table - {ps[idx].pid})
  {
    var qs, p := ps[..idx] + ps[idx + 1..], ps[idx];
    assert forall i :: 0 <= i < |qs| ==> qs[i] == ps[if i < idx then i else i + 1];
    forall q | q in qs ensures q in ps && q.pid != p.pid {
      var i :| 0 <= i < |qs| && qs[i] == q;
      if i >= idx { assert ps[i + 1].pid != p.pid; }
    }
    forall pid | pid in table && pid != p.pid ensures table[pid] in qs {
      var i :| 0 <= i < |ps| && ps[i] == table[pid];
      assert i < idx ==> qs[i] == ps[i];
      assert i > idx ==> qs[i - 1] == ps[i];
    }
  }

  /** Taking an entry out by position leaves exactly the entries with other PIDs. */
  lemma RemovedAt(es: seq<Entry>, idx: nat)
    requires OnePerPid(es) && idx < |es|
    ensures es[..idx] + es[idx + 1..] == Filter(NotPid(es[idx].attr.pid), es)
  {
    hide Filter;
    var keep, before, after := NotPid(es[idx].attr.pid), es[..idx], es[idx + 1..];
    OthersDiffer(es, idx);
    assert es == before + [es[idx]] + after;
    FilterAppend(keep, before + [es[idx]], after);
    FilterOne(keep, before, es[idx]);
    FilterAll(keep, before);
    FilterAll(keep, after);
  }

  lemma OthersDiffer(es: seq<Entry>, idx: nat)
    requires OnePerPid(es) && idx < |es|
    ensures forall e :: e in es[..idx] || e in es[idx + 1..] ==> e.attr.pid != es[idx].attr.pid
  {
  }

  lemma {:induction false} FilterAll<T>(keep: T -> bool, s: seq<T>)
    requires forall i :: 0 <= i < |s| ==> keep(s[i])
    ensures Filter(keep, s) == s
  {
    if s != [] {
      FilterAll(keep, s[..|s| - 1]);
      assert s == s[..|s| - 1] + [s[|s| - 1]];
    }
  }

  /** What the sweep makes of the entry at `i`. */
  function SettledAt(es: seq<Entry>, i: nat, now: nat, highlight: bool, delaySecs: nat): seq<Entry>
    requires i < |es|
  {
    es[..i] + (if Stays(now, highlight)(es[i]) then [Marked(now, delaySecs)(es[i])] else []) + es[i + 1..]
  }

  /** The list during the sweep: the entries from `n` on are done. */
  ghost function PartSwept(es: seq<Entry>, n: nat, now: nat, highlight: bool, delaySecs: nat): (r: seq<Entry>)
    requires n <= |es|
    ensures |r| >= n
  {
    es[..n] + Swept(es[n..], now, highlight, delaySecs)
  }

  lemma SettledMiddle(a: seq<Entry>, x: Entry, b: seq<Entry>, now: nat, highlight: bool, delaySecs: nat)
    ensures SettledAt(a + [x] + b, |a|, now, highlight, delaySecs)
         == a + (if Stays(now, highlight)(x) then [Marked(now, delaySecs)(x)] else []) + b
  {
    var s := a + [x] + b;
    assert s[..|a|] == a && s[|a|] == x && s[|a| + 1..] == b;
  }

  /** One round of the downward sweep. */
  lemma SweepRound(es: seq<Entry>, i: nat, now: nat, highlight: bool, delaySecs: nat)
    requires i < |es|
    ensures SettledAt(PartSwept(es, i + 1, now, highlight, delaySecs), i, now, highlight, delaySecs)
         == PartSwept(es, i, now, highlight, delaySecs)
  {
    hide Stays, Marked, Filter, SettledAt;
    var a, x, b := es[..i], es[i], es[i + 1..];
    assert es[..i + 1] == a + [x] && es[i..] == [x] + b;
    SettledMiddle(a, x, Swept(b, now, highlight, delaySecs), now, highlight, delaySecs);
    SweptCons(x, b, now, highlight, delaySecs);
  }

  lemma SweptCons(x: Entry, b: seq<Entry>, now: nat, highlight: bool, delaySecs: nat)
    ensures Swept([x] + b, now, highlight, delaySecs)
         == (if Stays(now, highlight)(x) then [Marked(now, delaySecs)(x)] else []) + Swept(b, now, highlight, delaySecs)
  {
    hide Stays, Marked, Filter;
    FilterAppend(Stays(now, highlight), [x], b);
    FilterJustOne(Stays(now, highlight), x);
  }

  lemma FilterJustOne<T>(keep: T -> bool, x: T)
    ensures Filter(keep, [x]) == if keep(x) then [x] else []
  {
  }

  /** `Vector_take`, as far as what is left. */
  function TakenOut<T>(s: seq<T>, idx: nat): seq<T>
    requires idx < |s|
  {
    s[..idx] + s[idx + 1..]
  }

  lemma TakenOutPart<T>(s: seq<T>, idx: nat)
    requires idx < |s|
    ensures Elements(TakenOut(s, idx)) <= Elements(s)
  {
  }

  /** What taking out the process at `idx` does. */
  lemma Removal(ps: seq<Process>, table: map<int, Process>, p: Process, idx: nat)
    requires Bijection(ps, table) && p in ps && idx < |ps| && ps[idx].pid == p.pid
    ensures Bijection(TakenOut(ps, idx), table - {p.pid})
    ensures Snapshots(TakenOut(ps, idx)) == Filter(NotPid(p.pid), Snapshots(ps))
    ensures Elements(TakenOut(ps, idx)) <= Elements(ps)
    ensures forall i :: 0 <= i < |ps| && ps[i] == p ==> i == idx
  {
    hide Filter, Snapshots, Bijection, OnePerPid;
    SnapshotsApart(ps, table);
    OnlyAt(ps, table, p, idx);
    TakenOutPart(ps, idx);
    BijectionRemoves(ps, table, idx);
    RemovedAt(Snapshots(ps), idx);
    SnapshotsParts(ps, idx);
    SnapshotsAppend(ps[..idx], ps[idx + 1..]);
  }

  lemma OnlyAt(ps: seq<Process>, table: map<int, Process>, p: Process, idx: nat)
    requires Bijection(ps, table) && p in ps && idx < |ps| && ps[idx].pid == p.pid
    ensures ps[idx] == p && forall i :: 0 <= i < |ps| && ps[i] == p ==> i == idx
  {
  }

  lemma SnapshotsParts(ps: seq<Process>, idx: nat)
    requires idx < |ps|
    ensures Snapshots(ps)[..idx] == Snapshots(ps[..idx]) && Snapshots(ps)[idx + 1..] == Snapshots(ps[idx + 1..])
  {
    hide Snapshots;
  }

  lemma SnapshotsAppend(a: seq<Process>, b: seq<Process>)
    ensures Snapshots(a + b) == Snapshots(a) + Snapshots(b)
  {
    hide Snapshots;
  }

  lemma SnapshotsApart(ps: seq<Process>, table: map<int, Process>)
    requires Bijection(ps, table)
    ensures OnePerPid(Snapshots(ps))
  {
  }

  /** Reading about a listed process changes its entry and no other. */
  lemma ReadAgain(ps: seq<Process>, table: map<int, Process>, attr: Attributes, show: bool, before: seq<Entry>)
    requires Bijection(ps, table) && attr.pid in table && |before| == |ps|
    requires forall i :: 0 <= i < |ps| ==> before[i].attr.pid == ps[i].pid
    requires forall i :: 0 <= i < |ps| ==>
               Snapshot(ps[i]) == if ps[i] == table[attr.pid] then before[i].(attr := attr, updated := true, show := show)
                                  else before[i]
    ensures Snapshots(ps) == Map(Seen(attr, show), before)
  {
    hide Snapshots, Snapshot;
    forall i | 0 <= i < |ps| ensures Snapshots(ps)[i] == Seen(attr, show)(before[i]) {
      assert ps[i] in ps;
    }
  }

  lemma ListedUnderPid(ps: seq<Process>, table: map<int, Process>, pid: int)
    requires Bijection(ps, table) && pid in table
    ensures table[pid] in ps && table[pid].pid == pid
  {
  }

  lemma ListedUnder(ps: seq<Process>, table: map<int, Process>, p: Process)
    requires Bijection(ps, table) && p in ps
    ensures p.pid in table && table[p.pid] == p
  {
  }

  lemma SnapshotsAdd(ps: seq<Process>, p: Process)
    ensures Snapshots(ps + [p]) == Snapshots(ps) + [Snapshot(p)]
  {
    assert (ps + [p])[..|ps|] == ps;
  }

  lemma SweepEnds(es: seq<Entry>, now: nat, highlight: bool, delaySecs: nat)
    ensures PartSwept(es, |es|, now, highlight, delaySecs) == es
    ensures PartSwept(es, 0, now, highlight, delaySecs) == Swept(es, now, highlight, delaySecs)
  {
    assert es[|es|..] == [] && es[0..] == es;
    assert Swept([], now, highlight, delaySecs) == [];
  }

  lemma FollowingListed(ps: seq<Process>, table: map<int, Process>, following: int)
    requires Bijection(ps, table)
    ensures following in table <==> Lists(Snapshots(ps), following)
  {
    BijectionLists(ps, table, following);
  }

  /** Leaving the process at `i`, taking it out or marking it amounts to settling its entry. */
  lemma SettledByRemoval(ps: seq<Process>, table: map<int, Process>, i: nat, now: nat, highlight: bool, delaySecs: nat)
    requires Bijection(ps, table) && i < |ps|
    ensures var es, p := Snapshots(ps), ps[i];
            var stays := Stays(now, highlight)(es[i]);
            && p in ps
            && (!stays ==> Filter(NotPid(p.pid), es) == SettledAt(es, i, now, highlight, delaySecs))
            && (stays ==> SettledAt(es, i, now, highlight, delaySecs) == es[i := Marked(now, delaySecs)(es[i])])
            && (forall j :: 0 <= j < |ps| && ps[j] == p ==> j == i)
  {
    hide Filter, Snapshots, Marked, Stays;
    var es := Snapshots(ps);
    SnapshotsApart(ps, table);
    RemovedAt(es, i);
    SettledReads(es, i, now, highlight, delaySecs);
  }

  lemma SettledReads(es: seq<Entry>, i: nat, now: nat, highlight: bool, delaySecs: nat)
    requires i < |es|
    ensures var r := SettledAt(es, i, now, highlight, delaySecs);
            r == if Stays(now, highlight)(es[i]) then es[i := Marked(now, delaySecs)(es[i])] else es[..i] + es[i + 1..]
  {
    hide Marked, Stays;
  }

  lemma BijectionPermutes(ps: seq<Process>, qs: seq<Process>, table: map<int, Process>)
    requires Bijection(ps, table) && multiset(ps) == multiset(qs)
    ensures Bijection(qs, table)
  {
    SameElements(ps, qs);
    assert forall p :: p in qs <==> p in Elements(ps);
    BijectionDistinct(ps, table);
    NoDupPermutes(ps, qs);
    assert forall i :: 0 <= i < |qs| ==> qs[i] in qs;
  }

  // ----- the panel

  function In(ps: set<Process>): Process -> bool { (p: Process) => p in ps }

  ghost function PidsOf(ps: seq<Process>): set<int> { set p | p in ps :: p.pid }

  lemma PidsListed(ps: seq<Process>)
    ensures forall pid :: pid in PidsOf(ps) <==> exists p :: p in ps && p.pid == pid
  {
  }

  lemma PidsAppend(ps: seq<Process>, p: Process)
    ensures PidsOf(ps + [p]) == PidsOf(ps) + {p.pid}
  {
  }

  lemma PidsNothing()
    ensures PidsOf([]) == {}
  {
  }
}
