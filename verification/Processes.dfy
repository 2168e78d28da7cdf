/** The `Process` record as the tree view sees it, and what it means for a forest to be written
    into processes and into a table keyed by preorder position. */
module Processes {
  import opened Order
  import opened Forest
  import opened ProcessCompare

  class Process {
    const pid: int
    /** What the platform code fills in, at every scan anew. */
    var attr: Attributes

    var updated: bool
    var show: bool
    var wasShown: bool
    var showChildren: bool
    var seenStampMs: nat
    var tombStampMs: nat

    var indent: int
    var tree_left: nat
    var tree_right: nat
    var tree_depth: nat
    var tree_index: nat

    /** `Process_init`, with the attributes the platform code fills in. */
    constructor (attr: Attributes)
      ensures this.pid == attr.pid && this.attr == attr
      ensures !updated && show && !wasShown && showChildren && tombStampMs == 0
    {
      this.pid, this.attr := attr.pid, attr;
      updated, show, wasShown, showChildren := false, true, false, true;
      seenStampMs, tombStampMs := 0, 0;
      indent, tree_left, tree_right, tree_depth, tree_index := 0, 0, 0, 0, 0;
    }

    /** What columns show and comparisons read, the PID included. */
    function Columns(): (a: Attributes)
      reads this`attr
      ensures a.pid == pid
    {
      attr.(pid := pid)
    }
  }

  /** `Process_getParentPid`: a thread hangs under its group leader. */
  function ParentPid(p: Process): int
    reads p`attr
  {
    if p.attr.tgid == p.pid then p.attr.ppid else p.attr.tgid
  }

  /** The attributes that processes are compared by, each under its own PID. */
  function AttributesOf(ps: seq<Process>): map<Process, Attributes>
    reads (set p | p in ps)`attr
  {
    map p | p in ps :: p.Columns()
  }

  /** `Process_compare`, on the attributes at hand. */
  function Comparator(attrs: map<Process, Attributes>, settings: Settings): (Process, Process) -> int {
    (p: Process, q: Process) => if p in attrs && q in attrs then Compare(attrs[p], attrs[q], settings) else 0
  }

  /** What it means for `p` to be listed before `q`, column by column: the smaller value first, or the greater one
      when descending, and equal values by PID. */
  lemma NumberColumns(p: Process, q: Process, settings: Settings)
    requires Compare(p.Columns(), q.Columns(), settings) <= 0
    ensures var (lo, hi) := if settings.ascending then (p, q) else (q, p); var (a, b) := (lo.attr, hi.attr);
            match settings.key
            case PERCENT_CPU => a.percentCpu < b.percentCpu || (a.percentCpu == b.percentCpu && p.pid <= q.pid)
            case PERCENT_NORM_CPU => a.percentCpu < b.percentCpu || (a.percentCpu == b.percentCpu && p.pid <= q.pid)
            case PERCENT_MEM => a.mResident < b.mResident || (a.mResident == b.mResident && p.pid <= q.pid)
            case MAJFLT => a.majflt < b.majflt || (a.majflt == b.majflt && p.pid <= q.pid)
            case MINFLT => a.minflt < b.minflt || (a.minflt == b.minflt && p.pid <= q.pid)
            case M_RESIDENT => a.mResident < b.mResident || (a.mResident == b.mResident && p.pid <= q.pid)
            case M_VIRT => a.mVirt < b.mVirt || (a.mVirt == b.mVirt && p.pid <= q.pid)
            case NICE => a.nice < b.nice || (a.nice == b.nice && p.pid <= q.pid)
            case NLWP => a.nlwp < b.nlwp || (a.nlwp == b.nlwp && p.pid <= q.pid)
            case PGRP => a.pgrp < b.pgrp || (a.pgrp == b.pgrp && p.pid <= q.pid)
            case PPID => a.ppid < b.ppid || (a.ppid == b.ppid && p.pid <= q.pid)
            case PRIORITY => a.priority < b.priority || (a.priority == b.priority && p.pid <= q.pid)
            case PROCESSOR => a.processor < b.processor || (a.processor == b.processor && p.pid <= q.pid)
            case SESSION => a.session < b.session || (a.session == b.session && p.pid <= q.pid)
            case STATE => a.state < b.state || (a.state == b.state && p.pid <= q.pid)
            case ST_UID => a.stUid < b.stUid || (a.stUid == b.stUid && p.pid <= q.pid)
            case TIME => a.time < b.time || (a.time == b.time && p.pid <= q.pid)
            case TGID => a.tgid < b.tgid || (a.tgid == b.tgid && p.pid <= q.pid)
            case TPGID => a.tpgid < b.tpgid || (a.tpgid == b.tpgid && p.pid <= q.pid)
            case PID => lo.pid <= hi.pid
            case ELAPSED => a.startTime > b.startTime || (a.startTime == b.startTime && lo.pid <= hi.pid)
            case STARTTIME => a.startTime < b.startTime || (a.startTime == b.startTime && lo.pid <= hi.pid)
            case _ => true
  {
  }

  /** The columns that hold text, in the order of `Strcmp`. */
  lemma TextColumns(p: Process, q: Process, settings: Settings)
    requires Compare(p.Columns(), q.Columns(), settings) <= 0
    requires settings.key in {COMM, PROC_COMM, PROC_EXE, CWD, TTY, USER}
    ensures var (a, b) := if settings.ascending then (p.attr, q.attr) else (q.attr, p.attr);
            var (x, y) := match settings.key
              case COMM => (if a.command.Some? then a.command.value else "", if b.command.Some? then b.command.value else "")
              case CWD => (if a.cwd.Some? then a.cwd.value else "", if b.cwd.Some? then b.cwd.value else "")
              case USER => (if a.user.Some? then a.user.value else "", if b.user.Some? then b.user.value else "")
              case TTY => (if a.ttyName.Some? then a.ttyName.value else "\U{7F}", if b.ttyName.Some? then b.ttyName.value else "\U{7F}")
              case PROC_COMM => (if a.procComm.Some? then a.procComm.value else if a.isKernelThread then "KTHREAD" else "",
                                 if b.procComm.Some? then b.procComm.value else if b.isKernelThread then "KTHREAD" else "")
              case PROC_EXE => (if a.exeBasename.Some? then a.exeBasename.value else if a.isKernelThread then "KTHREAD" else "",
                                 if b.exeBasename.Some? then b.exeBasename.value else if b.isKernelThread then "KTHREAD" else "")
              case _ => ("", "");
            Strcmp(x, y) < 0 || (x == y && p.pid <= q.pid)
  {
    hide Strcmp;
    forall x: string, y: string
      ensures Strcmp(x, y) == 0 <==> x == y
      ensures Strcmp(x, y) > 0 <==> Strcmp(y, x) < 0
    {
      StrcmpSwaps(x, y);
    }
  }

  /** `cmp` leaves no choice in ordering `ps`. */
  ghost predicate Orders(cmp: (Process, Process) -> int, ps: set<Process>) {
    TotalPreorder(cmp, ps) && TieFree(cmp, ps)
  }

  lemma OrdersSubset(cmp: (Process, Process) -> int, a: set<Process>, b: set<Process>)
    requires a <= b && Orders(cmp, b)
    ensures Orders(cmp, a)
  {
  }

  ghost predicate PidsDistinct(ps: set<Process>) {
    forall p, q :: p in ps && q in ps && p.pid == q.pid ==> p == q
  }

  /** `Process_compare` is a strict total order on processes with distinct PIDs. */
  lemma ComparatorOrders(ps: set<Process>, attrs: map<Process, Attributes>, settings: Settings)
    requires PidsDistinct(ps) && forall p :: p in ps ==> p in attrs && attrs[p].pid == p.pid
    ensures Orders(Comparator(attrs, settings), ps)
  {
    hide Compare;
    var cmp := Comparator(attrs, settings);
    forall p, q | p in ps && q in ps
      ensures cmp(p, q) <= 0 || cmp(q, p) <= 0
      ensures cmp(p, q) <= 0 && cmp(q, p) <= 0 ==> p == q
    {
      CompareTotal(attrs[p], attrs[q], settings);
    }
    forall p, q, r | p in ps && q in ps && r in ps && cmp(p, q) <= 0 && cmp(q, r) <= 0 ensures cmp(p, r) <= 0 {
      CompareTrans(attrs[p], attrs[q], attrs[r], settings);
    }
  }

  ghost predicate At(p: Process, s: Slot)
    reads p`tree_index, p`tree_left, p`tree_right, p`tree_depth
  {
    p.tree_index == s.index && p.tree_left == s.left && p.tree_right == s.right && p.tree_depth == s.depth
  }

  /** The coordinates `ss` are written into the processes `ps`. */
  ghost predicate LaidOut(ps: seq<Process>, ss: seq<Slot>)
    reads (set p | p in ps)`tree_index, (set p | p in ps)`tree_left, (set p | p in ps)`tree_right, (set p | p in ps)`tree_depth
  {
    |ps| == |ss| && forall j :: 0 <= j < |ps| ==> At(ps[j], ss[j])
  }

  ghost predicate Indented(ps: seq<Process>, words: seq<int>)
    reads set p | p in ps
  {
    |ps| == |words| && forall j :: 0 <= j < |ps| ==> ps[j].indent == words[j]
  }

  /** Positions tell laid-out processes apart. */
  lemma LaidOutNoDup(f: Forest<Process>, i: nat, l: nat, d: nat)
    requires LaidOut(Pre(f), Slots(f, i, l, d))
    ensures NoDup(Pre(f))
  {
    forall j, k | 0 <= j < k < |Pre(f)| ensures Pre(f)[j] != Pre(f)[k] {
      SlotBounds(f, i, l, d, j);
      SlotBounds(f, i, l, d, k);
      assert At(Pre(f)[j], Slots(f, i, l, d)[j]) && At(Pre(f)[k], Slots(f, i, l, d)[k]);
    }
  }

  // ----- tables keyed by preorder position

  ghost function Numbered<T>(i: nat, ps: seq<T>): map<nat, T> {
    if ps == [] then map[] else Numbered(i, ps[..|ps| - 1])[i + |ps| - 1 := ps[|ps| - 1]]
  }

  lemma {:induction false} NumberedAt<T>(i: nat, ps: seq<T>)
    ensures forall k :: k in Numbered(i, ps) <==> i <= k < i + |ps|
    ensures forall k :: i <= k < i + |ps| ==> Numbered(i, ps)[k] == ps[k - i]
  {
    if ps != [] { NumberedAt(i, ps[..|ps| - 1]); }
  }

  ghost function Without<T>(m: map<nat, T>, gone: set<T>): map<nat, T> {
    map k | k in m && m[k] !in gone :: m[k]
  }

  ghost predicate Covers<T>(m: map<nat, T>, i: nat, ps: seq<T>) {
    forall k :: i <= k < i + |ps| ==> k in m && m[k] == ps[k - i]
  }

  /** Every process in the table is where its own `tree_index` says. */
  ghost predicate Keyed(m: map<nat, Process>)
    reads m.Values
  {
    forall k :: k in m ==> m[k].tree_index == k
  }

  lemma WithoutTwice<T>(m: map<nat, T>, a: set<T>, b: set<T>)
    ensures Without(Without(m, a), b) == Without(m, a + b)
  {
  }

  lemma WithoutAt<T>(m: map<nat, T>, gone: set<T>, k: nat)
    requires k in m && m[k] !in gone
    ensures k in Without(m, gone) && Without(m, gone)[k] == m[k]
  {
  }

  lemma CoversWithout<T>(m: map<nat, T>, i: nat, ps: seq<T>, gone: set<T>)
    requires Covers(m, i, ps) && forall p :: p in ps ==> p !in gone
    ensures Covers(Without(m, gone), i, ps)
  {
    forall k | i <= k < i + |ps| ensures k in Without(m, gone) && Without(m, gone)[k] == ps[k - i] {
      assert ps[k - i] in ps;
    }
  }

  lemma CoversTail<T>(m: map<nat, T>, i: nat, p: T, ps: seq<T>)
    requires Covers(m, i, [p] + ps)
    ensures i in m && m[i] == p && Covers(m, i + 1, ps)
  {
    assert ([p] + ps)[0] == p;
  }

  lemma WithoutOne<T>(m: map<nat, T>, k: nat)
    requires k in m && forall j :: j in m && m[j] == m[k] ==> j == k
    ensures m - {k} == Without(m, {m[k]})
  {
  }

  lemma NumberedAppend<T>(i: nat, a: seq<T>, b: seq<T>)
    ensures Numbered(i, a + b) == Numbered(i, a) + Numbered(i + |a|, b)
  {
    NumberedAt(i, a + b);
    NumberedAt(i, a);
    NumberedAt(i + |a|, b);
  }

  lemma NumberedGrows<T>(m: map<nat, T>, i: nat, a: seq<T>, b: seq<T>)
    ensures m + Numbered(i, a) + Numbered(i + |a|, b) == m + Numbered(i, a + b)
  {
    NumberedAppend(i, a, b);
  }

  lemma NumberedHead<T>(m: map<nat, T>, i: nat, p: T, ps: seq<T>)
    ensures (m + Numbered(i + 1, ps))[i := p] == m + Numbered(i, [p] + ps)
  {
    NumberedAppend(i, [p], ps);
    NumberedAt(i, [p]);
    NumberedAt(i + 1, ps);
  }

  lemma NumberedCovers<T>(i: nat, ps: seq<T>)
    ensures Covers(Numbered(i, ps), i, ps)
  {
    NumberedAt(i, ps);
  }
}
