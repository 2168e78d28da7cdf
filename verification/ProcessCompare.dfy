/** `Process_compare` and the column comparisons under it. */
module ProcessCompare {
  import opened Options

  /** The attributes of a process that columns show and sorting reads. */
  datatype Attributes = Attributes(
    pid: int, ppid: int, tgid: int,
    percentCpu: real, mResident: int, mVirt: int,
    command: Option<string>, procComm: Option<string>, exeBasename: Option<string>, cwd: Option<string>,
    isKernelThread: bool, isUserlandThread: bool,
    startTime: int, majflt: nat, minflt: nat, nice: int, nlwp: int, pgrp: int, priority: int,
    processor: int, session: int, state: int, stUid: nat, time: nat, tpgid: int,
    ttyName: Option<string>, user: Option<string>)

  datatype Key =
    | PERCENT_CPU | PERCENT_NORM_CPU | PERCENT_MEM | COMM | PROC_COMM | PROC_EXE | CWD | ELAPSED
    | MAJFLT | MINFLT | M_RESIDENT | M_VIRT | NICE | NLWP | PGRP | PID | PPID | PRIORITY | PROCESSOR
    | SESSION | STARTTIME | STATE | ST_UID | TIME | TGID | TPGID | TTY | USER

  /** The active sort key, whether the direction is ascending (1 in the source), and what scanning and
      showing processes reads. */
  datatype Settings = Settings(key: Key, ascending: bool,
                               highlightChanges: bool, highlightDelaySecs: nat, hideUserlandThreads: bool, treeView: bool)

  const KTHREAD_ID: string := "KTHREAD"

  function Spaceship(a: int, b: int): int { (if a > b then 1 else 0) - (if a < b then 1 else 0) }

  function SpaceshipReal(a: real, b: real): int { (if a > b then 1 else 0) - (if a < b then 1 else 0) }

  /** `strcmp`. */
  function Strcmp(a: string, b: string): int {
    if a == [] then (if b == [] then 0 else -1)
    else if b == [] then 1
    else if a[0] != b[0] then a[0] as int - b[0] as int
    else Strcmp(a[1..], b[1..])
  }

  function OrElse(s: Option<string>, default: string): string { if s.Some? then s.value else default }

  function KernelName(a: Attributes): string { if a.isKernelThread then KTHREAD_ID else "" }

  function CompareByKey(a: Attributes, b: Attributes, key: Key): int {
    match key
    case PERCENT_CPU => SpaceshipReal(a.percentCpu, b.percentCpu)
    case PERCENT_NORM_CPU => SpaceshipReal(a.percentCpu, b.percentCpu)
    case PERCENT_MEM => Spaceship(a.mResident, b.mResident)
    case COMM => Strcmp(OrElse(a.command, ""), OrElse(b.command, ""))
    case PROC_COMM => Strcmp(OrElse(a.procComm, KernelName(a)), OrElse(b.procComm, KernelName(b)))
    case PROC_EXE => Strcmp(OrElse(a.exeBasename, KernelName(a)), OrElse(b.exeBasename, KernelName(b)))
    case CWD => Strcmp(OrElse(a.cwd, ""), OrElse(b.cwd, ""))
    case ELAPSED =>
      var r := -Spaceship(a.startTime, b.startTime);
      if r != 0 then r else Spaceship(a.pid, b.pid)
    case MAJFLT => Spaceship(a.majflt, b.majflt)
    case MINFLT => Spaceship(a.minflt, b.minflt)
    case M_RESIDENT => Spaceship(a.mResident, b.mResident)
    case M_VIRT => Spaceship(a.mVirt, b.mVirt)
    case NICE => Spaceship(a.nice, b.nice)
    case NLWP => Spaceship(a.nlwp, b.nlwp)
    case PGRP => Spaceship(a.pgrp, b.pgrp)
    case PID => Spaceship(a.pid, b.pid)
    case PPID => Spaceship(a.ppid, b.ppid)
    case PRIORITY => Spaceship(a.priority, b.priority)
    case PROCESSOR => Spaceship(a.processor, b.processor)
    case SESSION => Spaceship(a.session, b.session)
    case STARTTIME =>
      var r := Spaceship(a.startTime, b.startTime);
      if r != 0 then r else Spaceship(a.pid, b.pid)
    case STATE => Spaceship(a.state, b.state)
    case ST_UID => Spaceship(a.stUid, b.stUid)
    case TIME => Spaceship(a.time, b.time)
    case TGID => Spaceship(a.tgid, b.tgid)
    case TPGID => Spaceship(a.tpgid, b.tpgid)
    case TTY => Strcmp(OrElse(a.ttyName, "\U{7F}"), OrElse(b.ttyName, "\U{7F}"))
    case USER => Strcmp(OrElse(a.user, ""), OrElse(b.user, ""))
  }

  /** `Process_compare`: the active column, ties broken by PID, then the direction. */
  function Compare(a: Attributes, b: Attributes, settings: Settings): int {
    var result := CompareByKey(a, b, settings.key);
    if result == 0 then Spaceship(a.pid, b.pid)
    else if settings.ascending then result else -result
  }

  lemma {:induction false} StrcmpSwaps(a: string, b: string)
    ensures Strcmp(a, b) > 0 <==> Strcmp(b, a) < 0
    ensures Strcmp(a, b) == 0 <==> a == b
  {
    if a != [] && b != [] {
      StrcmpSwaps(a[1..], b[1..]);
      assert a == [a[0]] + a[1..] && b == [b[0]] + b[1..];
    }
  }

  lemma {:induction false} StrcmpTrans(a: string, b: string, c: string)
    requires Strcmp(a, b) <= 0 && Strcmp(b, c) <= 0
    ensures Strcmp(a, c) <= 0
    ensures Strcmp(a, b) < 0 || Strcmp(b, c) < 0 ==> Strcmp(a, c) < 0
  {
    if a != [] && b != [] && c != [] && a[0] == b[0] == c[0] {
      StrcmpTrans(a[1..], b[1..], c[1..]);
    }
  }

  /** The first character in which two texts differ decides; a text comes before its continuations. */
  lemma {:induction false} StrcmpMeans(a: string, b: string)
    ensures Strcmp(a, b) < 0 <==>
            exists n :: 0 <= n <= |a| && n < |b| && a[..n] == b[..n] && (n < |a| ==> a[n] < b[n])
    ensures Strcmp(a, b) == 0 <==> a == b
  {
    StrcmpSwaps(a, b);
    if a != [] && b != [] && a[0] == b[0] {
      StrcmpMeans(a[1..], b[1..]);
      if n :| 0 <= n <= |a[1..]| && n < |b[1..]| && a[1..][..n] == b[1..][..n] && (n < |a[1..]| ==> a[1..][n] < b[1..][n]) {
        assert a[..n + 1] == [a[0]] + a[1..][..n] && b[..n + 1] == [b[0]] + b[1..][..n];
      }
      if n :| 0 <= n <= |a| && n < |b| && a[..n] == b[..n] && (n < |a| ==> a[n] < b[n]) {
        assert n > 0 && a[1..][..n - 1] == a[..n][1..] && b[1..][..n - 1] == b[..n][1..];
      }
    } else if a == [] || b == [] {
      assert a[..0] == b[..0];
    } else {
      assert a[..0] == b[..0];
      forall n | 0 < n <= |a| && n < |b| ensures a[..n] != b[..n] {
        assert a[..n][0] == a[0] && b[..n][0] == b[0];
      }
    }
  }

  lemma StrcmpOrders(a: string, b: string, c: string)
    ensures Strcmp(a, b) > 0 <==> Strcmp(b, a) < 0
    ensures Strcmp(a, b) <= 0 && Strcmp(b, c) <= 0 ==> Strcmp(a, c) <= 0
    ensures Strcmp(a, b) <= 0 && Strcmp(b, c) <= 0 && (Strcmp(a, b) < 0 || Strcmp(b, c) < 0) ==> Strcmp(a, c) < 0
  {
    StrcmpSwaps(a, b);
    if Strcmp(a, b) <= 0 && Strcmp(b, c) <= 0 { StrcmpTrans(a, b, c); }
  }

  /** Every column is a weak order: swapping negates, and `<=` is transitive, strictly if either step is. */
  lemma KeyOrders(a: Attributes, b: Attributes, c: Attributes, key: Key)
    ensures CompareByKey(a, b, key) > 0 <==> CompareByKey(b, a, key) < 0
    ensures var ab, bc, ac := CompareByKey(a, b, key), CompareByKey(b, c, key), CompareByKey(a, c, key);
            ab <= 0 && bc <= 0 ==> ac <= 0 && (ab < 0 || bc < 0 ==> ac < 0)
  {
    hide CompareByKey;
    if key.COMM? || key.PROC_COMM? || key.PROC_EXE? || key.CWD? || key.TTY? || key.USER? {
      TextOrders(a, b, c, key);
    } else {
      NumberOrders(a, b, c, key);
    }
  }

  lemma TextOrders(a: Attributes, b: Attributes, c: Attributes, key: Key)
    requires key.COMM? || key.PROC_COMM? || key.PROC_EXE? || key.CWD? || key.TTY? || key.USER?
    ensures CompareByKey(a, b, key) > 0 <==> CompareByKey(b, a, key) < 0
    ensures var ab, bc, ac := CompareByKey(a, b, key), CompareByKey(b, c, key), CompareByKey(a, c, key);
            ab <= 0 && bc <= 0 ==> ac <= 0 && (ab < 0 || bc < 0 ==> ac < 0)
  {
    hide Strcmp;
    match key
    case COMM => StrcmpOrders(OrElse(a.command, ""), OrElse(b.command, ""), OrElse(c.command, ""));
    case PROC_COMM =>
      StrcmpOrders(OrElse(a.procComm, KernelName(a)), OrElse(b.procComm, KernelName(b)), OrElse(c.procComm, KernelName(c)));
    case PROC_EXE =>
      StrcmpOrders(OrElse(a.exeBasename, KernelName(a)), OrElse(b.exeBasename, KernelName(b)), OrElse(c.exeBasename, KernelName(c)));
    case CWD => StrcmpOrders(OrElse(a.cwd, ""), OrElse(b.cwd, ""), OrElse(c.cwd, ""));
    case TTY => StrcmpOrders(OrElse(a.ttyName, "\U{7F}"), OrElse(b.ttyName, "\U{7F}"), OrElse(c.ttyName, "\U{7F}"));
    case USER => StrcmpOrders(OrElse(a.user, ""), OrElse(b.user, ""), OrElse(c.user, ""));
  }

  lemma NumberOrders(a: Attributes, b: Attributes, c: Attributes, key: Key)
    requires !(key.COMM? || key.PROC_COMM? || key.PROC_EXE? || key.CWD? || key.TTY? || key.USER?)
    ensures CompareByKey(a, b, key) > 0 <==> CompareByKey(b, a, key) < 0
    ensures var ab, bc, ac := CompareByKey(a, b, key), CompareByKey(b, c, key), CompareByKey(a, c, key);
            ab <= 0 && bc <= 0 ==> ac <= 0 && (ab < 0 || bc < 0 ==> ac < 0)
  {
    hide Strcmp;
  }

  lemma CompareTrans(a: Attributes, b: Attributes, c: Attributes, settings: Settings)
    requires Compare(a, b, settings) <= 0 && Compare(b, c, settings) <= 0
    ensures Compare(a, c, settings) <= 0
  {
    hide CompareByKey;
    KeyOrders(a, b, c, settings.key);
    KeyOrders(c, b, a, settings.key);
    KeyOrders(a, c, b, settings.key);
    KeyOrders(b, c, a, settings.key);
    KeyOrders(b, a, c, settings.key);
    KeyOrders(c, a, b, settings.key);
  }

  lemma CompareTotal(a: Attributes, b: Attributes, settings: Settings)
    ensures Compare(a, b, settings) <= 0 || Compare(b, a, settings) <= 0
    ensures Compare(a, b, settings) <= 0 && Compare(b, a, settings) <= 0 ==> a.pid == b.pid
  {
    hide CompareByKey;
    KeyOrders(a, b, a, settings.key);
    KeyOrders(b, a, b, settings.key);
  }
}
