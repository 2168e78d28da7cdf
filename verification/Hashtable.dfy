/** Hashtable.c: an open-addressing table with Robin Hood displacement, over a bucket array. */
module Hashtable {
  import opened Options
  import opened RobinHood

  const SIZE_MAX: nat := 0xFFFF_FFFF_FFFF_FFFF

  const PRIME_COUNT: nat := 37

  const LARGEST_PRIME: nat := 137438953447

  /** The sizes a table can have: entry `i` of the `OEISprimes` array. */
  function OeisPrime(i: nat): (p: nat)
    ensures 2 <= p < SIZE_MAX
  {
    match i
    case 0 => 2
    case 1 => 3
    case 2 => 7
    case 3 => 13
    case 4 => 31
    case 5 => 61
    case 6 => 127
    case 7 => 251
    case 8 => 509
    case 9 => 1021
    case 10 => 2039
    case 11 => 4093
    case 12 => 8191
    case 13 => 16381
    case 14 => 32749
    case 15 => 65521
    case 16 => 131071
    case 17 => 262139
    case 18 => 524287
    case 19 => 1048573
    case 20 => 2097143
    case 21 => 4194301
    case 22 => 8388593
    case 23 => 16777213
    case 24 => 33554393
    case 25 => 67108859
    case 26 => 134217689
    case 27 => 268435399
    case 28 => 536870909
    case 29 => 1073741789
    case 30 => 2147483647
    case 31 => 4294967291
    case 32 => 8589934583
    case 33 => 17179869143
    case 34 => 34359738337
    case 35 => 68719476731
    case _ => 137438953447
  }

  lemma PrimesGrow(i: nat)
    requires i + 1 < PRIME_COUNT
    ensures OeisPrime(i) < OeisPrime(i + 1)
  {
  }

  lemma {:induction false} PrimesSorted(i: nat, j: nat)
    requires i <= j < PRIME_COUNT
    ensures OeisPrime(i) <= OeisPrime(j)
  {
    if i < j {
      PrimesSorted(i, j - 1);
      PrimesGrow(j - 1);
    }
  }

  /** The least listed prime that is at least `n`; `None` is the fatal error of the source. */
  method NextPrime(n: nat) returns (p: Option<nat>)
    ensures p.Some? ==> n <= p.value && exists i :: 0 <= i < PRIME_COUNT && p.value == OeisPrime(i)
    ensures p.Some? ==> forall j :: 0 <= j < PRIME_COUNT && n <= OeisPrime(j) ==> p.value <= OeisPrime(j)
    ensures p.None? ==> forall j :: 0 <= j < PRIME_COUNT ==> OeisPrime(j) < n
    ensures p.None? <==> n > LARGEST_PRIME
    ensures p.Some? ==> 2 <= p.value <= LARGEST_PRIME
  {
    var i := 0;
    while i < PRIME_COUNT && OeisPrime(i) < SIZE_MAX
      invariant 0 <= i <= PRIME_COUNT
      invariant forall j :: 0 <= j < i ==> OeisPrime(j) < n
    {
      if n <= OeisPrime(i) {
        forall j | 0 <= j < PRIME_COUNT && n <= OeisPrime(j) ensures OeisPrime(i) <= OeisPrime(j) {
          PrimesSorted(i, j);
        }
        PrimesSorted(i, PRIME_COUNT - 1);
        return Some(OeisPrime(i));
      }
      i := i + 1;
    }
    return None;
  }

  class Hashtable<V> {
    var size: nat
    var buckets: array<Item<V>>
    var items: nat
    /** The finite map the table stands for. */
    ghost var Contents: map<nat, V>

    /** What `insert` needs and keeps. */
    ghost predicate Consistent()
      reads this, buckets
    {
      && size == buckets.Length && 2 <= size <= LARGEST_PRIME
      && items == |Contents| && items <= size
      && WellFormed(buckets[..], Contents) && HasRest(buckets[..])
    }

    /** Only the two smallest tables, of size 2 and 3, can be completely full. */
    ghost predicate Valid()
      reads this, buckets
    {
      Consistent() && (size >= 7 ==> items < size)
    }

    constructor WithSize(n: nat)
      requires 2 <= n <= LARGEST_PRIME
      ensures Valid() && Contents == map[] && fresh(buckets) && size == n
    {
      size := n;
      buckets := new Item<V>[n](_ => Item(0, 0, None));
      items := 0;
      Contents := map[];
      new;
      EmptyTable(buckets[..]);
    }

    /** `Hashtable_new`; null is the fatal error "no prime found". */
    static method New(n: nat) returns (t: Hashtable?<V>)
      ensures t == null <==> n > LARGEST_PRIME
      ensures t != null ==> fresh(t) && fresh(t.buckets) && t.Valid() && t.Contents == map[]
    {
      var p: Option<nat> := Some(13);
      if n != 0 {
        p := NextPrime(n);
      }
      if p.None? {
        return null;
      }
      t := new Hashtable<V>.WithSize(p.value);
    }

    method Clear()
      requires Valid()
      modifies this, buckets
      ensures Valid() && Contents == map[]
      ensures size == old(size) && buckets == old(buckets)
    {
      hide WellFormed;
      forall i | 0 <= i < buckets.Length {
        buckets[i] := Item(0, 0, None);
      }
      items := 0;
      Contents := map[];
      EmptyTable(buckets[..]);
    }

    method Write(index: nat, item: Item<V>)
      requires index < buckets.Length
      modifies buckets
      ensures buckets[..] == old(buckets[..])[index := item]
    {
      buckets[index] := item;
    }

    method Insert(key: nat, value: V)
      requires Consistent() && items < size
      modifies this`items, this`Contents, buckets
      ensures Consistent() && Contents == old(Contents)[key := value]
    {
      hide WellFormed, HasRest, Carrying, At, Dist;
      ghost var m, goal := Contents, Contents[key := value];
      ghost var e := RoomLeft(buckets[..], m);
      CarryStarts(buckets[..], m, key, value, e);
      var index: nat, probe: nat := key % size, 0;
      ghost var origIndex := index;
      var k, v := key, value;
      while true
        invariant 0 <= index < size == buckets.Length && probe <= size
        invariant Carrying(buckets[..], m, goal, index, k, probe, v, origIndex, e)
        invariant items == |m| && e < size
        decreases Dist(size, index, e)
      {
        ghost var b := buckets[..];
        if buckets[index].value.None? {
          CarryFills(b, m, goal, index, k, probe, v, origIndex, e);
          items := items + 1;
          Write(index, Item(k, probe, Some(v)));
          Contents := goal;
          return;
        }
        if buckets[index].key == k {
          CarryFinds(b, m, goal, index, k, probe, v, origIndex, e);
          Write(index, buckets[index].(value := Some(v)));
          Contents := goal;
          return;
        }
        ModNext(size, index);
        CarryMoves(b, m, goal, index, k, probe, v, origIndex, e);
        if probe > buckets[index].probe {
          CarrySwaps(b, m, goal, index, k, probe, v, origIndex, e);
          var tmp := buckets[index];
          Write(index, Item(k, probe, Some(v)));
          m := (m - {tmp.key})[k := v];
          k, probe, v := tmp.key, tmp.probe, tmp.value.value;
        } else {
          CarryPasses(b, m, goal, index, k, probe, v, origIndex, e);
        }
        index := (index + 1) % size;
        probe := probe + 1;
        assert index != origIndex;
      }
    }

    /** Rehashes into at least `n` buckets; false is the fatal error "no prime found". */
    method SetSize(n: nat) returns (ok: bool)
      requires Consistent()
      modifies this, buckets
      ensures Contents == old(Contents)
      ensures ok <==> n <= items || n <= LARGEST_PRIME
      ensures n <= old(items) || !ok ==> unchanged(this) && unchanged(buckets)
      ensures ok && n > old(items) ==> Valid() && size >= n && fresh(buckets)
    {
      hide WellFormed, HasRest, Prefix;
      if n <= items {
        return true;
      }
      var p := NextPrime(n);
      if p.None? {
        return false;
      }
      var oldBuckets, oldSize := buckets, size;
      ghost var b, m := buckets[..], Contents;
      size := p.value;
      buckets := new Item<V>[p.value](_ => Item(0, 0, None));
      items := 0;
      Contents := map[];
      EmptyTable(buckets[..]);
      var i := 0;
      PrefixStep(b, 0);
      while i < oldSize
        invariant 0 <= i <= oldSize == oldBuckets.Length && size == p.value
        invariant oldBuckets[..] == b && fresh(buckets)
        invariant Consistent() && Contents == Prefix(b, i)
      {
        PrefixStep(b, i);
        if oldBuckets[i].value.Some? {
          PrefixInside(b, m, i);
          Insert(oldBuckets[i].key, oldBuckets[i].value.value);
        }
        i := i + 1;
      }
      CountIsSize(b, m);
      return true;
    }

    /** Stores `value` under `key`; false is one of the two fatal errors. */
    method Put(key: nat, value: V) returns (ok: bool)
      requires Valid()
      modifies this, buckets
      ensures Valid() && (buckets == old(buckets) || fresh(buckets))
      ensures ok <==> 10 * old(items) <= 7 * old(size) || 2 * old(size) <= LARGEST_PRIME
      ensures ok ==> Contents == old(Contents)[key := value]
      ensures !ok ==> Contents == old(Contents)
      ensures 10 * old(items) <= 7 * old(size) ==> size == old(size)
      ensures ok ==> (items == size <==> old(size) <= 3 && old(items) + 1 == old(size) && key !in old(Contents))
    {
      hide WellFormed, HasRest;
      OneMore(Contents, key, value);
      if 10 * items > 7 * size {
        if SIZE_MAX / 2 < size {
          return false;
        }
        ok := SetSize(2 * size);
        if !ok {
          return;
        }
      }
      Insert(key, value);
      ok := true;
    }

    /** Deletes `key` and hands back what it held. */
    method Remove(key: nat) returns (res: Option<V>)
      requires Valid()
      modifies this, buckets
      ensures Valid() && (buckets == old(buckets) || fresh(buckets))
      ensures Contents == old(Contents) - {key}
      ensures res == if key in old(Contents) then Some(old(Contents)[key]) else None
    {
      res := Take(key);
      if 8 * items < size {
        var _ := SetSize(size / 2);
      }
    }

    /** The search and backward shift of `Hashtable_remove`. */
    method Take(key: nat) returns (res: Option<V>)
      requires Valid()
      modifies this`items, this`Contents, buckets
      ensures Valid() && Contents == old(Contents) - {key}
      ensures res == if key in old(Contents) then Some(old(Contents)[key]) else None
    {
      hide WellFormed, HasRest, Passed;
      var index: nat, probe: nat := key % size, 0;
      ghost var b := buckets[..];
      SearchStarts(b, key);
      while buckets[index].value.Some?
        invariant buckets[..] == b && Valid() && size == old(size) && Contents == old(Contents)
        invariant 0 <= index < size && probe <= size && index == At(size, Home(key, size), probe)
        invariant Passed(b, key, probe)
        decreases size - probe
      {
        if buckets[index].key == key {
          Found(b, Contents, index);
          res := buckets[index].value;
          ShiftBack(key, index);
          return;
        }
        if buckets[index].probe < probe {
          break;
        }
        ProbeBound(b, Contents, index);
        PassedOne(b, key, probe);
        ModNext(size, index);
        index := (index + 1) % size;
        probe := probe + 1;
      }
      SearchMiss(b, Contents, key, probe);
      assert Contents == Contents - {key};
      res := None;
    }

    /** Backward shift: closes the gap left by the item at `at`. */
    method ShiftBack(ghost key: nat, at: nat)
      requires Valid() && Occupied(buckets[..], at) && buckets[at].key == key
      modifies this`items, this`Contents, buckets
      ensures Valid() && Contents == old(Contents) - {key}
    {
      hide WellFormed, Hole;
      var index := at;
      ghost var m := Contents - {key};
      ghost var z :| Rests(buckets[..], z);
      HoleOpens(buckets[..], index, Contents);
      ModNext(size, index);
      var next := (index + 1) % size;
      while buckets[next].value.Some? && buckets[next].probe > 0
        invariant 0 <= index < size && next == Next(size, index)
        invariant Hole(buckets[..], index, m) && Rests(buckets[..], z)
        invariant items == old(items) && m == old(Contents) - {key} && |m| == items - 1
        decreases Dist(size, next, z)
      {
        ghost var b := buckets[..];
        HoleShifts(b, index, m);
        ShiftRests(b, index, m, z);
        buckets[index] := buckets[next].(probe := buckets[next].probe - 1);
        assert buckets[..] == b[index := b[next].(probe := b[next].probe - 1)];
        index := next;
        ModNext(size, index);
        next := (index + 1) % size;
      }
      ghost var b := buckets[..];
      HoleCloses(b, index, m);
      buckets[index] := buckets[index].(value := None);
      assert buckets[..] == b[index := b[index].(value := None)];
      items := items - 1;
      Contents := m;
    }

    method Get(key: nat) returns (res: Option<V>)
      requires Valid()
      ensures res == if key in Contents then Some(Contents[key]) else None
    {
      hide WellFormed, HasRest, Passed;
      var index: nat, probe: nat := key % size, 0;
      ghost var b := buckets[..];
      SearchStarts(b, key);
      while buckets[index].value.Some?
        invariant buckets[..] == b && Valid() && size == old(size) && Contents == old(Contents)
        invariant 0 <= index < size && probe <= size && index == At(size, Home(key, size), probe)
        invariant Passed(b, key, probe)
        decreases size - probe
      {
        if buckets[index].key == key {
          Found(b, Contents, index);
          return buckets[index].value;
        }
        if buckets[index].probe < probe {
          break;
        }
        ProbeBound(b, Contents, index);
        PassedOne(b, key, probe);
        index := if index + 1 != size then index + 1 else 0;
        probe := probe + 1;
      }
      SearchMiss(b, Contents, key, probe);
      res := None;
    }
  }

  /** What callers may do to a table, in any order. */
  datatype Op<V> = PutOp(key: nat, value: V) | RemoveOp(key: nat) | GetOp(key: nat) | ClearOp | SetSizeOp(n: nat)

  /** What the last write to `key` among `ops` left there. */
  function LastWrite<V>(ops: seq<Op<V>>, key: nat): Option<V> {
    if ops == [] then None
    else
      var front := ops[..|ops| - 1];
      match ops[|ops| - 1]
      case PutOp(k, v) => if k == key then Some(v) else LastWrite(front, key)
      case RemoveOp(k) => if k == key then None else LastWrite(front, key)
      case ClearOp => None
      case GetOp(_) => LastWrite(front, key)
      case SetSizeOp(_) => LastWrite(front, key)
  }

  lemma LastWriteOf<V>(ops: seq<Op<V>>, i: nat)
    requires i < |ops|
    ensures ops[..i + 1][..i] == ops[..i] && ops[..i + 1][i] == ops[i]
  {
  }

  ghost predicate Holds<V>(m: map<nat, V>, ops: seq<Op<V>>) {
    forall k :: LastWrite(ops, k) == if k in m then Some(m[k]) else None
  }

  /** What one operation makes of the map. */
  function After<V>(m: map<nat, V>, op: Op<V>): map<nat, V> {
    match op
    case PutOp(k, v) => m[k := v]
    case RemoveOp(k) => m - {k}
    case ClearOp => map[]
    case GetOp(_) => m
    case SetSizeOp(_) => m
  }

  lemma HoldsNext<V>(m: map<nat, V>, ops: seq<Op<V>>, i: nat)
    requires i < |ops| && Holds(m, ops[..i])
    ensures Holds(After(m, ops[i]), ops[..i + 1])
  {
    LastWriteOf(ops, i);
  }

  lemma HoldsAt<V>(m: map<nat, V>, ops: seq<Op<V>>, k: nat)
    requires Holds(m, ops)
    ensures LastWrite(ops, k) == if k in m then Some(m[k]) else None
  {
  }

  lemma AfterSize<V>(m: map<nat, V>, op: Op<V>)
    ensures |After(m, op)| <= |m| + 1
  {
    match op {
      case PutOp(k, v) => OneMore(m, k, v);
      case RemoveOp(k) => SubsetSize((m - {k}).Keys, m.Keys);
      case _ =>
    }
  }

  method Apply<V>(t: Hashtable<V>, op: Op<V>) returns (answer: Option<V>, ok: bool)
    requires t.Valid()
    modifies t, t.buckets
    ensures ok ==> t.Valid() && t.Contents == After(old(t.Contents), op)
    ensures t.buckets == old(t.buckets) || fresh(t.buckets)
    ensures ok ==> t.items <= old(t.items) + 1
    ensures op.ClearOp? || (op.PutOp? && 20 * old(t.items) <= 7 * LARGEST_PRIME) ==> ok
    ensures op.SetSizeOp? ==> (ok <==> op.n <= old(t.items) || op.n <= LARGEST_PRIME)
    ensures op.GetOp? || op.RemoveOp? ==>
              ok && answer == if op.key in old(t.Contents) then Some(old(t.Contents)[op.key]) else None
  {
    hide WellFormed, HasRest;
    answer, ok := None, true;
    AfterSize(t.Contents, op);
    match op {
      case PutOp(k, v) =>
        ok := t.Put(k, v);
      case RemoveOp(k) =>
        answer := t.Remove(k);
      case GetOp(k) =>
        answer := t.Get(k);
      case ClearOp =>
        t.Clear();
      case SetSizeOp(n) =>
        ok := t.SetSize(n);
    }
  }

  /** No table asked for directly is too large, and there are too few operations for puts to get there. */
  predicate Moderate<V>(n: nat, ops: seq<Op<V>>) {
    && n <= LARGEST_PRIME && 20 * |ops| <= 7 * LARGEST_PRIME
    && forall i :: 0 <= i < |ops| && ops[i].SetSizeOp? ==> ops[i].n <= LARGEST_PRIME
  }

  /** Any run of operations on a fresh table: every answer is the last write to that key, whatever
      growing, shrinking and rehashing happened in between. A run stops early only at the fatal error, which
      creating a table, a put and a resize can meet, and a moderate run never does. */
  method Run<V>(n: nat, ops: seq<Op<V>>) returns (answers: seq<Option<V>>, ok: bool)
    ensures |answers| <= |ops| && (ok ==> |answers| == |ops|)
    ensures forall i :: 0 <= i < |answers| && (ops[i].GetOp? || ops[i].RemoveOp?) ==>
              answers[i] == LastWrite(ops[..i], ops[i].key)
    ensures Moderate(n, ops) ==> ok
    ensures n <= LARGEST_PRIME && !ok ==> |answers| < |ops| && (ops[|answers|].PutOp? || ops[|answers|].SetSizeOp?)
  {
    hide WellFormed, HasRest, Holds, LastWrite, After;
    answers := [];
    var t := Hashtable<V>.New(n);
    if t == null {
      return [], false;
    }
    HoldsNothing(ops);
    for i := 0 to |ops|
      invariant |answers| == i && fresh(t) && fresh(t.buckets) && t.Valid()
      invariant Holds(t.Contents, ops[..i]) && t.items <= i
      invariant forall j :: 0 <= j < i && (ops[j].GetOp? || ops[j].RemoveOp?) ==>
                  answers[j] == LastWrite(ops[..j], ops[j].key)
    {
      HoldsNext(t.Contents, ops, i);
      if ops[i].GetOp? || ops[i].RemoveOp? { HoldsAt(t.Contents, ops[..i], ops[i].key); }
      var answer;
      answer, ok := Apply(t, ops[i]);
      if !ok {
        return;
      }
      answers := answers + [answer];
    }
    ok := true;
  }

  lemma HoldsNothing<V>(ops: seq<Op<V>>)
    ensures Holds<V>(map[], ops[..0])
  {
  }

  /** The assertions `size > items` after a put and `index != origIndex` during a lookup do not
      hold of every table: three keys fill a table of size 3, and looking up a fourth goes all the way round. */
  method FillSmallTable() returns (t: Hashtable<int>)
    ensures t.Valid() && t.items == t.size == 3
    ensures LookupWraps(t.buckets[..], 9)
  {
    hide WellFormed, HasRest, LookupWraps;
    t := new Hashtable<int>.WithSize(3);
    var _ := t.Put(0, 10);
    var _ := t.Put(3, 13);
    var _ := t.Put(6, 16);
    LookupWrapsIff(t.buckets[..], t.Contents, 9);
  }
}
