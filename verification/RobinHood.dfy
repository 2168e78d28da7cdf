/** The bucket sequences of Hashtable.c: what its probe loops rely on and keep. */
module RobinHood {
  import opened Options

  /** A `HashtableItem`; an empty bucket has no value, whatever its other fields hold. */
  datatype Item<+V> = Item(key: nat, probe: nat, value: Option<V>)

  type Buckets<V> = seq<Item<V>>

  predicate Occupied<V>(b: Buckets<V>, i: int) {
    0 <= i < |b| && b[i].value.Some?
  }

  function Home(key: nat, n: nat): (h: nat)
    requires n > 0
    ensures h < n
  {
    key % n
  }

  /** The bucket `t` steps after `h`, going round. */
  function At(n: nat, h: nat, t: nat): (i: nat)
    requires h < n && t <= n
    ensures i < n
  {
    if h + t < n then h + t else h + t - n
  }

  /** How many steps lead from `h` to `i`, going round. */
  function Dist(n: nat, h: nat, i: nat): (d: nat)
    requires h < n && i < n
    ensures d < n && At(n, h, d) == i
  {
    if h <= i then i - h else i - h + n
  }

  function Next(n: nat, i: nat): nat requires i < n { At(n, i, 1) }

  function Prev(n: nat, i: nat): nat requires i < n { At(n, i, n - 1) }

  /** Every stored probe is the distance from the key's home bucket. */
  ghost predicate ProbesExact<V>(b: Buckets<V>) {
    forall i :: Occupied(b, i) ==> b[i].probe == Dist(|b|, Home(b[i].key, |b|), i)
  }

  /** A displaced item is preceded by one displaced at most one step less. */
  ghost predicate Chained<V>(b: Buckets<V>) {
    forall i :: Occupied(b, i) && b[i].probe > 0 ==>
      Occupied(b, Prev(|b|, i)) && b[Prev(|b|, i)].probe >= b[i].probe - 1
  }

  ghost predicate Distinct<V>(b: Buckets<V>) {
    forall i, j :: Occupied(b, i) && Occupied(b, j) && b[i].key == b[j].key ==> i == j
  }

  ghost predicate HasKey<V>(b: Buckets<V>, k: nat) {
    exists i :: Occupied(b, i) && b[i].key == k
  }

  /** The occupied buckets hold exactly the entries of `m`. */
  ghost predicate Stores<V>(b: Buckets<V>, m: map<nat, V>) {
    && (forall i :: Occupied(b, i) ==> b[i].key in m && m[b[i].key] == b[i].value.value)
    && (forall k :: k in m ==> HasKey(b, k))
  }

  ghost predicate WellFormed<V>(b: Buckets<V>, m: map<nat, V>) {
    |b| > 0 && ProbesExact(b) && Chained(b) && Distinct(b) && Stores(b, m)
  }

  /** Some bucket is empty or holds an item that sits in its home bucket. */
  ghost predicate HasRest<V>(b: Buckets<V>) {
    exists z :: Rests(b, z)
  }

  ghost predicate Rests<V>(b: Buckets<V>, z: int) {
    0 <= z < |b| && (b[z].value.None? || b[z].probe == 0)
  }

  /** Following `Chained` back from a bucket whose probe is `d + r` to the one `r` steps before it. */
  lemma {:induction false} ChainBack<V>(b: Buckets<V>, i: nat, r: nat)
    requires |b| > 0 && Chained(b) && ProbesExact(b) && Occupied(b, i) && r <= b[i].probe
    ensures b[i].probe < |b|
    ensures var j := At(|b|, Home(b[i].key, |b|), b[i].probe - r);
            Occupied(b, j) && b[j].probe >= b[i].probe - r
    decreases r
  {
    hide Home;
    var n := |b|;
    var h := Home(b[i].key, n);
    assert b[i].probe == Dist(n, h, i);
    if r > 0 {
      ChainBack(b, i, r - 1);
      var j := At(n, h, b[i].probe - (r - 1));
      assert At(n, h, b[i].probe - r) == Prev(n, j);
    }
  }

  /** The probe sequence of `key` has passed `d` occupied buckets without meeting `key`. */
  ghost predicate Passed<V>(b: Buckets<V>, key: nat, d: nat) {
    |b| > 0 && d <= |b| &&
    forall t :: 0 <= t < d ==>
      Occupied(b, At(|b|, Home(key, |b|), t)) && b[At(|b|, Home(key, |b|), t)].key != key
  }

  /** Early exit is safe: at an empty bucket, or at one displaced less than the search is, `key` is absent. */
  lemma SearchMiss<V>(b: Buckets<V>, m: map<nat, V>, key: nat, d: nat)
    requires WellFormed(b, m) && Passed(b, key, d)
    requires var i := At(|b|, Home(key, |b|), d); !Occupied(b, i) || b[i].probe < d
    ensures key !in m
  {
    hide Home;
    if key in m {
      assert HasKey(b, key);
      var i :| Occupied(b, i) && b[i].key == key;
      KeyNotAt(b, key, d, i);
    }
  }

  lemma KeyNotAt<V>(b: Buckets<V>, key: nat, d: nat, i: nat)
    requires ProbesExact(b) && Chained(b) && Passed(b, key, d)
    requires var j := At(|b|, Home(key, |b|), d); !Occupied(b, j) || b[j].probe < d
    requires Occupied(b, i)
    ensures b[i].key != key
  {
    hide Home;
    var p := b[i].probe;
    if b[i].key == key {
      assert p == Dist(|b|, Home(key, |b|), i);
      if d <= p {
        ChainBack(b, i, p - d);
      }
    }
  }

  lemma Found<V>(b: Buckets<V>, m: map<nat, V>, i: nat)
    requires WellFormed(b, m) && Occupied(b, i)
    ensures b[i].key in m && m[b[i].key] == b[i].value.value
  {
  }

  lemma PassedOne<V>(b: Buckets<V>, key: nat, d: nat)
    requires Passed(b, key, d) && d < |b|
    requires var i := At(|b|, Home(key, |b|), d); Occupied(b, i) && b[i].key != key
    ensures Passed(b, key, d + 1)
  {
  }

  /** Overwriting the value of a present key. */
  lemma Overwrite<V>(b: Buckets<V>, m: map<nat, V>, i: nat, v: V)
    requires WellFormed(b, m) && Occupied(b, i)
    ensures WellFormed(b[i := b[i].(value := Some(v))], m[b[i].key := v])
    ensures HasRest(b) ==> HasRest(b[i := b[i].(value := Some(v))])
  {
    hide Home;
    var b' := b[i := b[i].(value := Some(v))];
    assert forall j :: Occupied(b', j) <==> Occupied(b, j);
    assert forall j :: Occupied(b, j) ==> b'[j].key == b[j].key && b'[j].probe == b[j].probe;
    forall k | k in m[b[i].key := v] ensures HasKey(b', k) {
      assert HasKey(b, k);
      var j :| Occupied(b, j) && b[j].key == k;
      assert Occupied(b', j) && b'[j].key == k;
    }
    if HasRest(b) {
      var z :| Rests(b, z);
      assert Rests(b', z);
    }
  }

  /** An item in hand may be put down at `i`: it is `probe` steps from home and the chain reaches `i`. */
  ghost predicate Fits<V>(b: Buckets<V>, i: nat, key: nat, probe: nat) {
    && i < |b| && probe == Dist(|b|, Home(key, |b|), i)
    && (probe > 0 ==> Occupied(b, Prev(|b|, i)) && b[Prev(|b|, i)].probe >= probe - 1)
  }

  /** Moving on from an occupied bucket that is displaced no less than the item in hand. */
  lemma FitsNext<V>(b: Buckets<V>, i: nat, key: nat, probe: nat)
    requires Fits(b, i, key, probe) && Occupied(b, i) && b[i].probe >= probe && probe + 1 < |b|
    ensures Fits(b, Next(|b|, i), key, probe + 1)
  {
    hide Home;
    assert Prev(|b|, Next(|b|, i)) == i;
  }

  /** The Robin Hood swap: the item in hand replaces a less displaced one. */
  lemma SwapKeeps<V>(b: Buckets<V>, m: map<nat, V>, i: nat, key: nat, probe: nat, v: V)
    requires WellFormed(b, m) && Fits(b, i, key, probe) && key !in m
    requires Occupied(b, i) && probe > b[i].probe && |b| > 1
    ensures var b', m' := b[i := Item(key, probe, Some(v))], (m - {b[i].key})[key := v];
            WellFormed(b', m') && b[i].key !in m' && |m'| == |m|
    ensures var b' := b[i := Item(key, probe, Some(v))];
            b[i].probe + 1 < |b| && Fits(b', Next(|b|, i), b[i].key, b[i].probe + 1)
  {
    hide Home;
    SwapChained(b, i, key, probe, v);
    SwapStores(b, m, i, key, probe, v);
    ReplaceKey(m, b[i].key, key, v);
    SwapFits(b, i, key, probe, v);
  }

  lemma ReplaceKey<V>(m: map<nat, V>, k: nat, key: nat, v: V)
    requires k in m && key !in m
    ensures |(m - {k})[key := v]| == |m|
  {
    assert (m - {k})[key := v].Keys == m.Keys - {k} + {key};
    assert |m.Keys - {k}| == |m.Keys| - 1;
  }

  lemma SwapFits<V>(b: Buckets<V>, i: nat, key: nat, probe: nat, v: V)
    requires ProbesExact(b) && Fits(b, i, key, probe) && Occupied(b, i) && probe > b[i].probe
    ensures var b' := b[i := Item(key, probe, Some(v))];
            b[i].probe + 1 < |b| && Fits(b', Next(|b|, i), b[i].key, b[i].probe + 1)
  {
    hide Home;
    assert b[i].probe == Dist(|b|, Home(b[i].key, |b|), i);
    assert Prev(|b|, Next(|b|, i)) == i;
    DistNext(|b|, Home(b[i].key, |b|), i);
  }

  lemma SwapChained<V>(b: Buckets<V>, i: nat, key: nat, probe: nat, v: V)
    requires ProbesExact(b) && Chained(b) && Fits(b, i, key, probe)
    requires Occupied(b, i) && probe > b[i].probe && |b| > 1
    ensures ProbesExact(b[i := Item(key, probe, Some(v))]) && Chained(b[i := Item(key, probe, Some(v))])
  {
    hide Home;
    var n, b' := |b|, b[i := Item(key, probe, Some(v))];
    forall j | Occupied(b', j) && b'[j].probe > 0
      ensures Occupied(b', Prev(n, j)) && b'[Prev(n, j)].probe >= b'[j].probe - 1
    {
      assert Occupied(b, j);
      assert Prev(n, i) != i;
    }
  }

  lemma SwapStores<V>(b: Buckets<V>, m: map<nat, V>, i: nat, key: nat, probe: nat, v: V)
    requires Distinct(b) && Stores(b, m) && Occupied(b, i) && key !in m
    ensures var b', m' := b[i := Item(key, probe, Some(v))], (m - {b[i].key})[key := v];
            Distinct(b') && Stores(b', m') && b[i].key !in m'
  {
    var b', m' := b[i := Item(key, probe, Some(v))], (m - {b[i].key})[key := v];
    assert forall j :: Occupied(b', j) ==> Occupied(b, j);
    forall k | k in m' ensures HasKey(b', k) {
      if k == key {
        assert Occupied(b', i) && b'[i].key == k;
      } else {
        assert HasKey(b, k);
        var j :| Occupied(b, j) && b[j].key == k;
        assert Occupied(b', j) && b'[j].key == k;
      }
    }
  }

  lemma DistNext(n: nat, h: nat, i: nat)
    requires h < n && i < n && Dist(n, h, i) + 1 < n
    ensures Dist(n, h, Next(n, i)) == Dist(n, h, i) + 1
  {
  }

  /** Putting the item in hand into an empty bucket. */
  lemma PlaceKeeps<V>(b: Buckets<V>, m: map<nat, V>, i: nat, key: nat, probe: nat, v: V)
    requires WellFormed(b, m) && Fits(b, i, key, probe) && key !in m
    requires !Occupied(b, i) && |b| > 1
    ensures WellFormed(b[i := Item(key, probe, Some(v))], m[key := v])
    ensures HasRest(b[i := Item(key, probe, Some(v))])
  {
    hide Chained, Stores, ProbesExact, Distinct, HasRest;
    PlaceChained(b, i, key, probe, v);
    PlaceStores(b, m, i, key, probe, v);
  }

  lemma PlaceChained<V>(b: Buckets<V>, i: nat, key: nat, probe: nat, v: V)
    requires ProbesExact(b) && Chained(b) && Fits(b, i, key, probe) && !Occupied(b, i) && |b| > 1
    ensures var b' := b[i := Item(key, probe, Some(v))]; ProbesExact(b') && Chained(b') && HasRest(b')
  {
    hide Home, Dist;
    var n, b' := |b|, b[i := Item(key, probe, Some(v))];
    assert forall j :: Occupied(b', j) <==> Occupied(b, j) || j == i;
    PrevNext(n, i);
    hide At;
    assert Rests(b', Next(n, i));
  }

  lemma PrevNext(n: nat, i: nat)
    requires i < n && n > 1
    ensures Prev(n, Next(n, i)) == i && Next(n, i) != i && Prev(n, i) != i
  {
  }

  lemma PlaceStores<V>(b: Buckets<V>, m: map<nat, V>, i: nat, key: nat, probe: nat, v: V)
    requires Distinct(b) && Stores(b, m) && key !in m && i < |b| && !Occupied(b, i)
    ensures var b' := b[i := Item(key, probe, Some(v))]; Distinct(b') && Stores(b', m[key := v])
  {
    var b', m' := b[i := Item(key, probe, Some(v))], m[key := v];
    assert forall j :: Occupied(b', j) <==> Occupied(b, j) || j == i;
    forall k | k in m' ensures HasKey(b', k) {
      if k == key {
        assert Occupied(b', i) && b'[i].key == k;
      } else {
        assert HasKey(b, k);
        var j :| Occupied(b, j) && b[j].key == k;
        assert Occupied(b', j) && b'[j].key == k;
      }
    }
  }

  /** While a removal shifts items back, bucket `i` holds a stale copy; every other bucket counts. */
  ghost predicate Hole<V>(b: Buckets<V>, i: nat, m: map<nat, V>) {
    |b| > 1 && Occupied(b, i) && ProbesExact(b) && Chained(b) && KeepsBut(b, i, m)
  }

  /** The buckets other than `i` hold exactly the entries of `m`. */
  ghost predicate KeepsBut<V>(b: Buckets<V>, i: nat, m: map<nat, V>) {
    && (forall j, k :: Occupied(b, j) && Occupied(b, k) && j != i && k != i && b[j].key == b[k].key ==> j == k)
    && (forall j :: Occupied(b, j) && j != i ==> b[j].key in m && m[b[j].key] == b[j].value.value)
    && (forall k :: k in m ==> HasKeyBut(b, i, k))
  }

  ghost predicate HasKeyBut<V>(b: Buckets<V>, i: nat, k: nat) {
    exists j :: Occupied(b, j) && j != i && b[j].key == k
  }

  lemma HoleOpens<V>(b: Buckets<V>, i: nat, m: map<nat, V>)
    requires WellFormed(b, m) && Occupied(b, i) && |b| > 1
    ensures b[i].key in m && Hole(b, i, m - {b[i].key})
    ensures |m - {b[i].key}| == |m| - 1
  {
    hide Home;
    var m' := m - {b[i].key};
    forall k | k in m' ensures HasKeyBut(b, i, k) {
      assert HasKey(b, k);
      var j :| Occupied(b, j) && b[j].key == k;
      assert j != i;
    }
    assert m'.Keys == m.Keys - {b[i].key};
  }

  /** One backward shift: the hole moves to the next bucket. */
  lemma HoleShifts<V>(b: Buckets<V>, i: nat, m: map<nat, V>)
    requires Hole(b, i, m)
    requires Occupied(b, Next(|b|, i)) && b[Next(|b|, i)].probe > 0
    ensures var j := Next(|b|, i); Hole(b[i := b[j].(probe := b[j].probe - 1)], j, m)
  {
    hide Home;
    ShiftChained(b, i);
    ShiftKeeps(b, i, m);
  }

  lemma ShiftKeeps<V>(b: Buckets<V>, i: nat, m: map<nat, V>)
    requires |b| > 1 && Occupied(b, i) && KeepsBut(b, i, m)
    requires Occupied(b, Next(|b|, i)) && b[Next(|b|, i)].probe > 0
    ensures var j := Next(|b|, i); KeepsBut(b[i := b[j].(probe := b[j].probe - 1)], j, m)
  {
    hide Home;
    var n, j := |b|, Next(|b|, i);
    var b' := b[i := b[j].(probe := b[j].probe - 1)];
    assert forall k :: Occupied(b', k) <==> Occupied(b, k);
    forall k | k in m ensures HasKeyBut(b', j, k) {
      assert HasKeyBut(b, i, k);
      var x :| Occupied(b, x) && x != i && b[x].key == k;
      var y := if x == j then i else x;
      assert Occupied(b', y) && y != j && b'[y].key == k;
    }
  }

  lemma ShiftChained<V>(b: Buckets<V>, i: nat)
    requires |b| > 1 && Occupied(b, i) && ProbesExact(b) && Chained(b)
    requires Occupied(b, Next(|b|, i)) && b[Next(|b|, i)].probe > 0
    ensures var j := Next(|b|, i); var b' := b[i := b[j].(probe := b[j].probe - 1)];
            ProbesExact(b') && Chained(b')
  {
    hide Home;
    var n, j := |b|, Next(|b|, i);
    var b' := b[i := b[j].(probe := b[j].probe - 1)];
    assert Prev(n, j) == i && j != i;
    assert b[j].probe == Dist(n, Home(b[j].key, n), j);
    assert b'[i].probe == Dist(n, Home(b'[i].key, n), i);
    forall k | Occupied(b', k) && b'[k].probe > 0
      ensures Occupied(b', Prev(n, k)) && b'[Prev(n, k)].probe >= b'[k].probe - 1
    {
      assert Occupied(b, k);
      assert Prev(n, k) == i ==> k == j;
    }
  }

  /** Shifting keeps a resting bucket resting, and brings the hole closer to it. */
  lemma ShiftRests<V>(b: Buckets<V>, i: nat, m: map<nat, V>, z: nat)
    requires Hole(b, i, m) && Rests(b, z)
    requires Occupied(b, Next(|b|, i)) && b[Next(|b|, i)].probe > 0
    ensures var n, j := |b|, Next(|b|, i);
            && Rests(b[i := b[j].(probe := b[j].probe - 1)], z)
            && Dist(n, Next(n, j), z) < Dist(n, j, z)
  {
    hide Home;
    assert Prev(|b|, Next(|b|, i)) == i;
  }

  /** The hole closes where the next item, if any, already rests. */
  lemma HoleCloses<V>(b: Buckets<V>, i: nat, m: map<nat, V>)
    requires Hole(b, i, m) && Rests(b, Next(|b|, i))
    ensures WellFormed(b[i := b[i].(value := None)], m) && Rests(b[i := b[i].(value := None)], i)
  {
    hide Home, ProbesExact, Chained, KeepsBut, Distinct, Stores;
    CloseChained(b, i);
    CloseStores(b, i, m);
  }

  lemma CloseChained<V>(b: Buckets<V>, i: nat)
    requires |b| > 1 && Occupied(b, i) && ProbesExact(b) && Chained(b) && Rests(b, Next(|b|, i))
    ensures var b' := b[i := b[i].(value := None)]; ProbesExact(b') && Chained(b')
  {
    hide Home, Dist;
    var n, b' := |b|, b[i := b[i].(value := None)];
    assert forall j :: Occupied(b', j) <==> Occupied(b, j) && j != i;
    forall k | Occupied(b', k) && b'[k].probe > 0
      ensures Occupied(b', Prev(n, k)) && b'[Prev(n, k)].probe >= b'[k].probe - 1
    {
      assert k != Next(n, i);
      PrevOnly(n, i, k);
    }
  }

  lemma PrevOnly(n: nat, i: nat, k: nat)
    requires i < n && k < n && k != Next(n, i)
    ensures Prev(n, k) != i
  {
  }

  lemma CloseStores<V>(b: Buckets<V>, i: nat, m: map<nat, V>)
    requires Occupied(b, i) && KeepsBut(b, i, m)
    ensures var b' := b[i := b[i].(value := None)]; Distinct(b') && Stores(b', m)
  {
    var b' := b[i := b[i].(value := None)];
    assert forall j :: Occupied(b', j) <==> Occupied(b, j) && j != i;
    forall k | k in m ensures HasKey(b', k) {
      assert HasKeyBut(b, i, k);
      var j :| Occupied(b, j) && j != i && b[j].key == k;
      assert Occupied(b', j) && b'[j].key == k;
    }
  }

  /** The entries of the first `k` buckets. */
  ghost function Prefix<V>(b: Buckets<V>, k: nat): map<nat, V>
    requires k <= |b|
  {
    if k == 0 then map[]
    else if Occupied(b, k - 1) then Prefix(b, k - 1)[b[k - 1].key := b[k - 1].value.value]
    else Prefix(b, k - 1)
  }

  function Count<V>(b: Buckets<V>, k: nat): nat
    requires k <= |b|
  {
    if k == 0 then 0 else Count(b, k - 1) + (if Occupied(b, k - 1) then 1 else 0)
  }

  lemma {:induction false} PrefixKeys<V>(b: Buckets<V>, k: nat)
    requires k <= |b| && Distinct(b)
    ensures forall x :: x in Prefix(b, k) ==> exists i :: 0 <= i < k && Occupied(b, i) && b[i].key == x && Prefix(b, k)[x] == b[i].value.value
    ensures forall i :: 0 <= i < k && Occupied(b, i) ==> b[i].key in Prefix(b, k)
    ensures |Prefix(b, k)| == Count(b, k)
  {
    if k > 0 {
      PrefixKeys(b, k - 1);
      if Occupied(b, k - 1) {
        assert b[k - 1].key !in Prefix(b, k - 1);
        assert Prefix(b, k).Keys == Prefix(b, k - 1).Keys + {b[k - 1].key};
      }
    }
  }

  /** The item counter of a well-formed table is its number of occupied buckets. */
  lemma CountIsSize<V>(b: Buckets<V>, m: map<nat, V>)
    requires WellFormed(b, m)
    ensures Prefix(b, |b|) == m && Count(b, |b|) == |m|
  {
    hide Home;
    PrefixKeys(b, |b|);
    SamePrefix(b, m);
  }

  lemma SamePrefix<V>(b: Buckets<V>, m: map<nat, V>)
    requires Distinct(b) && Stores(b, m)
    ensures Prefix(b, |b|) == m
  {
    var p := Prefix(b, |b|);
    forall x ensures x in p <==> x in m {
      if x in m { InPrefix(b, m, x); }
      if x in p { PrefixKeys(b, |b|); }
    }
    assert p.Keys == m.Keys;
    forall x | x in m ensures p[x] == m[x] { InPrefix(b, m, x); }
  }

  lemma InPrefix<V>(b: Buckets<V>, m: map<nat, V>, x: nat)
    requires Distinct(b) && Stores(b, m) && x in m
    ensures x in Prefix(b, |b|) && Prefix(b, |b|)[x] == m[x]
  {
    PrefixKeys(b, |b|);
    assert HasKey(b, x);
    var i :| Occupied(b, i) && b[i].key == x;
  }

  lemma PrefixInside<V>(b: Buckets<V>, m: map<nat, V>, k: nat)
    requires WellFormed(b, m) && k <= |b|
    ensures |Prefix(b, k)| <= |m|
  {
    hide Home;
    PrefixKeys(b, k);
    assert Prefix(b, k).Keys <= m.Keys;
    SubsetSize(Prefix(b, k).Keys, m.Keys);
  }

  lemma {:induction false} SubsetSize<T>(a: set<T>, b: set<T>)
    requires a <= b
    ensures |a| <= |b|
  {
    if a != {} {
      var x :| x in a;
      SubsetSize(a - {x}, b - {x});
    }
  }

  lemma {:induction false} CountBound<V>(b: Buckets<V>, k: nat)
    requires k <= |b|
    ensures Count(b, k) <= k
    ensures Count(b, k) == k <==> forall i :: 0 <= i < k ==> Occupied(b, i)
  {
    if k > 0 { CountBound(b, k - 1); }
  }

  lemma RoomLeft<V>(b: Buckets<V>, m: map<nat, V>) returns (e: nat)
    requires WellFormed(b, m) && |m| < |b|
    ensures e < |b| && !Occupied(b, e)
  {
    hide Home;
    CountIsSize(b, m);
    CountBound(b, |b|);
    e :| 0 <= e < |b| && !Occupied(b, e);
  }

  /** A non-empty table always has an item in its home bucket. */
  lemma SomeoneIsHome<V>(b: Buckets<V>, m: map<nat, V>) returns (z: nat)
    requires WellFormed(b, m) && HasRest(b) && m != map[]
    ensures Occupied(b, z) && b[z].probe == 0
  {
    hide Home;
    z :| Rests(b, z);
    if !Occupied(b, z) {
      var k :| k in m;
      assert HasKey(b, k);
      var i :| Occupied(b, i) && b[i].key == k;
      z := HomeAfterGap(b, z, i);
    }
  }

  lemma {:induction false} HomeAfterGap<V>(b: Buckets<V>, gap: nat, i: nat) returns (z: nat)
    requires gap < |b| && Chained(b) && !Occupied(b, gap) && Occupied(b, i)
    ensures Occupied(b, z) && b[z].probe == 0
    decreases Dist(|b|, gap, i)
  {
    hide Home;
    if b[i].probe == 0 {
      z := i;
    } else {
      z := HomeAfterGap(b, gap, Prev(|b|, i));
    }
  }

  /** A lookup of `key` comes all the way round to the bucket it started from. */
  ghost predicate LookupWraps<V>(b: Buckets<V>, key: nat) {
    |b| > 0 && Passed(b, key, |b|) &&
    forall t :: 0 <= t < |b| ==> b[At(|b|, Home(key, |b|), t)].probe >= t
  }

  /** ... exactly when the table is full of other keys that share the home bucket of `key`. */
  lemma LookupWrapsIff<V>(b: Buckets<V>, m: map<nat, V>, key: nat)
    requires WellFormed(b, m) && HasRest(b)
    ensures LookupWraps(b, key) <==>
            |m| == |b| && key !in m && forall k :: k in m ==> Home(k, |b|) == Home(key, |b|)
  {
    hide Home;
    if LookupWraps(b, key) {
      WrapsOnlyIfFull(b, m, key);
      forall k | k in m ensures Home(k, |b|) == Home(key, |b|) {
        WrapsOnlyIfCrowded(b, m, key, k);
      }
    }
    if |m| == |b| && key !in m && forall k :: k in m ==> Home(k, |b|) == Home(key, |b|) {
      forall t | 0 <= t < |b|
        ensures var i := At(|b|, Home(key, |b|), t); Occupied(b, i) && b[i].key != key && b[i].probe == t
      {
        CrowdedProbe(b, m, key, t);
      }
    }
  }

  lemma CrowdedProbe<V>(b: Buckets<V>, m: map<nat, V>, key: nat, t: nat)
    requires WellFormed(b, m) && |m| == |b| && key !in m && t < |b|
    requires forall k :: k in m ==> Home(k, |b|) == Home(key, |b|)
    ensures var i := At(|b|, Home(key, |b|), t); Occupied(b, i) && b[i].key != key && b[i].probe == t
  {
    hide Home;
    var i := At(|b|, Home(key, |b|), t);
    assert Occupied(b, i) by {
      CountIsSize(b, m);
      CountBound(b, |b|);
    }
    Found(b, m, i);
    assert b[i].probe == Dist(|b|, Home(key, |b|), i);
  }

  lemma WrapsOnlyIfFull<V>(b: Buckets<V>, m: map<nat, V>, key: nat)
    requires WellFormed(b, m) && LookupWraps(b, key)
    ensures |m| == |b| && key !in m
    ensures forall i :: 0 <= i < |b| ==> Occupied(b, i) && b[i].probe >= Dist(|b|, Home(key, |b|), i)
  {
    hide Home;
    var n, h := |b|, Home(key, |b|);
    forall i | 0 <= i < n ensures Occupied(b, i) && b[i].key != key && b[i].probe >= Dist(n, h, i) {
      assert At(n, h, Dist(n, h, i)) == i;
    }
    CountIsSize(b, m);
    CountBound(b, n);
    assert !HasKey(b, key);
  }

  lemma WrapsOnlyIfCrowded<V>(b: Buckets<V>, m: map<nat, V>, key: nat, k: nat)
    requires WellFormed(b, m) && HasRest(b) && LookupWraps(b, key) && k in m
    ensures Home(k, |b|) == Home(key, |b|)
  {
    hide Home;
    WrapsOnlyIfFull(b, m, key);
    assert HasKey(b, k);
    var i :| Occupied(b, i) && b[i].key == k;
    WrapsFromHome(b, Home(key, |b|), i);
  }

  lemma WrapsFromHome<V>(b: Buckets<V>, h: nat, i: nat)
    requires h < |b| && i < |b| && ProbesExact(b) && Chained(b) && HasRest(b)
    requires forall j :: 0 <= j < |b| ==> Occupied(b, j) && b[j].probe >= Dist(|b|, h, j)
    ensures Home(b[i].key, |b|) == h
  {
    hide Home;
    var z :| Rests(b, z);
    assert Dist(|b|, h, z) == 0;
    WrapsSteps(b, h, Dist(|b|, h, i));
    assert Occupied(b, i);
    SameDist(|b|, Home(b[i].key, |b|), h, i);
  }

  lemma SameDist(n: nat, h: nat, h': nat, i: nat)
    requires h < n && h' < n && i < n && Dist(n, h, i) == Dist(n, h', i)
    ensures h == h'
  {
  }

  lemma {:induction false} WrapsSteps<V>(b: Buckets<V>, h: nat, t: nat)
    requires Chained(b) && h < |b| && t < |b|
    requires forall i :: 0 <= i < |b| ==> Occupied(b, i) && b[i].probe >= Dist(|b|, h, i)
    requires b[h].probe == 0
    ensures b[At(|b|, h, t)].probe == t
  {
    if t > 0 {
      WrapsSteps(b, h, t - 1);
      assert Prev(|b|, At(|b|, h, t)) == At(|b|, h, t - 1);
      assert Dist(|b|, h, At(|b|, h, t)) == t;
      assert Occupied(b, At(|b|, h, t));
    }
  }

  /** A walk from `start` around the table is at `i`, and has not passed the bucket `e`. */
  ghost predicate Underway(n: nat, start: nat, i: nat, e: nat) {
    start < n && i < n && e < n && Dist(n, start, i) <= Dist(n, start, e)
  }

  /** Every step short of `e` comes closer to it, and does not come back to where the walk started. */
  lemma WalksOn(n: nat, start: nat, i: nat, e: nat)
    requires Underway(n, start, i, e) && i != e
    ensures Underway(n, start, Next(n, i), e) && Next(n, i) != start
    ensures Dist(n, Next(n, i), e) < Dist(n, i, e)
  {
  }

  lemma ModNext(n: nat, i: nat)
    requires i < n
    ensures (i + 1) % n == Next(n, i)
  {
    if i + 1 == n {
      assert n % n == 0;
    }
  }

  /** While some bucket is empty, no item is displaced all the way round. */
  lemma NotLast<V>(b: Buckets<V>, m: map<nat, V>, i: nat, e: nat)
    requires WellFormed(b, m) && Occupied(b, i) && e < |b| && !Occupied(b, e)
    ensures b[i].probe + 1 < |b|
  {
    hide Home, Chained, ProbesExact, Distinct, Stores, Dist, At;
    var h, p := Home(b[i].key, |b|), b[i].probe;
    ChainBack(b, i, 0);
    if p + 1 == |b| {
      var d := Dist(|b|, h, e);
      ChainBack(b, i, p - d);
      assert At(|b|, h, p - (p - d)) == e;
    }
  }

  lemma EmptyTable<V>(b: Buckets<V>)
    requires |b| > 0 && forall i :: 0 <= i < |b| ==> b[i].value.None?
    ensures WellFormed(b, map[]) && HasRest(b)
  {
    hide Home;
    assert Rests(b, 0);
  }

  lemma SearchStarts<V>(b: Buckets<V>, key: nat)
    requires |b| > 0
    ensures Fits(b, Home(key, |b|), key, 0) && Passed(b, key, 0)
  {
  }

  lemma ProbeBound<V>(b: Buckets<V>, m: map<nat, V>, i: nat)
    requires WellFormed(b, m) && Occupied(b, i)
    ensures b[i].probe < |b|
  {
    hide Home;
    assert b[i].probe == Dist(|b|, Home(b[i].key, |b|), i);
  }

  lemma PrefixStep<V>(b: Buckets<V>, k: nat)
    requires k <= |b|
    ensures Prefix(b, 0) == map[]
    ensures k < |b| ==> Prefix(b, k + 1) == if Occupied(b, k) then Prefix(b, k)[b[k].key := b[k].value.value] else Prefix(b, k)
  {
  }

  // ----- insertion, round by round

  /** The item `k`, `v` is in hand at bucket `i`, on a walk from `start`; once it is placed, the table stands
      for `goal`. The key is known to be absent, or not to be in any bucket passed since its home. */
  ghost predicate Carrying<V>(b: Buckets<V>, m: map<nat, V>, goal: map<nat, V>, i: nat, k: nat, probe: nat, v: V,
                              start: nat, e: nat) {
    && WellFormed(b, m) && Fits(b, i, k, probe) && goal == m[k := v]
    && Underway(|b|, start, i, e) && !Occupied(b, e) && (k in m ==> Passed(b, k, probe))
  }

  lemma CarryStarts<V>(b: Buckets<V>, m: map<nat, V>, key: nat, value: V, e: nat)
    requires WellFormed(b, m) && e < |b| && !Occupied(b, e)
    ensures Carrying(b, m, m[key := value], Home(key, |b|), key, 0, value, Home(key, |b|), e)
  {
    hide Home, WellFormed;
    SearchStarts(b, key);
  }

  lemma CarryMiss<V>(b: Buckets<V>, m: map<nat, V>, goal: map<nat, V>, i: nat, k: nat, probe: nat, v: V, start: nat, e: nat)
    requires Carrying(b, m, goal, i, k, probe, v, start, e) && (!Occupied(b, i) || b[i].probe < probe)
    ensures k !in m
  {
    hide Home, WellFormed, Underway;
    if k in m { SearchMiss(b, m, k, probe); }
  }

  /** An empty bucket takes the item. */
  lemma CarryFills<V>(b: Buckets<V>, m: map<nat, V>, goal: map<nat, V>, i: nat, k: nat, probe: nat, v: V, start: nat, e: nat)
    requires Carrying(b, m, goal, i, k, probe, v, start, e) && !Occupied(b, i) && |b| > 1
    ensures WellFormed(b[i := Item(k, probe, Some(v))], goal) && HasRest(b[i := Item(k, probe, Some(v))])
    ensures |goal| == |m| + 1
  {
    hide Home;
    CarryMiss(b, m, goal, i, k, probe, v, start, e);
    hide WellFormed, Underway, HasRest, Fits, Passed;
    PlaceKeeps(b, m, i, k, probe, v);
    OneMore(m, k, v);
  }

  /** The bucket with the same key takes the value. */
  lemma CarryFinds<V>(b: Buckets<V>, m: map<nat, V>, goal: map<nat, V>, i: nat, k: nat, probe: nat, v: V, start: nat, e: nat)
    requires Carrying(b, m, goal, i, k, probe, v, start, e) && Occupied(b, i) && b[i].key == k
    ensures WellFormed(b[i := b[i].(value := Some(v))], goal)
    ensures HasRest(b[i := b[i].(value := Some(v))]) && |goal| == |m|
  {
    hide Home;
    assert Rests(b, e);
    hide WellFormed, Underway, HasRest, Fits, Passed;
    Found(b, m, i);
    Overwrite(b, m, i, v);
    OneMore(m, k, v);
  }

  /** At an occupied bucket the walk is not over, and the next bucket is not the one it started from. */
  lemma CarryMoves<V>(b: Buckets<V>, m: map<nat, V>, goal: map<nat, V>, i: nat, k: nat, probe: nat, v: V, start: nat, e: nat)
    requires Carrying(b, m, goal, i, k, probe, v, start, e) && Occupied(b, i)
    ensures Dist(|b|, Next(|b|, i), e) < Dist(|b|, i, e) && Next(|b|, i) != start
  {
    hide Home, WellFormed, Fits, Passed;
    WalksOn(|b|, start, i, e);
  }

  /** An item displaced less gives way and is in hand next. */
  lemma CarrySwaps<V>(b: Buckets<V>, m: map<nat, V>, goal: map<nat, V>, i: nat, k: nat, probe: nat, v: V, start: nat, e: nat)
    requires Carrying(b, m, goal, i, k, probe, v, start, e) && Occupied(b, i) && b[i].probe < probe && |b| > 1
    ensures var m' := (m - {b[i].key})[k := v];
            && |m'| == |m| && probe < |b| && b[i].probe + 1 < |b|
            && Carrying(b[i := Item(k, probe, Some(v))], m', goal, Next(|b|, i), b[i].key, b[i].probe + 1, b[i].value.value, start, e)
  {
    hide Home, WellFormed, Passed, Fits, Dist, At;
    CarryMiss(b, m, goal, i, k, probe, v, start, e);
    FitsBound(b, i, k, probe);
    Found(b, m, i);
    SwapKeeps(b, m, i, k, probe, v);
    SwappedBack(m, b[i].key, b[i].value.value, k, v);
    WalksOn(|b|, start, i, e);
  }

  lemma FitsBound<V>(b: Buckets<V>, i: nat, key: nat, probe: nat)
    requires Fits(b, i, key, probe)
    ensures probe < |b|
  {
  }

  /** Exchanging the item in hand does not change what the table will stand for. */
  lemma SwappedBack<V>(m: map<nat, V>, there: nat, w: V, k: nat, v: V)
    requires there in m && m[there] == w && k !in m
    ensures m[k := v] == (m - {there})[k := v][there := w]
  {
  }

  /** The walk goes on past an item that is displaced no less and has another key. */
  lemma CarryPasses<V>(b: Buckets<V>, m: map<nat, V>, goal: map<nat, V>, i: nat, k: nat, probe: nat, v: V, start: nat, e: nat)
    requires Carrying(b, m, goal, i, k, probe, v, start, e) && Occupied(b, i) && b[i].probe >= probe && b[i].key != k
    ensures probe + 1 < |b| && Carrying(b, m, goal, Next(|b|, i), k, probe + 1, v, start, e)
  {
    hide Home, WellFormed, Passed, Fits, Dist, At;
    NotLast(b, m, i, e);
    FitsNext(b, i, k, probe);
    if k in m { InsertPassed(b, i, k, probe); }
    WalksOn(|b|, start, i, e);
  }

  lemma OneMore<V>(m: map<nat, V>, key: nat, value: V)
    ensures |m[key := value]| == if key in m then |m| else |m| + 1
  {
    assert m[key := value].Keys == m.Keys + {key};
    assert |m| == |m.Keys| && |m[key := value]| == |m[key := value].Keys|;
  }

  lemma InsertPassed<V>(b: Buckets<V>, i: nat, key: nat, probe: nat)
    requires Passed(b, key, probe) && Fits(b, i, key, probe) && Occupied(b, i) && b[i].key != key
    ensures Passed(b, key, probe + 1)
  {
    hide Home;
    PassedOne(b, key, probe);
  }
}
