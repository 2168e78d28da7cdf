/** The two in-place sorts of Vector.c, on the vector's array. */
module VectorSort {
  import opened Order

  lemma SortOfPrefix<T>(compare: (T, T) -> int, s: seq<T>, i: nat)
    requires i < |s|
    ensures SortBy(compare, s[..i + 1]) == InsertLast(compare, SortBy(compare, s[..i]), s[i])
  {
    assert s[..i + 1] == s[..i] + [s[i]];
    SortOne(compare, s[..i], s[i]);
  }

  lemma {:induction false} InsertLastAt<T>(compare: (T, T) -> int, s: seq<T>, t: T, j: nat)
    requires j <= |s|
    requires forall k :: j <= k < |s| ==> compare(s[k], t) > 0
    requires j == 0 || compare(s[j - 1], t) <= 0
    ensures InsertLast(compare, s, t) == s[..j] + [t] + s[j..]
  {
    if j == |s| {
      assert s[..j] == s;
    } else {
      var front, last := s[..|s| - 1], s[|s| - 1];
      InsertLastAt(compare, front, t, j);
      assert s[j..] == front[j..] + [last] && s[..j] == front[..j];
    }
  }

  /** `b` while its element at `i` sinks to `j + 1`: what lay between has moved up by one. */
  ghost function Sinking<T>(b: seq<T>, i: nat, j: int): (r: seq<T>)
    requires -1 <= j < i < |b|
    ensures |r| == |b|
  {
    b[..j + 2] + b[j + 1..i] + b[i + 1..]
  }

  lemma SinkStarts<T>(b: seq<T>, i: nat)
    requires i < |b|
    ensures Sinking(b, i, i - 1) == b
  {
  }

  lemma SinkStep<T>(b: seq<T>, i: nat, j: nat)
    requires j < i < |b|
    ensures Sinking(b, i, j)[j] == b[j]
    ensures Sinking(b, i, j)[j + 1 := b[j]] == Sinking(b, i, j - 1)
  {
    assert b[j..i] == [b[j]] + b[j + 1..i];
    assert b[..j + 2] == b[..j + 1] + [b[j + 1]];
    assert b[..j + 2][j + 1 := b[j]] == b[..j + 1] + [b[j]];
  }

  lemma SinkEnds<T>(b: seq<T>, i: nat, j: int, t: T)
    requires -1 <= j < i < |b| && b[i] == t
    ensures var r := Sinking(b, i, j)[j + 1 := t];
            && r[..i + 1] == b[..i][..j + 1] + [t] + b[..i][j + 1..]
            && r[i + 1..] == b[i + 1..]
  {
    assert b[..j + 2][j + 1 := t] == b[..j + 1] + [t];
  }

  /** One round of the outer loop: sinks `a[i]` into the sorted prefix before it. */
  method SinkInto<T>(a: array<T>, i: int, compare: (T, T) -> int)
    requires 0 <= i < a.Length
    modifies a
    ensures a[..i + 1] == InsertLast(compare, old(a[..i]), old(a[i]))
    ensures a[i + 1..] == old(a[i + 1..])
  {
    hide InsertLast, Sinking;
    ghost var b := a[..];
    SinkStarts(b, i);
    var t := a[i];
    var j := i - 1;
    while j >= 0
      invariant -1 <= j < i && a[..] == Sinking(b, i, j)
      invariant forall k :: j < k < i ==> compare(b[k], t) > 0
    {
      SinkStep(b, i, j);
      if compare(a[j], t) <= 0 {
        break;
      }
      Write(a, j + 1, a[j]);
      j := j - 1;
    }
    if j >= 0 { SinkStep(b, i, j); }
    Write(a, j + 1, t);
    InsertLastAt(compare, b[..i], t, j + 1);
    SinkEnds(b, i, j, t);
  }

  method Write<T>(a: array<T>, k: nat, x: T)
    requires k < a.Length
    modifies a
    ensures a[..] == old(a[..])[k := x]
  {
    a[k] := x;
  }

  /** Insertion sort is the stable sort, element for element. */
  method InsertionSort<T>(a: array<T>, compare: (T, T) -> int)
    modifies a
    ensures a[..] == SortBy(compare, old(a[..]))
  {
    ghost var s := a[..];
    if a.Length > 0 {
      SortOfPrefix(compare, s, 0);
      assert a[..1] == [s[0]];
      var i := 1;
      while i < a.Length
        invariant 1 <= i <= a.Length
        invariant a[..i] == SortBy(compare, s[..i])
        invariant forall k :: i <= k < a.Length ==> a[k] == s[k]
      {
        SortOfPrefix(compare, s, i);
        SinkInto(a, i, compare);
        i := i + 1;
      }
      assert a[..] == a[..i] && s == s[..i];
    }
  }

  /** `s` and `t` hold the same elements and agree outside `lo..hi`. */
  ghost predicate PermutesWithin<T>(s: seq<T>, t: seq<T>, lo: int, hi: int) {
    && |s| == |t|
    && multiset(s) == multiset(t)
    && forall k :: 0 <= k < |s| && (k < lo || hi <= k) ==> t[k] == s[k]
  }

  method Swap<T>(a: array<T>, i: int, j: int)
    requires 0 <= i < a.Length && 0 <= j < a.Length
    modifies a
    ensures a[i] == old(a[j]) && a[j] == old(a[i])
    ensures forall k :: 0 <= k < a.Length && k != i && k != j ==> a[k] == old(a[k])
    ensures multiset(a[..]) == multiset(old(a[..]))
  {
    var tmp := a[i];
    a[i] := a[j];
    a[j] := tmp;
  }

  /** Splits `a[left..right]` around the value at `pivotIndex`. */
  method Partition<T>(a: array<T>, left: int, right: int, pivotIndex: int, compare: (T, T) -> int)
    returns (storeIndex: int)
    requires 0 <= left <= pivotIndex <= right < a.Length
    modifies a
    ensures left <= storeIndex <= right
    ensures PermutesWithin(old(a[..]), a[..], left, right + 1)
    ensures forall k :: left <= k < storeIndex ==> compare(a[k], a[storeIndex]) <= 0
    ensures forall k :: storeIndex < k <= right ==> compare(a[k], a[storeIndex]) > 0
  {
    var pivotValue := a[pivotIndex];
    Swap(a, pivotIndex, right);
    storeIndex := left;
    var i := left;
    while i < right
      invariant left <= storeIndex <= i <= right
      invariant a[right] == pivotValue
      invariant multiset(a[..]) == multiset(old(a[..]))
      invariant forall k :: 0 <= k < a.Length && (k < left || right < k) ==> a[k] == old(a[k])
      invariant forall k :: left <= k < storeIndex ==> compare(a[k], pivotValue) <= 0
      invariant forall k :: storeIndex <= k < i ==> compare(a[k], pivotValue) > 0
    {
      if compare(a[i], pivotValue) <= 0 {
        Swap(a, i, storeIndex);
        storeIndex := storeIndex + 1;
      }
      i := i + 1;
    }
    Swap(a, storeIndex, right);
  }

  ghost predicate SortedWithin<T>(compare: (T, T) -> int, s: seq<T>, lo: int, hi: int)
    requires 0 <= lo && hi <= |s|
  {
    forall i, j :: lo <= i < j < hi ==> compare(s[i], s[j]) <= 0
  }

  lemma Cancel<T>(a: multiset<T>, x: multiset<T>, y: multiset<T>, b: multiset<T>)
    requires a + x + b == a + y + b
    ensures x == y
  {
    forall e ensures x[e] == y[e] {
      assert (a + x + b)[e] == (a + y + b)[e];
    }
  }

  lemma BlockPermutes<T>(s: seq<T>, t: seq<T>, lo: int, hi: int)
    requires PermutesWithin(s, t, lo, hi) && 0 <= lo <= hi <= |s|
    ensures multiset(s[lo..hi]) == multiset(t[lo..hi])
  {
    var a, b, c, e := s[..lo], s[lo..hi], s[hi..], t[lo..hi];
    assert s == a + b + c;
    assert t[..lo] == a && t[hi..] == c;
    assert t == a + e + c;
    Cancel(multiset(a), multiset(b), multiset(e), multiset(c));
  }

  /** Whatever held of everything in `s[lo..hi]` still does after permuting it. */
  lemma BoundSurvives<T>(s: seq<T>, t: seq<T>, lo: int, hi: int, bound: T -> bool)
    requires PermutesWithin(s, t, lo, hi) && 0 <= lo <= hi <= |s|
    requires forall k :: lo <= k < hi ==> bound(s[k])
    ensures forall k :: lo <= k < hi ==> bound(t[k])
  {
    BlockPermutes(s, t, lo, hi);
    forall k | lo <= k < hi ensures bound(t[k]) {
      assert t[lo..hi][k - lo] == t[k];
      assert t[k] in multiset(t[lo..hi]);
      assert t[k] in s[lo..hi];
    }
  }

  /** Two sorted blocks on either side of a pivot make one sorted block. */
  lemma JoinedAt<T>(compare: (T, T) -> int, s: seq<T>, lo: int, p: int, hi: int, u: set<T>, i: int, j: int)
    requires 0 <= lo <= p < hi <= |s| && Elements(s) <= u && TotalPreorder(compare, u) && lo <= i < j < hi
    requires SortedWithin(compare, s, lo, p) && SortedWithin(compare, s, p + 1, hi)
    requires forall k :: lo <= k < p ==> compare(s[k], s[p]) <= 0
    requires forall k :: p < k < hi ==> compare(s[k], s[p]) > 0
    ensures compare(s[i], s[j]) <= 0
  {
    hide TotalPreorder;
    assert s[i] in Elements(s) && s[j] in Elements(s) && s[p] in Elements(s);
    if p < j { ComparableAt(compare, u, s[p], s[j]); }
    if i < p < j { TransitiveAt(compare, u, s[i], s[p], s[j]); }
  }

  lemma ComparableAt<T>(compare: (T, T) -> int, u: set<T>, x: T, y: T)
    requires TotalPreorder(compare, u) && x in u && y in u
    ensures compare(x, y) <= 0 || compare(y, x) <= 0
  {
  }

  lemma Joined<T>(compare: (T, T) -> int, s: seq<T>, lo: int, p: int, hi: int, u: set<T>)
    requires 0 <= lo <= p < hi <= |s| && Elements(s) <= u && TotalPreorder(compare, u)
    requires SortedWithin(compare, s, lo, p) && SortedWithin(compare, s, p + 1, hi)
    requires forall k :: lo <= k < p ==> compare(s[k], s[p]) <= 0
    requires forall k :: p < k < hi ==> compare(s[k], s[p]) > 0
    ensures SortedWithin(compare, s, lo, hi)
  {
    forall i, j | lo <= i < j < hi ensures compare(s[i], s[j]) <= 0 {
      JoinedAt(compare, s, lo, p, hi, u, i, j);
    }
  }

  /** What the two recursive calls leave behind is sorted, given the partition they started from. */
  lemma RecursionSorts<T>(compare: (T, T) -> int, s0: seq<T>, s1: seq<T>, s2: seq<T>,
                          lo: int, p: int, hi: int, u: set<T>)
    requires 0 <= lo <= p < hi <= |s0| && Elements(s0) <= u && TotalPreorder(compare, u)
    requires forall k :: lo <= k < p ==> compare(s0[k], s0[p]) <= 0
    requires forall k :: p < k < hi ==> compare(s0[k], s0[p]) > 0
    requires PermutesWithin(s0, s1, lo, p) && SortedWithin(compare, s1, lo, p)
    requires PermutesWithin(s1, s2, p + 1, hi) && SortedWithin(compare, s2, p + 1, hi)
    ensures PermutesWithin(s0, s2, lo, hi) && SortedWithin(compare, s2, lo, hi)
  {
    BoundSurvives(s0, s1, lo, p, x => compare(x, s0[p]) <= 0);
    BoundSurvives(s1, s2, p + 1, hi, x => compare(x, s0[p]) > 0);
    SameElements(s0, s2);
    Joined(compare, s2, lo, p, hi, u);
  }

  method QuickSortRange<T(==)>(a: array<T>, left: int, right: int, compare: (T, T) -> int, ghost u: set<T>)
    requires 0 <= left <= right + 1 && right < a.Length
    requires Elements(a[..]) <= u && TotalPreorder(compare, u)
    modifies a
    ensures PermutesWithin(old(a[..]), a[..], left, right + 1)
    ensures SortedWithin(compare, a[..], left, right + 1)
    decreases right - left + 1
  {
    if left >= right {
      return;
    }
    var pivotIndex := (left + right) / 2;
    var p := Partition(a, left, right, pivotIndex, compare);
    ghost var s0 := a[..];
    SameElements(old(a[..]), s0);
    QuickSortRange(a, left, p - 1, compare, u);
    ghost var s1 := a[..];
    SameElements(s0, s1);
    QuickSortRange(a, p + 1, right, compare, u);
    RecursionSorts(compare, s0, s1, a[..], left, p, right + 1, u);
  }

  /** Quicksort sorts and permutes; where nothing ties it yields exactly the stable sort. */
  method QuickSort<T(==)>(a: array<T>, compare: (T, T) -> int)
    requires TotalPreorder(compare, Elements(a[..]))
    modifies a
    ensures multiset(a[..]) == multiset(old(a[..]))
    ensures Sorted(compare, a[..])
    ensures TieFree(compare, Elements(old(a[..]))) ==> a[..] == SortBy(compare, old(a[..]))
  {
    ghost var s, u := a[..], Elements(a[..]);
    QuickSortRange(a, 0, a.Length - 1, compare, u);
    if TieFree(compare, u) {
      SortsAgree(compare, s, a[..]);
    }
  }

  /** On tie-free input every sorted permutation is the stable sort. */
  lemma SortsAgree<T>(compare: (T, T) -> int, s: seq<T>, t: seq<T>)
    requires TotalPreorder(compare, Elements(s)) && TieFree(compare, Elements(s))
    requires multiset(s) == multiset(t) && Sorted(compare, t)
    ensures t == SortBy(compare, s)
  {
    SortSorts(compare, s, Elements(s));
    SortPermutes(compare, s);
    SameElements(s, t);
    SortUnique(compare, t, SortBy(compare, s), Elements(s));
  }
}
