/** Comparison functions in the style of C's `compare(a, b)`, and the stable sort they define.
    `SortBy` is the specification of `Vector_insertionSort`; `SortUnique` is why an unstable
    sort may stand in for it when ties are impossible. */
module Order {

  /** `cmp` orders the elements of `s`: any two are comparable, and `<= 0` is transitive. */
  ghost predicate TotalPreorder<T>(cmp: (T, T) -> int, s: set<T>) {
    && (forall x, y {:trigger cmp(x, y)} :: x in s && y in s ==> cmp(x, y) <= 0 || cmp(y, x) <= 0)
    && (forall x, y, z {:trigger cmp(x, y), cmp(y, z)} ::
          x in s && y in s && z in s && cmp(x, y) <= 0 && cmp(y, z) <= 0 ==> cmp(x, z) <= 0)
  }

  /** No two different elements of `s` tie. */
  ghost predicate TieFree<T>(cmp: (T, T) -> int, s: set<T>) {
    forall x, y {:trigger cmp(x, y)} :: x in s && y in s && cmp(x, y) <= 0 && cmp(y, x) <= 0 ==> x == y
  }

  ghost predicate Sorted<T>(cmp: (T, T) -> int, s: seq<T>) {
    forall i, j :: 0 <= i < j < |s| ==> cmp(s[i], s[j]) <= 0
  }

  ghost function Elements<T>(s: seq<T>): set<T> { set x | x in s }

  /** Places `x` behind the last element that is not greater than it. */
  function InsertLast<T>(cmp: (T, T) -> int, s: seq<T>, x: T): seq<T> {
    if s == [] then [x]
    else if cmp(s[|s| - 1], x) <= 0 then s + [x]
    else InsertLast(cmp, s[..|s| - 1], x) + [s[|s| - 1]]
  }

  /** The stable sort of `s`. */
  function SortBy<T>(cmp: (T, T) -> int, s: seq<T>): (r: seq<T>) {
    if s == [] then [] else InsertLast(cmp, SortBy(cmp, s[..|s| - 1]), s[|s| - 1])
  }

  lemma {:induction false} InsertLastPermutes<T>(cmp: (T, T) -> int, s: seq<T>, x: T)
    ensures multiset(InsertLast(cmp, s, x)) == multiset(s) + multiset{x}
    ensures |InsertLast(cmp, s, x)| == |s| + 1
  {
    if s == [] {
    } else if cmp(s[|s| - 1], x) <= 0 {
    } else {
      InsertLastPermutes(cmp, s[..|s| - 1], x);
      assert s == s[..|s| - 1] + [s[|s| - 1]];
    }
  }

  lemma {:induction false} SortPermutes<T>(cmp: (T, T) -> int, s: seq<T>)
    ensures multiset(SortBy(cmp, s)) == multiset(s)
    ensures |SortBy(cmp, s)| == |s|
  {
    if s == [] {
    } else {
      SortPermutes(cmp, s[..|s| - 1]);
      InsertLastPermutes(cmp, SortBy(cmp, s[..|s| - 1]), s[|s| - 1]);
      assert s == s[..|s| - 1] + [s[|s| - 1]];
    }
  }

  lemma SameElements<T>(a: seq<T>, b: seq<T>)
    requires multiset(a) == multiset(b)
    ensures Elements(a) == Elements(b)
    ensures |a| == |b|
  {
    forall x ensures x in Elements(a) <==> x in Elements(b) {
      assert x in a <==> x in multiset(a);
      assert x in b <==> x in multiset(b);
    }
    assert |multiset(a)| == |a| && |multiset(b)| == |b|;
  }

  lemma {:induction false} InsertLastSorts<T>(cmp: (T, T) -> int, s: seq<T>, x: T, u: set<T>)
    requires Elements(s) <= u && x in u && TotalPreorder(cmp, u)
    requires Sorted(cmp, s)
    ensures Sorted(cmp, InsertLast(cmp, s, x))
  {
    if s == [] {
    } else {
      var last, front := s[|s| - 1], s[..|s| - 1];
      assert last in Elements(s);
      forall i | 0 <= i < |s| ensures s[i] in u { assert s[i] in Elements(s); }
      if cmp(last, x) <= 0 {
      } else {
        forall y | y in Elements(front) ensures y in Elements(s) { }
        InsertLastSorts(cmp, front, x, u);
        InsertLastPermutes(cmp, front, x);
        var r := InsertLast(cmp, front, x);
        forall i | 0 <= i < |r| ensures cmp(r[i], last) <= 0 {
          assert r[i] in multiset(r);
          if r[i] != x {
            assert r[i] in multiset(front);
            assert r[i] in front;
          }
        }
      }
    }
  }

  /** The sort sorts. */
  lemma {:induction false} SortSorts<T>(cmp: (T, T) -> int, s: seq<T>, u: set<T>)
    requires Elements(s) <= u && TotalPreorder(cmp, u)
    ensures Sorted(cmp, SortBy(cmp, s))
  {
    if s == [] {
    } else {
      var front := s[..|s| - 1];
      assert s[|s| - 1] in Elements(s);
      forall y | y in Elements(front) ensures y in Elements(s) { }
      SortSorts(cmp, front, u);
      SortPermutes(cmp, front);
      SameElements(SortBy(cmp, front), front);
      InsertLastSorts(cmp, SortBy(cmp, front), s[|s| - 1], u);
    }
  }

  lemma SortedLast<T>(cmp: (T, T) -> int, s: seq<T>, x: T)
    requires Sorted(cmp, s) && x in s && TotalPreorder(cmp, Elements(s))
    ensures cmp(x, s[|s| - 1]) <= 0
  {
    var i :| 0 <= i < |s| && s[i] == x;
    var last := s[|s| - 1];
    assert last in Elements(s);
    if i == |s| - 1 {
      assert cmp(last, last) <= 0 || cmp(last, last) <= 0;
    }
  }

  lemma DropLast<T>(s: seq<T>)
    requires s != []
    ensures multiset(s[..|s| - 1]) == multiset(s) - multiset{s[|s| - 1]}
    ensures Elements(s[..|s| - 1]) <= Elements(s)
    ensures s == s[..|s| - 1] + [s[|s| - 1]]
  {
    assert s == s[..|s| - 1] + [s[|s| - 1]];
  }

  /** Two sorted arrangements of the same elements are the same arrangement when nothing ties. */
  lemma {:induction false} SortUnique<T>(cmp: (T, T) -> int, a: seq<T>, b: seq<T>, u: set<T>)
    requires multiset(a) == multiset(b) && Elements(a) <= u
    requires Sorted(cmp, a) && Sorted(cmp, b)
    requires TotalPreorder(cmp, u) && TieFree(cmp, u)
    ensures a == b
  {
    SameElements(a, b);
    if a == [] {
    } else {
      var n := |a| - 1;
      assert a[n] == b[n] by { LastsAgree(cmp, a, b, u); }
      DropLast(a);
      DropLast(b);
      SortUnique(cmp, a[..n], b[..n], u);
    }
  }

  lemma LastsAgree<T>(cmp: (T, T) -> int, a: seq<T>, b: seq<T>, u: set<T>)
    requires a != [] && |a| == |b| && Elements(a) == Elements(b) && Elements(a) <= u
    requires Sorted(cmp, a) && Sorted(cmp, b)
    requires TotalPreorder(cmp, u) && TieFree(cmp, u)
    ensures a[|a| - 1] == b[|b| - 1]
  {
    var x, y := a[|a| - 1], b[|b| - 1];
    assert x in Elements(a) && y in Elements(b);
    SortedLast(cmp, a, y);
    SortedLast(cmp, b, x);
  }

  /** The elements of `s` that satisfy `keep`, in order. */
  function Filter<T>(keep: T -> bool, s: seq<T>): (r: seq<T>) {
    if s == [] then []
    else Filter(keep, s[..|s| - 1]) + (if keep(s[|s| - 1]) then [s[|s| - 1]] else [])
  }

  lemma {:induction false} FilterElements<T>(keep: T -> bool, s: seq<T>)
    ensures forall x :: x in Filter(keep, s) <==> x in s && keep(x)
  {
    if s == [] {
    } else {
      FilterElements(keep, s[..|s| - 1]);
      assert s == s[..|s| - 1] + [s[|s| - 1]];
    }
  }

  lemma FilterMember<T>(keep: T -> bool, s: seq<T>, x: T)
    requires x in Filter(keep, s)
    ensures x in s && keep(x)
  {
    FilterElements(keep, s);
  }

  lemma FilterAt<T>(keep: T -> bool, s: seq<T>, i: nat)
    requires i < |Filter(keep, s)|
    ensures Filter(keep, s)[i] in s && keep(Filter(keep, s)[i])
  {
    FilterElements(keep, s);
    assert Filter(keep, s)[i] in Filter(keep, s);
  }

  /** What is kept keeps its order. */
  lemma {:induction false} FilterOrder<T>(keep: T -> bool, s: seq<T>, i: nat, j: nat)
    requires i < j < |Filter(keep, s)|
    ensures exists a, b :: 0 <= a < b < |s| && s[a] == Filter(keep, s)[i] && s[b] == Filter(keep, s)[j]
  {
    var front, n := s[..|s| - 1], |s| - 1;
    var f := Filter(keep, front);
    if j < |f| {
      FilterOrder(keep, front, i, j);
      var a, b :| 0 <= a < b < |front| && front[a] == f[i] && front[b] == f[j];
      assert s[a] == f[i] && s[b] == f[j];
    } else {
      FilterAt(keep, front, i);
      var a :| 0 <= a < |front| && front[a] == f[i];
      assert s[a] == f[i] && s[n] == Filter(keep, s)[j];
    }
  }

  lemma {:induction false} FilterAppend<T>(keep: T -> bool, a: seq<T>, b: seq<T>)
    ensures Filter(keep, a + b) == Filter(keep, a) + Filter(keep, b)
  {
    if b == [] {
      assert a + b == a;
    } else {
      assert (a + b)[..|a + b| - 1] == a + b[..|b| - 1];
      FilterAppend(keep, a, b[..|b| - 1]);
    }
  }

  lemma {:induction false} FilterBelow<T>(cmp: (T, T) -> int, keep: T -> bool, s: seq<T>, x: T)
    requires forall i :: 0 <= i < |s| ==> cmp(s[i], x) <= 0
    ensures InsertLast(cmp, Filter(keep, s), x) == Filter(keep, s) + [x]
  {
    var f := Filter(keep, s);
    if f != [] {
      FilterAt(keep, s, |f| - 1);
    }
  }

  lemma AllBelow<T>(cmp: (T, T) -> int, s: seq<T>, x: T, u: set<T>)
    requires s != [] && Elements(s) <= u && x in u && TotalPreorder(cmp, u)
    requires Sorted(cmp, s) && cmp(s[|s| - 1], x) <= 0
    ensures forall i :: 0 <= i < |s| ==> cmp(s[i], x) <= 0
  {
    forall i | 0 <= i < |s| ensures cmp(s[i], x) <= 0 {
      assert s[i] in Elements(s) && s[|s| - 1] in Elements(s);
      if i < |s| - 1 { assert cmp(s[i], s[|s| - 1]) <= 0; }
    }
  }

  lemma {:induction false} InsertLastFilters<T>(cmp: (T, T) -> int, keep: T -> bool, s: seq<T>, x: T, u: set<T>)
    requires Elements(s) <= u && x in u && TotalPreorder(cmp, u)
    requires Sorted(cmp, s)
    ensures Filter(keep, InsertLast(cmp, s, x))
         == if keep(x) then InsertLast(cmp, Filter(keep, s), x) else Filter(keep, s)
  {
    if s == [] {
      FilterAppend(keep, [], [x]);
      FilterBelow(cmp, keep, [], x);
    } else if cmp(s[|s| - 1], x) <= 0 {
      AllBelow(cmp, s, x, u);
      FilterBelow(cmp, keep, s, x);
      FilterOne(keep, s, x);
    } else {
      var last, front := s[|s| - 1], s[..|s| - 1];
      DropLast(s);
      InsertLastFilters(cmp, keep, front, x, u);
      FilterOne(keep, InsertLast(cmp, front, x), last);
      FilterOne(keep, front, last);
      InsertLastAbove(cmp, Filter(keep, front), last, x);
    }
  }

  lemma FilterOne<T>(keep: T -> bool, s: seq<T>, x: T)
    ensures Filter(keep, s + [x]) == if keep(x) then Filter(keep, s) + [x] else Filter(keep, s)
  {
    assert (s + [x])[..|s|] == s;
  }

  lemma FilterNothing<T>(keep: T -> bool)
    ensures Filter(keep, []) == []
  {
  }

  lemma InsertLastAbove<T>(cmp: (T, T) -> int, s: seq<T>, last: T, x: T)
    requires cmp(last, x) > 0
    ensures InsertLast(cmp, s + [last], x) == InsertLast(cmp, s, x) + [last]
  {
    assert (s + [last])[..|s|] == s;
  }

  /** A stable sort commutes with filtering. */
  lemma {:induction false} SortFilters<T>(cmp: (T, T) -> int, keep: T -> bool, s: seq<T>, u: set<T>)
    requires Elements(s) <= u && TotalPreorder(cmp, u)
    ensures Filter(keep, SortBy(cmp, s)) == SortBy(cmp, Filter(keep, s))
  {
    if s == [] {
    } else {
      var last, front := s[|s| - 1], s[..|s| - 1];
      assert last in Elements(s);
      DropLast(s);
      SortFilters(cmp, keep, front, u);
      SortSorts(cmp, front, u);
      SortPermutes(cmp, front);
      SameElements(SortBy(cmp, front), front);
      InsertLastFilters(cmp, keep, SortBy(cmp, front), last, u);
      FilterOne(keep, front, last);
      SortOne(cmp, Filter(keep, front), last);
    }
  }

  lemma SortOne<T>(cmp: (T, T) -> int, s: seq<T>, x: T)
    ensures SortBy(cmp, s + [x]) == InsertLast(cmp, SortBy(cmp, s), x)
  {
    assert (s + [x])[..|s|] == s;
  }

  lemma {:induction false} SortKeepsSorted<T>(cmp: (T, T) -> int, s: seq<T>)
    requires Sorted(cmp, s)
    ensures SortBy(cmp, s) == s
  {
    if s == [] {
    } else {
      SortKeepsSorted(cmp, s[..|s| - 1]);
      assert s == s[..|s| - 1] + [s[|s| - 1]];
    }
  }

  function TiesWith<T>(cmp: (T, T) -> int, x: T): T -> bool {
    y => cmp(x, y) <= 0 && cmp(y, x) <= 0
  }

  lemma TransitiveAt<T>(cmp: (T, T) -> int, u: set<T>, x: T, y: T, z: T)
    requires TotalPreorder(cmp, u) && x in u && y in u && z in u
    requires cmp(x, y) <= 0 && cmp(y, z) <= 0
    ensures cmp(x, z) <= 0
  {
  }

  lemma TiesSorted<T>(cmp: (T, T) -> int, s: seq<T>, x: T)
    requires x in s && TotalPreorder(cmp, Elements(s))
    ensures Sorted(cmp, Filter(TiesWith(cmp, x), s))
  {
    var ties := TiesWith(cmp, x);
    var f := Filter(ties, s);
    forall i, j | 0 <= i < j < |f| ensures cmp(f[i], f[j]) <= 0 {
      FilterAt(ties, s, i);
      FilterAt(ties, s, j);
      TransitiveAt(cmp, Elements(s), f[i], x, f[j]);
    }
  }

  /** Stability: the elements that tie with `x` leave the sort in the order they entered it. */
  lemma SortStable<T>(cmp: (T, T) -> int, s: seq<T>, x: T)
    requires x in s && TotalPreorder(cmp, Elements(s))
    ensures Filter(TiesWith(cmp, x), SortBy(cmp, s)) == Filter(TiesWith(cmp, x), s)
  {
    SortFilters(cmp, TiesWith(cmp, x), s, Elements(s));
    TiesSorted(cmp, s, x);
    SortKeepsSorted(cmp, Filter(TiesWith(cmp, x), s));
  }

  // ----- no element twice

  ghost predicate NoDup<T>(s: seq<T>) {
    forall i, j :: 0 <= i < j < |s| ==> s[i] != s[j]
  }

  lemma {:induction false} NoDupOnce<T>(s: seq<T>)
    requires NoDup(s)
    ensures forall x :: multiset(s)[x] <= 1
  {
    if s != [] {
      var front, last := s[..|s| - 1], s[|s| - 1];
      NoDupOnce(front);
      assert s == front + [last];
      assert last !in front;
    }
  }

  lemma CountedTwice<T>(s: seq<T>, i: nat, j: nat)
    requires i < j < |s| && s[i] == s[j]
    ensures multiset(s)[s[i]] >= 2
  {
    assert s == s[..i] + [s[i]] + s[i + 1..j] + [s[j]] + s[j + 1..];
  }

  lemma OnceNoDup<T>(s: seq<T>)
    requires forall x :: multiset(s)[x] <= 1
    ensures NoDup(s)
  {
    forall i, j | 0 <= i < j < |s| ensures s[i] != s[j] {
      if s[i] == s[j] { CountedTwice(s, i, j); }
    }
  }

  lemma NoDupPermutes<T>(s: seq<T>, t: seq<T>)
    requires NoDup(s) && multiset(s) == multiset(t)
    ensures NoDup(t)
  {
    NoDupOnce(s);
    OnceNoDup(t);
  }
}
