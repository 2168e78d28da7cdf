/** The `indent` word of a process: one bit per ancestor, the sign for the process itself. */
module Indent {
  import opened Options
  import opened Forest

  function Pow2(k: nat): (p: nat)
    ensures p >= 1
  {
    if k == 0 then 1 else 2 * Pow2(k - 1)
  }

  /** `x & (1 << k)`, as a truth value. */
  predicate Bit(x: nat, k: nat) { (x / Pow2(k)) % 2 == 1 }

  /** `x | (1 << k)`. */
  function SetBit(x: nat, k: nat): nat {
    if Bit(x, k) then x else x + Pow2(k)
  }

  /** The word given to a node at depth `d` whose siblings share the word `base`; -1 marks the top layer. */
  function Current(d: nat, base: int): nat
    requires base >= -1
  {
    if base == -1 then 0 else SetBit(base, if d == 0 then 0 else d - 1)
  }

  /** The `indent` of a node at depth `d`. */
  function Own(d: nat, base: int, last: bool): int
    requires base >= -1
  {
    var w: int := Current(d, base); if last then -w else w
  }

  /** The word its children share. */
  function Below(d: nat, base: int, last: bool): nat
    requires base >= -1
  {
    if base == -1 then 0 else if last then base else Current(d, base)
  }

  /** The indents of `f` in preorder; `more` says that siblings follow its last tree. */
  ghost function Indents<P>(f: Forest<P>, d: nat, base: int, more: bool): seq<int>
    requires base >= -1
  {
    if f == [] then []
    else
      var last := |f| == 1 && !more;
      [Own(d, base, last)] + Indents(f[0].kids, d + 1, Below(d, base, last), false) + Indents(f[1..], d, base, more)
  }

  lemma {:induction false} IndentsLength<P>(f: Forest<P>, d: nat, base: int, more: bool)
    requires base >= -1
    ensures |Indents(f, d, base, more)| == Size(f)
  {
    if f != [] {
      IndentsLength(f[0].kids, d + 1, Below(d, base, |f| == 1 && !more), false);
      IndentsLength(f[1..], d, base, more);
    }
  }

  lemma {:induction false} IndentsAppend<P>(a: Forest<P>, b: Forest<P>, d: nat, base: int, more: bool)
    requires base >= -1 && b != []
    ensures Indents(a + b, d, base, more) == Indents(a, d, base, true) + Indents(b, d, base, more)
  {
    if a == [] {
      assert a + b == b;
    } else {
      assert (a + b)[1..] == a[1..] + b;
      IndentsAppend(a[1..], b, d, base, more);
    }
  }

  lemma IndentsOne<P>(t: Tree<P>, d: nat, base: int, more: bool)
    requires base >= -1
    ensures Indents([t], d, base, more) == [Own(d, base, !more)] + Indents(t.kids, d + 1, Below(d, base, !more), false)
  {
    assert [t][1..] == [];
  }

  /** For each node in preorder: for itself and each ancestor below the top layer, outermost first,
      whether a sibling follows. */
  ghost function Paths<P>(f: Forest<P>, path: Option<seq<bool>>, more: bool): seq<seq<bool>> {
    if f == [] then []
    else
      var own := OwnPath(path, |f| > 1 || more);
      [own] + Paths(f[0].kids, Some(own), false) + Paths(f[1..], path, more)
  }

  /** Bit `j` for entry `j`. */
  function Word(flags: seq<bool>): nat {
    if flags == [] then 0
    else Word(flags[..|flags| - 1]) + (if flags[|flags| - 1] then Pow2(|flags| - 1) else 0)
  }

  /** The indent that stands for a path: a bit for each ancestor with a later sibling, a top bit for
      the node itself, and a minus sign for a last child. */
  function Encoded(path: seq<bool>): int {
    if path == [] then 0
    else
      var d := |path| - 1;
      var w := Word(path[..d]) + Pow2(d);
      if path[d] then w else -w
  }

  lemma {:induction false} WordBound(flags: seq<bool>)
    ensures Word(flags) < Pow2(|flags|)
  {
    if flags != [] { WordBound(flags[..|flags| - 1]); }
  }

  lemma SmallDiv(x: nat, p: nat)
    requires x < p
    ensures x / p == 0 && (x + p) / p == 1
  {
    AddMultiple(x, p, 1);
  }

  lemma DivUnique(x: nat, p: nat, q: nat, r: nat)
    requires r < p && x == p * q + r
    ensures x / p == q
  {
    var q', r' := x / p, x % p;
    assert p * q + r == p * q' + r';
    if q < q' {
      assert p * (q' - q) >= p by { MulGrows(p, q' - q); }
    } else if q' < q {
      assert p * (q - q') >= p by { MulGrows(p, q - q'); }
    }
  }

  lemma MulGrows(p: nat, k: nat)
    requires k >= 1
    ensures p * k >= p
  {
  }

  lemma SetFreshBit(flags: seq<bool>)
    ensures SetBit(Word(flags), |flags|) == Word(flags) + Pow2(|flags|)
  {
    WordBound(flags);
    SmallDiv(Word(flags), Pow2(|flags|));
  }

  function OwnPath(path: Option<seq<bool>>, later: bool): seq<bool> {
    if path.None? then [] else path.value + [later]
  }

  /** `base` and `d` are what the code carries where the path is `path`. */
  predicate Carries(path: Option<seq<bool>>, d: nat, base: int) {
    match path
    case None => base == -1 && d == 0
    case Some(flags) => base == Word(flags) && d == |flags| + 1
  }

  lemma OwnEncodes(path: Option<seq<bool>>, d: nat, base: int, last: bool)
    requires Carries(path, d, base)
    ensures base >= -1
    ensures Own(d, base, last) == Encoded(OwnPath(path, !last))
    ensures Carries(Some(OwnPath(path, !last)), d + 1, Below(d, base, last))
  {
    if path.Some? {
      var own := OwnPath(path, !last);
      SetFreshBit(path.value);
      assert own[..d - 1] == path.value;
    }
  }

  /** Builder and re-sorter encode the path to the root: every indent they write is the code of its path. */
  lemma {:induction false} IndentsEncode<P>(f: Forest<P>, d: nat, base: int, path: Option<seq<bool>>, more: bool)
    requires Carries(path, d, base) && base >= -1
    ensures |Paths(f, path, more)| == |Indents(f, d, base, more)|
    ensures forall k :: 0 <= k < |Paths(f, path, more)| ==> Indents(f, d, base, more)[k] == Encoded(Paths(f, path, more)[k])
  {
    hide Carries, Encoded, OwnPath, Own, Below;
    if f != [] {
      var last := |f| == 1 && !more;
      OwnEncodes(path, d, base, last);
      IndentsEncode(f[0].kids, d + 1, Below(d, base, last), Some(OwnPath(path, !last)), false);
      IndentsEncode(f[1..], d, base, path, more);
    }
  }

  lemma DoubleFirst(a: nat, b: nat)
    ensures 2 * (a * b) == (2 * a) * b
  {
  }

  lemma {:induction false} Pow2Split(k: nat, n: nat)
    requires k < n
    ensures Pow2(n) == Pow2(k) * (2 * Pow2(n - k - 1))
  {
    if k > 0 {
      Pow2Split(k - 1, n - 1);
      var rest := 2 * Pow2(n - k - 1);
      assert n - 1 - (k - 1) - 1 == n - k - 1;
      DoubleFirst(Pow2(k - 1), rest);
    }
  }

  lemma AddMultiple(x: nat, p: nat, c: nat)
    requires p > 0
    ensures (x + p * c) / p == x / p + c
  {
    var q, r := x / p, x % p;
    assert x + p * c == p * (q + c) + r;
    DivUnique(x + p * c, p, q + c, r);
  }

  lemma EvenMore(q: nat, c: nat)
    ensures (q + 2 * c) % 2 == q % 2
  {
  }

  lemma HighBitIrrelevant(x: nat, k: nat, n: nat)
    requires k < n
    ensures Bit(x + Pow2(n), k) == Bit(x, k)
  {
    hide Pow2;
    Pow2Split(k, n);
    AddMultiple(x, Pow2(k), 2 * Pow2(n - k - 1));
    EvenMore(x / Pow2(k), Pow2(n - k - 1));
  }

  lemma {:induction false} Pow2Monotone(k: nat, n: nat)
    requires k <= n
    ensures Pow2(k) <= Pow2(n)
  {
    if k < n { Pow2Monotone(k, n - 1); }
  }

  /** Bit `k` of the word is entry `k` of the flags. */
  lemma {:induction false} BitOfWord(flags: seq<bool>, k: nat)
    ensures Bit(Word(flags), k) <==> k < |flags| && flags[k]
  {
    hide Bit, Pow2;
    if flags == [] {
      LowBits(0, k);
    } else {
      var n := |flags| - 1;
      var front := flags[..n];
      BitOfWord(front, k);
      WordBound(front);
      WordBound(flags);
      if flags[n] {
        if k < n {
          HighBitIrrelevant(Word(front), k, n);
        } else if k == n {
          TopBit(Word(front), n);
        } else {
          Pow2Monotone(n + 1, k);
          LowBits(Word(flags), k);
        }
      }
    }
  }

  /** Bits above a number are not set, and the bit added on top is. */
  lemma LowBits(x: nat, k: nat)
    requires x < Pow2(k)
    ensures !Bit(x, k)
  {
    SmallDiv(x, Pow2(k));
  }

  lemma TopBit(x: nat, n: nat)
    requires x < Pow2(n)
    ensures Bit(x + Pow2(n), n)
  {
    SmallDiv(x, Pow2(n));
  }

  /** The indent drawing of `Process_writeField`: which columns carry a vertical bar, and whether the
      branch bends. It draws exactly the path that the indent encodes, for depths that fit a C int. */
  method DrawIndent(indentWord: int, ghost path: seq<bool>) returns (lastItem: bool, bars: seq<bool>)
    requires 1 <= |path| <= 31 && indentWord == Encoded(path)
    ensures lastItem == !path[|path| - 1]
    ensures bars == path[..|path| - 1]
  {
    ghost var d := |path| - 1;
    ghost var flags := path[..d] + [true];
    assert flags[..d] == path[..d];
    assert Word(flags) == Word(path[..d]) + Pow2(d);
    var maxIndent := 0;
    lastItem := indentWord < 0;
    var indent: nat := if indentWord < 0 then -indentWord else indentWord;
    assert indent == Word(flags);
    var i := 0;
    while i < 32
      invariant 0 <= i <= 32
      invariant if i <= d then 0 <= maxIndent <= i else maxIndent == d + 1
    {
      BitOfWord(flags, i);
      if Bit(indent, i) {
        maxIndent := i + 1;
      }
      i := i + 1;
    }
    bars := [];
    i := 0;
    while i < maxIndent - 1
      invariant 0 <= i <= d
      invariant bars == path[..i]
    {
      BitOfWord(flags, i);
      bars := bars + [Bit(indent, i)];
      i := i + 1;
    }
  }
}
