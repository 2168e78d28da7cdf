/** Text matching as the filters and searches of htop do it. */
module Text {

  function Lower(c: char): char {
    if 'A' <= c <= 'Z' then (c as int + 32) as char else c
  }

  predicate BeginsI(s: string, t: string) {
    |t| <= |s| && forall k :: 0 <= k < |t| ==> Lower(s[k]) == Lower(t[k])
  }

  /** `String_contains_i`: `t` occurs in `s`, letter case aside. */
  predicate ContainsI(s: string, t: string) {
    exists i | 0 <= i <= |s| :: BeginsI(s[i..], t)
  }

  /** Every character of `t` in its place, as it is or in the other case. */
  lemma ContainsMeans(s: string, t: string)
    ensures ContainsI(s, t) <==>
            exists i :: 0 <= i <= |s| && |t| <= |s[i..]| && forall k :: 0 <= k < |t| ==>
              var (c, d) := (s[i..][k], t[k]);
              c == d || ('A' <= c <= 'Z' && d as int == c as int + 32) || ('A' <= d <= 'Z' && c as int == d as int + 32)
  {
  }

  /** A text that contains `t` still does after something is appended, and an appended text that
      contains `t` brings it along. */
  lemma ContainsAppended(a: string, b: string, t: string)
    ensures ContainsI(a, t) || ContainsI(b, t) ==> ContainsI(a + b, t)
  {
    if i :| 0 <= i <= |a| && BeginsI(a[i..], t) {
      assert BeginsI((a + b)[i..], t);
    }
    if i :| 0 <= i <= |b| && BeginsI(b[i..], t) {
      assert (a + b)[|a| + i..] == b[i..];
    }
  }
}
