/** String helpers of XUtils.c, and the printing and reading of integers. */
module XUtils {

  // ----- splitting

  /** Where `sep` first occurs in `s`. */
  function IndexOf(s: string, sep: char): (i: nat)
    requires sep in s
    ensures i < |s| && s[i] == sep && sep !in s[..i]
  {
    if s[0] == sep then 0
    else
      assert s == [s[0]] + s[1..];
      1 + IndexOf(s[1..], sep)
  }

  /** The parts between separators; nothing after the last one is no part. */
  function Split(s: string, sep: char): seq<string> {
    if s == "" then []
    else if sep !in s then [s]
    else var i := IndexOf(s, sep); [s[..i]] + Split(s[i + 1..], sep)
  }

  function Join(parts: seq<string>, sep: char): string {
    if parts == [] then ""
    else if |parts| == 1 then parts[0]
    else parts[0] + [sep] + Join(parts[1..], sep)
  }

  lemma {:induction false} JoinAppend(parts: seq<string>, part: string, sep: char)
    ensures Join(parts + [part], sep) == Join(parts, sep) + (if parts == [] then "" else [sep]) + part
  {
    if parts == [] {
      assert parts + [part] == [part];
    } else {
      JoinAppend(parts[1..], part, sep);
      assert (parts + [part])[1..] == parts[1..] + [part];
    }
  }

  lemma FirstPart(a: string, sep: char, rest: string)
    requires sep !in a
    ensures Split(a + [sep] + rest, sep) == [a] + Split(rest, sep)
  {
    var s := a + [sep] + rest;
    assert s[|a|] == sep;
    var i := IndexOf(s, sep);
    assert forall k :: 0 <= k < |a| ==> s[k] == a[k];
    assert forall k :: 0 <= k < i ==> s[k] in s[..i];
    assert s[..i] == a && s[i + 1..] == rest;
  }

  lemma JoinCons(a: string, rest: seq<string>, sep: char)
    requires rest != []
    ensures Join([a] + rest, sep) == a + [sep] + Join(rest, sep)
  {
    assert ([a] + rest)[1..] == rest;
  }

  lemma JoinOne(a: string, sep: char)
    ensures Join([a], sep) == a
  {
  }

  /** What splitting gives when an empty last part is lost. */
  function Kept(parts: seq<string>): seq<string> {
    if parts != [] && parts[|parts| - 1] == "" then parts[..|parts| - 1] else parts
  }

  lemma KeptCons(a: string, rest: seq<string>)
    requires rest != []
    ensures Kept([a] + rest) == [a] + Kept(rest)
  {
  }

  /** Splitting undoes joining, but for an empty last part, which is lost. */
  lemma {:induction false} SplitJoin(parts: seq<string>, sep: char)
    requires forall p :: p in parts ==> sep !in p
    ensures Split(Join(parts, sep), sep) ==
            if parts != [] && parts[|parts| - 1] == "" then parts[..|parts| - 1] else parts
  {
    if |parts| == 1 {
      JoinOne(parts[0], sep);
      assert parts == [parts[0]];
    } else if |parts| > 1 {
      var a, rest := parts[0], parts[1..];
      assert parts == [a] + rest;
      hide Split, Join, Kept;
      SplitJoin(rest, sep);
      JoinCons(a, rest, sep);
      FirstPart(a, sep, Join(rest, sep));
      KeptCons(a, rest);
    }
  }

  /** `s` without a separator at its end. */
  function Unended(s: string, sep: char): string {
    if s != "" && s[|s| - 1] == sep then s[..|s| - 1] else s
  }

  lemma UnendedAppend(a: string, sep: char, rest: string)
    ensures rest != "" ==> Unended(a + [sep] + rest, sep) == a + [sep] + Unended(rest, sep)
    ensures rest == "" ==> Unended(a + [sep] + rest, sep) == a
  {
  }

  lemma {:induction false} SplitNothing(s: string, sep: char)
    ensures Split(s, sep) == [] <==> s == ""
  {
  }

  /** Joining undoes splitting, but for a separator at the end, which is lost. */
  lemma {:induction false} JoinSplit(s: string, sep: char)
    ensures Join(Split(s, sep), sep) == if s != "" && s[|s| - 1] == sep then s[..|s| - 1] else s
    decreases |s|
  {
    if s != "" && sep in s {
      var i := IndexOf(s, sep);
      var a, rest := s[..i], s[i + 1..];
      assert s == a + [sep] + rest;
      assert Split(s, sep) == [a] + Split(rest, sep);
      hide Split, Join, Unended;
      JoinSplit(rest, sep);
      SplitNothing(rest, sep);
      UnendedAppend(a, sep, rest);
      if rest == "" {
        JoinOne(a, sep);
        assert [a] + [] == [a];
      } else {
        JoinCons(a, Split(rest, sep), sep);
      }
    } else if s != "" {
      assert s[|s| - 1] in s;
    }
  }

  method StringSplit(s: string, sep: char) returns (out: seq<string>)
    ensures out == Split(s, sep)
  {
    out := [];
    var rest := s;
    while sep in rest
      invariant Split(s, sep) == out + Split(rest, sep)
      decreases |rest|
    {
      var where := IndexOf(rest, sep);
      out := out + [rest[..where]];
      rest := rest[where + 1..];
    }
    if rest != "" {
      out := out + [rest];
    }
  }

  // ----- trimming

  predicate Blank(c: char) { c == ' ' || c == '\t' || c == '\n' }

  /** `r` is `s` without the blanks around it. */
  ghost predicate Trims(s: string, r: string) {
    && (r != "" ==> !Blank(r[0]) && !Blank(r[|r| - 1]))
    && exists i, j :: 0 <= i <= j <= |s| && s[i..j] == r
                   && (forall k :: 0 <= k < i || j <= k < |s| ==> Blank(s[k]))
  }

  method StringTrim(s: string) returns (r: string)
    ensures Trims(s, r)
    ensures r != "" ==> r[0] !in " \t\n" && r[|r| - 1] !in " \t\n"
    ensures exists i, j :: 0 <= i <= j <= |s| && s[i..j] == r && (forall k :: 0 <= k < i || j <= k < |s| ==> s[k] in " \t\n")
  {
    var i := 0;
    while i < |s| && Blank(s[i])
      invariant i <= |s| && forall k :: 0 <= k < i ==> Blank(s[k])
    {
      i := i + 1;
    }
    var j := |s|;
    while j > i && Blank(s[j - 1])
      invariant i <= j <= |s| && forall k :: j <= k < |s| ==> Blank(s[k])
    {
      j := j - 1;
    }
    return s[i..j];
  }

  /** A text without blanks at its ends is all that trimming can give. */
  lemma TrimsClean(s: string, r: string)
    requires Trims(s, r) && (s != "" ==> !Blank(s[0]) && !Blank(s[|s| - 1]))
    ensures r == s
  {
    var i, j :| 0 <= i <= j <= |s| && s[i..j] == r && forall k :: 0 <= k < i || j <= k < |s| ==> Blank(s[k]);
    if s != "" {
      assert i == 0 && j == |s|;
    }
  }

  // ----- integers

  predicate Digit(c: char) { '0' <= c <= '9' }

  function PrintNat(n: nat): (s: string)
    ensures s != "" && forall k :: 0 <= k < |s| ==> Digit(s[k])
  {
    if n < 10 then [n as char + '0'] else PrintNat(n / 10) + [(n % 10) as char + '0']
  }

  /** `%d`. */
  function Print(n: int): string { if n < 0 then "-" + PrintNat(-n) else PrintNat(n) }

  /** The value of the digits at the front of `s`. */
  function ReadDigits(s: string, value: nat): nat {
    if s != "" && Digit(s[0]) then ReadDigits(s[1..], value * 10 + (s[0] as int - '0' as int)) else value
  }

  /** `atoi`: blanks, a sign, digits; 0 when there is no number. */
  function Atoi(s: string): int
    decreases |s|
  {
    if s != "" && Blank(s[0]) then Atoi(s[1..])
    else if s != "" && s[0] == '-' then 0 - ReadDigits(s[1..], 0)
    else if s != "" && s[0] == '+' then ReadDigits(s[1..], 0)
    else ReadDigits(s, 0)
  }

  lemma {:induction false} ReadDigitsAppend(s: string, d: char, value: nat)
    requires Digit(d) && forall k :: 0 <= k < |s| ==> Digit(s[k])
    ensures ReadDigits(s + [d], value) == ReadDigits(s, value) * 10 + (d as int - '0' as int)
  {
    if s == "" {
      assert s + [d] == [d];
      assert ReadDigits("", value * 10 + (d as int - '0' as int)) == value * 10 + (d as int - '0' as int);
    } else {
      assert (s + [d])[1..] == s[1..] + [d];
      ReadDigitsAppend(s[1..], d, value * 10 + (s[0] as int - '0' as int));
    }
  }

  lemma {:induction false} ReadPrinted(n: nat)
    ensures ReadDigits(PrintNat(n), 0) == n
  {
    if n >= 10 {
      ReadPrinted(n / 10);
      ReadDigitsAppend(PrintNat(n / 10), (n % 10) as char + '0', 0);
    } else {
      assert [n as char + '0'][1..] == "";
    }
  }

  /** Reading an integer undoes printing it. */
  lemma AtoiPrint(n: int)
    ensures Atoi(Print(n)) == n
  {
    ReadPrinted(if n < 0 then -n else n);
    if n < 0 {
      assert Print(n)[1..] == PrintNat(-n);
    } else {
      assert Digit(PrintNat(n)[0]);
    }
  }

  /** A printed integer is a clean word. */
  lemma PrintClean(n: int)
    ensures Word(Print(n))
  {
  }

  /** Not empty, no blank, no equals sign. */
  predicate Word(s: string) { s != "" && forall k :: 0 <= k < |s| ==> !Blank(s[k]) && s[k] != '=' }
}
