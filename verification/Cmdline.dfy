/** Matching a process's command line against its name and its executable (Process.c). */
module Cmdline {
  import opened Options

  // ----- the short name in the command line

  const TASK_COMM_LEN := 16

  /** Where the token at `s` ends. */
  function TokenEnd(cmdline: string, s: nat): (e: nat)
    requires s <= |cmdline|
    ensures s <= e <= |cmdline| && (e == |cmdline| || cmdline[e] == '\n')
    ensures forall k :: s <= k < e ==> cmdline[k] != '\n'
    decreases |cmdline| - s
  {
    if s == |cmdline| || cmdline[s] == '\n' then s else TokenEnd(cmdline, s + 1)
  }

  /** `s` is where a token starts, counting tokens from `start`. */
  ghost predicate TokenStart(cmdline: string, start: nat, s: nat) {
    start <= s < |cmdline| && (s == start || (cmdline[s - 1] == '\n' && cmdline[s] != '\n'))
  }

  /** `b` is where the basename of the token at `s` starts: behind its last slash. */
  ghost predicate Basename(cmdline: string, s: nat, b: nat) {
    && s <= |cmdline| && s <= b <= TokenEnd(cmdline, s)
    && (b == s || cmdline[b - 1] == '/') && forall k :: b <= k < TokenEnd(cmdline, s) ==> cmdline[k] != '/'
  }

  /** The basename between `b` and `e` is `comm`, or extends a `comm` that was cut to 15 characters. */
  predicate IsComm(comm: string, cmdline: string, b: nat, e: nat)
    requires b <= e <= |cmdline|
  {
    comm <= cmdline[b..e] && (|comm| == e - b || |comm| == TASK_COMM_LEN - 1)
  }

  ghost predicate Names(comm: string, cmdline: string, s: nat, b: nat) {
    Basename(cmdline, s, b) && IsComm(comm, cmdline, b, TokenEnd(cmdline, s))
  }

  /** No token from `start` up to `s` is named `comm`. */
  ghost predicate NoneBefore(comm: string, cmdline: string, start: nat, s: nat) {
    forall t: nat, b: nat :: TokenStart(cmdline, start, t) && t < s && Basename(cmdline, t, b) ==> !Names(comm, cmdline, t, b)
  }

  lemma BasenameUnique(cmdline: string, s: nat, b: nat, c: nat)
    requires Basename(cmdline, s, b) && Basename(cmdline, s, c)
    ensures b == c
  {
  }

  /** Where the token starts that the character at `b` belongs to. */
  ghost function TokenOf(cmdline: string, start: nat, b: nat): (t: nat)
    requires start <= b < |cmdline| && forall k :: b <= k < b + 1 ==> cmdline[k] != '\n'
    ensures start <= t <= b && TokenStart(cmdline, start, t) && forall k :: t <= k <= b ==> cmdline[k] != '\n'
  {
    if b == start || cmdline[b - 1] == '\n' then b else TokenOf(cmdline, start, b - 1)
  }

  lemma TokenEndIs(cmdline: string, s: nat, e: nat)
    requires s <= e <= |cmdline| && (e == |cmdline| || cmdline[e] == '\n') && forall k :: s <= k < e ==> cmdline[k] != '\n'
    ensures TokenEnd(cmdline, s) == e
  {
  }

  /** What no token being named `comm` says about a last part of a path, from `b` to `e`. */
  lemma NoneMeans(comm: string, cmdline: string, start: nat, limit: nat, b: nat, e: nat)
    requires NoneBefore(comm, cmdline, start, limit) && start <= b < e <= |cmdline| && b < limit
    requires b == start || cmdline[b - 1] == '/' || cmdline[b - 1] == '\n'
    requires (e == |cmdline| || cmdline[e] == '\n') && forall k :: b <= k < e ==> cmdline[k] != '\n' && cmdline[k] != '/'
    ensures !(comm <= cmdline[b..e] && (|comm| == e - b || |comm| == 15))
  {
    var t := TokenOf(cmdline, start, b);
    TokenEndIs(cmdline, t, e);
    assert b == t || cmdline[b - 1] == '/';
    assert Basename(cmdline, t, b);
  }

  /** Finds the first token whose basename is `comm`. */
  method FindCommInCmdline(comm: string, cmdline: string, cmdlineBasenameStart: int)
    returns (found: bool, commStart: nat, commEnd: nat)
    requires cmdlineBasenameStart <= |cmdline|
    ensures cmdlineBasenameStart < 0 ==> !found
    ensures found ==> exists s :: TokenStart(cmdline, cmdlineBasenameStart, s) && Names(comm, cmdline, s, commStart)
                               && commEnd == TokenEnd(cmdline, s) && NoneBefore(comm, cmdline, cmdlineBasenameStart, s)
    ensures !found && cmdlineBasenameStart >= 0 ==> NoneBefore(comm, cmdline, cmdlineBasenameStart, |cmdline|)
    // the span is the last part of a path, and is the name, or starts with a name of 15 characters
    ensures found ==>
              && cmdlineBasenameStart <= commStart <= commEnd <= |cmdline| && comm <= cmdline[commStart..commEnd]
              && (|comm| == commEnd - commStart || |comm| == 15)
              && (commStart == cmdlineBasenameStart || cmdline[commStart - 1] == '/' || cmdline[commStart - 1] == '\n')
              && (commEnd == |cmdline| || cmdline[commEnd] == '\n')
              && (forall k :: commStart <= k < commEnd ==> cmdline[k] != '\n' && cmdline[k] != '/')
    // nothing before it, or nothing at all, is
    ensures cmdlineBasenameStart >= 0 ==>
              forall b, e {:trigger cmdline[b..e]} :: cmdlineBasenameStart <= b < e <= |cmdline| && (found ==> e < commStart)
                && (b == cmdlineBasenameStart || cmdline[b - 1] == '/' || cmdline[b - 1] == '\n')
                && (e == |cmdline| || cmdline[e] == '\n')
                && (forall k :: b <= k < e ==> cmdline[k] != '\n' && cmdline[k] != '/')
                ==> !(comm <= cmdline[b..e] && (|comm| == e - b || |comm| == 15))
  {
    found, commStart, commEnd := FindToken(comm, cmdline, cmdlineBasenameStart);
    if cmdlineBasenameStart >= 0 {
      ghost var limit: nat := |cmdline|;
      if found {
        limit :| TokenStart(cmdline, cmdlineBasenameStart, limit) && Names(comm, cmdline, limit, commStart)
                 && commEnd == TokenEnd(cmdline, limit) && NoneBefore(comm, cmdline, cmdlineBasenameStart, limit);
      }
      forall b: nat, e: nat | cmdlineBasenameStart <= b < e <= |cmdline| && (found ==> e < commStart)
        && (b == cmdlineBasenameStart || cmdline[b - 1] == '/' || cmdline[b - 1] == '\n')
        && (e == |cmdline| || cmdline[e] == '\n')
        && (forall k :: b <= k < e ==> cmdline[k] != '\n' && cmdline[k] != '/')
        ensures !(comm <= cmdline[b..e] && (|comm| == e - b || |comm| == 15))
      {
        NoneMeans(comm, cmdline, cmdlineBasenameStart, limit, b, e);
      }
    }
  }

  /** The scan itself, token by token. */
  method FindToken(comm: string, cmdline: string, cmdlineBasenameStart: int)
    returns (found: bool, commStart: nat, commEnd: nat)
    requires cmdlineBasenameStart <= |cmdline|
    ensures cmdlineBasenameStart < 0 ==> !found
    ensures found ==> exists s :: TokenStart(cmdline, cmdlineBasenameStart, s) && Names(comm, cmdline, s, commStart)
                               && commEnd == TokenEnd(cmdline, s) && NoneBefore(comm, cmdline, cmdlineBasenameStart, s)
    ensures !found && cmdlineBasenameStart >= 0 ==> NoneBefore(comm, cmdline, cmdlineBasenameStart, |cmdline|)
  {
    found, commStart, commEnd := false, 0, 0;
    if cmdlineBasenameStart < 0 {
      return;
    }
    var token := cmdlineBasenameStart;
    while token < |cmdline|
      invariant cmdlineBasenameStart <= token <= |cmdline|
      invariant token < |cmdline| ==> TokenStart(cmdline, cmdlineBasenameStart, token)
      invariant NoneBefore(comm, cmdline, cmdlineBasenameStart, token)
      decreases |cmdline| - token
    {
      ghost var s := token;
      var tokenBase := token;
      while token < |cmdline| && cmdline[token] != '\n'
        invariant s <= tokenBase <= token <= TokenEnd(cmdline, s)
        invariant tokenBase == s || cmdline[tokenBase - 1] == '/'
        invariant forall k :: tokenBase <= k < token ==> cmdline[k] != '/'
        decreases |cmdline| - token
      {
        if cmdline[token] == '/' {
          tokenBase := token + 1;
        }
        token := token + 1;
      }
      assert token == TokenEnd(cmdline, s) && Basename(cmdline, s, tokenBase);
      var tokenLen := token - tokenBase;
      if (tokenLen == |comm| || (tokenLen > |comm| && |comm| == TASK_COMM_LEN - 1))
         && cmdline[tokenBase..tokenBase + |comm|] == comm {
        assert Names(comm, cmdline, s, tokenBase);
        return true, tokenBase, token;
      }
      assert !Names(comm, cmdline, s, tokenBase);
      ghost var e := token;
      if token < |cmdline| {
        token := token + 1;
        while token < |cmdline| && cmdline[token] == '\n'
          invariant e < token <= |cmdline|
          invariant forall k :: e <= k < token ==> cmdline[k] == '\n'
          decreases |cmdline| - token
        {
          token := token + 1;
        }
      }
      TokenPassed(comm, cmdline, cmdlineBasenameStart, s, tokenBase, token);
    }
  }

  /** Once the token at `s` is known not to be named `comm`, the search may go on behind it. */
  lemma TokenPassed(comm: string, cmdline: string, start: nat, s: nat, base: nat, token: nat)
    requires TokenStart(cmdline, start, s) && NoneBefore(comm, cmdline, start, s)
    requires Basename(cmdline, s, base) && !Names(comm, cmdline, s, base)
    requires TokenEnd(cmdline, s) <= token <= |cmdline| && forall k :: TokenEnd(cmdline, s) <= k < token ==> cmdline[k] == '\n'
    ensures NoneBefore(comm, cmdline, start, token)
  {
    hide IsComm;
    forall t: nat, b: nat | TokenStart(cmdline, start, t) && t < token && Basename(cmdline, t, b)
      ensures !Names(comm, cmdline, t, b)
    {
      if t > s { assert false; }
      if t == s { BasenameUnique(cmdline, s, b, base); }
    }
  }

  // ----- the executable at the front of the command line

  predicate Delimiter(c: char) { c == '\n' || c == ' ' }

  /** The first `m` characters are followed by the end, a newline or a space. */
  predicate Delimited(cmdline: string, m: nat) {
    m <= |cmdline| && (m == |cmdline| || Delimiter(cmdline[m]))
  }

  /** The command line starts with the suffix of `exe` that takes in `b` characters before its basename;
      the suffix is a whole relative path. */
  predicate Fits(cmdline: string, exe: string, exeBaseOffset: nat, b: nat)
    requires exeBaseOffset <= |exe|
  {
    && b < exeBaseOffset && exe[exeBaseOffset - b..] <= cmdline && exe[exeBaseOffset - b - 1] == '/'
    && Delimited(cmdline, b + |exe| - exeBaseOffset)
  }

  /** The last delimiter in `cmdline[1..hi + 1]`, or 0. */
  function LastDelimiter(cmdline: string, hi: int): (d: nat)
    requires hi < |cmdline|
    ensures d == 0 || (d <= hi && Delimiter(cmdline[d]))
    ensures forall k :: d < k <= hi ==> !Delimiter(cmdline[k])
    decreases if hi > 0 then hi else 0
  {
    if hi <= 0 then 0 else if Delimiter(cmdline[hi]) then hi else LastDelimiter(cmdline, hi - 1)
  }

  /** The last position up to `hi` that follows a slash, or 0. */
  function LastComponent(cmdline: string, hi: nat): (c: nat)
    requires hi <= |cmdline|
    ensures c <= hi && (c == 0 || cmdline[c - 1] == '/')
    ensures forall k :: c <= k < hi ==> cmdline[k] != '/'
  {
    if hi == 0 then 0 else if cmdline[hi - 1] == '/' then hi else LastComponent(cmdline, hi - 1)
  }

  /** Where a basename may start that ends at a delimiter before `b`. */
  function Earlier(cmdline: string, b: nat): (c: Option<nat>)
    requires b <= |cmdline|
    ensures c.Some? ==> c.value + 3 <= b
  {
    var d := LastDelimiter(cmdline, b - 2);
    if d == 0 then None else Some(LastComponent(cmdline, d - 1))
  }

  /** All the starts that are tried from `b` on. */
  function Tried(cmdline: string, b: nat): seq<nat>
    requires b <= |cmdline|
    decreases b
  {
    [b] + match Earlier(cmdline, b) case None => [] case Some(c) => Tried(cmdline, c)
  }

  /** `r` is what the first fitting start gives, or 0. */
  ghost predicate FirstFit(cmdline: string, exe: string, exeBaseOffset: nat, bs: seq<nat>, r: int)
    requires exeBaseOffset <= |exe|
  {
    (r == 0 && forall i :: 0 <= i < |bs| ==> !Fits(cmdline, exe, exeBaseOffset, bs[i]))
    || exists k :: 0 <= k < |bs| && Fits(cmdline, exe, exeBaseOffset, bs[k]) && r == bs[k] + |exe| - exeBaseOffset
                && forall i :: 0 <= i < k ==> !Fits(cmdline, exe, exeBaseOffset, bs[i])
  }

  /** A match is a suffix of the executable's path, cut behind a slash, and ends at the end, a newline or a space;
      without a match there is none at any start that was tried. */
  lemma MatchMeans(cmdline: string, exe: string, exeBaseOffset: nat, bs: seq<nat>, r: int)
    requires exeBaseOffset <= |exe| && FirstFit(cmdline, exe, exeBaseOffset, bs, r)
    ensures r > 0 ==>
              && r <= |cmdline| && (r == |cmdline| || cmdline[r] == '\n' || cmdline[r] == ' ')
              && exists s :: 0 < s <= exeBaseOffset && exe[s - 1] == '/' && cmdline[..r] == exe[s..]
    ensures r <= 0 && exeBaseOffset < |exe| ==>
              forall i :: 0 <= i < |bs| && bs[i] < exeBaseOffset && exe[exeBaseOffset - bs[i] - 1] == '/' ==>
                var n := bs[i] + |exe| - exeBaseOffset;
                !(exe[exeBaseOffset - bs[i]..] <= cmdline && (n == |cmdline| || cmdline[n] == '\n' || cmdline[n] == ' '))
  {
    if r <= 0 {
      return;
    }
    var k :| 0 <= k < |bs| && Fits(cmdline, exe, exeBaseOffset, bs[k]) && r == bs[k] + |exe| - exeBaseOffset;
    var s := exeBaseOffset - bs[k];
    assert 0 < s <= exeBaseOffset && exe[s - 1] == '/' && cmdline[..r] == exe[s..];
  }

  lemma EarlierMeans(cmdline: string, b: nat)
    requires b <= |cmdline| && Earlier(cmdline, b).Some?
    ensures var c := Earlier(cmdline, b).value;
            && (c == 0 || cmdline[c - 1] == '/')
            && exists d :: c < d <= b - 2 && (cmdline[d] == '\n' || cmdline[d] == ' ')
                 && (forall j :: d < j <= b - 2 ==> cmdline[j] != '\n' && cmdline[j] != ' ')
                 && (forall j :: c <= j < d - 1 ==> cmdline[j] != '/')
  {
    var d := LastDelimiter(cmdline, b - 2);
    assert cmdline[d] == '\n' || cmdline[d] == ' ';
  }

  /** The last start that is tried has no delimiter before it, but for the character just before and the first. */
  lemma {:induction false} TriedToTheEnd(cmdline: string, b: nat)
    requires b <= |cmdline|
    ensures Tried(cmdline, b) != []
    ensures var last := Tried(cmdline, b)[|Tried(cmdline, b)| - 1];
            last <= b && forall j :: 0 < j <= last - 2 ==> cmdline[j] != '\n' && cmdline[j] != ' '
    decreases b
  {
    hide Delimiter;
    match Earlier(cmdline, b)
    case None =>
      assert Tried(cmdline, b) == [b];
      NoEarlier(cmdline, b);
    case Some(c) =>
      TriedUnfolds(cmdline, b, c);
      TriedToTheEnd(cmdline, c);
  }

  lemma NoEarlier(cmdline: string, b: nat)
    requires b <= |cmdline| && Earlier(cmdline, b) == None
    ensures forall j :: 0 < j <= b - 2 ==> cmdline[j] != '\n' && cmdline[j] != ' '
  {
  }

  lemma TriedUnfolds(cmdline: string, b: nat, c: nat)
    requires b <= |cmdline| && Earlier(cmdline, b) == Some(c)
    ensures c <= |cmdline| && Tried(cmdline, b) == [b] + Tried(cmdline, c)
    ensures Tried(cmdline, c) != [] && Tried(cmdline, c)[0] == c
  {
  }

  /** Every retry starts earlier, at the front or behind a slash: at the last component before the last delimiter
      in between. */
  lemma {:induction false} TriedStarts(cmdline: string, b: nat, k: nat)
    requires b <= |cmdline| && 1 <= k < |Tried(cmdline, b)|
    ensures var bs := Tried(cmdline, b);
            && bs[k] < bs[k - 1] <= b && (bs[k] == 0 || cmdline[bs[k] - 1] == '/')
            && exists d :: bs[k] < d <= bs[k - 1] - 2 && (cmdline[d] == '\n' || cmdline[d] == ' ')
                 && (forall j :: d < j <= bs[k - 1] - 2 ==> cmdline[j] != '\n' && cmdline[j] != ' ')
                 && (forall j :: bs[k] <= j < d - 1 ==> cmdline[j] != '/')
  {
    hide Earlier;
    var c := Earlier(cmdline, b).value;
    EarlierMeans(cmdline, b);
    TriedUnfolds(cmdline, b, c);
    hide Tried;
    if k > 1 { TriedStarts(cmdline, c, k - 1); }
  }

  /** Whether the command line fits at `b`: the basename forwards, then what precedes it backwards. */
  method FitsAt(cmdline: string, b: nat, exe: string, exeBaseOffset: nat) returns (fits: bool)
    requires b <= |cmdline| && exeBaseOffset <= |exe|
    ensures fits == Fits(cmdline, exe, exeBaseOffset, b)
  {
    var exeBaseLen := |exe| - exeBaseOffset;
    var matchLen := exeBaseLen + b;
    fits := false;
    if b < exeBaseOffset && exe[exeBaseOffset..] <= cmdline[b..] {
      if matchLen == |cmdline| || Delimiter(cmdline[matchLen]) {
        var i, j: int := b - 1, exeBaseOffset - 1;
        while i >= 0 && j >= 0 && cmdline[i] == exe[j]
          invariant -1 <= i < b && j == i + exeBaseOffset - b
          invariant forall k :: i < k < b ==> cmdline[k] == exe[k + exeBaseOffset - b]
          decreases i
        {
          i := i - 1;
          j := j - 1;
        }
        fits := i < 0 && j >= 0 && exe[j] == '/';
        var s := exeBaseOffset - b;
        if i < 0 {
          assert forall k :: 0 <= k < |exe| - s ==> cmdline[k] == exe[s..][k];
          assert exe[s..] == cmdline[..matchLen];
        } else {
          assert exe[s..][i] != cmdline[i];
        }
      }
    }
    FitsNeeds(cmdline, exe, exeBaseOffset, b);
  }

  lemma FitsNeeds(cmdline: string, exe: string, exeBaseOffset: nat, b: nat)
    requires b <= |cmdline| && exeBaseOffset <= |exe|
    ensures Fits(cmdline, exe, exeBaseOffset, b) ==> exe[exeBaseOffset..] <= cmdline[b..]
  {
    if Fits(cmdline, exe, exeBaseOffset, b) {
      var s, m := exeBaseOffset - b, |exe| - exeBaseOffset + b;
      assert exe[s..] == cmdline[..m];
      assert exe[exeBaseOffset..] == exe[s..][b..] == cmdline[..m][b..];
      assert cmdline[..m][b..] == cmdline[b..][..m - b];
    }
  }

  /** How many characters at the front of the command line are the executable. */
  method MatchCmdlinePrefixWithExeSuffix(cmdline: string, cmdlineBaseOffset: nat, exe: string, exeBaseOffset: nat)
    returns (matchLen: nat)
    requires cmdlineBaseOffset <= |cmdline| && exeBaseOffset <= |exe|
    ensures cmdline != [] && cmdline[0] == '/' ==>
              matchLen == if exe <= cmdline && (|exe| == |cmdline| || cmdline[|exe|] == '\n' || cmdline[|exe|] == ' ') then |exe| else 0
    ensures cmdline == [] || cmdline[0] != '/' ==>
              FirstFit(cmdline, exe, exeBaseOffset, Tried(cmdline, cmdlineBaseOffset), matchLen)
  {
    if |cmdline| > 0 && cmdline[0] == '/' {
      matchLen := |exe|;
      if exe <= cmdline {
        if matchLen == |cmdline| || Delimiter(cmdline[matchLen]) {
          return matchLen;
        }
      }
      return 0;
    }
    matchLen := MatchRelative(cmdline, cmdlineBaseOffset, exe, exeBaseOffset);
  }

  /** The retrying loop for a relative command line. */
  method MatchRelative(cmdline: string, cmdlineBaseOffset: nat, exe: string, exeBaseOffset: nat) returns (matchLen: nat)
    requires cmdlineBaseOffset <= |cmdline| && exeBaseOffset <= |exe|
    ensures FirstFit(cmdline, exe, exeBaseOffset, Tried(cmdline, cmdlineBaseOffset), matchLen)
  {
    hide Fits, Earlier, Tried, FirstFit;
    var base: int := cmdlineBaseOffset;
    ghost var all, tried: seq<nat> := Tried(cmdline, cmdlineBaseOffset), [];
    while true
      invariant 0 <= base <= |cmdline| && all == tried + Tried(cmdline, base)
      invariant forall i :: 0 <= i < |tried| ==> !Fits(cmdline, exe, exeBaseOffset, tried[i])
      decreases base
    {
      FitNext(cmdline, exe, exeBaseOffset, tried, base);
      var fits := FitsAt(cmdline, base, exe, exeBaseOffset);
      if fits {
        return base + |exe| - exeBaseOffset;
      }
      tried := tried + [base];
      var delimFound;
      delimFound, base := StepBack(cmdline, base);
      if !delimFound {
        return 0;
      }
    }
  }

  /** What trying `base` after the starts `tried` settles. */
  lemma FitNext(cmdline: string, exe: string, exeBaseOffset: nat, tried: seq<nat>, base: nat)
    requires base <= |cmdline| && exeBaseOffset <= |exe|
    requires forall i :: 0 <= i < |tried| ==> !Fits(cmdline, exe, exeBaseOffset, tried[i])
    ensures var all := tried + Tried(cmdline, base);
            if Fits(cmdline, exe, exeBaseOffset, base) then
              FirstFit(cmdline, exe, exeBaseOffset, all, base + |exe| - exeBaseOffset)
            else if Earlier(cmdline, base) == None then FirstFit(cmdline, exe, exeBaseOffset, all, 0)
            else all == (tried + [base]) + Tried(cmdline, Earlier(cmdline, base).value)
  {
    hide Fits, Earlier;
    var all := tried + Tried(cmdline, base);
    assert all[|tried|] == base && forall i :: 0 <= i < |tried| ==> all[i] == tried[i];
  }

  /** The previous place where a basename may start. */
  method StepBack(cmdline: string, b: nat) returns (delimFound: bool, base: int)
    requires b <= |cmdline|
    ensures delimFound == Earlier(cmdline, b).Some?
    ensures delimFound ==> base == Earlier(cmdline, b).value
  {
    delimFound := false;
    base := b - 2;
    ghost var d := LastDelimiter(cmdline, b - 2);
    while base > 0
      invariant base <= b - 2 && (base >= 0 || b < 2)
      invariant !delimFound ==> LastDelimiter(cmdline, base) == d
      invariant delimFound ==> 0 < d && base < d && LastComponent(cmdline, base) == LastComponent(cmdline, d - 1)
      decreases base
    {
      if delimFound {
        if cmdline[base - 1] == '/' {
          break;
        }
      } else if cmdline[base] == ' ' || cmdline[base] == '\n' {
        delimFound := true;
      }
      base := base - 1;
    }
  }
}
