/** The number parsers of linux/LinuxProcessList.c. */
module NumberParser {

  const TWO64: nat := 0x1_0000_0000_0000_0000

  /** The value of digits in a base. */
  function Positional(digits: seq<nat>, base: nat): nat {
    if digits == [] then 0 else Positional(digits[..|digits| - 1], base) * base + digits[|digits| - 1]
  }

  /** How many characters may be read from a text of length `n`: a limit of 0 or less is none. */
  function Limit(maxlen: int, n: nat): nat {
    if maxlen > 0 && maxlen < n then maxlen else n
  }

  /** The longest prefix of `s` that is accepted throughout and within the limit. */
  ghost predicate LongestPrefix(s: seq<bv8>, maxlen: int, accepts: bv8 -> bool, n: nat) {
    && n <= Limit(maxlen, |s|)
    && (forall k :: 0 <= k < n ==> accepts(s[k]))
    && (n < Limit(maxlen, |s|) ==> !accepts(s[n]))
  }

  predicate IsDec(c: bv8) { '0' as bv8 <= c <= '9' as bv8 }

  predicate IsHex(c: bv8) {
    IsDec(c) || 'A' as bv8 <= c <= 'F' as bv8 || 'a' as bv8 <= c <= 'f' as bv8
  }

  /** A limit of 0 or less is none; otherwise as many characters are read at most. */
  lemma DecPrefix(s: seq<bv8>, maxlen: int, n: nat)
    requires LongestPrefix(s, maxlen, IsDec, n)
    ensures n <= |s| && (maxlen > 0 ==> n <= maxlen) && forall k :: 0 <= k < n ==> '0' as bv8 <= s[k] <= '9' as bv8
    ensures n < |s| && (maxlen > 0 ==> n < maxlen) ==> !('0' as bv8 <= s[n] <= '9' as bv8)
  {
  }

  lemma HexPrefix(s: seq<bv8>, maxlen: int, n: nat)
    requires LongestPrefix(s, maxlen, IsHex, n)
    ensures n <= |s| && (maxlen > 0 ==> n <= maxlen)
    ensures forall k :: 0 <= k < n ==>
              '0' as bv8 <= s[k] <= '9' as bv8 || 'A' as bv8 <= s[k] <= 'F' as bv8 || 'a' as bv8 <= s[k] <= 'f' as bv8
    ensures n < |s| && (maxlen > 0 ==> n < maxlen) ==>
              !('0' as bv8 <= s[n] <= '9' as bv8 || 'A' as bv8 <= s[n] <= 'F' as bv8 || 'a' as bv8 <= s[n] <= 'f' as bv8)
  {
  }

  /** The digit a character stands for. */
  function HexDigit(c: bv8): bv8 {
    if c <= '9' as bv8 then c - '0' as bv8
    else if c <= 'F' as bv8 then c - 'A' as bv8 + 10
    else c - 'a' as bv8 + 10
  }

  function Digits(s: seq<bv8>): (r: seq<nat>)
    ensures |r| == |s| && forall k :: 0 <= k < |s| ==> r[k] == HexDigit(s[k]) as nat
  {
    seq(|s|, k requires 0 <= k < |s| => HexDigit(s[k]) as nat)
  }

  // ----- the mask-and-xor form

  /** The two tests before a nibble is taken. */
  predicate Accepted(c: bv8) {
    var nibble: bv64 := c as bv64;
    && (0x03FF_007E as bv64) & ((1 as bv64) << (nibble & 0x1F)) != 0
    && nibble >= 0x30 && (nibble & !0x20) <= 0x46
  }

  /** Upper-cases, switches letters and digits, and keeps the low four bits. */
  function Nibble(c: bv8): bv64 {
    var nibble: bv64 := c as bv64;
    var letter: bv64 := if nibble & 0x40 != 0 then 0x41 - 0x39 - 1 else 0;
    (((nibble & !0x20) ^ 0x10) - letter) & 0x0f
  }

  /** The bit tricks accept exactly the hexadecimal digits, and compute their values. */
  lemma BitTricks(c: bv8)
    ensures Accepted(c) <==> IsHex(c)
    ensures IsHex(c) ==> Nibble(c) == HexDigit(c) as bv64
    ensures Accepted(c) <==> '0' as bv8 <= c <= '9' as bv8 || 'A' as bv8 <= c <= 'F' as bv8 || 'a' as bv8 <= c <= 'f' as bv8
    ensures '0' as bv8 <= c <= '9' as bv8 ==> Nibble(c) == (c - '0' as bv8) as bv64
    ensures 'A' as bv8 <= c <= 'F' as bv8 ==> Nibble(c) == (c - 'A' as bv8 + 10) as bv64
    ensures 'a' as bv8 <= c <= 'f' as bv8 ==> Nibble(c) == (c - 'a' as bv8 + 10) as bv64
  {
  }

  /** Digits count from the left, each place for a power of the base. */
  lemma {:induction false} PositionalHead(d: nat, digits: seq<nat>, base: nat)
    ensures Positional([d] + digits, base) == d * Power(base, |digits|) + Positional(digits, base)
  {
    if digits == [] {
      assert [d] + digits == [d] && [d][..0] == [];
    } else {
      var front, n := digits[..|digits| - 1], |digits| - 1;
      assert ([d] + digits)[..n + 1] == [d] + front;
      PositionalHead(d, front, base);
      assert (d * Power(base, n) + Positional(front, base)) * base == d * (Power(base, n) * base) + Positional(front, base) * base;
    }
  }

  lemma HexDigitSmall(c: bv8)
    requires IsHex(c)
    ensures HexDigit(c) < 16 && (IsDec(c) ==> HexDigit(c) < 10)
  {
  }

  lemma ModAdd(x: int, q: int)
    ensures (x + q * TWO64) % TWO64 == x % TWO64
  {
  }

  /** Wrapping at every step is wrapping at the end. */
  lemma WrapStep(value: nat, wrapped: nat, base: nat, digit: nat)
    requires wrapped == value % TWO64
    ensures (wrapped * base % TWO64 + digit) % TWO64 == (value * base + digit) % TWO64
  {
    var q, p := value / TWO64, wrapped * base / TWO64;
    assert value * base == wrapped * base + (q * base) * TWO64;
    assert wrapped * base == wrapped * base % TWO64 + p * TWO64;
    assert value * base + digit == (wrapped * base % TWO64 + digit) + (p + q * base) * TWO64;
    ModAdd(wrapped * base % TWO64 + digit, p + q * base);
  }

  lemma NextDigit(s: seq<bv8>, n: nat, base: nat)
    requires n < |s|
    ensures Positional(Digits(s[..n + 1]), base) == Positional(Digits(s[..n]), base) * base + HexDigit(s[n]) as nat
  {
    hide HexDigit;
    assert s[..n + 1][..n] == s[..n];
    assert Digits(s[..n + 1])[..n] == Digits(s[..n]);
  }

  /** `fast_strtoull_dec`: the value read, and how far the cursor moved. */
  method FastStrtoullDec(s: seq<bv8>, maxlen: int) returns (result: nat, n: nat)
    ensures LongestPrefix(s, maxlen, IsDec, n)
    ensures result == Positional(Digits(s[..n]), 10) % TWO64
  {
    hide HexDigit, Positional, Digits, IsDec;
    result, n := 0, 0;
    EmptyNumber(s, 10);
    var left := if maxlen == 0 then -1 else maxlen;
    while true
      invariant n <= Limit(maxlen, |s|) && left == (if maxlen == 0 then -1 else maxlen) - n
      invariant forall k :: 0 <= k < n ==> IsDec(s[k])
      invariant result == Positional(Digits(s[..n]), 10) % TWO64
      decreases |s| - n
    {
      var more := left != 0;
      left := left - 1;
      if n < |s| { DecDigit(s[n]); }
      if !(more && n < |s| && '0' as bv8 <= s[n] <= '9' as bv8) {
        break;
      }
      NextDigit(s, n, 10);
      WrapStep(Positional(Digits(s[..n]), 10), result, 10, HexDigit(s[n]) as nat);
      result := result * 10 % TWO64;
      result := (result + (s[n] - '0' as bv8) as nat) % TWO64;
      n := n + 1;
    }
  }

  lemma DecDigit(c: bv8)
    ensures IsDec(c) <==> '0' as bv8 <= c <= '9' as bv8
    ensures IsDec(c) ==> HexDigit(c) == c - '0' as bv8
  {
  }

  lemma EmptyNumber(s: seq<bv8>, base: nat)
    ensures Positional(Digits(s[..0]), base) == 0
  {
  }

  /** `fast_strtoull_hex`. */
  method FastStrtoullHex(s: seq<bv8>, maxlen: int) returns (result: nat, n: nat)
    ensures LongestPrefix(s, maxlen, IsHex, n)
    ensures result == Positional(Digits(s[..n]), 16) % TWO64
  {
    hide HexDigit, Positional, Digits, Accepted, Nibble, IsHex;
    result, n := 0, 0;
    EmptyNumber(s, 16);
    var left := if maxlen == 0 then -1 else maxlen;
    while left != 0
      invariant n <= Limit(maxlen, |s|) && left == (if maxlen == 0 then -1 else maxlen) - n
      invariant forall k :: 0 <= k < n ==> IsHex(s[k])
      invariant result == Positional(Digits(s[..n]), 16) % TWO64
      decreases |s| - n
    {
      left := left - 1;
      if n == |s| || !Accepted(s[n]) {
        if n < |s| { BitTricks(s[n]); }
        break;
      }
      BitTricks(s[n]);
      NibbleValue(s[n]);
      NextDigit(s, n, 16);
      WrapStep(Positional(Digits(s[..n]), 16), result, 16, HexDigit(s[n]) as nat);
      result := result * 16 % TWO64;
      result := (result + Nibble(s[n]) as nat) % TWO64;
      n := n + 1;
    }
  }

  lemma NibbleValue(c: bv8)
    requires IsHex(c)
    ensures Nibble(c) as nat == HexDigit(c) as nat
  {
    BitTricks(c);
  }

  function Power(base: nat, n: nat): nat { if n == 0 then 1 else Power(base, n - 1) * base }

  lemma {:induction false} ShiftedBelow(p: nat, w: nat, base: nat, digit: nat)
    requires p < w && digit < base
    ensures p * base + digit < w * base
  {
    if w == p + 1 {
      assert w * base == p * base + base;
    } else {
      ShiftedBelow(p, w - 1, base, digit);
      assert w * base == (w - 1) * base + base;
    }
  }

  lemma {:induction false} PositionalBound(digits: seq<nat>, base: nat)
    requires base > 0 && forall k :: 0 <= k < |digits| ==> digits[k] < base
    ensures Positional(digits, base) < Power(base, |digits|)
  {
    if digits != [] {
      var front := digits[..|digits| - 1];
      PositionalBound(front, base);
      ShiftedBelow(Positional(front, base), Power(base, |front|), base, digits[|digits| - 1]);
    }
  }

  lemma {:induction false} PowerGrows(base: nat, m: nat, n: nat)
    requires base > 0 && m <= n
    ensures 0 < Power(base, m) <= Power(base, n)
  {
    if m < n {
      PowerGrows(base, m, n - 1);
      assert Power(base, n - 1) * base >= Power(base, n - 1) * 1;
    } else if m > 0 {
      PowerGrows(base, m - 1, n - 1);
      assert Power(base, n - 1) * base >= Power(base, n - 1) * 1;
    }
  }

  /** Up to 16 hexadecimal digits, as in an address of /proc/pid/maps, are read without loss. */
  lemma SixteenDigitsExact(s: seq<bv8>)
    requires |s| <= 16 && forall k :: 0 <= k < |s| ==> IsHex(s[k])
    ensures Positional(Digits(s), 16) % TWO64 == Positional(Digits(s), 16)
  {
    hide HexDigit, Positional;
    forall k | 0 <= k < |s| ensures Digits(s)[k] < 16 { HexDigitSmall(s[k]); }
    PositionalBound(Digits(s), 16);
    PowerGrows(16, |s|, 16);
    assert Power(16, 4) == 0x1_0000;
    assert Power(16, 8) == 0x1_0000_0000;
    assert Power(16, 16) == TWO64;
  }
}
