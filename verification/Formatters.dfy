/** The fixed-width number columns of Process.c. A column is a sequence of pieces of text, one for each
    colour; the readers below say what a user takes the text to mean. */
module Formatters {
  import opened Options
  import opened XUtils
  import opened NumberParser

  const ULLONG_MAX: nat := TWO64 - 1

  const ONE_K := 1024
  const ONE_M := ONE_K * ONE_K
  const ONE_G := ONE_M * ONE_K
  const ONE_T := ONE_G * ONE_K
  const ONE_P := ONE_T * ONE_K

  const ONE_DECIMAL_K := 1000
  const ONE_DECIMAL_M := 1_000_000
  const ONE_DECIMAL_G := 1_000_000_000
  const ONE_DECIMAL_T := 1_000_000_000_000

  /** `n` right-aligned, as `%*llu` and `%0*llu` print it. */
  function Pad(n: nat, width: nat, fill: char): string {
    seq(if |PrintNat(n)| < width then width - |PrintNat(n)| else 0, _ => fill) + PrintNat(n)
  }

  function Text(pieces: seq<string>): string {
    if pieces == [] then "" else pieces[0] + Text(pieces[1..])
  }

  /** The number that all the digits of a text make together. */
  function Number(text: string, number: nat): nat {
    if text == "" then number
    else Number(text[1..], if Digit(text[0]) then number * 10 + (text[0] as int - '0' as int) else number)
  }

  // ----- padding

  lemma {:induction false} PrintNatFits(n: nat, width: nat)
    requires width >= 1 && n < Power(10, width)
    ensures |PrintNat(n)| <= width
  {
    if n >= 10 {
      assert Power(10, 1) == 10;
      PrintNatFits(n / 10, width - 1);
    }
  }

  lemma PadFits(n: nat, width: nat, fill: char)
    requires width >= 1 && n < Power(10, width)
    ensures |Pad(n, width, fill)| == width
  {
    PrintNatFits(n, width);
  }

  lemma PadChars(n: nat, width: nat, fill: char)
    ensures forall k :: 0 <= k < |Pad(n, width, fill)| ==> Digit(Pad(n, width, fill)[k]) || Pad(n, width, fill)[k] == fill
  {
  }

  lemma {:induction false} NumberAppend(a: string, b: string, number: nat)
    ensures Number(a + b, number) == Number(b, Number(a, number))
  {
    if a == "" {
      assert a + b == b;
    } else {
      assert (a + b)[1..] == a[1..] + b;
      NumberAppend(a[1..], b, if Digit(a[0]) then number * 10 + (a[0] as int - '0' as int) else number);
    }
  }

  /** Digits shift what was read before by as many places. */
  lemma {:induction false} NumberShift(s: string, number: nat)
    requires forall k :: 0 <= k < |s| ==> Digit(s[k])
    ensures Number(s, number) == number * Power(10, |s|) + Number(s, 0)
  {
    if s != "" {
      var front, d := s[..|s| - 1], s[|s| - 1];
      assert s == front + [d];
      NumberShift(front, number);
      NumberAppend(front, [d], number);
      NumberAppend(front, [d], 0);
      OneDigit(d, Number(front, number));
      OneDigit(d, Number(front, 0));
      assert (number * Power(10, |front|)) * 10 == number * Power(10, |s|);
    }
  }

  lemma OneDigit(d: char, number: nat)
    requires Digit(d)
    ensures Number([d], number) == number * 10 + (d as int - '0' as int)
  {
    assert [d][1..] == "";
  }

  function Values(s: string): (r: seq<nat>)
    requires forall k :: 0 <= k < |s| ==> '0' <= s[k] <= '9'
    ensures |r| == |s| && forall k :: 0 <= k < |s| ==> r[k] == s[k] as int - '0' as int
  {
    seq(|s|, k requires 0 <= k < |s| => s[k] as int - '0' as int)
  }

  /** A number is printed in decimal digits, without a zero in front. */
  lemma {:induction false} PrintedDigits(n: nat)
    ensures forall k :: 0 <= k < |PrintNat(n)| ==> '0' <= PrintNat(n)[k] <= '9'
    ensures Positional(Values(PrintNat(n)), 10) == n
    ensures n >= 10 ==> PrintNat(n)[0] != '0'
  {
    var s := PrintNat(n);
    assert forall k :: 0 <= k < |s| ==> Digit(s[k]);
    if n >= 10 {
      PrintedDigits(n / 10);
      assert Values(s)[..|s| - 1] == Values(PrintNat(n / 10));
    } else {
      assert Values(s)[..0] == [];
    }
  }

  lemma {:induction false} NumberPrinted(n: nat)
    ensures Number(PrintNat(n), 0) == n
  {
    if n < 10 {
      OneDigit(n as char + '0', 0);
    } else {
      NumberPrinted(n / 10);
      NumberAppend(PrintNat(n / 10), [(n % 10) as char + '0'], 0);
      OneDigit((n % 10) as char + '0', n / 10);
    }
  }

  lemma {:induction false} NumberFill(k: nat, fill: char)
    requires fill == '0' || fill == ' '
    ensures Number(seq(k, _ => fill), 0) == 0
  {
    if k > 0 {
      var s := seq(k, _ => fill);
      assert s[1..] == seq(k - 1, _ => fill);
      NumberFill(k - 1, fill);
    }
  }

  /** Reading what was padded: with spaces from nothing, with zeros behind other digits. */
  lemma NumberPad(n: nat, width: nat, fill: char, number: nat)
    requires fill == '0' || (fill == ' ' && number == 0)
    requires fill == '0' ==> width >= 1 && n < Power(10, width)
    ensures Number(Pad(n, width, fill), number) == if fill == '0' then number * Power(10, width) + n else n
  {
    var k := if |PrintNat(n)| < width then width - |PrintNat(n)| else 0;
    NumberAppend(seq(k, _ => fill), PrintNat(n), 0);
    NumberFill(k, fill);
    NumberPrinted(n);
    if fill == '0' {
      PadChars(n, width, fill);
      PadFits(n, width, fill);
      NumberShift(Pad(n, width, fill), number);
    }
  }

  lemma PowersOfTen()
    ensures Power(10, 1) == 10 && Power(10, 2) == 100 && Power(10, 3) == 1000 && Power(10, 4) == 10000
    ensures Power(10, 5) == 100000 && Power(10, 11) == 100000000000
  {
    assert Power(10, 6) == 1000000 && Power(10, 11) == 100000000000 by {
      assert Power(10, 5) == 100000;
      assert Power(10, 8) == 100000000;
    }
  }

  // ----- bytes

  /** The bytes that one step of the last digit shown stands for. */
  function BytesUnit(text: string): nat {
    if |text| < 2 then ONE_K
    else match text[|text| - 2]
      case 'M' => ONE_M
      case 'G' => if '.' in text then 100 * ONE_M else ONE_G
      case 'T' => if '.' in text then 100 * ONE_G else ONE_T
      case _ => ONE_K
  }

  /** A column of 6 characters whose digits are `digits`, in steps of `unit` bytes. */
  ghost predicate ShowsBytes(pieces: seq<string>, digits: nat, unit: nat) {
    |Text(pieces)| == 6 && Number(Text(pieces), 0) == digits && BytesUnit(Text(pieces)) == unit
  }

  /** What is shown is at most the true value, and less than one step below it. */
  ghost predicate Brackets(bytes: nat, pieces: seq<string>, digits: nat, unit: nat) {
    ShowsBytes(pieces, digits, unit) && digits * unit <= bytes < (digits + 1) * unit
  }

  function Suffix(unit: char): string { if unit == ' ' then " " else [unit] + " " }

  function PlainUnit(unit: char): nat {
    match unit case 'M' => ONE_M case 'G' => ONE_G case 'T' => ONE_T case _ => ONE_K
  }

  lemma NumberSuffix(text: string, suffix: string)
    requires |suffix| <= 2 && forall k :: 0 <= k < |suffix| ==> !Digit(suffix[k])
    ensures Number(text + suffix, 0) == Number(text, 0)
  {
    NumberAppend(text, suffix, 0);
    NumberNothing(suffix, Number(text, 0));
  }

  lemma {:induction false} NumberNothing(s: string, number: nat)
    requires forall k :: 0 <= k < |s| ==> !Digit(s[k])
    ensures Number(s, number) == number
  {
    if s != "" { NumberNothing(s[1..], number); }
  }

  lemma TextOf(a: string, b: string, c: string)
    ensures Text([a]) == a && Text([a, b]) == a + b && Text([a, b, c]) == a + b + c
  {
    assert [a][1..] == [] && [a, b][1..] == [b] && [b][1..] == [] && [a, b, c][1..] == [b, c] && [b, c][1..] == [c] && [c][1..] == [];
    assert Text([a]) == a && Text([b]) == b && Text([c]) == c;
    assert Text([b, c]) == b + c && a + (b + c) == a + b + c;
  }

  /** The unit of a text without a point. */
  lemma UnitOf(body: string, unit: char)
    requires body != "" && unit in " MGT"
    requires forall k :: 0 <= k < |body| ==> Digit(body[k]) || body[k] == ' '
    ensures BytesUnit(body + Suffix(unit)) == PlainUnit(unit)
  {
    var text := body + Suffix(unit);
    assert forall k :: 0 <= k < |text| ==> text[k] != '.';
  }

  lemma PlainShows(n: nat, width: nat, unit: char)
    requires unit in " MGT" && width + |Suffix(unit)| == 6 && n < Power(10, width)
    ensures ShowsBytes([Pad(n, width, ' ') + Suffix(unit)], n, PlainUnit(unit))
  {
    hide Pad, Number, BytesUnit;
    TextOf(Pad(n, width, ' ') + Suffix(unit), "", "");
    PadFits(n, width, ' ');
    PadChars(n, width, ' ');
    NumberPad(n, width, ' ', 0);
    NumberSuffix(Pad(n, width, ' '), Suffix(unit));
    UnitOf(Pad(n, width, ' '), unit);
  }

  lemma SplitShows(a: nat, b: nat, width: nat, unit: char)
    requires unit in " MGT" && width >= 1 && width + 3 + |Suffix(unit)| == 6 && a < Power(10, width) && b < 1000
    ensures ShowsBytes([Pad(a, width, ' '), Pad(b, 3, '0') + Suffix(unit)], a * 1000 + b, PlainUnit(unit))
  {
    hide Pad, Number, BytesUnit;
    var h, t := Pad(a, width, ' '), Pad(b, 3, '0');
    PowersOfTen();
    TextOf(h, t + Suffix(unit), "");
    assert h + (t + Suffix(unit)) == h + t + Suffix(unit);
    PadFits(a, width, ' ');
    PadFits(b, 3, '0');
    PadChars(a, width, ' ');
    PadChars(b, 3, '0');
    NumberPad(a, width, ' ', 0);
    NumberPad(b, 3, '0', a);
    NumberAppend(h, t, 0);
    NumberSuffix(h + t, Suffix(unit));
    UnitOf(h + t, unit);
  }

  lemma PointShows(a: nat, b: nat, unit: char)
    requires (unit == 'G' || unit == 'T') && 10 <= a < 100 && b < 10
    ensures ShowsBytes([Pad(a, 2, ' '), "." + Pad(b, 1, ' '), Suffix(unit)], a * 10 + b,
                       if unit == 'G' then 100 * ONE_M else 100 * ONE_G)
  {
    hide Pad, Number;
    var h, t := Pad(a, 2, ' '), Pad(b, 1, '0');
    PowersOfTen();
    SameDigit(b);
    TextOf(h, "." + t, Suffix(unit));
    PadFits(a, 2, ' ');
    PadFits(b, 1, '0');
    NumberPad(a, 2, ' ', 0);
    NumberPad(b, 1, '0', a);
    NumberAppend(h, ".", 0);
    NumberPoint(a);
    NumberAppend(h + ".", t, 0);
    NumberSuffix(h + "." + t, Suffix(unit));
    var text := h + ("." + t) + Suffix(unit);
    assert text == h + "." + t + Suffix(unit);
    assert text[2] == '.';
  }

  lemma SameDigit(b: nat)
    requires b < 10
    ensures Pad(b, 1, ' ') == Pad(b, 1, '0') == PrintNat(b)
  {
  }

  lemma NumberPoint(number: nat)
    ensures Number(".", number) == number
  {
    assert "."[1..] == "";
  }

  /** Dividing twice brackets the value as dividing once would. */
  lemma StepsBracket(bytes: nat, scale: nat)
    requires scale > 0
    ensures var n := bytes / ONE_K / scale; n * (ONE_K * scale) <= bytes < (n + 1) * (ONE_K * scale)
  {
    var k := bytes / ONE_K;
    var n := k / scale;
    assert n * scale <= k < n * scale + scale;
    assert n * (ONE_K * scale) == (n * scale) * ONE_K;
    assert (n + 1) * (ONE_K * scale) == (n * scale + scale) * ONE_K;
  }

  lemma PlainBrackets(bytes: nat, n: nat, width: nat, unit: char)
    requires unit in " MGT" && width + |Suffix(unit)| == 6 && n < Power(10, width)
    requires n == bytes / ONE_K / (PlainUnit(unit) / ONE_K)
    ensures Brackets(bytes, [Pad(n, width, ' ') + Suffix(unit)], n, PlainUnit(unit))
  {
    PlainShows(n, width, unit);
    StepsBracket(bytes, PlainUnit(unit) / ONE_K);
  }

  lemma SplitBrackets(bytes: nat, n: nat, width: nat, unit: char)
    requires unit in " MGT" && width >= 1 && width + 3 + |Suffix(unit)| == 6 && n / 1000 < Power(10, width)
    requires n == bytes / ONE_K / (PlainUnit(unit) / ONE_K)
    ensures Brackets(bytes, [Pad(n / 1000, width, ' '), Pad(n % 1000, 3, '0') + Suffix(unit)], n, PlainUnit(unit))
  {
    SplitShows(n / 1000, n % 1000, width, unit);
    StepsBracket(bytes, PlainUnit(unit) / ONE_K);
  }

  lemma PointBrackets(bytes: nat, n: nat, unit: char)
    requires (unit == 'G' || unit == 'T') && 100 <= n < 1000
    requires n == bytes / ONE_K / (if unit == 'G' then 100 * ONE_K else 100 * ONE_M)
    ensures Brackets(bytes, [Pad(n / 10, 2, ' '), "." + Pad(n % 10, 1, ' '), Suffix(unit)], n,
                     if unit == 'G' then 100 * ONE_M else 100 * ONE_G)
  {
    PointShows(n / 10, n % 10, unit);
    StepsBracket(bytes, if unit == 'G' then 100 * ONE_K else 100 * ONE_M);
  }

  lemma Units()
    ensures PlainUnit(' ') == ONE_K && PlainUnit('M') == ONE_M && PlainUnit('G') == ONE_G && PlainUnit('T') == ONE_T
    ensures |Suffix(' ')| == 1 && |Suffix('M')| == |Suffix('G')| == |Suffix('T')| == 2
  {
  }

  /** The nearest double of a number below 2^54, ties to the even mantissa. */
  function ToDouble(n: nat): nat {
    if n < 0x20_0000_0000_0000 || n % 2 == 0 then n else if n / 2 % 2 == 0 then n - 1 else n + 1
  }

  /** `x / y` to the nearest whole, ties to even: how `%.1lf` prints ten times its value. */
  function Nearest(x: nat, y: nat): nat
    requires y > 0
  {
    var q, r := x / y, x % y;
    if 2 * r < y || (2 * r == y && q % 2 == 0) then q else q + 1
  }

  lemma NearestNear(x: nat, y: nat)
    requires y > 0
    ensures 0 <= 2 * (Nearest(x, y) * y - x) + y <= 2 * y
  {
    var q, r := x / y, x % y;
    assert x == q * y + r;
    assert (q + 1) * y == q * y + y;
  }

  /** A column that shows tenths of petabytes, in 6 characters below 100 of them. */
  ghost predicate ShowsTenths(pieces: seq<string>, tenths: nat) {
    var text := Text(pieces);
    && Number(text, 0) == tenths && |text| >= 6 && text[|text| - 4] == '.' && text[|text| - 2..] == "P "
    && (tenths < 1000 ==> |text| == 6)
  }

  /** What is shown is the nearest tenth of a petabyte, up to the bytes below a kilobyte and the rounding of a double. */
  ghost predicate NearPetabytes(bytes: nat, pieces: seq<string>, tenths: nat) {
    ShowsTenths(pieces, tenths) && -(ONE_P / 2 + 20 * ONE_K) <= tenths * ONE_P - 10 * bytes <= ONE_P / 2 + 20 * ONE_K
  }

  lemma TenthsShow(tenths: nat)
    ensures ShowsTenths([Pad(tenths / 10, 2, ' ') + "." + PrintNat(tenths % 10) + "P "], tenths)
  {
    hide Pad, Number;
    PowersOfTen();
    var a, b := tenths / 10, tenths % 10;
    var h, t := Pad(a, 2, ' '), Pad(b, 1, '0');
    SameDigit(b);
    PadFits(b, 1, '0');
    PadWidth(a, 2);
    NumberPad(a, 2, ' ', 0);
    NumberPad(b, 1, '0', a);
    NumberAppend(h, ".", 0);
    NumberPoint(a);
    NumberAppend(h + ".", t, 0);
    NumberSuffix(h + "." + t, "P ");
    TextOf(h + "." + t + "P ", "", "");
    if tenths < 1000 { PadFits(a, 2, ' '); }
  }

  lemma PadWidth(n: nat, width: nat)
    ensures |Pad(n, width, ' ')| >= width
  {
  }

  lemma PetabytesNear(bytes: nat, tenths: nat)
    requires bytes < ULLONG_MAX && tenths == Nearest(10 * ToDouble(bytes / ONE_K), ONE_T)
    ensures NearPetabytes(bytes, [Pad(tenths / 10, 2, ' ') + "." + PrintNat(tenths % 10) + "P "], tenths)
  {
    hide ShowsTenths, Pad, Nearest;
    TenthsShow(tenths);
    NearestNear(10 * ToDouble(bytes / ONE_K), ONE_T);
  }

  /** What a column of bytes shows: digits, and a letter and a point that tell their unit. */
  lemma BracketsMean(bytes: nat, pieces: seq<string>, digits: nat, unit: nat)
    requires Brackets(bytes, pieces, digits, unit)
    ensures var text := Text(pieces);
            && |text| == 6 && Number(text, 0) == digits && digits * unit <= bytes < (digits + 1) * unit
            && (unit == 1024 ==> text[4] !in "MGT")
            && (unit == 1_048_576 ==> text[4] == 'M')
            && (unit == 104_857_600 ==> text[4] == 'G' && '.' in text)
            && (unit == 1_073_741_824 ==> text[4] == 'G' && '.' !in text)
            && (unit == 107_374_182_400 ==> text[4] == 'T' && '.' in text)
            && (unit == 1_099_511_627_776 ==> text[4] == 'T' && '.' !in text)
  {
    hide Text, Number;
  }

  lemma PetabytesMean(bytes: nat, pieces: seq<string>, tenths: nat)
    requires NearPetabytes(bytes, pieces, tenths)
    ensures var text := Text(pieces);
            && |text| >= 6 && (tenths < 1000 ==> |text| == 6) && Number(text, 0) == tenths
            && text[|text| - 4] == '.' && text[|text| - 2] == 'P'
            && -562_949_953_441_792 <= tenths * 1_125_899_906_842_624 - 10 * bytes <= 562_949_953_441_792
  {
    hide Text, Number;
  }

  /** `Process_printBytes`. */
  method PrintBytes(bytes: nat) returns (pieces: seq<string>)
    requires bytes <= ULLONG_MAX
    ensures bytes == ULLONG_MAX ==> Text(pieces) == "  N/A "
    // the unit of the last digit, range by range; `BracketsMean` and `PetabytesMean` say what is on the screen
    ensures bytes / 1024 < 100_000 ==> Brackets(bytes, pieces, bytes / 1024, 1024)
    ensures 100_000 <= bytes / 1024 < 10_240_000 ==> Brackets(bytes, pieces, bytes / 1_048_576, 1_048_576)
    ensures 10_240_000 <= bytes / 1024 < 102_400_000 ==> Brackets(bytes, pieces, bytes / 104_857_600, 104_857_600)
    ensures 102_400_000 <= bytes / 1024 < 10_485_760_000 ==> Brackets(bytes, pieces, bytes / 1_073_741_824, 1_073_741_824)
    ensures 10_485_760_000 <= bytes / 1024 < 104_857_600_000 ==>
              Brackets(bytes, pieces, bytes / 107_374_182_400, 107_374_182_400)
    ensures 104_857_600_000 <= bytes / 1024 < 10_737_418_240_000 ==>
              Brackets(bytes, pieces, bytes / 1_099_511_627_776, 1_099_511_627_776)
    ensures 10_737_418_240_000 <= bytes / 1024 && bytes < 0xFFFF_FFFF_FFFF_FFFF ==>
              exists tenths :: NearPetabytes(bytes, pieces, tenths)
  {
    hide Brackets, NearPetabytes, Nearest, ToDouble, Pad, Suffix, PlainUnit, Number;
    PowersOfTen();
    Units();
    if bytes == ULLONG_MAX {
      pieces := ["  N/A "];
      TextOf("  N/A ", "", "");
      return;
    }
    var number := bytes / ONE_K;
    if number < 1000 {
      PlainBrackets(bytes, number, 5, ' ');
      pieces := [Pad(number, 5, ' ') + Suffix(' ')];
    } else if number < 100000 {
      SplitBrackets(bytes, number, 2, ' ');
      pieces := [Pad(number / 1000, 2, ' '), Pad(number % 1000, 3, '0') + Suffix(' ')];
    } else if number < 1000 * ONE_K {
      number := number / ONE_K;
      PlainBrackets(bytes, number, 4, 'M');
      pieces := [Pad(number, 4, ' ') + Suffix('M')];
    } else if number < 10000 * ONE_K {
      number := number / ONE_K;
      SplitBrackets(bytes, number, 1, 'M');
      pieces := [Pad(number / 1000, 1, ' '), Pad(number % 1000, 3, '0') + Suffix('M')];
    } else if number < 100000 * ONE_K {
      number := number / (100 * ONE_K);
      PointBrackets(bytes, number, 'G');
      pieces := [Pad(number / 10, 2, ' '), "." + Pad(number % 10, 1, ' '), Suffix('G')];
    } else if number < 1000 * ONE_M {
      number := number / ONE_M;
      PlainBrackets(bytes, number, 4, 'G');
      pieces := [Pad(number, 4, ' ') + Suffix('G')];
    } else {
      pieces := PrintLargeBytes(bytes, number);
    }
  }

  /** The branches from a thousand gigabytes up. */
  method PrintLargeBytes(bytes: nat, kilobytes: nat) returns (pieces: seq<string>)
    requires bytes < ULLONG_MAX && kilobytes == bytes / ONE_K && kilobytes >= 1000 * ONE_M
    ensures 102_400_000 <= bytes / 1024 < 10_485_760_000 ==> Brackets(bytes, pieces, bytes / 1_073_741_824, 1_073_741_824)
    ensures 10_485_760_000 <= bytes / 1024 < 104_857_600_000 ==>
              Brackets(bytes, pieces, bytes / 107_374_182_400, 107_374_182_400)
    ensures 104_857_600_000 <= bytes / 1024 < 10_737_418_240_000 ==>
              Brackets(bytes, pieces, bytes / 1_099_511_627_776, 1_099_511_627_776)
    ensures 10_737_418_240_000 <= bytes / 1024 ==> exists tenths :: NearPetabytes(bytes, pieces, tenths)
  {
    hide Brackets, NearPetabytes, Nearest, ToDouble, Pad, Suffix, PlainUnit, Number;
    PowersOfTen();
    Units();
    var number := kilobytes;
    if number < 10000 * ONE_M {
      number := number / ONE_M;
      SplitBrackets(bytes, number, 1, 'G');
      pieces := [Pad(number / 1000, 1, ' '), Pad(number % 1000, 3, '0') + Suffix('G')];
    } else if number < 100000 * ONE_M {
      number := number / (100 * ONE_M);
      PointBrackets(bytes, number, 'T');
      pieces := [Pad(number / 10, 2, ' '), "." + Pad(number % 10, 1, ' '), Suffix('T')];
    } else if number < 10000 * ONE_G {
      number := number / ONE_G;
      PlainBrackets(bytes, number, 4, 'T');
      pieces := [Pad(number, 4, ' ') + Suffix('T')];
    } else {
      var tenths := Nearest(10 * ToDouble(number), ONE_T);
      PetabytesNear(bytes, tenths);
      pieces := [Pad(tenths / 10, 2, ' ') + "." + PrintNat(tenths % 10) + "P "];
    }
  }

  // ----- counts

  lemma Cut(a: string, b: string, c: string, d: string)
    ensures Text([a, b, c, d]) == a + b + c + d
  {
    TextOf(b, c, d);
    assert [a, b, c, d][1..] == [b, c, d];
  }

  lemma CutParts(s: string)
    requires |s| == 12
    ensures Text([s]) == s && Text([s[..8], s[8..]]) == s && Text([s[..5], s[5..8], s[8..]]) == s
    ensures Text([s[..2], s[2..5], s[5..8], s[8..]]) == s
  {
    hide Text;
    var a, b, c, d := s[..2], s[2..5], s[5..8], s[8..];
    assert a + b == s[..5];
    assert a + b + c == s[..8];
    assert a + b + c + d == s;
    TextOf(s, "", "");
    TextOf(s[..8], d, "");
    TextOf(s[..5], c, d);
    Cut(a, b, c, d);
  }

  lemma CountShows(n: nat, buffer: string)
    requires n < Power(10, 11) && buffer == Pad(n, 11, ' ') + " "
    ensures |buffer| == 12 && Number(buffer, 0) == n
    ensures Text([buffer]) == buffer && Text([buffer[..8], buffer[8..]]) == buffer
    ensures Text([buffer[..5], buffer[5..8], buffer[8..]]) == buffer
    ensures Text([buffer[..2], buffer[2..5], buffer[5..8], buffer[8..]]) == buffer
  {
    hide Text, Number, Pad, Power;
    PadFits(n, 11, ' ');
    NumberPad(n, 11, ' ', 0);
    NumberSuffix(Pad(n, 11, ' '), " ");
    CutParts(buffer);
  }

  /** `Process_printCount`: 12 columns for every 64-bit number. */
  method PrintCount(number: nat) returns (pieces: seq<string>)
    requires number <= ULLONG_MAX
    ensures |Text(pieces)| == 12
    ensures number == ULLONG_MAX ==> Text(pieces) == "        N/A "
    // the unit of the last digit, which the number of colours tells
    ensures number < ULLONG_MAX ==>
              var unit :=
                if number >= 100_000_000_000_000_000 then 1_000_000_000
                else if number >= 100_000_000_000_000 then 1_000_000
                else if number >= 10_000_000_000 then 1_000
                else 1;
              && Number(Text(pieces), 0) == number / unit
              && |pieces| == match unit case 1_000_000_000 => 1 case 1_000_000 => 2 case 1_000 => 3 case _ => 4
  {
    hide Pad, Number, Text;
    PowersOfTen();
    if number == ULLONG_MAX {
      pieces := ["        N/A "];
      TextOf("        N/A ", "", "");
      return;
    }
    var buffer;
    if number >= 100000 * ONE_DECIMAL_T {
      buffer := Pad(number / ONE_DECIMAL_G, 11, ' ') + " ";
      CountShows(number / ONE_DECIMAL_G, buffer);
      pieces := [buffer];
    } else if number >= 100 * ONE_DECIMAL_T {
      buffer := Pad(number / ONE_DECIMAL_M, 11, ' ') + " ";
      CountShows(number / ONE_DECIMAL_M, buffer);
      pieces := [buffer[..8], buffer[8..]];
    } else if number >= 10 * ONE_DECIMAL_G {
      buffer := Pad(number / ONE_DECIMAL_K, 11, ' ') + " ";
      CountShows(number / ONE_DECIMAL_K, buffer);
      pieces := [buffer[..5], buffer[5..8], buffer[8..]];
    } else {
      buffer := Pad(number, 11, ' ') + " ";
      CountShows(number, buffer);
      pieces := [buffer[..2], buffer[2..5], buffer[5..8], buffer[8..]];
    }
  }

  // ----- times

  const SECOND := 100
  const MINUTE := 60 * SECOND
  const HOUR := 60 * MINUTE
  const DAY := 24 * HOUR
  const YEAR := 365 * DAY

  /** What a letter or a mark makes of the number before it, and of the one behind it. */
  function Weight(c: char): nat {
    match c case 'y' => YEAR case 'd' => DAY case 'h' => HOUR case 'm' => MINUTE case ':' => MINUTE case '.' => SECOND case _ => 0
  }

  function Trailing(c: char): nat {
    match c case ':' => SECOND case '.' => 1 case _ => 0
  }

  /** The hundredths of a second that a time column means: `number` is being read, `last` is the weight
      it has if a blank ends it. */
  function ReadTime(text: string, number: nat, last: nat): nat {
    if text == "" then 0
    else if Digit(text[0]) then ReadTime(text[1..], number * 10 + (text[0] as int - '0' as int), last)
    else if text[0] == ' ' then number * last + ReadTime(text[1..], 0, last)
    else number * Weight(text[0]) + ReadTime(text[1..], 0, Trailing(text[0]))
  }

  /** The smallest unit that a time column shows. */
  function TimeUnit(text: string): nat {
    if '.' in text then 1 else if ':' in text then SECOND else if 'm' in text then MINUTE
    else if 'h' in text then HOUR else DAY
  }

  lemma {:induction false} ReadFill(k: nat, fill: char, rest: string, last: nat)
    requires fill == '0' || fill == ' '
    ensures ReadTime(seq(k, _ => fill) + rest, 0, last) == ReadTime(rest, 0, last)
  {
    var s := seq(k, _ => fill) + rest;
    if k == 0 {
      assert s == rest;
    } else {
      assert s[1..] == seq(k - 1, _ => fill) + rest;
      ReadFill(k - 1, fill, rest, last);
    }
  }

  lemma {:induction false} ReadDigit(s: string, rest: string, number: nat, last: nat)
    requires forall k :: 0 <= k < |s| ==> Digit(s[k])
    ensures ReadTime(s + rest, number, last) == ReadTime(rest, Number(s, number), last)
  {
    if s == "" {
      assert s + rest == rest;
    } else {
      assert (s + rest)[1..] == s[1..] + rest;
      ReadDigit(s[1..], rest, number * 10 + (s[0] as int - '0' as int), last);
    }
  }

  /** Reading on behind a padded number and its mark. */
  lemma ReadPadded(n: nat, width: nat, fill: char, mark: char, rest: string, last: nat)
    requires fill == '0' || fill == ' '
    requires mark in "ydhm:."
    ensures ReadTime(Pad(n, width, fill) + [mark] + rest, 0, last) == n * Weight(mark) + ReadTime(rest, 0, Trailing(mark))
  {
    var k := if |PrintNat(n)| < width then width - |PrintNat(n)| else 0;
    var text := Pad(n, width, fill) + [mark] + rest;
    assert text == seq(k, _ => fill) + (PrintNat(n) + ([mark] + rest));
    ReadFill(k, fill, PrintNat(n) + ([mark] + rest), last);
    ReadDigit(PrintNat(n), [mark] + rest, 0, last);
    NumberPrinted(n);
    assert ([mark] + rest)[1..] == rest;
  }

  /** How a number with its mark is read, in hundredths of a second: the mark tells what it counts, and after a colon
      or a point a number that a blank ends counts seconds or hundredths. */
  lemma TimeMarks(digits: string, mark: char, rest: string, last: nat)
    requires (forall k :: 0 <= k < |digits| ==> '0' <= digits[k] <= '9') && mark in "ydhm:. "
    ensures ReadTime(digits + [mark] + rest, 0, last) ==
            Number(digits, 0) * (match mark
                                 case 'y' => 3_153_600_000 case 'd' => 8_640_000 case 'h' => 360_000
                                 case 'm' => 6_000 case ':' => 6_000 case '.' => 100 case _ => last)
            + ReadTime(rest, 0, match mark case ' ' => last case ':' => 100 case '.' => 1 case _ => 0)
  {
    hide Number;
    assert digits + [mark] + rest == digits + ([mark] + rest) && ([mark] + rest)[1..] == rest;
    ReadDigit(digits, [mark] + rest, 0, last);
    var text, n := [mark] + rest, Number(digits, 0);
    assert text[0] == mark && !Digit(mark);
    assert ReadTime(text, n, last) ==
           if mark == ' ' then n * last + ReadTime(rest, 0, last) else n * Weight(mark) + ReadTime(rest, 0, Trailing(mark));
    if mark != ' ' {
      assert Weight(mark) == match mark
        case 'y' => 3_153_600_000 case 'd' => 8_640_000 case 'h' => 360_000
        case 'm' => 6_000 case ':' => 6_000 case '.' => 100 case _ => last;
    }
  }

  /** The last number, ended by a blank. */
  lemma ReadLast(n: nat, width: nat, fill: char, last: nat)
    requires fill == '0' || fill == ' '
    ensures ReadTime(Pad(n, width, fill) + " ", 0, last) == n * last
  {
    var k := if |PrintNat(n)| < width then width - |PrintNat(n)| else 0;
    assert Pad(n, width, fill) + " " == seq(k, _ => fill) + (PrintNat(n) + " ");
    ReadFill(k, fill, PrintNat(n) + " ", last);
    ReadDigit(PrintNat(n), " ", 0, last);
    NumberPrinted(n);
    assert " "[1..] == "";
  }

  lemma ReadBlank(last: nat)
    ensures ReadTime(" ", 0, last) == 0
  {
    assert " "[1..] == "";
  }

  /** A column that shows at most the true time, and less than one unit below it. */
  ghost predicate MeansTime(pieces: seq<string>, t: nat) {
    ReadTime(Text(pieces), 0, 0) <= t < ReadTime(Text(pieces), 0, 0) + TimeUnit(Text(pieces))
  }

  ghost predicate ShowsTime(pieces: seq<string>, t: nat) {
    |Text(pieces)| == 9 && MeansTime(pieces, t)
  }

  /** Two padded numbers, each with its letter. */
  lemma LettersMean(a: nat, wa: nat, ca: char, b: nat, wb: nat, cb: char, t: nat)
    requires ca in "ydh" && (cb == 'd' || cb == 'h' || cb == 'm')
    requires a * Weight(ca) + b * Weight(cb) <= t < a * Weight(ca) + b * Weight(cb) + Weight(cb)
    requires Weight(cb) < Weight(ca)
    ensures MeansTime([Pad(a, wa, ' ') + [ca], Pad(b, wb, ' ') + [cb, ' ']], t)
    ensures TimeUnit(Text([Pad(a, wa, ' ') + [ca], Pad(b, wb, ' ') + [cb, ' ']])) == Weight(cb)
  {
    hide Pad, Number, ReadTime;
    var h, l := Pad(a, wa, ' '), Pad(b, wb, ' ');
    TextOf(h + [ca], l + [cb, ' '], "");
    assert l + [cb, ' '] == l + [cb] + " ";
    PadChars(a, wa, ' ');
    PadChars(b, wb, ' ');
    ReadPadded(a, wa, ' ', ca, l + [cb] + " ", 0);
    ReadPadded(b, wb, ' ', cb, " ", Trailing(ca));
    ReadBlank(Trailing(cb));
    var text := h + [ca] + (l + [cb] + " ");
    assert text[|h| + 1 + |l|] == cb;
    assert forall k :: 0 <= k < |text| ==> Digit(text[k]) || text[k] == ' ' || text[k] == ca || text[k] == cb;
  }

  lemma LettersWidth(a: nat, wa: nat, ca: char, b: nat, wb: nat, cb: char)
    requires wa >= 1 && wb >= 1 && wa + wb == 6 && a < Power(10, wa) && b < Power(10, wb)
    ensures |Text([Pad(a, wa, ' ') + [ca], Pad(b, wb, ' ') + [cb, ' ']])| == 9
  {
    hide Pad, Power;
    TextOf(Pad(a, wa, ' ') + [ca], Pad(b, wb, ' ') + [cb, ' '], "");
    PadFits(a, wa, ' ');
    PadFits(b, wb, ' ');
  }

  lemma ClockShows(a: nat, m: nat, s: nat, t: nat)
    requires a < 100 && m < 100 && s < 100
    requires a * HOUR + m * MINUTE + s * SECOND <= t < a * HOUR + m * MINUTE + s * SECOND + SECOND
    ensures ShowsTime([Pad(a, 2, ' ') + "h", Pad(m, 2, '0') + ":" + Pad(s, 2, '0') + " "], t)
    ensures TimeUnit(Text([Pad(a, 2, ' ') + "h", Pad(m, 2, '0') + ":" + Pad(s, 2, '0') + " "])) == SECOND
  {
    hide Pad, Number, ReadTime;
    PowersOfTen();
    var h, l, r := Pad(a, 2, ' '), Pad(m, 2, '0'), Pad(s, 2, '0');
    TextOf(h + "h", l + ":" + r + " ", "");
    PadFits(a, 2, ' ');
    PadFits(m, 2, '0');
    PadFits(s, 2, '0');
    PadChars(a, 2, ' ');
    PadChars(m, 2, '0');
    PadChars(s, 2, '0');
    ReadPadded(a, 2, ' ', 'h', l + [':'] + (r + " "), 0);
    ReadPadded(m, 2, '0', ':', r + " ", Trailing('h'));
    ReadLast(s, 2, '0', Trailing(':'));
    var text := h + "h" + (l + ":" + r + " ");
    assert text == h + ['h'] + (l + [':'] + (r + " "));
    assert text[5] == ':';
    assert forall k :: 0 <= k < 9 ==> Digit(text[k]) || text[k] in " h:";
  }

  lemma StopwatchShows(m: nat, s: nat, c: nat, t: nat)
    requires m < 100 && s < 100 && c < 100 && t == m * MINUTE + s * SECOND + c
    ensures ShowsTime([Pad(m, 2, ' ') + ":" + Pad(s, 2, '0') + "." + Pad(c, 2, '0') + " "], t)
    ensures TimeUnit(Text([Pad(m, 2, ' ') + ":" + Pad(s, 2, '0') + "." + Pad(c, 2, '0') + " "])) == 1
  {
    hide Pad, Number, ReadTime;
    PowersOfTen();
    var h, l, r := Pad(m, 2, ' '), Pad(s, 2, '0'), Pad(c, 2, '0');
    var text := h + ":" + l + "." + r + " ";
    TextOf(text, "", "");
    PadFits(m, 2, ' ');
    PadFits(s, 2, '0');
    PadFits(c, 2, '0');
    ReadPadded(m, 2, ' ', ':', l + ['.'] + (r + " "), 0);
    ReadPadded(s, 2, '0', '.', r + " ", Trailing(':'));
    ReadLast(c, 2, '0', Trailing('.'));
    assert text == h + [':'] + (l + ['.'] + (r + " "));
    assert text[5] == '.';
  }

  lemma YearColumn(t: nat, days: nat, width: nat)
    requires days == t / 100 / 86400 && days >= 365
    requires width == if days % 365 >= 100 then 3 else if days % 365 >= 10 then 2 else 1
    ensures MeansTime([Pad(days / 365, 6 - width, ' ') + "y", Pad(days % 365, width, ' ') + "d "], t)
    ensures TimeUnit(Text([Pad(days / 365, 6 - width, ' ') + "y", Pad(days % 365, width, ' ') + "d "])) == DAY
    ensures |Text([Pad(days / 365, 6 - width, ' ') + "y", Pad(days % 365, width, ' ') + "d "])| == 9 <== t < 1000 * YEAR
  {
    hide MeansTime, Pad, Text;
    PowersOfTen();
    LettersMean(days / 365, 6 - width, 'y', days % 365, width, 'd', t);
    if t < 1000 * YEAR { LettersWidth(days / 365, 6 - width, 'y', days % 365, width, 'd'); }
  }

  lemma DayColumn(t: nat, hours: nat, width: nat)
    requires hours == t / 100 / 3600 && hours < 365 * 24
    requires width == if hours % 24 >= 10 then 2 else 1
    ensures ShowsTime([Pad(hours / 24, 6 - width, ' ') + "d", Pad(hours % 24, width, ' ') + "h "], t)
    ensures TimeUnit(Text([Pad(hours / 24, 6 - width, ' ') + "d", Pad(hours % 24, width, ' ') + "h "])) == HOUR
  {
    hide MeansTime, Pad, Text;
    PowersOfTen();
    LettersMean(hours / 24, 6 - width, 'd', hours % 24, width, 'h', t);
    LettersWidth(hours / 24, 6 - width, 'd', hours % 24, width, 'h');
  }

  lemma HourColumn(t: nat, minutes: nat, width: nat)
    requires minutes == t / 100 / 60 && minutes < 100 * 24 * 60
    requires width == if minutes % 60 >= 10 then 2 else 1
    ensures ShowsTime([Pad(minutes / 60, 6 - width, ' ') + "h", Pad(minutes % 60, width, ' ') + "m "], t)
    ensures TimeUnit(Text([Pad(minutes / 60, 6 - width, ' ') + "h", Pad(minutes % 60, width, ' ') + "m "])) == MINUTE
  {
    hide MeansTime, Pad, Text;
    PowersOfTen();
    LettersMean(minutes / 60, 6 - width, 'h', minutes % 60, width, 'm', t);
    LettersWidth(minutes / 60, 6 - width, 'h', minutes % 60, width, 'm');
  }

  lemma TimeParts(t: nat)
    ensures var seconds := t / 100;
            && seconds / 86400 == seconds / 3600 / 24 && seconds / 3600 == seconds / 60 / 60
            && seconds / 3600 * HOUR + seconds / 60 % 60 * MINUTE + seconds % 60 * SECOND + (t - seconds * 100) == t
            && 0 <= t - seconds * 100 < 100
  {
  }

  /** The conversion to a C int. */
  function Wrap32(n: int): int {
    var r := n % 0x1_0000_0000;
    if r < 0x8000_0000 then r else r - 0x1_0000_0000
  }

  lemma WrapMeans(n: int)
    ensures -0x8000_0000 <= Wrap32(n) < 0x8000_0000 && (n - Wrap32(n)) % 0x1_0000_0000 == 0
  {
  }

  lemma WrapsBy(n: int) returns (k: int)
    ensures Wrap32(n) == n + k * 0x1_0000_0000
  {
    k := -(n / 0x1_0000_0000) - if n % 0x1_0000_0000 < 0x8000_0000 then 0 else 1;
  }

  lemma WrapsBack(r: nat, k: int)
    requires r < 0x8000_0000
    ensures Wrap32(r + k * 0x1_0000_0000) == r
  {
  }

  /** The days left over a whole number of years come out right even when the years do not fit. */
  lemma DaysLeft(days: nat)
    ensures var years := Wrap32(days / 365); Wrap32(days - Wrap32(365 * years)) == days % 365
  {
    var years := Wrap32(days / 365);
    var k := WrapsBy(days / 365);
    var j := WrapsBy(365 * years);
    assert days - Wrap32(365 * years) == days % 365 + (-365 * k - j) * 0x1_0000_0000;
    WrapsBack(days % 365, -365 * k - j);
  }

  /** `%*d`. */
  function PadInt(n: int, width: nat): string {
    seq(if |Print(n)| < width then width - |Print(n)| else 0, _ => ' ') + Print(n)
  }

  lemma {:induction false} PrintNatLength(n: nat, width: nat)
    requires width >= 1
    ensures |PrintNat(n)| <= width <==> n < Power(10, width)
  {
    assert Power(10, 1) == 10;
    if n >= 10 && width > 1 { PrintNatLength(n / 10, width - 1); }
    if width > 1 && n < 10 { PowerGrows(10, 1, width); }
  }

  /** When the years and their letter fit a buffer of 10 characters. */
  lemma YearsFit(years: int, width: nat)
    requires width <= 5
    ensures |PadInt(years, width) + "y"| < 10 <==> -10_000_000 < years < 100_000_000
  {
    assert Power(10, 7) == 10_000_000 && Power(10, 8) == 100_000_000;
    PrintNatLength(if years < 0 then -years else years, if years < 0 then 7 else 8);
  }

  /** `Process_printTime`: 9 columns below 1000 years; None is the failure of printing into a buffer that is
      too small for the years. */
  method PrintTime(totalHundredths: nat) returns (pieces: Option<seq<string>>)
    requires totalHundredths <= ULLONG_MAX
    ensures pieces.Some? <==> -10_000_000 < Wrap32(totalHundredths / 3_153_600_000) < 100_000_000
    ensures totalHundredths / YEAR < 100_000_000 ==> pieces.Some? && MeansTime(pieces.value, totalHundredths)
    ensures totalHundredths < 1000 * YEAR ==> pieces.Some? && |Text(pieces.value)| == 9
    // the smallest unit shown, range by range, in hundredths of a second; `TimeMarks` says how the column is read
    ensures totalHundredths / YEAR < 100_000_000 ==>
              TimeUnit(Text(pieces.value)) ==
              if totalHundredths < 360_000 then 1
              else if totalHundredths < 36_000_000 then 100
              else if totalHundredths < 864_000_000 then 6_000
              else if totalHundredths < 3_153_600_000 then 360_000
              else 8_640_000
  {
    hide TimeUnit, MeansTime, Pad, PadInt, Text, Wrap32;
    SmallYears(totalHundredths);
    PowersOfTen();
    TimeParts(totalHundredths);
    var totalSeconds := totalHundredths / 100;
    var hours := totalSeconds / 3600;
    var days := totalSeconds / 86400;
    var minutes := (totalSeconds / 60) % 60;
    var seconds := totalSeconds % 60;
    var hundredths := totalHundredths - totalSeconds * 100;
    if days >= 365 {
      var years := Wrap32(days / 365);
      var daysLeft := Wrap32(days - Wrap32(365 * years));
      DaysLeft(days);
      var width := if daysLeft >= 100 then 3 else if daysLeft >= 10 then 2 else 1;
      var shown := PadInt(years, 6 - width) + "y";
      YearsFit(years, 6 - width);
      if |shown| >= 10 {
        return None;
      }
      YearColumn(totalHundredths, days, width);
      if years >= 0 { PadNat(years, 6 - width); }
      pieces := Some([shown, Pad(daysLeft, width, ' ') + "d "]);
    } else if days >= 100 {
      var hoursLeft := hours - days * 24;
      var width := if hoursLeft >= 10 then 2 else 1;
      DayColumn(totalHundredths, hours, width);
      pieces := Some([Pad(days, 6 - width, ' ') + "d", Pad(hoursLeft, width, ' ') + "h "]);
    } else if hours >= 100 {
      var minutesLeft := totalSeconds / 60 - hours * 60;
      var width := if minutesLeft >= 10 then 2 else 1;
      HourColumn(totalHundredths, totalSeconds / 60, width);
      pieces := Some([Pad(hours, 6 - width, ' ') + "h", Pad(minutesLeft, width, ' ') + "m "]);
    } else if hours > 0 {
      ClockShows(hours, minutes, seconds, totalHundredths);
      pieces := Some([Pad(hours, 2, ' ') + "h", Pad(minutes, 2, '0') + ":" + Pad(seconds, 2, '0') + " "]);
    } else {
      StopwatchShows(minutes, seconds, hundredths, totalHundredths);
      pieces := Some([Pad(minutes, 2, ' ') + ":" + Pad(seconds, 2, '0') + "." + Pad(hundredths, 2, '0') + " "]);
    }
  }

  lemma PadNat(n: nat, width: nat)
    ensures PadInt(n, width) == Pad(n, width, ' ')
  {
  }

  lemma SmallYears(t: nat)
    ensures t / YEAR == t / 100 / 86400 / 365
    ensures t / YEAR < 0x8000_0000 ==> Wrap32(t / YEAR) == t / YEAR
  {
    WrapsBack(if t / YEAR < 0x8000_0000 then t / YEAR else 0, 0);
  }
}
