/** Numbers as text: what printf, strtol and the numeral regexes of the hook-code language do. */
module Numerals {

  predicate IsDigit(c: char, base: nat)
    requires base == 10 || base == 16
  {
    '0' <= c <= '9' || (base == 16 && ('a' <= c <= 'f' || 'A' <= c <= 'F'))
  }

  function DigitValue(c: char): (d: nat)
    requires IsDigit(c, 16)
  {
    if c <= '9' then (c - '0') as nat
    else if c <= 'F' then (c - 'A') as nat + 10
    else (c - 'a') as nat + 10
  }

  /** The digit printf uses: upper case from ten on. */
  function DigitChar(d: nat): (c: char)
    requires d < 16
    ensures IsDigit(c, 16) && DigitValue(c) == d
    ensures d < 10 ==> IsDigit(c, 10)
  {
    if d < 10 then '0' + d as char else 'A' + (d - 10) as char
  }

  predicate IsNumeral(s: string, base: nat)
    requires base == 10 || base == 16
  {
    s != [] && forall i :: 0 <= i < |s| ==> IsDigit(s[i], base)
  }

  function Value(s: string, base: nat): (v: nat)
    requires base == 10 || base == 16
    requires forall i :: 0 <= i < |s| ==> IsDigit(s[i], base)
  {
    if s == [] then 0
    else assert IsDigit(s[|s| - 1], base); Value(s[..|s| - 1], base) * base + DigitValue(s[|s| - 1])
  }

  function Print(n: nat, base: nat): (s: string)
    requires base == 10 || base == 16
    ensures IsNumeral(s, base)
  {
    if n < base then [DigitChar(n)] else Print(n / base, base) + [DigitChar(n % base)]
  }

  lemma {:induction false} ValueOfPrint(n: nat, base: nat)
    requires base == 10 || base == 16
    ensures Value(Print(n, base), base) == n
  {
    var s := Print(n, base);
    if n < base {
      assert s[..0] == [];
    } else {
      ValueOfPrint(n / base, base);
      assert s[..|s| - 1] == Print(n / base, base);
    }
  }

  /** printf("%I64X") behind an explicit minus sign. */
  function HexString(num: int): (s: string)
  {
    if num < 0 then "-" + Print(-num, 16) else Print(num, 16)
  }

  /** Length of the longest prefix of digits. */
  function RunLength(s: string, base: nat): (n: nat)
    requires base == 10 || base == 16
    ensures n <= |s|
    ensures forall i :: 0 <= i < n ==> IsDigit(s[i], base)
    ensures n < |s| ==> !IsDigit(s[n], base)
  {
    if s == [] || !IsDigit(s[0], base) then 0 else 1 + RunLength(s[1..], base)
  }

  lemma {:induction false} RunLengthIs(s: string, n: nat, base: nat)
    requires base == 10 || base == 16
    requires n <= |s| && forall i :: 0 <= i < n ==> IsDigit(s[i], base)
    requires n < |s| ==> !IsDigit(s[n], base)
    ensures RunLength(s, base) == n
  {
    if n > 0 {
      assert IsDigit(s[0], base);
      RunLengthIs(s[1..], n - 1, base);
    }
  }

  /** iswspace: the blanks and line breaks of Unicode. */
  predicate IsSpace(c: char) {
    || '\t' <= c <= '\r'
    || c == ' ' || c == '\U{85}' || c == '\U{A0}' || c == '\U{1680}'
    || '\U{2000}' <= c <= '\U{200A}'
    || c == '\U{2028}' || c == '\U{2029}' || c == '\U{202F}' || c == '\U{205F}' || c == '\U{3000}'
  }

  function SpaceRun(s: string): (n: nat)
    ensures n <= |s|
  {
    if s == [] || !IsSpace(s[0]) then 0 else 1 + SpaceRun(s[1..])
  }

  /** What strtol reports: the value and how many characters it used, none when there is no number. */
  datatype Scan = Scan(value: int, size: nat)

  /** The unsigned part of strtol with base 16: 0x counts only in front of a hex digit. */
  function ScanUnsigned(s: string): (r: Scan)
    ensures 0 <= r.value && r.size <= |s|
  {
    var p := if 2 < |s| && s[0] == '0' && (s[1] == 'x' || s[1] == 'X') && IsDigit(s[2], 16) then 2 else 0;
    var n := RunLength(s[p..], 16);
    if n == 0 then Scan(0, 0) else Scan(Value(s[p..][..n], 16), p + n)
  }

  /** strtol with base 16: blanks, a sign, then the digits. */
  function ScanHex(s: string): (r: Scan)
    ensures r.size <= |s|
  {
    var w := SpaceRun(s);
    var signed := w < |s| && (s[w] == '+' || s[w] == '-');
    var g := if signed then w + 1 else w;
    var u := ScanUnsigned(s[g..]);
    if u.size == 0 then Scan(0, 0)
    else Scan(if signed && s[w] == '-' then -u.value else u.value, g + u.size)
  }

  /** Behind blanks and a sign there is no hex digit. */
  predicate NoNumber(s: string) {
    var w := SpaceRun(s);
    var g := if w < |s| && (s[w] == '+' || s[w] == '-') then w + 1 else w;
    g == |s| || !IsDigit(s[g], 16)
  }

  lemma ScanOfNothing(s: string)
    ensures NoNumber(s) ==> ScanHex(s) == Scan(0, 0)
    ensures !NoNumber(s) ==> ScanHex(s).size > 0
  {
    var w := SpaceRun(s);
    var g := if w < |s| && (s[w] == '+' || s[w] == '-') then w + 1 else w;
    var t := s[g..];
    assert t[0..] == t;
    if !NoNumber(s) {
      assert t[0] == s[g];
    }
  }

  /** A text that cannot continue a hex number. */
  predicate EndsHex(rest: string) {
    rest != "" ==> !IsDigit(rest[0], 16) && rest[0] != 'x' && rest[0] != 'X'
  }

  lemma ScanOfNumeral(d: string, rest: string)
    requires IsNumeral(d, 16) && EndsHex(rest)
    ensures ScanUnsigned(d + rest) == Scan(Value(d, 16), |d|)
  {
    var s := d + rest;
    if 1 < |s| {
      assert s[1] == if 1 < |d| then d[1] else rest[0];
    }
    assert s[0..] == s && s[..|d|] == d;
    RunLengthIs(s, |d|, 16);
  }

  lemma ScanAfterSign(neg: bool, s: string, t: string)
    requires t != [] && IsDigit(t[0], 16)
    requires s == if neg then "-" + t else t
    ensures var u := ScanUnsigned(t);
            u.size > 0 ==> ScanHex(s) == if neg then Scan(-u.value, u.size + 1) else u
  {
    assert SpaceRun(s) == 0;
    assert s[0] == if neg then '-' else t[0];
    assert s[if neg then 1 else 0..] == t;
  }

  /** strtol reads back what HexString prints, up to a character that is neither a hex digit nor x. */
  lemma ScanOfHexString(num: int, rest: string)
    requires EndsHex(rest)
    ensures ScanHex(HexString(num) + rest) == Scan(num, |HexString(num)|)
  {
    var m := if num < 0 then -num else num;
    var d := Print(m, 16);
    assert IsDigit(d[0], 16) && (d + rest)[0] == d[0];
    assert ("-" + d) + rest == "-" + (d + rest);
    ScanAfterSign(num < 0, HexString(num) + rest, d + rest);
    ScanOfNumeral(d, rest);
    ValueOfPrint(m, 16);
  }

  /** A numeral in front of a character that cannot continue it is the whole digit run. */
  lemma RunOfPrint(n: nat, base: nat, rest: string)
    requires base == 10 || base == 16
    requires rest != [] ==> !IsDigit(rest[0], base)
    ensures var s := Print(n, base) + rest;
            RunLength(s, base) == |Print(n, base)| && s[..|Print(n, base)|] == Print(n, base)
            && s[|Print(n, base)|..] == rest
            && Value(s[..RunLength(s, base)], base) == n
  {
    var d := Print(n, base);
    assert forall i :: 0 <= i < |d| ==> IsDigit((d + rest)[i], base);
    RunLengthIs(d + rest, |d|, base);
    assert (d + rest)[..|d|] == d;
    ValueOfPrint(n, base);
  }
}
