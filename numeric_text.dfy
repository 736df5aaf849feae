/** The text operations the id generators use: `parseInt` (radix undefined),
    `Number.prototype.toString` on non-negative integers, and
    `String.prototype.replace` with a string pattern. */
module NumericText {
  import opened Wrappers

  /** StrWhiteSpaceChar of ECMA-262 (WhiteSpace and LineTerminator), which
      `parseInt` skips before the number. */
  predicate IsWhiteSpace(c: char) {
    var k := c as int;
    k == 0x09 || k == 0x0A || k == 0x0B || k == 0x0C || k == 0x0D || k == 0x20
    || k == 0xA0 || k == 0x1680 || (0x2000 <= k <= 0x200A) || k == 0x2028
    || k == 0x2029 || k == 0x202F || k == 0x205F || k == 0x3000 || k == 0xFEFF
  }

  /** The text after the leading white space: everything dropped is white space,
      and what is left does not start with any. */
  function TrimStart(s: string): (r: string)
    ensures |r| <= |s| && r == s[|s| - |r|..]
    ensures forall i :: 0 <= i < |s| - |r| ==> IsWhiteSpace(s[i])
    ensures r == [] || !IsWhiteSpace(r[0])
  {
    if s != [] && IsWhiteSpace(s[0]) then TrimStart(s[1..]) else s
  }

  /** The value of `c` as a digit in radix 36 (`0-9`, then `a-z` or `A-Z`), or -1. */
  function DigitValue(c: char): (d: int)
    ensures -1 <= d < 36
  {
    if '0' <= c <= '9' then c as int - '0' as int
    else if 'a' <= c <= 'z' then c as int - 'a' as int + 10
    else if 'A' <= c <= 'Z' then c as int - 'A' as int + 10
    else -1
  }

  predicate IsDigit(c: char, radix: nat) {
    0 <= DigitValue(c) < radix
  }

  /** The longest prefix of `s` made of digits in `radix`. */
  function DigitPrefix(s: string, radix: nat): (z: string)
    ensures z <= s
    ensures forall i :: 0 <= i < |z| ==> IsDigit(z[i], radix)
    ensures |z| < |s| ==> !IsDigit(s[|z|], radix)
  {
    if s != [] && IsDigit(s[0], radix) then [s[0]] + DigitPrefix(s[1..], radix) else []
  }

  /** The mathematical value of a digit string, read most significant digit first.
      The radix is 10 or 16, the only two `parseInt` picks here. */
  function DigitsValue(z: string, radix: nat): int
    requires radix == 10 || radix == 16
    requires forall i :: 0 <= i < |z| ==> IsDigit(z[i], radix)
  {
    if z == [] then 0
    else
      assert IsDigit(z[|z| - 1], radix);
      var high := DigitsValue(z[..|z| - 1], radix);
      (if radix == 16 then 16 * high else 10 * high) + DigitValue(z[|z| - 1])
  }

  /** `parseInt(s)` with the radix left undefined (section 19.2.5 of ECMA-262):
      skip leading white space, then read an optionally signed number. */
  function ParseInt(s: string): Option<int> {
    ParseSigned(TrimStart(s))
  }

  /** An optional sign, then the unsigned part. `-0` is `0`, which compares like
      `-0`. */
  function ParseSigned(t: string): Option<int> {
    if t != [] && t[0] == '-' then
      match ParseUnsigned(t[1..])
      case None => None
      case Some(v) => Some(-v)
    else if t != [] && t[0] == '+' then ParseUnsigned(t[1..])
    else ParseUnsigned(t)
  }

  /** A `0x`/`0X` prefix selects radix 16, otherwise the radix is 10. */
  function ParseUnsigned(u: string): Option<int> {
    if |u| >= 2 && u[0] == '0' && (u[1] == 'x' || u[1] == 'X') then ParseDigits(u[2..], 16)
    else ParseDigits(u, 10)
  }

  /** The value of the longest run of digits at the start of `u`; no digit at all
      gives `NaN` (`None`). */
  function ParseDigits(u: string, radix: nat): Option<int>
    requires radix == 10 || radix == 16
  {
    var z := DigitPrefix(u, radix);
    if z == [] then None else Some(DigitsValue(z, radix))
  }

  function DecimalDigit(d: nat): (c: char)
    requires d < 10
    ensures IsDigit(c, 10) && DigitValue(c) == d
  {
    ('0' as int + d) as char
  }

  /** `n.toString()` for a non-negative integer: its decimal numeral without
      leading zeros. */
  function NatToString(n: nat): (s: string)
    ensures |s| >= 1
    ensures forall i :: 0 <= i < |s| ==> IsDigit(s[i], 10)
    ensures s[0] == '0' ==> n == 0
  {
    if n < 10 then [DecimalDigit(n)]
    else NatToString(n / 10) + [DecimalDigit(n % 10)]
  }

  lemma {:induction false} NatToStringValue(n: nat)
    ensures DigitsValue(NatToString(n), 10) == n
  {
    var s := NatToString(n);
    if n >= 10 {
      NatToStringValue(n / 10);
      assert s[..|s| - 1] == NatToString(n / 10);
    }
  }

  lemma DigitPrefixOfDigits(s: string, radix: nat)
    requires forall i :: 0 <= i < |s| ==> IsDigit(s[i], radix)
    ensures DigitPrefix(s, radix) == s
  {
  }

  /** A decimal digit is neither white space nor a sign. */
  lemma DecimalDigitIsPlain(c: char)
    requires IsDigit(c, 10)
    ensures '0' <= c <= '9'
    ensures !IsWhiteSpace(c) && c != '-' && c != '+'
  {
  }

  /** A decimal numeral, leading zeros included, parses to its value. */
  lemma ParseIntOfDecimal(s: string)
    requires s != [] && forall i :: 0 <= i < |s| ==> IsDigit(s[i], 10)
    ensures ParseInt(s) == Some(DigitsValue(s, 10))
  {
    DecimalDigitIsPlain(s[0]);
    if |s| >= 2 {
      DecimalDigitIsPlain(s[1]);
    }
    assert TrimStart(s) == s;
    assert ParseSigned(s) == ParseUnsigned(s);
    assert ParseUnsigned(s) == ParseDigits(s, 10);
    DigitPrefixOfDigits(s, 10);
  }

  /** `parseInt` reads back what `toString` wrote: the round trip the id
      generators rely on. */
  lemma ParseIntOfNatToString(n: nat)
    ensures ParseInt(NatToString(n)) == Some(n)
  {
    var s := NatToString(n);
    ParseIntOfDecimal(s);
    NatToStringValue(n);
  }

  predicate OccursAt(s: string, pat: string, j: nat) {
    j + |pat| <= |s| && s[j..j + |pat|] == pat
  }

  /** The position of the first occurrence of `pat` in `s` at or after `from`. */
  function IndexFrom(s: string, pat: string, from: nat): (r: Option<nat>)
    ensures r.Some? ==> from <= r.value && OccursAt(s, pat, r.value)
    ensures r.Some? ==> forall j: nat :: from <= j < r.value ==> !OccursAt(s, pat, j)
    ensures r.None? ==> forall j: nat :: from <= j ==> !OccursAt(s, pat, j)
    decreases |s| - from
  {
    if from + |pat| > |s| then None
    else if OccursAt(s, pat, from) then Some(from)
    else IndexFrom(s, pat, from + 1)
  }

  /** `s.replace(pat, rep)` with a string pattern: only the first occurrence is
      replaced; without one, `s` is returned as it is. */
  function ReplaceFirst(s: string, pat: string, rep: string): string {
    match IndexFrom(s, pat, 0)
    case None => s
    case Some(i) => s[..i] + rep + s[i + |pat|..]
  }

  lemma ReplaceFirstOfPrefixed(pat: string, t: string)
    ensures ReplaceFirst(pat + t, pat, "") == t
  {
    assert OccursAt(pat + t, pat, 0);
  }
}
