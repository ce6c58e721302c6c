/**
 * The few pieces of Go's `strings` and `strconv` packages that the line
 * codec relies on: `TrimSpace`, `HasPrefix`, `SplitN(s, sep, 2)` with a
 * one-character separator, `Atoi` and `%d` formatting. Strings are sequences
 * of Unicode code points.
 */
module Strings {
  import opened Wrappers

  /** Go's `unicode.IsSpace`: the white-space characters `TrimSpace` removes. */
  predicate IsSpace(c: char) {
    c == ' ' || c == '\t' || c == '\n' || c == '\r' || c == '\U{0B}' || c == '\U{0C}'
    || c == '\U{85}' || c == '\U{A0}' || c == '\U{1680}'
    || ('\U{2000}' <= c <= '\U{200A}')
    || c == '\U{2028}' || c == '\U{2029}' || c == '\U{202F}' || c == '\U{205F}' || c == '\U{3000}'
  }

  predicate IsDigit(c: char) {
    '0' <= c <= '9'
  }

  function DigitValue(c: char): (d: nat)
    requires IsDigit(c)
    ensures d < 10
  {
    (c as int) - ('0' as int)
  }

  function DigitChar(d: nat): (c: char)
    requires d < 10
    ensures IsDigit(c) && DigitValue(c) == d
  {
    ((d + '0' as int) as char)
  }

  /** `strings.TrimLeft(s, space)`. */
  function TrimLeft(s: string): (r: string)
    ensures |r| <= |s| && r == s[|s| - |r|..]
    ensures r == [] || !IsSpace(r[0])
    ensures forall i :: 0 <= i < |s| - |r| ==> IsSpace(s[i])
  {
    if s != [] && IsSpace(s[0]) then TrimLeft(s[1..]) else s
  }

  /** `strings.TrimRight(s, space)`. */
  function TrimRight(s: string): (r: string)
    ensures |r| <= |s| && r == s[..|r|]
    ensures r == [] || !IsSpace(r[|r| - 1])
    ensures forall i :: |r| <= i < |s| ==> IsSpace(s[i])
  {
    if s != [] && IsSpace(s[|s| - 1]) then TrimRight(s[..|s| - 1]) else s
  }

  /**
   * `strings.TrimSpace`: the longest middle part of `s` that neither starts nor
   * ends with white space, everything cut away being white space.
   */
  function TrimSpace(s: string): (r: string)
    ensures |r| <= |s|
    ensures r == [] || (!IsSpace(r[0]) && !IsSpace(r[|r| - 1]))
  {
    TrimRight(TrimLeft(s))
  }

  predicate AllSpace(s: string) {
    forall i :: 0 <= i < |s| ==> IsSpace(s[i])
  }

  /** Leading white space in front of a part that does not start with white space is cut away exactly. */
  lemma {:induction false} TrimLeftSpaces(a: string, y: string)
    requires AllSpace(a) && (y == [] || !IsSpace(y[0]))
    ensures TrimLeft(a + y) == y
    decreases |a|
  {
    if a == [] {
      assert a + y == y;
    } else {
      assert (a + y)[0] == a[0];
      assert (a + y)[1..] == a[1..] + y;
      TrimLeftSpaces(a[1..], y);
    }
  }

  /** Trailing white space after a part that does not end with white space is cut away exactly. */
  lemma {:induction false} TrimRightSpaces(y: string, b: string)
    requires AllSpace(b) && (y == [] || !IsSpace(y[|y| - 1]))
    ensures TrimRight(y + b) == y
    decreases |b|
  {
    if b == [] {
      assert y + b == y;
    } else {
      var init := b[..|b| - 1];
      assert (y + b)[|y + b| - 1] == b[|b| - 1];
      assert (y + b)[..|y + b| - 1] == y + init;
      TrimRightSpaces(y, init);
    }
  }

  /** Trimming removes exactly the white space around a word that has none at its ends. */
  lemma TrimSpaceStrips(a: string, x: string, b: string)
    requires AllSpace(a) && AllSpace(b)
    requires x != [] && !IsSpace(x[0]) && !IsSpace(x[|x| - 1])
    ensures TrimSpace(a + x + b) == x
  {
    assert (x + b)[0] == x[0];
    TrimLeftSpaces(a, x + b);
    assert a + x + b == a + (x + b);
    TrimRightSpaces(x, b);
  }

  /** A text that neither starts nor ends with white space is left alone by trimming. */
  lemma TrimSpaceKeeps(x: string)
    requires x != [] && !IsSpace(x[0]) && !IsSpace(x[|x| - 1])
    ensures TrimSpace(x) == x
  {
    TrimSpaceStrips([], x, []);
    assert [] + x + [] == x;
  }

  /** `strings.HasPrefix`. */
  predicate HasPrefix(s: string, prefix: string) {
    |prefix| <= |s| && s[..|prefix|] == prefix
  }

  /** `c` does not occur in `s`. */
  predicate Lacks(s: string, c: char) {
    forall i :: 0 <= i < |s| ==> s[i] != c
  }

  /** `strings.Index` for a one-character separator; -1 when it is absent. */
  function IndexOf(s: string, sep: char): (k: int)
    ensures -1 <= k < |s|
    ensures k == -1 ==> Lacks(s, sep)
    ensures k >= 0 ==> s[k] == sep && Lacks(s[..k], sep)
  {
    if s == [] then -1
    else if s[0] == sep then 0
    else
      var k := IndexOf(s[1..], sep);
      if k == -1 then -1 else k + 1
  }

  /**
   * `strings.SplitN(s, sep, 2)`: `None` when the result has fewer than two
   * parts (no separator), otherwise the text before the first separator and
   * the text after it.
   */
  function SplitFirst(s: string, sep: char): (r: Option<(string, string)>)
    ensures r.None? <==> Lacks(s, sep)
    ensures r.Some? ==> s == r.value.0 + [sep] + r.value.1 && Lacks(r.value.0, sep)
    ensures r.Some? ==> s[|s| - 1] == if r.value.1 == [] then sep else r.value.1[|r.value.1| - 1]
  {
    var k := IndexOf(s, sep);
    if k < 0 then None
    else
      assert s == s[..k] + [sep] + s[k + 1..];
      Some((s[..k], s[k + 1..]))
  }

  /** Splitting at the first separator undoes joining at a separator-free head. */
  lemma SplitFirstJoin(a: string, sep: char, b: string)
    requires Lacks(a, sep)
    ensures SplitFirst(a + [sep] + b, sep) == Some((a, b))
  {
    var s := a + [sep] + b;
    assert s[|a|] == sep;
    var k := IndexOf(s, sep);
    assert k == |a|;
    assert s[..k] == a;
    assert s[k + 1..] == b;
  }

  function DecimalValue(ds: string): (v: nat)
    requires forall i :: 0 <= i < |ds| ==> IsDigit(ds[i])
  {
    if ds == [] then 0 else DecimalValue(ds[..|ds| - 1]) * 10 + DigitValue(ds[|ds| - 1])
  }

  predicate AllDigits(ds: string) {
    forall i :: 0 <= i < |ds| ==> IsDigit(ds[i])
  }

  const MinInt64: int := -0x8000_0000_0000_0000
  const MaxInt64: int := 0x7FFF_FFFF_FFFF_FFFF

  predicate IsInt64(n: int) {
    MinInt64 <= n <= MaxInt64
  }

  /**
   * `strconv.Atoi` on a 64-bit platform: an optional `+` or `-` sign, then one
   * or more ASCII digits (leading zeros allowed), and a value that fits in
   * 64 bits; anything else is an error.
   */
  function Atoi(s: string): (r: Option<int>)
    ensures r.Some? ==> IsInt64(r.value)
    ensures r.Some? ==> s != [] && (IsDigit(s[0]) || s[0] == '-' || s[0] == '+')
    ensures s == [] ==> r.None?
  {
    if s == [] then None
    else
      var neg := s[0] == '-';
      var digits := if s[0] == '-' || s[0] == '+' then s[1..] else s;
      if digits == [] || !AllDigits(digits) then None
      else
        var v: int := if neg then -(DecimalValue(digits) as int) else DecimalValue(digits);
        if IsInt64(v) then Some(v) else None
  }

  /** `%d` formatting of a non-negative integer. */
  function NatToDecimal(n: nat): (s: string)
    ensures s != [] && AllDigits(s)
    decreases n
  {
    if n < 10 then [DigitChar(n)] else NatToDecimal(n / 10) + [DigitChar(n % 10)]
  }

  /** `%d` formatting of an integer: a minus sign for negative numbers. */
  function IntToDecimal(n: int): (s: string)
    ensures s != [] && (IsDigit(s[0]) || s[0] == '-')
  {
    if n < 0 then "-" + NatToDecimal(-n) else NatToDecimal(n)
  }

  /** A formatted integer holds only digits and perhaps a leading minus sign. */
  lemma IntToDecimalChars(n: int, c: char)
    requires c != '-' && !IsDigit(c)
    ensures Lacks(IntToDecimal(n), c)
  {
  }

  lemma {:induction false} NatToDecimalValue(n: nat)
    ensures DecimalValue(NatToDecimal(n)) == n
    decreases n
  {
    if n >= 10 {
      NatToDecimalValue(n / 10);
      var s := NatToDecimal(n);
      assert s[..|s| - 1] == NatToDecimal(n / 10);
    }
  }

  /** Parsing what `%d` printed gives the number back, for every 64-bit integer. */
  lemma AtoiIntToDecimal(n: int)
    requires IsInt64(n)
    ensures Atoi(IntToDecimal(n)) == Some(n)
  {
    var s := IntToDecimal(n);
    if n < 0 {
      var digits := NatToDecimal(-n);
      NatToDecimalValue(-n);
      assert s == "-" + digits;
      assert s[0] == '-' && s[1..] == digits;
    } else {
      NatToDecimalValue(n);
      assert s == NatToDecimal(n);
      assert IsDigit(s[0]);
    }
  }
}
