/**
 * The Luhn checksum kata (`isValidLuhn`): keep the digits of the input,
 * reject ten or fewer, then add them up from the right, doubling every second
 * one (a doubled digit above 9 loses 9), and accept a total divisible by 10.
 */
module Luhn {
  import opened Strings

  /** The digits of `s`, in order; every other character is skipped. */
  function Digits(s: string): (ds: seq<nat>)
    ensures |ds| <= |s|
    ensures forall i :: 0 <= i < |ds| ==> ds[i] < 10
  {
    if s == [] then []
    else Digits(s[..|s| - 1]) + (if IsDigit(s[|s| - 1]) then [DigitValue(s[|s| - 1])] else [])
  }

  /**
   * What one digit adds to the total: itself, or when doubled, twice itself
   * reduced to a single digit, which is twice itself modulo 9 except for 9.
   */
  function Contribution(d: nat, double: bool): (n: nat)
    requires d < 10
    ensures n < 10
    ensures !double ==> n == d
    ensures double ==> n == if d == 9 then 9 else 2 * d % 9
  {
    if double then (if 2 * d > 9 then 2 * d - 9 else 2 * d) else d
  }

  /** The total of the digits read from the right, the last one doubled when `double` holds. */
  function Weighted(ds: seq<nat>, double: bool): nat
    requires forall i :: 0 <= i < |ds| ==> ds[i] < 10
  {
    if ds == [] then 0
    else Contribution(ds[|ds| - 1], double) + Weighted(ds[..|ds| - 1], !double)
  }

  /** The Luhn total: the rightmost digit is not doubled. */
  function LuhnSum(ds: seq<nat>): nat
    requires forall i :: 0 <= i < |ds| ==> ds[i] < 10
  {
    Weighted(ds, false)
  }

  /** Whether `number` passes the check. */
  predicate LuhnValid(number: string) {
    |Digits(number)| > 10 && LuhnSum(Digits(number)) % 10 == 0
  }

  /** `isValidLuhn`: collect the digits, then total them from the right. */
  method IsValidLuhn(number: string) returns (valid: bool)
    ensures valid == LuhnValid(number)
    ensures |Digits(number)| <= 10 ==> !valid
  {
    var digits: seq<nat> := [];
    var i := 0;
    while i < |number|
      invariant 0 <= i <= |number|
      invariant digits == Digits(number[..i])
    {
      assert number[..i + 1][..i] == number[..i];
      if IsDigit(number[i]) {
        digits := digits + [DigitValue(number[i])];
      }
      i := i + 1;
    }
    assert number[..|number|] == number;
    if |digits| <= 10 {
      return false;
    }
    assert digits[..|digits|] == digits;
    var sum := 0;
    var double := false;
    var k := |digits|;
    while k > 0
      invariant 0 <= k <= |digits|
      invariant sum + Weighted(digits[..k], double) == LuhnSum(digits)
      decreases k
    {
      k := k - 1;
      assert digits[..k + 1][..k] == digits[..k];
      var n := digits[k];
      if double {
        n := n * 2;
        if n > 9 {
          n := n - 9;
        }
      }
      sum := sum + n;
      double := !double;
    }
    valid := sum % 10 == 0;
  }

  /** The digits of a concatenation are the digits of its parts. */
  lemma {:induction false} DigitsAppend(a: string, b: string)
    ensures Digits(a + b) == Digits(a) + Digits(b)
    decreases |b|
  {
    if b != [] {
      var b' := b[..|b| - 1];
      DigitsAppend(a, b');
      assert (a + b)[..|a + b| - 1] == a + b';
    } else {
      assert a + b == a;
    }
  }

  /** Only digits matter: inserting any other character does not change the verdict. */
  lemma LuhnIgnoresNonDigit(a: string, c: char, b: string)
    requires !IsDigit(c)
    ensures LuhnValid(a + [c] + b) == LuhnValid(a + b)
  {
    assert Digits([c]) == [] by {
      assert [c][..0] == [];
    }
    DigitsAppend(a, [c]);
    assert Digits(a + [c]) == Digits(a);
    DigitsAppend(a + [c], b);
    DigitsAppend(a, b);
  }

  /** Whether position `i` of `n` digits is doubled: counting from the right, every second one. */
  predicate DoubledAt(n: nat, i: nat, double: bool) {
    ((n - 1 - i) % 2 == 1) != double
  }

  /** The first `k` digits' contributions, each doubled according to its distance from the right end of `n` digits. */
  function Positional(ds: seq<nat>, k: nat, n: nat, double: bool): nat
    requires k <= |ds| && forall i :: 0 <= i < |ds| ==> ds[i] < 10
  {
    if k == 0 then 0
    else Positional(ds, k - 1, n, double) + Contribution(ds[k - 1], DoubledAt(n, k - 1, double))
  }

  lemma {:induction false} PositionalPrefix(ds: seq<nat>, k: nat, n: nat, double: bool)
    requires 0 < |ds| && k < |ds| && 0 < n && forall i :: 0 <= i < |ds| ==> ds[i] < 10
    ensures Positional(ds[..|ds| - 1], k, n - 1, !double) == Positional(ds, k, n, double)
    decreases k
  {
    if k > 0 {
      PositionalPrefix(ds, k - 1, n, double);
      assert DoubledAt(n - 1, k - 1, !double) == DoubledAt(n, k - 1, double);
    }
  }

  /**
   * The right-to-left loop equals a position-by-position sum: the rightmost
   * digit is undoubled and doubling alternates from there.
   */
  lemma {:induction false} WeightedPositional(ds: seq<nat>, double: bool)
    requires forall i :: 0 <= i < |ds| ==> ds[i] < 10
    ensures Weighted(ds, double) == Positional(ds, |ds|, |ds|, double)
    decreases |ds|
  {
    if ds != [] {
      var init := ds[..|ds| - 1];
      WeightedPositional(init, !double);
      PositionalPrefix(ds, |init|, |ds|, double);
    }
  }

  /** Four more positions of the position-by-position sum. */
  lemma PositionalFour(ds: seq<nat>, k: nat, n: nat, double: bool)
    requires k + 4 <= |ds| && forall i :: 0 <= i < |ds| ==> ds[i] < 10
    ensures Positional(ds, k + 4, n, double) == Positional(ds, k, n, double)
      + Contribution(ds[k], DoubledAt(n, k, double)) + Contribution(ds[k + 1], DoubledAt(n, k + 1, double))
      + Contribution(ds[k + 2], DoubledAt(n, k + 2, double)) + Contribution(ds[k + 3], DoubledAt(n, k + 3, double))
  {
    assert Positional(ds, k + 1, n, double) == Positional(ds, k, n, double) + Contribution(ds[k], DoubledAt(n, k, double));
    assert Positional(ds, k + 2, n, double) == Positional(ds, k + 1, n, double) + Contribution(ds[k + 1], DoubledAt(n, k + 1, double));
    assert Positional(ds, k + 3, n, double) == Positional(ds, k + 2, n, double) + Contribution(ds[k + 2], DoubledAt(n, k + 2, double));
  }

  /** A space between two groups of a card number adds no digit. */
  lemma DigitsSpaced(prefix: string, group: string)
    ensures Digits(prefix + " " + group) == Digits(prefix) + Digits(group)
  {
    assert (prefix + " ")[..|prefix|] == prefix;
    DigitsAppend(prefix + " ", group);
  }

  /** The digits of two groups joined by a space, given the digits of each. */
  lemma PairDigits(g1: string, g2: string, d1: seq<nat>, d2: seq<nat>)
    requires Digits(g1) == d1 && Digits(g2) == d2
    ensures Digits(g1 + " " + g2) == d1 + d2
  {
    DigitsSpaced(g1, g2);
  }

  /** A string of digits keeps all of them. */
  lemma {:induction false} DigitsOfDigits(s: string)
    requires AllDigits(s)
    ensures |Digits(s)| == |s| && forall i :: 0 <= i < |s| ==> Digits(s)[i] == DigitValue(s[i])
  {
    if s != [] {
      DigitsOfDigits(s[..|s| - 1]);
    }
  }

  lemma DigitsOf4(g: string, a: nat, b: nat, c: nat, d: nat)
    requires |g| == 4 && AllDigits(g)
    requires DigitValue(g[0]) == a && DigitValue(g[1]) == b && DigitValue(g[2]) == c && DigitValue(g[3]) == d
    ensures Digits(g) == [a, b, c, d]
  {
    DigitsOfDigits(g);
  }

  lemma GroupedHead()
    ensures Digits("4539 3195") == [4, 5, 3, 9, 3, 1, 9, 5]
  {
    assert "4539" + " " + "3195" == "4539 3195";
    assert Digits("4539") == [4, 5, 3, 9] by {
      DigitsOf4("4539", 4, 5, 3, 9);
    }
    assert Digits("3195") == [3, 1, 9, 5] by {
      DigitsOf4("3195", 3, 1, 9, 5);
    }
    PairDigits("4539", "3195", [4, 5, 3, 9], [3, 1, 9, 5]);
  }

  lemma GroupedTail()
    ensures Digits("0343 6467") == [0, 3, 4, 3, 6, 4, 6, 7]
  {
    assert "0343" + " " + "6467" == "0343 6467";
    assert Digits("0343") == [0, 3, 4, 3] by {
      DigitsOf4("0343", 0, 3, 4, 3);
    }
    assert Digits("6467") == [6, 4, 6, 7] by {
      DigitsOf4("6467", 6, 4, 6, 7);
    }
    PairDigits("0343", "6467", [0, 3, 4, 3], [6, 4, 6, 7]);
  }

  /** The digits of the first grouped test number. */
  lemma GroupedDigits()
    ensures Digits("4539 3195 0343 6467") == [4, 5, 3, 9, 3, 1, 9, 5, 0, 3, 4, 3, 6, 4, 6, 7]
  {
    GroupedHead();
    GroupedTail();
    PairDigits("4539 3195", "0343 6467", [4, 5, 3, 9, 3, 1, 9, 5], [0, 3, 4, 3, 6, 4, 6, 7]);
    assert "4539 3195" + " " + "0343 6467" == "4539 3195 0343 6467";
  }

  lemma GroupedTotal(a: seq<nat>)
    requires a == [4, 5, 3, 9, 3, 1, 9, 5, 0, 3, 4, 3, 6, 4, 6, 7]
    ensures LuhnSum(a) == 80
  {
    WeightedPositional(a, false);
    PositionalFour(a, 0, 16, false);
    assert Positional(a, 4, 16, false) == 28;
    PositionalFour(a, 4, 16, false);
    assert Positional(a, 8, 16, false) == 49;
    PositionalFour(a, 8, 16, false);
    assert Positional(a, 12, 16, false) == 63;
    PositionalFour(a, 12, 16, false);
  }

  /** From the kata's test list: a valid sixteen-digit number written in groups. */
  lemma SampleGrouped()
    ensures LuhnValid("4539 3195 0343 6467")
  {
    GroupedDigits();
    GroupedTotal([4, 5, 3, 9, 3, 1, 9, 5, 0, 3, 4, 3, 6, 4, 6, 7]);
  }

  lemma GroupedInvalidHead()
    ensures Digits("8273 1232") == [8, 2, 7, 3, 1, 2, 3, 2]
  {
    assert "8273" + " " + "1232" == "8273 1232";
    assert Digits("8273") == [8, 2, 7, 3] by {
      DigitsOf4("8273", 8, 2, 7, 3);
    }
    assert Digits("1232") == [1, 2, 3, 2] by {
      DigitsOf4("1232", 1, 2, 3, 2);
    }
    PairDigits("8273", "1232", [8, 2, 7, 3], [1, 2, 3, 2]);
  }

  lemma GroupedInvalidTail()
    ensures Digits("7352 0569") == [7, 3, 5, 2, 0, 5, 6, 9]
  {
    assert "7352" + " " + "0569" == "7352 0569";
    assert Digits("7352") == [7, 3, 5, 2] by {
      DigitsOf4("7352", 7, 3, 5, 2);
    }
    assert Digits("0569") == [0, 5, 6, 9] by {
      DigitsOf4("0569", 0, 5, 6, 9);
    }
    PairDigits("7352", "0569", [7, 3, 5, 2], [0, 5, 6, 9]);
  }

  /** The digits of the second grouped test number. */
  lemma GroupedInvalidDigits()
    ensures Digits("8273 1232 7352 0569") == [8, 2, 7, 3, 1, 2, 3, 2, 7, 3, 5, 2, 0, 5, 6, 9]
  {
    GroupedInvalidHead();
    GroupedInvalidTail();
    PairDigits("8273 1232", "7352 0569", [8, 2, 7, 3, 1, 2, 3, 2], [7, 3, 5, 2, 0, 5, 6, 9]);
    assert "8273 1232" + " " + "7352 0569" == "8273 1232 7352 0569";
  }

  lemma GroupedInvalidTotal(b: seq<nat>)
    requires b == [8, 2, 7, 3, 1, 2, 3, 2, 7, 3, 5, 2, 0, 5, 6, 9]
    ensures LuhnSum(b) == 57
  {
    WeightedPositional(b, false);
    PositionalFour(b, 0, 16, false);
    assert Positional(b, 4, 16, false) == 17;
    PositionalFour(b, 4, 16, false);
    assert Positional(b, 8, 16, false) == 29;
    PositionalFour(b, 8, 16, false);
    assert Positional(b, 12, 16, false) == 40;
    PositionalFour(b, 12, 16, false);
  }

  /** From the kata's test list: an invalid sixteen-digit number (its total is 57). */
  lemma SampleGroupedInvalid()
    ensures !LuhnValid("8273 1232 7352 0569")
  {
    GroupedInvalidDigits();
    GroupedInvalidTotal([8, 2, 7, 3, 1, 2, 3, 2, 7, 3, 5, 2, 0, 5, 6, 9]);
  }

  lemma ShortDigits()
    ensures Digits("79927398713") == [7, 9, 9, 2, 7, 3, 9, 8, 7, 1, 3]
  {
    DigitsOfDigits("79927398713");
  }

  lemma ShortTotal(c: seq<nat>)
    requires c == [7, 9, 9, 2, 7, 3, 9, 8, 7, 1, 3]
    ensures LuhnSum(c) == 70
  {
    WeightedPositional(c, false);
    PositionalFour(c, 0, 11, false);
    assert Positional(c, 4, 11, false) == 29;
    PositionalFour(c, 4, 11, false);
    assert Positional(c, 8, 11, false) == 58;
    assert Positional(c, 9, 11, false) == 58 + Contribution(c[8], DoubledAt(11, 8, false));
    assert Positional(c, 10, 11, false) == Positional(c, 9, 11, false) + Contribution(c[9], DoubledAt(11, 9, false));
  }

  /** From the kata's test list: the classic eleven-digit example is valid (its total is 70). */
  lemma SampleShort()
    ensures LuhnValid("79927398713")
  {
    ShortDigits();
    ShortTotal([7, 9, 9, 2, 7, 3, 9, 8, 7, 1, 3]);
  }
}
