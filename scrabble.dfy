/**
 * The Scrabble score kata (`ScrabbleScore`): upper-case the word, then add up
 * the table value of every letter; characters missing from the table score
 * nothing.
 */
module Scrabble {

  /** The letter table: the points of each upper-case letter. */
  const Values: map<char, nat> := map[
    'A' := 1, 'E' := 1, 'I' := 1, 'O' := 1, 'U' := 1, 'L' := 1, 'N' := 1, 'R' := 1, 'S' := 1, 'T' := 1,
    'D' := 2, 'G' := 2,
    'B' := 3, 'C' := 3, 'M' := 3, 'P' := 3,
    'F' := 4, 'H' := 4, 'V' := 4, 'W' := 4, 'Y' := 4,
    'K' := 5,
    'J' := 8, 'X' := 8,
    'Q' := 10, 'Z' := 10
  ]

  predicate IsUpperAscii(c: char) {
    'A' <= c <= 'Z'
  }

  /**
   * `unicode.ToUpper` as far as the table can tell: the ASCII small letters,
   * and the two other characters whose capital is an ASCII letter (dotless i
   * and long s). Every other character either is its own capital or has a
   * capital outside the table; it is kept as it is.
   */
  function ToUpper(c: char): (u: char)
    ensures 'a' <= c <= 'z' ==> IsUpperAscii(u) && u as int == c as int - 32
    ensures IsUpperAscii(u) ==> IsUpperAscii(c) || 'a' <= c <= 'z' || c == 'ı' || c == 'ſ'
  {
    if 'a' <= c <= 'z' then (c as int - 32) as char
    else if c == 'ı' then 'I'
    else if c == 'ſ' then 'S'
    else c
  }

  /** `strings.ToUpper`, character by character. */
  function Upper(s: string): (u: string)
    ensures |u| == |s| && forall i :: 0 <= i < |s| ==> u[i] == ToUpper(s[i])
  {
    seq(|s|, i requires 0 <= i < |s| => ToUpper(s[i]))
  }

  /** What one (already upper-cased) character scores: its table value, or nothing. */
  function LetterValue(c: char): (v: nat)
    ensures v <= 10
    ensures v == 0 <==> c !in Values
  {
    if c in Values then Values[c] else 0
  }

  /** The points of an upper-cased word: its letters' values added up. */
  function Points(s: string): nat {
    if s == [] then 0 else Points(s[..|s| - 1]) + LetterValue(s[|s| - 1])
  }

  /** The score of a word. */
  function Score(word: string): nat {
    Points(Upper(word))
  }

  /** `ScrabbleScore`: upper-case the word, then add the value of every letter found in the table. */
  method ScrabbleScore(word: string) returns (totalScore: nat)
    ensures totalScore == Score(word)
    ensures totalScore <= 10 * |word|
  {
    totalScore := 0;
    var upper := Upper(word);
    for i := 0 to |upper|
      invariant totalScore == Points(upper[..i])
      invariant totalScore <= 10 * i
    {
      assert upper[..i + 1][..i] == upper[..i];
      var letter := upper[i];
      if letter in Values {
        totalScore := totalScore + Values[letter];
      }
    }
    assert upper[..|upper|] == upper;
  }

  /** The table holds exactly the 26 capital letters. */
  lemma TableIsAlphabet(c: char)
    ensures c in Values <==> IsUpperAscii(c)
  {
  }

  /** Every table value is one of the seven point values of the game. */
  lemma TableValues(c: char)
    requires c in Values
    ensures Values[c] in {1, 2, 3, 4, 5, 8, 10}
  {
  }

  /** The points of a concatenation are the points of the parts. */
  lemma {:induction false} PointsAppend(a: string, b: string)
    ensures Points(a + b) == Points(a) + Points(b)
    decreases |b|
  {
    if b == [] {
      assert a + b == a;
    } else {
      PointsAppend(a, b[..|b| - 1]);
      assert (a + b)[..|a + b| - 1] == a + b[..|b| - 1];
    }
  }

  /** Scoring is additive over concatenation. */
  lemma ScoreAppend(a: string, b: string)
    ensures Score(a + b) == Score(a) + Score(b)
  {
    assert Upper(a + b) == Upper(a) + Upper(b);
    PointsAppend(Upper(a), Upper(b));
  }

  /** No letter is worth more than 10, so a word scores at most 10 per character; the empty word scores 0. */
  lemma {:induction false} PointsBound(s: string)
    ensures Points(s) <= 10 * |s|
    ensures s == [] ==> Points(s) == 0
    decreases |s|
  {
    if s != [] {
      PointsBound(s[..|s| - 1]);
    }
  }

  /** Only table letters count: the points equal the sum over the letters the table holds. */
  lemma {:induction false} PointsIgnoresOthers(a: string, c: char, b: string)
    requires c !in Values
    ensures Points(a + [c] + b) == Points(a + b)
  {
    PointsAppend(a + [c], b);
    PointsAppend(a, [c]);
    assert [c][..0] == [];
    PointsAppend(a, b);
  }

  /** ASCII lower-casing. */
  function ToLower(c: char): (l: char)
    ensures IsUpperAscii(c) ==> 'a' <= l <= 'z'
    ensures !IsUpperAscii(c) ==> l == c
  {
    if IsUpperAscii(c) then (c as int + 32) as char else c
  }

  function Lower(s: string): (l: string)
    ensures |l| == |s| && forall i :: 0 <= i < |s| ==> l[i] == ToLower(s[i])
  {
    seq(|s|, i requires 0 <= i < |s| => ToLower(s[i]))
  }

  /** Scoring ignores case: a word, its lower-case and its upper-case forms score the same. */
  lemma ScoreIgnoresCase(word: string)
    ensures Score(Lower(word)) == Score(word)
    ensures Score(Upper(word)) == Score(word)
  {
    assert Upper(Lower(word)) == Upper(word);
    assert Upper(Upper(word)) == Upper(word);
  }
}
