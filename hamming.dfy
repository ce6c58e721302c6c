/**
 * The Hamming distance kata: the number of positions at which two DNA strands
 * of the same length differ, and the generator of random strands over the
 * four bases. Strands are compared character by character; the strands the
 * kata uses are ASCII, where a character is one byte.
 */
module Hamming {

  /** The differing positions, counted from the left end up to the last position. */
  function Mismatches(a: string, b: string): (d: nat)
    requires |a| == |b|
    ensures d <= |a|
  {
    if a == [] then 0
    else Mismatches(a[..|a| - 1], b[..|b| - 1]) + (if a[|a| - 1] != b[|b| - 1] then 1 else 0)
  }

  /** The positions at which the strands differ. */
  ghost function DiffPositions(a: string, b: string): set<nat>
    requires |a| == |b|
  {
    set i: nat | i < |a| && a[i] != b[i]
  }

  /**
   * `HammingDistance`: walk both strands and count the positions that differ.
   * The original panics on strands of different lengths; here equal lengths
   * are required instead.
   */
  method HammingDistance(dna1: string, dna2: string) returns (distance: nat)
    requires |dna1| == |dna2|
    ensures distance == Mismatches(dna1, dna2)
    ensures distance <= |dna1|
  {
    distance := 0;
    var i := 0;
    while i < |dna1|
      invariant 0 <= i <= |dna1|
      invariant distance == Mismatches(dna1[..i], dna2[..i])
    {
      assert dna1[..i + 1][..i] == dna1[..i] && dna2[..i + 1][..i] == dna2[..i];
      if dna1[i] != dna2[i] {
        distance := distance + 1;
      }
      i := i + 1;
    }
    assert dna1[..i] == dna1 && dna2[..i] == dna2;
  }

  /** The count is exactly the number of differing positions. */
  lemma {:induction false} MismatchesCountsPositions(a: string, b: string)
    requires |a| == |b|
    ensures Mismatches(a, b) == |DiffPositions(a, b)|
    decreases |a|
  {
    if a != [] {
      var n := |a| - 1;
      var a', b' := a[..n], b[..n];
      MismatchesCountsPositions(a', b');
      var before := DiffPositions(a', b');
      assert n !in before;
      if a[n] != b[n] {
        assert DiffPositions(a, b) == before + {n};
      } else {
        assert DiffPositions(a, b) == before;
      }
    }
  }

  /** The distance is zero exactly when the strands are identical. */
  lemma {:induction false} MismatchesZeroIffEqual(a: string, b: string)
    requires |a| == |b|
    ensures Mismatches(a, b) == 0 <==> a == b
    decreases |a|
  {
    if a != [] {
      var n := |a| - 1;
      MismatchesZeroIffEqual(a[..n], b[..n]);
      if a[..n] == b[..n] && a[n] == b[n] {
        assert a == a[..n] + [a[n]] && b == b[..n] + [b[n]];
      }
    }
  }

  /** Swapping the strands does not change the distance. */
  lemma {:induction false} MismatchesSymmetric(a: string, b: string)
    requires |a| == |b|
    ensures Mismatches(a, b) == Mismatches(b, a)
    decreases |a|
  {
    if a != [] {
      MismatchesSymmetric(a[..|a| - 1], b[..|b| - 1]);
    }
  }

  /** The distance of two concatenations is the sum of the distances of the parts. */
  lemma {:induction false} MismatchesAppend(a1: string, a2: string, b1: string, b2: string)
    requires |a1| == |b1| && |a2| == |b2|
    ensures Mismatches(a1 + a2, b1 + b2) == Mismatches(a1, b1) + Mismatches(a2, b2)
    decreases |a2|
  {
    if a2 == [] {
      assert a1 + a2 == a1 && b1 + b2 == b1;
    } else {
      var n := |a2| - 1;
      MismatchesAppend(a1, a2[..n], b1, b2[..n]);
      assert (a1 + a2)[..|a1| + n] == a1 + a2[..n];
      assert (b1 + b2)[..|b1| + n] == b1 + b2[..n];
    }
  }

  /** The distance is a metric: going through a third strand is never shorter. */
  lemma {:induction false} MismatchesTriangle(a: string, b: string, c: string)
    requires |a| == |b| == |c|
    ensures Mismatches(a, c) <= Mismatches(a, b) + Mismatches(b, c)
    decreases |a|
  {
    if a != [] {
      var n := |a| - 1;
      MismatchesTriangle(a[..n], b[..n], c[..n]);
    }
  }

  /** Whether one position differs, as a count. */
  function Differs(x: char, y: char): nat {
    if x != y then 1 else 0
  }

  /** Adding one position to both strands adds whether it differs. */
  lemma MismatchesSnoc(a: string, b: string, x: char, y: char)
    requires |a| == |b|
    ensures Mismatches(a + [x], b + [y]) == Mismatches(a, b) + Differs(x, y)
  {
    assert (a + [x])[..|a|] == a && (b + [y])[..|b|] == b;
  }

  /** The distance of two four-base strands, position by position. */
  lemma Mismatches4(a: string, b: string)
    requires |a| == 4 && |b| == 4
    ensures Mismatches(a, b) == Differs(a[0], b[0]) + Differs(a[1], b[1]) + Differs(a[2], b[2]) + Differs(a[3], b[3])
  {
    forall k | 0 <= k < 4
      ensures Mismatches(a[..k + 1], b[..k + 1]) == Mismatches(a[..k], b[..k]) + Differs(a[k], b[k])
    {
      assert a[..k + 1] == a[..k] + [a[k]] && b[..k + 1] == b[..k] + [b[k]];
      MismatchesSnoc(a[..k], b[..k], a[k], b[k]);
    }
    assert a[..4] == a && b[..4] == b;
  }

  lemma SampleFirstHalf(a: string, b: string)
    requires a == "GAGCCTAC" && b == "CATCGTAA"
    ensures Mismatches(a, b) == 4
  {
    assert a == "GAGC" + "CTAC" && b == "CATC" + "GTAA";
    Mismatches4("GAGC", "CATC");
    Mismatches4("CTAC", "GTAA");
    MismatchesAppend("GAGC", "CTAC", "CATC", "GTAA");
  }

  lemma SampleSecondHalf(a: string, b: string)
    requires a == "TAACGGGAT" && b == "TGACGGCCT"
    ensures Mismatches(a, b) == 3
  {
    assert a == "TAAC" + "GGGA" + "T" && b == "TGAC" + "GGCC" + "T";
    Mismatches4("TAAC", "TGAC");
    Mismatches4("GGGA", "GGCC");
    MismatchesAppend("TAAC", "GGGA", "TGAC", "GGCC");
    MismatchesSnoc("TAAC" + "GGGA", "TGAC" + "GGCC", 'T', 'T');
  }

  /** The kata's sample pair of strands is at distance 7. */
  lemma SampleDistance()
    ensures Mismatches("GAGCCTACTAACGGGAT", "CATCGTAATGACGGCCT") == 7
  {
    SampleFirstHalf("GAGCCTAC", "CATCGTAA");
    SampleSecondHalf("TAACGGGAT", "TGACGGCCT");
    MismatchesAppend("GAGCCTAC", "TAACGGGAT", "CATCGTAA", "TGACGGCCT");
    assert "GAGCCTAC" + "TAACGGGAT" == "GAGCCTACTAACGGGAT";
    assert "CATCGTAA" + "TGACGGCCT" == "CATCGTAATGACGGCCT";
  }

  /** The four DNA bases, in the order the generator indexes them. */
  const Bases: string := "ACGT"

  predicate IsBase(c: char) {
    c == 'A' || c == 'C' || c == 'G' || c == 'T'
  }

  /**
   * `RandomDNA(length)`: a strand of `length` bases, the i-th being the base
   * the i-th draw of `rand.Intn(4)` picks; the draws are supplied.
   */
  method RandomDNA(length: nat, picks: seq<nat>) returns (dna: string)
    requires length <= |picks| && forall i :: 0 <= i < |picks| ==> picks[i] < 4
    ensures |dna| == length
    ensures forall i :: 0 <= i < length ==> dna[i] == Bases[picks[i]] && IsBase(dna[i])
  {
    var buf := new char[length];
    for i := 0 to length
      invariant forall j :: 0 <= j < i ==> buf[j] == Bases[picks[j]] && IsBase(buf[j])
    {
      buf[i] := Bases[picks[i]];
    }
    dna := buf[..];
  }

  /** The draw that picks base `c`. */
  function BaseIndex(c: char): (k: nat)
    requires IsBase(c)
    ensures k < 4 && Bases[k] == c
  {
    if c == 'A' then 0 else if c == 'C' then 1 else if c == 'G' then 2 else 3
  }

  /** Every strand of bases arises from some draws, so the generator misses none. */
  lemma RandomDNAReachesAll(dna: string)
    requires forall i :: 0 <= i < |dna| ==> IsBase(dna[i])
    ensures exists picks: seq<nat> :: |picks| == |dna| && forall i :: 0 <= i < |dna| ==> picks[i] < 4 && Bases[picks[i]] == dna[i]
  {
    var picks := seq(|dna|, i requires 0 <= i < |dna| => BaseIndex(dna[i]));
    forall i | 0 <= i < |dna|
      ensures picks[i] < 4 && Bases[picks[i]] == dna[i]
    {
      assert picks[i] == BaseIndex(dna[i]);
    }
    assert |picks| == |dna| && forall i :: 0 <= i < |dna| ==> picks[i] < 4 && Bases[picks[i]] == dna[i];
  }
}
