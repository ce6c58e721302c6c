/**
 * The character frequency program, with its goroutines run one after the
 * other: the text is cut into at most one chunk per CPU, each chunk's
 * characters are counted into a map, the chunk maps are added into one, and
 * the result is listed in character order.
 */
module Frequency {

  /** One line of the printed table: a character and how often it occurs. */
  datatype CharFrequency = CharFrequency(ch: char, count: nat)

  type Counts = map<char, nat>

  /** How often `c` occurs in `s`. */
  function Occurrences(s: string, c: char): (n: nat)
    ensures n <= |s|
  {
    if s == [] then 0 else Occurrences(s[..|s| - 1], c) + (if s[|s| - 1] == c then 1 else 0)
  }

  /** The characters that occur in `s`. */
  function CharSet(s: string): set<char> {
    set i | 0 <= i < |s| :: s[i]
  }

  /** Every character of the text mapped to its number of occurrences, and nothing else. */
  function Frequencies(s: string): Counts {
    map c | c in CharSet(s) :: Occurrences(s, c)
  }

  /** A map entry, zero for an absent key. */
  function Get(m: Counts, c: char): nat {
    if c in m then m[c] else 0
  }

  /** A character occurs exactly when it is one of the text's characters. */
  lemma {:induction false} OccursIffPresent(s: string, c: char)
    ensures Occurrences(s, c) > 0 <==> c in CharSet(s)
    decreases |s|
  {
    if s != [] {
      var init := s[..|s| - 1];
      OccursIffPresent(init, c);
      assert CharSet(s) == CharSet(init) + {s[|s| - 1]} by {
        forall x | x in CharSet(s) ensures x in CharSet(init) + {s[|s| - 1]} {
          var i :| 0 <= i < |s| && s[i] == x;
          if i < |s| - 1 {
            assert init[i] == x;
          }
        }
        forall x | x in CharSet(init) ensures x in CharSet(s) {
          var i :| 0 <= i < |init| && init[i] == x;
          assert s[i] == x;
        }
      }
    }
  }

  /** Counting one more character bumps its entry, creating it at 1 when it is new. */
  lemma FrequenciesSnoc(s: string, x: char)
    ensures Frequencies(s + [x]) == Frequencies(s)[x := Get(Frequencies(s), x) + 1]
  {
    var t := s + [x];
    assert t[..|t| - 1] == s;
    var before, after := Frequencies(s), Frequencies(t);
    var bumped := before[x := Get(before, x) + 1];
    forall c ensures c in after <==> c in bumped {
      OccursIffPresent(s, c);
      OccursIffPresent(t, c);
    }
    forall c | c in after ensures after[c] == bumped[c] {
      OccursIffPresent(s, c);
    }
  }

  /** `countCharacters`: one pass over the text, incrementing the entry of each character. */
  method CountCharacters(text: string) returns (freqMap: Counts)
    ensures freqMap == Frequencies(text)
  {
    freqMap := map[];
    for i := 0 to |text|
      invariant freqMap == Frequencies(text[..i])
    {
      var ch := text[i];
      FrequenciesSnoc(text[..i], ch);
      assert text[..i + 1] == text[..i] + [ch];
      freqMap := freqMap[ch := (if ch in freqMap then freqMap[ch] else 0) + 1];
    }
    assert text[..|text|] == text;
  }

  /** A key is present exactly when its character occurs, and it holds the number of occurrences. */
  lemma FrequenciesMeaning(s: string, c: char)
    ensures c in Frequencies(s) <==> exists i :: 0 <= i < |s| && s[i] == c
    ensures Get(Frequencies(s), c) == Occurrences(s, c)
  {
    OccursIffPresent(s, c);
  }

  /** The sum of the entries of `m` over `keys`. */
  ghost function SumOver(m: Counts, keys: set<char>): nat
    requires keys <= m.Keys
    decreases keys
  {
    if keys == {} then 0
    else
      var k :| k in keys;
      m[k] + SumOver(m, keys - {k})
  }

  /** The sum does not depend on which key is taken first. */
  lemma {:induction false} SumOverPick(m: Counts, keys: set<char>, k: char)
    requires keys <= m.Keys && k in keys
    ensures SumOver(m, keys) == m[k] + SumOver(m, keys - {k})
    decreases keys
  {
    var j :| j in keys && SumOver(m, keys) == m[j] + SumOver(m, keys - {j});
    if j != k {
      SumOverPick(m, keys - {j}, k);
      SumOverPick(m, keys - {k}, j);
      assert keys - {j} - {k} == keys - {k} - {j};
    }
  }

  /** Two maps that agree on the keys give the same sum. */
  lemma {:induction false} SumOverAgree(m1: Counts, m2: Counts, keys: set<char>)
    requires keys <= m1.Keys && keys <= m2.Keys
    requires forall c :: c in keys ==> m1[c] == m2[c]
    ensures SumOver(m1, keys) == SumOver(m2, keys)
    decreases keys
  {
    if keys != {} {
      var k :| k in keys;
      SumOverPick(m1, keys, k);
      SumOverPick(m2, keys, k);
      SumOverAgree(m1, m2, keys - {k});
    }
  }

  /** The sum of all entries. */
  ghost function Total(m: Counts): nat {
    SumOver(m, m.Keys)
  }

  /** Bumping one entry adds one to the total. */
  lemma TotalBump(m: Counts, x: char)
    ensures Total(m[x := Get(m, x) + 1]) == Total(m) + 1
  {
    var m' := m[x := Get(m, x) + 1];
    if x in m {
      assert m'.Keys == m.Keys;
      SumOverPick(m', m.Keys, x);
      SumOverPick(m, m.Keys, x);
      SumOverAgree(m', m, m.Keys - {x});
    } else {
      assert m'.Keys - {x} == m.Keys;
      SumOverPick(m', m'.Keys, x);
      SumOverAgree(m', m, m.Keys);
    }
  }

  /** The counts add up to the length of the text. */
  lemma {:induction false} FrequenciesTotal(s: string)
    ensures Total(Frequencies(s)) == |s|
    decreases |s|
  {
    if s == [] {
      assert Frequencies(s) == map[];
    } else {
      var init := s[..|s| - 1];
      FrequenciesTotal(init);
      FrequenciesSnoc(init, s[|s| - 1]);
      assert init + [s[|s| - 1]] == s;
      TotalBump(Frequencies(init), s[|s| - 1]);
    }
  }

  /** `chunkSize`: the text length divided by the CPU count, rounded up. */
  function ChunkSize(n: nat, numCPU: nat): nat
    requires numCPU > 0
  {
    (n + numCPU - 1) / numCPU
  }

  /** The chunk size is positive for a non-empty text, and that many chunks of it cover the text. */
  lemma ChunkSizeCovers(n: nat, numCPU: nat)
    requires numCPU > 0
    ensures n > 0 ==> ChunkSize(n, numCPU) > 0
    ensures numCPU * ChunkSize(n, numCPU) >= n
  {
    var q, r := (n + numCPU - 1) / numCPU, (n + numCPU - 1) % numCPU;
    assert n + numCPU - 1 == numCPU * q + r && r < numCPU;
  }

  /** Fewer than `numCPU` full chunks end before the end of the text. */
  lemma ChunkCountBound(n: nat, numCPU: nat, k: nat)
    requires numCPU > 0 && n > 0 && k > 0
    requires (k - 1) * ChunkSize(n, numCPU) < n
    ensures k <= numCPU
  {
    var cs := ChunkSize(n, numCPU);
    ChunkSizeCovers(n, numCPU);
    if k > numCPU {
      assert (k - 1) * cs >= numCPU * cs by {
        assert k - 1 >= numCPU;
        MulMono(numCPU, k - 1, cs);
      }
    }
  }

  lemma MulMono(a: nat, b: nat, c: nat)
    requires a <= b
    ensures a * c <= b * c
  {
  }

  /** The chunks joined back together. */
  function Concat(chunks: seq<string>): string {
    if chunks == [] then [] else Concat(chunks[..|chunks| - 1]) + chunks[|chunks| - 1]
  }

  lemma ConcatSnoc(chunks: seq<string>, chunk: string)
    ensures Concat(chunks + [chunk]) == Concat(chunks) + chunk
  {
    assert (chunks + [chunk])[..|chunks|] == chunks;
  }

  lemma MulSucc(a: nat, c: nat)
    ensures (a + 1) * c == a * c + c
  {
  }

  /**
   * The chunking loop of `processTextConcurrently`: consecutive slices of
   * `chunkSize` characters, the last one cut at the end of the text. They
   * partition the text, none is empty or longer than the chunk size, and
   * there are at most `numCPU` of them.
   */
  method SplitChunks(text: string, numCPU: nat) returns (chunks: seq<string>)
    requires numCPU > 0
    ensures Concat(chunks) == text
    ensures forall k :: 0 <= k < |chunks| ==> 0 < |chunks[k]| <= ChunkSize(|text|, numCPU)
    ensures |chunks| <= numCPU
    ensures text == [] ==> chunks == []
  {
    var chunkSize := (|text| + numCPU - 1) / numCPU;
    ChunkSizeCovers(|text|, numCPU);
    chunks := [];
    var i := 0;
    while i < |text|
      invariant i == |chunks| * chunkSize
      invariant i <= |text| ==> Concat(chunks) == text[..i]
      invariant i > |text| ==> Concat(chunks) == text
      invariant forall k :: 0 <= k < |chunks| ==> 0 < |chunks[k]| <= chunkSize
      invariant chunks != [] ==> (|chunks| - 1) * chunkSize < |text|
      decreases |text| - i
    {
      var end := i + chunkSize;
      if end > |text| {
        end := |text|;
      }
      var chunk := text[i..end];
      ConcatSnoc(chunks, chunk);
      assert text[..i] + text[i..end] == text[..end];
      MulSucc(|chunks|, chunkSize);
      chunks := chunks + [chunk];
      i := i + chunkSize;
      if end == |text| {
        assert text[..end] == text;
      }
    }
    if chunks != [] {
      ChunkCountBound(|text|, numCPU, |chunks|);
    }
  }

  /** Adding two count maps entry by entry. */
  function Add(m1: Counts, m2: Counts): (m: Counts)
    ensures m.Keys == m1.Keys + m2.Keys
    ensures forall c :: Get(m, c) == Get(m1, c) + Get(m2, c)
  {
    map c | c in m1.Keys + m2.Keys :: Get(m1, c) + Get(m2, c)
  }

  /** The merge of a sequence of chunk results, in the order given. */
  function MergeAll(results: seq<Counts>): Counts {
    if results == [] then map[] else Add(MergeAll(results[..|results| - 1]), results[|results| - 1])
  }

  /** The inner merge loop: add every entry of `result` into `acc`. */
  method AddInto(acc: Counts, result: Counts) returns (sum: Counts)
    ensures sum == Add(acc, result)
  {
    sum := acc;
    var todo := result.Keys;
    while todo != {}
      invariant todo <= result.Keys
      invariant sum.Keys == acc.Keys + (result.Keys - todo)
      invariant forall c :: Get(sum, c) == Get(acc, c) + (if c in result && c !in todo then result[c] else 0)
      decreases todo
    {
      var ch :| ch in todo;
      sum := sum[ch := Get(sum, ch) + result[ch]];
      todo := todo - {ch};
    }
    MapsEqual(sum, Add(acc, result));
  }

  /** Count maps with the same keys and the same entries are equal. */
  lemma MapsEqual(m1: Counts, m2: Counts)
    requires m1.Keys == m2.Keys && forall c :: Get(m1, c) == Get(m2, c)
    ensures m1 == m2
  {
    forall c | c in m1 ensures m1[c] == m2[c] {
      assert Get(m1, c) == Get(m2, c);
    }
  }

  /** The merge loop of `processTextConcurrently`: add every chunk result into `finalResult`. */
  method Merge(results: seq<Counts>) returns (finalResult: Counts)
    ensures finalResult == MergeAll(results)
  {
    finalResult := map[];
    for k := 0 to |results|
      invariant finalResult == MergeAll(results[..k])
    {
      assert results[..k + 1][..k] == results[..k];
      finalResult := AddInto(finalResult, results[k]);
    }
    assert results[..|results|] == results;
  }

  /** Counting a concatenation is adding the counts of its parts. */
  lemma FrequenciesAppend(a: string, b: string)
    ensures Frequencies(a + b) == Add(Frequencies(a), Frequencies(b))
  {
    var m := Frequencies(a + b);
    var n := Add(Frequencies(a), Frequencies(b));
    forall c ensures Get(m, c) == Get(n, c) && (c in m <==> c in n) {
      FrequenciesMeaning(a + b, c);
      FrequenciesMeaning(a, c);
      FrequenciesMeaning(b, c);
      OccurrencesAppend(a, b, c);
      OccursIffPresent(a + b, c);
      OccursIffPresent(a, c);
      OccursIffPresent(b, c);
    }
    MapsEqual(m, n);
  }

  lemma {:induction false} OccurrencesAppend(a: string, b: string, c: char)
    ensures Occurrences(a + b, c) == Occurrences(a, c) + Occurrences(b, c)
    decreases |b|
  {
    if b == [] {
      assert a + b == a;
    } else {
      OccurrencesAppend(a, b[..|b| - 1], c);
      assert (a + b)[..|a + b| - 1] == a + b[..|b| - 1];
    }
  }

  /** The chunk results, one count map per chunk. */
  function Counted(chunks: seq<string>): (rs: seq<Counts>)
    ensures |rs| == |chunks| && forall k :: 0 <= k < |chunks| ==> rs[k] == Frequencies(chunks[k])
  {
    seq(|chunks|, k requires 0 <= k < |chunks| => Frequencies(chunks[k]))
  }

  /** Merging the chunk results counts the whole text. */
  lemma {:induction false} MergeCounted(chunks: seq<string>)
    ensures MergeAll(Counted(chunks)) == Frequencies(Concat(chunks))
    decreases |chunks|
  {
    if chunks == [] {
      assert Frequencies([]) == map[];
    } else {
      var init := chunks[..|chunks| - 1];
      MergeCounted(init);
      assert Counted(chunks)[..|chunks| - 1] == Counted(init);
      FrequenciesAppend(Concat(init), chunks[|chunks| - 1]);
    }
  }

  /**
   * `processTextConcurrently` run sequentially: cut the text, count each
   * chunk, merge the results. The outcome is the count of the whole text.
   */
  method ProcessText(text: string, numCPU: nat) returns (finalResult: Counts)
    requires numCPU > 0
    ensures finalResult == Frequencies(text)
  {
    var chunks := SplitChunks(text, numCPU);
    var results: seq<Counts> := [];
    for k := 0 to |chunks|
      invariant results == Counted(chunks[..k])
    {
      var chunkResult := CountCharacters(chunks[k]);
      assert Counted(chunks[..k + 1]) == Counted(chunks[..k]) + [chunkResult];
      results := results + [chunkResult];
    }
    assert chunks[..|chunks|] == chunks;
    finalResult := Merge(results);
    MergeCounted(chunks);
  }

  /** An empty text has no chunks and an empty count. */
  lemma EmptyText(numCPU: nat)
    requires numCPU > 0
    ensures ChunkSize(0, numCPU) == 0
    ensures Frequencies([]) == map[]
  {
  }

  lemma AddCommutes(m1: Counts, m2: Counts)
    ensures Add(m1, m2) == Add(m2, m1)
  {
    MapsEqual(Add(m1, m2), Add(m2, m1));
  }

  lemma AddAssociates(m1: Counts, m2: Counts, m3: Counts)
    ensures Add(Add(m1, m2), m3) == Add(m1, Add(m2, m3))
  {
    MapsEqual(Add(Add(m1, m2), m3), Add(m1, Add(m2, m3)));
  }

  /** Adding two results in either order gives the same map. */
  lemma AddSwap(m: Counts, x: Counts, y: Counts)
    ensures Add(Add(m, x), y) == Add(Add(m, y), x)
  {
    MapsEqual(Add(Add(m, x), y), Add(Add(m, y), x));
  }

  /** Merging one more result at the end. */
  lemma MergeSnoc(rs: seq<Counts>, y: Counts)
    ensures MergeAll(rs + [y]) == Add(MergeAll(rs), y)
  {
    assert (rs + [y])[..|rs|] == rs;
  }

  /** A result merged from the middle of the sequence counts as if merged last. */
  lemma {:induction false} MergeMiddle(a: seq<Counts>, x: Counts, b: seq<Counts>)
    ensures MergeAll(a + [x] + b) == Add(MergeAll(a + b), x)
    decreases |b|
  {
    if b == [] {
      assert a + [x] + b == a + [x];
      assert a + b == a;
      MergeSnoc(a, x);
    } else {
      var b' := b[..|b| - 1];
      var y := b[|b| - 1];
      MergeMiddle(a, x, b');
      assert a + [x] + b == (a + [x] + b') + [y];
      assert a + b == (a + b') + [y];
      MergeSnoc(a + [x] + b', y);
      MergeSnoc(a + b', y);
      AddSwap(MergeAll(a + b'), x, y);
    }
  }

  /** Taking the same element out of two equal multisets. */
  lemma MultisetCancel<T>(init: seq<T>, x: T, a: seq<T>, b: seq<T>)
    requires multiset(init + [x]) == multiset(a + [x] + b)
    ensures multiset(init) == multiset(a + b)
  {
    assert multiset(a + [x] + b) == multiset(a) + multiset([x]) + multiset(b);
    assert multiset(init + [x]) == multiset(init) + multiset([x]);
    assert multiset(a + b) == multiset(a) + multiset(b);
    forall y ensures multiset(init)[y] == multiset(a + b)[y] {
      assert multiset(init + [x])[y] == multiset(a + [x] + b)[y];
    }
  }

  /** The merged result is the same whatever order the chunk results arrive in. */
  lemma {:induction false} MergeOrderIrrelevant(rs1: seq<Counts>, rs2: seq<Counts>)
    requires multiset(rs1) == multiset(rs2)
    ensures MergeAll(rs1) == MergeAll(rs2)
    decreases |rs1|
  {
    if rs1 != [] {
      var x := rs1[|rs1| - 1];
      var init := rs1[..|rs1| - 1];
      assert rs1 == init + [x];
      assert x in multiset(rs2);
      var j :| 0 <= j < |rs2| && rs2[j] == x;
      var a, b := rs2[..j], rs2[j + 1..];
      assert rs2 == a + [x] + b;
      MultisetCancel(init, x, a, b);
      MergeOrderIrrelevant(init, a + b);
      MergeMiddle(a, x, b);
    } else {
      assert |multiset(rs2)| == 0;
    }
  }

  /** The entries of a list, as a set. */
  function Elems(list: seq<CharFrequency>): set<CharFrequency> {
    set i | 0 <= i < |list| :: list[i]
  }

  /** The entries of a count map. */
  function EntriesOf(m: Counts): set<CharFrequency> {
    set c | c in m :: CharFrequency(c, m[c])
  }

  /** Ordered by character, with no character twice. */
  predicate StrictlyAscending(list: seq<CharFrequency>) {
    forall i, j :: 0 <= i < j < |list| ==> list[i].ch < list[j].ch
  }

  /** No character twice. */
  predicate DistinctChars(list: seq<CharFrequency>) {
    forall i, j :: 0 <= i < j < |list| ==> list[i].ch != list[j].ch
  }

  /** Putting an entry in front adds it to the entries. */
  lemma ElemsCons(e: CharFrequency, list: seq<CharFrequency>)
    ensures Elems([e] + list) == {e} + Elems(list)
  {
    forall x | x in Elems(list) ensures x in Elems([e] + list) {
      var i :| 0 <= i < |list| && list[i] == x;
      assert ([e] + list)[i + 1] == x;
    }
    assert ([e] + list)[0] == e;
  }

  /** Appending an entry adds it to the entries. */
  lemma ElemsSnoc(list: seq<CharFrequency>, e: CharFrequency)
    ensures Elems(list + [e]) == Elems(list) + {e}
  {
    forall x | x in Elems(list) ensures x in Elems(list + [e]) {
      var i :| 0 <= i < |list| && list[i] == x;
      assert (list + [e])[i] == x;
    }
    assert (list + [e])[|list|] == e;
  }

  /** Put an entry for a new character into its place in an ascending list. */
  function InsertByChar(list: seq<CharFrequency>, e: CharFrequency): (r: seq<CharFrequency>)
    requires StrictlyAscending(list) && forall i :: 0 <= i < |list| ==> list[i].ch != e.ch
    ensures StrictlyAscending(r)
    ensures Elems(r) == Elems(list) + {e}
    ensures |r| == |list| + 1
    ensures r[0] == if list == [] || e.ch < list[0].ch then e else list[0]
  {
    if list == [] then
      assert Elems([e]) == {e} by { assert [e][0] == e; }
      [e]
    else if e.ch < list[0].ch then
      ElemsCons(e, list);
      [e] + list
    else
      var rest := InsertByChar(list[1..], e);
      ElemsCons(list[0], list[1..]);
      assert [list[0]] + list[1..] == list;
      ElemsCons(list[0], rest);
      [list[0]] + rest
  }

  /** `sort.Slice` by character, on a list with distinct characters: the same entries, in ascending order. */
  method SortByChar(unsorted: seq<CharFrequency>) returns (sorted: seq<CharFrequency>)
    requires DistinctChars(unsorted)
    ensures StrictlyAscending(sorted)
    ensures Elems(sorted) == Elems(unsorted)
  {
    sorted := [];
    for i := 0 to |unsorted|
      invariant StrictlyAscending(sorted)
      invariant Elems(sorted) == Elems(unsorted[..i])
    {
      forall j | 0 <= j < |sorted| ensures sorted[j].ch != unsorted[i].ch {
        assert sorted[j] in Elems(unsorted[..i]);
      }
      ElemsSnoc(unsorted[..i], unsorted[i]);
      assert unsorted[..i + 1] == unsorted[..i] + [unsorted[i]];
      sorted := InsertByChar(sorted, unsorted[i]);
    }
    assert unsorted[..|unsorted|] == unsorted;
  }

  /** The list `printFrequencies` builds: one entry per map key, in map order. */
  method CollectEntries(freqMap: Counts) returns (freqList: seq<CharFrequency>)
    ensures DistinctChars(freqList)
    ensures Elems(freqList) == EntriesOf(freqMap)
  {
    freqList := [];
    var todo := freqMap.Keys;
    while todo != {}
      invariant todo <= freqMap.Keys
      invariant DistinctChars(freqList)
      invariant forall i :: 0 <= i < |freqList| ==> freqList[i].ch !in todo
      invariant Elems(freqList) == EntriesOf(freqMap) - set c | c in todo :: CharFrequency(c, freqMap[c])
      decreases todo
    {
      var ch :| ch in todo;
      var e := CharFrequency(ch, freqMap[ch]);
      ElemsSnoc(freqList, e);
      freqList := freqList + [e];
      todo := todo - {ch};
    }
  }

  /**
   * The table `printFrequencies` prints: exactly the map's entries, in
   * strictly ascending character order.
   */
  method FrequencyList(freqMap: Counts) returns (freqList: seq<CharFrequency>)
    ensures StrictlyAscending(freqList)
    ensures Elems(freqList) == EntriesOf(freqMap)
  {
    var unsorted := CollectEntries(freqMap);
    freqList := SortByChar(unsorted);
  }

  /** A strictly ascending list of a map's entries lists each key once, at one position. */
  lemma ListedOnce(freqList: seq<CharFrequency>, freqMap: Counts, c: char)
    requires StrictlyAscending(freqList) && Elems(freqList) == EntriesOf(freqMap)
    ensures c in freqMap ==> exists i :: 0 <= i < |freqList| && freqList[i] == CharFrequency(c, freqMap[c])
    ensures forall i, j :: 0 <= i < |freqList| && 0 <= j < |freqList| && freqList[i].ch == c && freqList[j].ch == c ==> i == j
  {
    if c in freqMap {
      assert CharFrequency(c, freqMap[c]) in EntriesOf(freqMap);
    }
  }
}
