/**
 * What `countMatchingWords` computes, shared by both entry points: the
 * dispatch on the quote test, the per-word test of each pattern kind, the
 * number of matching words, and the pattern -> count table the batch
 * builds.
 */
module Counter {
  import opened Parser
  import opened Matcher

  /** The one runtime error the core can raise: `substring(1, 0)` on the lone pattern `"`. */
  datatype Error = StringIndexOutOfBounds(begin: int, end: int)

  datatype Result<T> = Ok(value: T) | Err(error: Error)

  /** The two kinds of pattern `countMatchingWords` tells apart. */
  datatype Pattern = Substring(sequence: string) | Frequency(requirements: map<char, int>)

  /** `startsWith("\"") && endsWith("\"")`; a lone quote passes both. */
  predicate IsQuoted(raw: string) {
    |raw| >= 1 && raw[0] == '"' && raw[|raw| - 1] == '"'
  }

  /** `String.contains`: `s` occurs in `word` at some position. */
  predicate Contains(word: string, s: string) {
    exists i :: 0 <= i <= |word| - |s| && word[i..][..|s|] == s
  }

  /**
   * The dispatch at the head of `countMatchingWords`: a quoted pattern is a
   * substring search on its inner text, anything else a frequency search on
   * the parsed map; the lone quote fails in `substring(1, 0)`.
   */
  function ParsePattern(raw: string): (r: Result<Pattern>)
    ensures r.Err? <==> raw == "\""
    ensures r.Err? ==> r.error == StringIndexOutOfBounds(1, 0)
    ensures r.Ok? && r.value.Substring? ==> IsQuoted(raw) && raw == "\"" + r.value.sequence + "\""
    ensures r.Ok? && r.value.Frequency? ==> !IsQuoted(raw) && r.value.requirements == CharCount(raw)
  {
    if IsQuoted(raw) then
      if |raw| < 2 then Err(StringIndexOutOfBounds(1, |raw| - 1))
      else
        assert raw == [raw[0]] + raw[1..|raw| - 1] + [raw[|raw| - 1]];
        Ok(Substring(raw[1..|raw| - 1]))
    else Ok(Frequency(CharCount(raw)))
  }

  /** The test applied to each word. */
  predicate WordMatches(word: string, p: Pattern) {
    match p
    case Substring(s) => Contains(word, s)
    case Frequency(m) => Matches(word, m)
  }

  /** The matching words, in their original order. */
  function Filter(words: seq<string>, p: Pattern): (r: seq<string>)
    ensures |r| <= |words|
    ensures forall w :: w in r ==> w in words && WordMatches(w, p)
    ensures forall w :: w in words && WordMatches(w, p) ==> w in r
  {
    if words == [] then []
    else
      var init := words[..|words| - 1];
      var w := words[|words| - 1];
      assert words == init + [w];
      Filter(init, p) + if WordMatches(w, p) then [w] else []
  }

  /** What `countMatchingWords(words, raw)` returns, or the error it throws. */
  function MatchCount(words: seq<string>, raw: string): (r: Result<nat>)
    ensures r.Err? <==> raw == "\""
    ensures r.Ok? ==> r.value <= |words|
    ensures r.Ok? && words == [] ==> r.value == 0
  {
    match ParsePattern(raw)
    case Err(e) => Err(e)
    case Ok(p) => Ok(|Filter(words, p)|)
  }

  // ---------------------------------------------------------------------
  // Order-insensitivity of the count
  // ---------------------------------------------------------------------

  /** Each word appears among the matches exactly as often as in the input when it matches, else never. */
  lemma {:induction false} FilterMultiplicity(words: seq<string>, p: Pattern, w: string)
    ensures multiset(Filter(words, p))[w] == if WordMatches(w, p) then multiset(words)[w] else 0
    decreases |words|
  {
    if words != [] {
      var init := words[..|words| - 1];
      var last := words[|words| - 1];
      assert words == init + [last];
      FilterMultiplicity(init, p, w);
    }
  }

  /** Reordering the words does not change the count. */
  lemma CountIgnoresOrder(ws1: seq<string>, ws2: seq<string>, p: Pattern)
    requires multiset(ws1) == multiset(ws2)
    ensures |Filter(ws1, p)| == |Filter(ws2, p)|
  {
    forall w
      ensures multiset(Filter(ws1, p))[w] == multiset(Filter(ws2, p))[w]
    {
      FilterMultiplicity(ws1, p, w);
      FilterMultiplicity(ws2, p, w);
    }
    assert multiset(Filter(ws1, p)) == multiset(Filter(ws2, p));
  }

  /** The positions 0 .. n-1, the tasks a parallel loop over n items starts with. */
  function Positions(n: nat): (s: set<int>)
    ensures forall j :: j in s <==> 0 <= j < n
  {
    if n == 0 then {} else Positions(n - 1) + {n - 1}
  }

  /** The positions of the matching words. */
  function MatchingIndices(words: seq<string>, p: Pattern): set<int> {
    set j | 0 <= j < |words| && WordMatches(words[j], p)
  }

  /** The matching positions of a sequence extended by one word. */
  lemma IndicesSnoc(words: seq<string>, p: Pattern)
    requires words != []
    ensures var n := |words| - 1;
      MatchingIndices(words, p) == MatchingIndices(words[..n], p) + (if WordMatches(words[n], p) then {n} else {})
  {
    var n := |words| - 1;
    forall j | 0 <= j < n
      ensures words[j] == words[..n][j]
    {
    }
  }

  /** Counting matching positions, in any order, gives the count. */
  lemma {:induction false} IndicesCount(words: seq<string>, p: Pattern)
    ensures |MatchingIndices(words, p)| == |Filter(words, p)|
    decreases |words|
  {
    if words != [] {
      var n := |words| - 1;
      var init := words[..n];
      IndicesCount(init, p);
      IndicesSnoc(words, p);
      assert n !in MatchingIndices(init, p);
      assert |Filter(words, p)| == |Filter(init, p)| + if WordMatches(words[n], p) then 1 else 0;
    }
  }

  // ---------------------------------------------------------------------
  // Edge cases of the dispatch
  // ---------------------------------------------------------------------

  /** The empty sequence occurs in every word. */
  lemma ContainsEmpty(word: string)
    ensures Contains(word, [])
  {
    assert word[0..][..0] == [];
  }

  /** The pattern `""` (two quotes) counts every word. */
  lemma {:induction false} EmptyQuotedCountsAll(words: seq<string>)
    ensures MatchCount(words, "\"\"") == Ok(|words|)
  {
    assert "\"\""[1..1] == [];
    FilterAll(words);
  }

  lemma {:induction false} FilterAll(words: seq<string>)
    ensures Filter(words, Substring([])) == words
    decreases |words|
  {
    if words != [] {
      FilterAll(words[..|words| - 1]);
      ContainsEmpty(words[|words| - 1]);
    }
  }

  /** A quoted pattern of length two or more counts the words that contain its inner text. */
  lemma QuotedCountsContaining(words: seq<string>, raw: string)
    requires |raw| >= 2 && IsQuoted(raw)
    ensures MatchCount(words, raw) == Ok(|MatchingIndices(words, Substring(raw[1..|raw| - 1]))|)
    ensures forall j :: j in MatchingIndices(words, Substring(raw[1..|raw| - 1])) <==>
      0 <= j < |words| && Contains(words[j], raw[1..|raw| - 1])
  {
    IndicesCount(words, Substring(raw[1..|raw| - 1]));
  }

  /** Any other pattern counts the words meeting every requirement the parser read from it. */
  lemma UnquotedCountsFrequency(words: seq<string>, raw: string)
    requires !IsQuoted(raw)
    ensures MatchCount(words, raw) == Ok(|MatchingIndices(words, Frequency(CharCount(raw)))|)
    ensures forall j :: j in MatchingIndices(words, Frequency(CharCount(raw))) <==>
      0 <= j < |words| && forall c :: c in CharCount(raw) ==> CharCount(raw)[c] <= multiset(words[j])[c]
  {
    IndicesCount(words, Frequency(CharCount(raw)));
  }

  // ---------------------------------------------------------------------
  // The result table
  // ---------------------------------------------------------------------

  /**
   * `table` is the pattern -> count map for `patterns` over `words`: its
   * keys are exactly the patterns whose count succeeded, each mapped to that
   * count (duplicates of one pattern necessarily agree).
   */
  ghost predicate IsResultTable(table: map<string, nat>, words: seq<string>, patterns: seq<string>) {
    && (forall p :: p in table <==> p in patterns && MatchCount(words, p).Ok?)
    && (forall p :: p in table ==> MatchCount(words, p) == Ok(table[p]))
  }

  /**
   * The table is a function of the inputs: whatever order the tasks ran in,
   * and however often the batch is run, it comes out the same.
   */
  lemma ResultTableUnique(t1: map<string, nat>, t2: map<string, nat>, words: seq<string>, patterns: seq<string>)
    requires IsResultTable(t1, words, patterns) && IsResultTable(t2, words, patterns)
    ensures t1 == t2
  {
    assert t1.Keys == t2.Keys;
  }

  /** Every count in the table lies between 0 and the number of words, and is 0 for an empty text. */
  lemma ResultTableBounds(table: map<string, nat>, words: seq<string>, patterns: seq<string>)
    requires IsResultTable(table, words, patterns)
    ensures forall p :: p in table ==> table[p] <= |words|
    ensures words == [] ==> forall p :: p in table ==> table[p] == 0
    ensures table.Keys <= set p | p in patterns
  {
  }

  /** The table for ["aabb", "abab", "bbbb"] gives the pattern a2b2 a count of 2. */
  lemma ExampleFrequencyCount()
    ensures MatchCount(["aabb", "abab", "bbbb"], "a2b2") == Ok(2)
  {
    ExampleTwoSegments();
    assert !IsQuoted("a2b2");
    assert ParsePattern("a2b2") == Ok(Frequency(map['a' := 2, 'b' := 2]));
    ExampleFilter();
  }

  lemma ExampleFilter()
    ensures Filter(["aabb", "abab", "bbbb"], Frequency(map['a' := 2, 'b' := 2])) == ["aabb", "abab"]
  {
    var p := Frequency(map['a' := 2, 'b' := 2]);
    ExampleWordTests();
    var ws := ["aabb", "abab", "bbbb"];
    assert ws[..2] == ["aabb", "abab"] && ws[..2][..1] == ["aabb"] && ["aabb"][..0] == [];
    assert Filter(["aabb"], p) == Filter([], p) + ["aabb"] == ["aabb"];
    assert Filter(["aabb", "abab"], p) == Filter(["aabb"], p) + ["abab"];
  }

  lemma ExampleWordTests()
    ensures WordMatches("aabb", Frequency(map['a' := 2, 'b' := 2]))
    ensures WordMatches("abab", Frequency(map['a' := 2, 'b' := 2]))
    ensures !WordMatches("bbbb", Frequency(map['a' := 2, 'b' := 2]))
  {
    ExampleFrequencyMatch();
    assert multiset("abab") == multiset{'a', 'a', 'b', 'b'};
  }
}
