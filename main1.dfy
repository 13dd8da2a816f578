/**
 * The parallel-stream entry point: `countMatchingWords` visits the words
 * through a parallel stream, bumping an atomic counter, and `main` runs the
 * patterns through a parallel stream too. An exception in any pattern's
 * task escapes the stream and ends `main` before anything is written.
 */
module Main1 {
  import opened Parser
  import opened Matcher
  import opened Counter

  /** The body of the stream's lambda: the test the pattern kind calls for. */
  method TestWord(word: string, p: Pattern) returns (matches: bool)
    ensures matches == WordMatches(word, p)
  {
    if p.Substring? {
      matches := Contains(word, p.sequence);
    } else {
      matches := MatchesPattern(word, p.requirements);
    }
  }

  /** Taking one task off the pending set adds it to the done part exactly when it matches. */
  lemma TakeOne(matching: set<int>, pending: set<int>, j: int)
    requires j in pending
    ensures |matching - (pending - {j})| == |matching - pending| + if j in matching then 1 else 0
  {
    if j in matching {
      assert matching - (pending - {j}) == (matching - pending) + {j};
    } else {
      assert matching - (pending - {j}) == matching - pending;
    }
  }

  /**
   * `words.parallelStream().forEach(...)` with `count.incrementAndGet()`:
   * the words are visited in whatever order the stream picks, one at a time.
   */
  method ParallelCount(words: seq<string>, p: Pattern) returns (count: nat)
    ensures count == |Filter(words, p)|
  {
    count := 0;
    var pending := Positions(|words|);
    ghost var matching := MatchingIndices(words, p);
    while pending != {}
      invariant forall j :: j in pending ==> 0 <= j < |words|
      invariant count == |matching - pending|
      decreases pending
    {
      var j :| j in pending;
      var matches := TestWord(words[j], p);
      TakeOne(matching, pending, j);
      if matches {
        count := count + 1;
      }
      pending := pending - {j};
    }
    assert matching - pending == matching;
    IndicesCount(words, p);
  }

  /** `countMatchingWords`, with both inner loops run as parallel streams. */
  method CountMatchingWords(words: seq<string>, pattern: string) returns (r: Result<nat>)
    ensures r == MatchCount(words, pattern)
  {
    var count;
    if IsQuoted(pattern) {
      if |pattern| < 2 {
        return Err(StringIndexOutOfBounds(1, |pattern| - 1));
      }
      var sequence := pattern[1..|pattern| - 1];
      count := ParallelCount(words, Substring(sequence));
    } else {
      var charCount := GetCharCount(pattern);
      count := ParallelCount(words, Frequency(charCount));
    }
    return Ok(count);
  }

  /**
   * The batch in `main`: patterns are counted in an order the stream
   * picks; the first task that throws ends the run with its exception.
   */
  method RunBatch(text: seq<string>, patterns: seq<string>) returns (r: Result<map<string, nat>>)
    ensures r.Err? <==> "\"" in patterns
    ensures r.Err? ==> r.error == StringIndexOutOfBounds(1, 0)
    ensures r.Ok? ==> IsResultTable(r.value, text, patterns) && r.value.Keys == set p | p in patterns
  {
    var patternResults: map<string, nat> := map[];
    var pending := Positions(|patterns|);
    while pending != {}
      invariant forall j :: j in pending ==> 0 <= j < |patterns|
      invariant forall j :: 0 <= j < |patterns| && j !in pending ==>
        patterns[j] in patternResults && MatchCount(text, patterns[j]).Ok?
      invariant forall p :: p in patternResults ==> p in patterns && MatchCount(text, p) == Ok(patternResults[p])
      decreases pending
    {
      var j :| j in pending;
      var pattern := patterns[j];
      var count := CountMatchingWords(text, pattern);
      if count.Err? {
        return Err(count.error);
      }
      patternResults := patternResults[pattern := count.value];
      pending := pending - {j};
    }
    return Ok(patternResults);
  }
}
