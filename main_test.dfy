/**
 * The executor-based entry point: `countMatchingWords` runs two plain
 * for-each loops, and the batch submits one task per pattern to a thread
 * pool, each task putting `pattern -> count` into a concurrent map. A task
 * that throws never reaches its `put`; the join then throws once, the
 * stack trace is printed, and the table is written without that entry.
 */
module MainTest {
  import opened Parser
  import opened Matcher
  import opened Counter

  /** `countMatchingWords`: walks the words in order, incrementing the counter on each match. */
  method CountMatchingWords(words: seq<string>, pattern: string) returns (r: Result<nat>)
    ensures r == MatchCount(words, pattern)
  {
    var count := 0;
    if IsQuoted(pattern) {
      if |pattern| < 2 {
        return Err(StringIndexOutOfBounds(1, |pattern| - 1));
      }
      var sequence := pattern[1..|pattern| - 1];
      for i := 0 to |words|
        invariant count == |Filter(words[..i], Substring(sequence))|
      {
        if Contains(words[i], sequence) {
          count := count + 1;
        }
        assert words[..i + 1][..i] == words[..i];
      }
      assert words[..|words|] == words;
    } else {
      var charCount := GetCharCount(pattern);
      for i := 0 to |words|
        invariant count == |Filter(words[..i], Frequency(charCount))|
      {
        var matches := MatchesPattern(words[i], charCount);
        if matches {
          count := count + 1;
        }
        assert words[..i + 1][..i] == words[..i];
      }
      assert words[..|words|] == words;
    }
    return Ok(count);
  }

  /**
   * The batch in `main`: the pattern tasks run in an order the scheduler
   * picks; `failed` says whether the join reported a failed task.
   */
  method RunBatch(text: seq<string>, patterns: seq<string>) returns (patternResults: map<string, nat>, failed: bool)
    ensures IsResultTable(patternResults, text, patterns)
    ensures failed <==> "\"" in patterns
  {
    patternResults := map[];
    failed := false;
    var pending := Positions(|patterns|);
    while pending != {}
      invariant forall j :: j in pending ==> 0 <= j < |patterns|
      invariant forall j :: 0 <= j < |patterns| && j !in pending && MatchCount(text, patterns[j]).Ok? ==>
        patterns[j] in patternResults
      invariant forall p :: p in patternResults ==> p in patterns && MatchCount(text, p) == Ok(patternResults[p])
      invariant failed <==> exists j :: 0 <= j < |patterns| && j !in pending && patterns[j] == "\""
      decreases pending
    {
      var j :| j in pending;
      var pattern := patterns[j];
      var r := CountMatchingWords(text, pattern);
      if r.Ok? {
        patternResults := patternResults[pattern := r.value];
      } else {
        failed := true;
      }
      pending := pending - {j};
    }
  }
}
