/**
 * The word matcher (`matchesPattern`): a word satisfies a frequency map
 * when, for every required character, the word holds at least the required
 * number of occurrences of it.
 */
module Matcher {

  /** `word.chars().filter(ch -> ch == c).count()`: how often `c` occurs in `w`. */
  function Occurrences(w: string, c: char): (n: nat)
    ensures n == multiset(w)[c]
    ensures n <= |w|
  {
    if w == [] then 0
    else
      assert w == w[..|w| - 1] + [w[|w| - 1]];
      Occurrences(w[..|w| - 1], c) + if w[|w| - 1] == c then 1 else 0
  }

  /** The match condition: every required count is at most the actual count. */
  predicate Matches(word: string, required: map<char, int>) {
    forall c :: c in required ==> required[c] <= Occurrences(word, c)
  }

  /**
   * `matchesPattern`: visits the keys in whatever order the map yields them
   * and returns false at the first key whose requirement the word misses.
   */
  method MatchesPattern(word: string, charCount: map<char, int>) returns (b: bool)
    ensures b == Matches(word, charCount)
  {
    var remaining := charCount.Keys;
    while remaining != {}
      invariant remaining <= charCount.Keys
      invariant forall c :: c in charCount && c !in remaining ==> charCount[c] <= Occurrences(word, c)
      decreases remaining
    {
      var c :| c in remaining;
      var requiredCount := charCount[c];
      var actualCount := Occurrences(word, c);
      if requiredCount > actualCount {
        return false;
      }
      remaining := remaining - {c};
    }
    return true;
  }

  /** The empty requirement map matches every word. */
  lemma EmptyMatchesAll(word: string)
    ensures Matches(word, map[])
  {
  }

  /** A word misses exactly when some requirement exceeds the word's count of that character. */
  lemma MissWitness(word: string, required: map<char, int>)
    ensures !Matches(word, required) <==> exists c :: c in required && required[c] > multiset(word)[c]
  {
  }

  /** The word "aabb" meets {a: 2, b: 2} and "bbbb" does not. */
  lemma ExampleFrequencyMatch()
    ensures Matches("aabb", map['a' := 2, 'b' := 2])
    ensures !Matches("bbbb", map['a' := 2, 'b' := 2])
  {
    assert multiset("aabb") == multiset{'a', 'a', 'b', 'b'};
    assert Occurrences("bbbb", 'a') == multiset("bbbb")['a'] == 0;
  }
}
