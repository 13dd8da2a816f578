# Word-pattern counting engine

A Dafny model of the counting engine in Statik. Statik reads a list of words and a list of query patterns. For each pattern it counts how many words satisfy it, and it produces a `pattern -> count` table. There are two kinds of pattern:

- a **quoted pattern** `"abc"` matches the words that contain `abc` as a substring;
- any other pattern is a **frequency pattern** such as `a2b1`. It is parsed into per-character minimum counts `{a: 2, b: 1}`, and it matches the words that contain at least that many of each character.

The same engine appears in two entry points. `src/MainTest.java` runs one thread-pool task per pattern. `src/Main1.java` uses parallel streams, both across patterns and across words. The model has five modules:

- `Parser` (`parser.dfy`) models `getCharCount`. It has a pure step function `Step` and its fold `Run`, the spec function `CharCount`, and the loop `GetCharCount`, which is proved equal to `CharCount`. It also proves the parser's rules: one character at a time, one `<letter><digits>` segment at a time, and over whole well-formed patterns against an independent grammar (`Requirement`, `Render`, `Requirements`).
- `Matcher` (`matcher.dfy`) models `matchesPattern`. It holds the condition `Matches` and the early-exit loop `MatchesPattern`. That loop takes the map's keys in an arbitrary order, and it is proved equal to `Matches`.
- `Counter` (`counter.dfy`) holds the specification both entry points share:
  - the quote dispatch `ParsePattern`, including the lone-quote error;
  - `Filter` and `MatchCount`;
  - order-insensitivity of the count;
  - the predicate `IsResultTable` for the batch result.
- `MainTest` (`main_test.dfy`) models the sequential `countMatchingWords` and the executor batch. In that batch, a failing task loses its entry and the join reports the failure.
- `Main1` (`main1.dfy`) models the parallel-stream `countMatchingWords` and batch. Words and patterns are visited in an order chosen by `:|`. The first exception aborts the whole run.

Concurrency is modelled as nondeterministic order. Each parallel loop picks its next task from the set of pending ones with `:|`. Its postcondition therefore holds for every visiting order.

Parsing and matching raise no errors, with one exception. The one-character pattern `"` passes both quote tests and then throws in `substring(1, 0)`. The model makes this an `Err(StringIndexOutOfBounds(1, 0))` result. `MainTest.RunBatch` drops that pattern's entry and sets `failed`. `Main1.RunBatch` fails as a whole.

## Model

| member | source | states |
|---|---|---|
| `Parser.DigitValue` | src/MainTest.java:103 | the numeric value of a decimal digit lies in 0..9 |
| `Parser.RunConsistent` | src/MainTest.java:97-110 | every state the loop reaches is consistent: the pending count is >= 0, NUL is never a key, every value is >= 0, and the current key's entry equals the pending count. In a pattern whose first character is above '9', only letters are ever keys. Every key is an earlier key or a character read. |
| `Parser.CharCount` | src/Main1.java:80-102 | the map `getCharCount` returns: empty for the empty pattern. Every key is a character of the pattern and is never NUL. Every value is >= 0. When the first character is above '9', every key is a letter. |
| `Parser.GetCharCount` | src/MainTest.java:91-113 | the loop over the characters, with `currentChar`, `count` and `flag`, returns exactly `CharCount(pattern)`. The code is identical at src/Main1.java:80-102. |
| `Parser.IgnoredWhileOpen` | src/MainTest.java:98-108 | a letter, or any other non-digit, read while a segment is open leaves the whole state unchanged |
| `Parser.DigitLedOpensOnAnything` | src/MainTest.java:98-101 | when the pattern's first character is <= '9' by code point, any character read with no segment open opens one: it becomes the key with count 0, and digits do too |
| `Parser.DigitAccumulates` | src/Main1.java:91-94 | a digit read inside a segment, or in a letter-led pattern, gives count*10 + digit, closes the segment and keeps the key |
| `Parser.Segment` | src/Main1.java:87-98 | in a letter-led pattern, `<letter><digits>` read with no segment open sets the letter's entry to the decimal value of the digits. It overwrites any earlier entry and leaves the segment closed. |
| `Parser.ParseWellFormed` | src/MainTest.java:97-110 | on any pattern built from `<letter><digits>` segments, the parser returns exactly the intended requirements: each letter maps to the decimal value of its last segment |
| `Parser.ExampleTwoSegments` | src/MainTest.java:98-104 | "a2b2" parses to {a: 2, b: 2} |
| `Parser.ExampleMultiDigit` | src/MainTest.java:102-104 | "a12" parses to {a: 12} |
| `Parser.ExampleLetterInOpenSegment` | src/MainTest.java:98-105 | "ab2" parses to {a: 2}: the letter b is ignored |
| `Parser.ExampleReopenedLetter` | src/MainTest.java:107-109 | "a2a1" parses to {a: 1}: the last value wins |
| `Parser.ExampleDigitLed` | src/Main1.java:87-90 | "2a3" parses to {'2': 3} |
| `Matcher.Occurrences` | src/MainTest.java:118 | the number of occurrences of c in the word equals the word's multiset count of c, and is at most its length |
| `Matcher.MatchesPattern` | src/MainTest.java:115-125 | the early-exit loop over the keys, in any order, returns true iff every required count is <= the word's occurrence count. The code is identical at src/Main1.java:104-114. |
| `Matcher.EmptyMatchesAll` | src/Main1.java:104-114 | the empty requirement map matches every word |
| `Matcher.MissWitness` | src/MainTest.java:119-121 | a word fails exactly when some required count exceeds the word's count of that character |
| `Matcher.ExampleFrequencyMatch` | src/Main1.java:105-110 | "aabb" meets {a: 2, b: 2}; "bbbb" does not |
| `Counter.ParsePattern` | src/MainTest.java:71-79 | the dispatch fails iff the pattern is the lone `"`, with StringIndexOutOfBounds(1, 0). A substring pattern comes only from a quoted pattern and is its inner text: quote + sequence + quote == pattern. A frequency pattern comes only from an unquoted pattern and carries `CharCount(pattern)`. |
| `Counter.Filter` | src/MainTest.java:81-85 | the matching words: never more than the input, all drawn from it, all matching, and every matching input word is among them |
| `Counter.MatchCount` | src/MainTest.java:68-89 | `countMatchingWords` fails iff the pattern is the lone `"`. Otherwise the count is between 0 and the number of words, and it is 0 for no words. |
| `Counter.FilterMultiplicity` | src/Main1.java:70-74 | a matching word occurs among the matches as often as in the input; a non-matching word never occurs |
| `Counter.CountIgnoresOrder` | src/Main1.java:62-74 | any permutation of the words gives the same count |
| `Counter.IndicesCount` | src/Main1.java:62-66 | counting the matching positions, a set that ignores visiting order, gives the same number as counting in order |
| `Counter.ContainsEmpty` | src/MainTest.java:74 | the empty sequence is contained in every word |
| `Counter.EmptyQuotedCountsAll` | src/MainTest.java:71-77 | the pattern `""` counts every word |
| `Counter.QuotedCountsContaining` | src/Main1.java:60-66 | a quoted pattern of length >= 2 counts exactly the words at positions that contain its inner text |
| `Counter.UnquotedCountsFrequency` | src/Main1.java:67-74 | an unquoted pattern counts exactly the words whose multiset count of each parsed key reaches the parsed minimum |
| `Counter.ResultTableUnique` | src/MainTest.java:19-28 | the result table is determined by the words and patterns. Task order and repeated runs cannot change it. |
| `Counter.ResultTableBounds` | src/Main1.java:18-23 | every count in the table is between 0 and the number of words, and 0 when there are no words. Every key is one of the patterns. |
| `Counter.ExampleFrequencyCount` | src/MainTest.java:79-85 | over ["aabb", "abab", "bbbb"], the pattern a2b2 counts 2 |
| `MainTest.CountMatchingWords` | src/MainTest.java:68-89 | the two in-order counting loops return exactly `MatchCount(words, pattern)`, including the lone-quote error |
| `MainTest.RunBatch` | src/MainTest.java:19-38 | whatever order the tasks run in, the table's keys are exactly the patterns whose count succeeded, each mapped to its count. `failed` is set iff some pattern is the lone `"`. |
| `Main1.TestWord` | src/Main1.java:62-74 | the per-word test is substring containment for a quoted pattern and `Matches` for a frequency pattern |
| `Main1.ParallelCount` | src/Main1.java:70-74 | visiting the words in any order and incrementing on each match yields exactly the number of matching words |
| `Main1.CountMatchingWords` | src/Main1.java:57-78 | returns exactly `MatchCount(words, pattern)`, including the lone-quote error |
| `Main1.RunBatch` | src/Main1.java:18-23 | the run fails iff some pattern is the lone `"`. Otherwise the table has one key per distinct pattern, each mapped to its count. |

## Left out

- File reading and writing (`readFile`, `writeResultsToFile`) are I/O. The engine receives the words and patterns as `seq<string>` and returns the table. So the line trimming, the whitespace split and the lower-casing in `src/MainTest.java:51-66` are not modelled.
- Thread pool, futures, `allOf().get()`, `shutdown` and `printStackTrace` are not modelled. Their only effect on the result is that a failed task's entry is missing and the failure is reported. `MainTest.RunBatch` returns that report as the `failed` flag, and the printed trace is not modelled.
- `Main1.RunBatch`: the unsynchronised `HashMap` written from a parallel stream is a data race, and Dafny cannot express it. The model applies the puts one at a time in an arbitrary order.
- `Main1.RunBatch`: when several tasks throw, the model reports the first one it meets. All such exceptions are the same `StringIndexOutOfBounds(1, 0)`.
- Unicode behaviour of `Character.isLetter`, `isDigit` and `getNumericValue` is replaced by ASCII predicates and `c - '0'`. Characters are Dafny `char` values (Unicode scalar values), not UTF-16 code units, so surrogate pairs are not modelled.
- `Parser.CharCount`: does not model the 32-bit wrap-around of `count * 10 + digit`. Counts are mathematical integers, so the "values are >= 0" guarantee holds only in the model. In Java, a long digit run can overflow to a negative requirement.
- `Parser.GetCharCount`: the same unbounded-integer simplification as `Parser.CharCount`.
- `HashMap` iteration order is not modelled. `Matcher.MatchesPattern` takes the keys in an arbitrary order, and its result is proved independent of that order.
