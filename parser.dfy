/**
 * The frequency-pattern parser (`getCharCount`): a left-to-right state
 * machine over the pattern's characters that turns a pattern such as
 * "a2b12" into per-character minimum counts {a: 2, b: 12}.
 *
 * Its state is the current key character, the pending decimal count and a
 * flag saying whether a segment is open; after every character the current
 * key (when it is not NUL) is written into the result map. The test that
 * opens a segment is "the character is a letter, or the pattern's FIRST
 * character is at most '9' by code point", and it only fires when no
 * segment is open.
 */
module Parser {

  /** ASCII stand-in for `Character.isLetter`. */
  predicate IsLetter(c: char) {
    'a' <= c <= 'z' || 'A' <= c <= 'Z'
  }

  /** ASCII stand-in for `Character.isDigit`. */
  predicate IsDigit(c: char) {
    '0' <= c <= '9'
  }

  /** `Character.getNumericValue` on a decimal digit. */
  function DigitValue(c: char): (v: int)
    requires IsDigit(c)
    ensures 0 <= v <= 9
  {
    c as int - '0' as int
  }

  predicate AllDigits(ds: seq<char>) {
    forall i :: 0 <= i < |ds| ==> IsDigit(ds[i])
  }

  /** The base-10 value of a run of digits, most significant first. */
  function Decimal(ds: seq<char>): (v: int)
    requires AllDigits(ds)
    ensures v >= 0
  {
    if ds == [] then 0 else Decimal(ds[..|ds| - 1]) * 10 + DigitValue(ds[|ds| - 1])
  }

  /**
   * The parser's locals: `currentChar`, `count`, `flag`, and the map it
   * fills.
   */
  datatype ParseState = ParseState(current: char, count: int, segmentOpen: bool, counts: map<char, int>)

  const Initial := ParseState('\0', 0, false, map[])

  /** One iteration of the parser's loop; `lead` is the pattern's first character. */
  function Step(lead: char, s: ParseState, c: char): ParseState
  {
    var (current, count, segmentOpen) :=
      if (IsLetter(c) || lead <= '9') && !s.segmentOpen then (c, 0, true)
      else if IsDigit(c) then (s.current, s.count * 10 + DigitValue(c), false)
      else (s.current, s.count, s.segmentOpen);
    ParseState(current, count, segmentOpen, if current != '\0' then s.counts[current := count] else s.counts)
  }

  /**
   * What holds of every state the parser reaches: counts are non-negative,
   * NUL is never a key, the current key's entry equals the pending count,
   * and when the pattern starts above '9' only letters are ever keys.
   */
  predicate Consistent(lead: char, s: ParseState) {
    && s.count >= 0
    && '\0' !in s.counts
    && (forall k :: k in s.counts ==> s.counts[k] >= 0)
    && (s.current != '\0' ==> s.current in s.counts && s.counts[s.current] == s.count)
    && (lead > '9' ==> (s.current == '\0' || IsLetter(s.current)) && forall k :: k in s.counts ==> IsLetter(k))
  }

  /** The parser's state after reading all of `p`, starting from `s`. */
  function Run(lead: char, s: ParseState, p: seq<char>): ParseState
    decreases |p|
  {
    if p == [] then s else Step(lead, Run(lead, s, p[..|p| - 1]), p[|p| - 1])
  }

  /**
   * Reading keeps the state consistent, and every key and every current
   * character comes from the starting state or from the text read.
   */
  lemma {:induction false} RunConsistent(lead: char, s: ParseState, p: seq<char>)
    requires Consistent(lead, s)
    ensures Consistent(lead, Run(lead, s, p))
    ensures forall k :: k in Run(lead, s, p).counts ==> k in s.counts || k in p
    ensures Run(lead, s, p).current == s.current || Run(lead, s, p).current in p
    decreases |p|
  {
    if p != [] {
      var init := p[..|p| - 1];
      RunConsistent(lead, s, init);
      assert forall k :: k in init ==> k in p;
    }
  }

  /** The map `getCharCount` returns. */
  function CharCount(pattern: string): (m: map<char, int>)
    ensures pattern == [] ==> m == map[]
    ensures forall k :: k in m ==> k in pattern && k != '\0' && m[k] >= 0
    ensures pattern != [] && pattern[0] > '9' ==> forall k :: k in m ==> IsLetter(k)
  {
    if pattern == [] then map[]
    else
      RunConsistent(pattern[0], Initial, pattern);
      Run(pattern[0], Initial, pattern).counts
  }

  /** `getCharCount`, written as the loop the source runs. */
  method GetCharCount(pattern: string) returns (charCount: map<char, int>)
    ensures charCount == CharCount(pattern)
  {
    charCount := map[];
    var currentChar := '\0';
    var count := 0;
    var flag := false;
    for i := 0 to |pattern|
      invariant pattern == [] ==> charCount == map[]
      invariant pattern != [] ==>
        ParseState(currentChar, count, flag, charCount) == Run(pattern[0], Initial, pattern[..i])
    {
      var c := pattern[i];
      ghost var before := ParseState(currentChar, count, flag, charCount);
      if (IsLetter(c) || pattern[0] <= '9') && !flag {
        flag := true;
        currentChar := c;
        count := 0;
      } else if IsDigit(c) {
        count := count * 10 + DigitValue(c);
        flag := false;
      }
      if currentChar != '\0' {
        charCount := charCount[currentChar := count];
      }
      assert ParseState(currentChar, count, flag, charCount) == Step(pattern[0], before, c);
      assert pattern[..i + 1][..i] == pattern[..i];
    }
    assert pattern[..|pattern|] == pattern;
  }

  // ---------------------------------------------------------------------
  // The per-character rules
  // ---------------------------------------------------------------------

  /** A letter (or any non-digit) read while a segment is open changes nothing. */
  lemma IgnoredWhileOpen(lead: char, s: ParseState, c: char)
    requires Consistent(lead, s) && s.segmentOpen && !IsDigit(c)
    ensures Step(lead, s, c) == s
  {
    if s.current != '\0' {
      assert s.counts[s.current := s.count] == s.counts;
    }
  }

  /** When the pattern starts at or below '9', every character opens a segment when none is open. */
  lemma DigitLedOpensOnAnything(lead: char, s: ParseState, c: char)
    requires lead <= '9' && !s.segmentOpen
    ensures var t := Step(lead, s, c);
      t.current == c && t.count == 0 && t.segmentOpen
      && t.counts == if c != '\0' then s.counts[c := 0] else s.counts
  {
  }

  /** A digit read with no segment open extends the pending count in base 10 and keeps the segment closed. */
  lemma DigitAccumulates(lead: char, s: ParseState, c: char)
    requires IsDigit(c) && (s.segmentOpen || lead > '9')
    ensures var t := Step(lead, s, c);
      t.current == s.current && t.count == s.count * 10 + DigitValue(c) && !t.segmentOpen
  {
  }

  // ---------------------------------------------------------------------
  // Reading a pattern in pieces
  // ---------------------------------------------------------------------

  lemma {:induction false} RunAppend(lead: char, s: ParseState, p: seq<char>, q: seq<char>)
    ensures Run(lead, s, p + q) == Run(lead, Run(lead, s, p), q)
    decreases |q|
  {
    if q == [] {
      assert p + q == p;
    } else {
      var q' := q[..|q| - 1];
      assert (p + q)[..|p + q| - 1] == p + q';
      RunAppend(lead, s, p, q');
    }
  }

  /** After a letter opened a segment, a run of digits sets the letter's entry to their decimal value. */
  lemma {:induction false} DigitsAfterOpen(lead: char, t: ParseState, ds: seq<char>)
    requires lead > '9'
    requires t.current != '\0' && t.count == 0 && t.segmentOpen
    requires |ds| >= 1 && AllDigits(ds)
    ensures Run(lead, t, ds) == ParseState(t.current, Decimal(ds), false, t.counts[t.current := Decimal(ds)])
    decreases |ds|
  {
    var ds' := ds[..|ds| - 1];
    if |ds| == 1 {
      assert ds' == [];
    } else {
      assert AllDigits(ds');
      DigitsAfterOpen(lead, t, ds');
    }
  }

  /**
   * In a letter-led pattern, one `<letter><digits>` segment read with no
   * segment open maps the letter to the digits' decimal value, overwriting
   * any earlier entry, and leaves the segment closed.
   */
  lemma Segment(lead: char, s: ParseState, x: char, ds: seq<char>)
    requires lead > '9' && !s.segmentOpen
    requires IsLetter(x) && |ds| >= 1 && AllDigits(ds)
    ensures Run(lead, s, [x] + ds) == ParseState(x, Decimal(ds), false, s.counts[x := Decimal(ds)])
  {
    RunAppend(lead, s, [x], ds);
    assert [x][..0] == [];
    var t := Run(lead, s, [x]);
    assert t == ParseState(x, 0, true, s.counts[x := 0]);
    DigitsAfterOpen(lead, t, ds);
  }

  // ---------------------------------------------------------------------
  // The grammar the parser is meant for: <letter><digits> repeated
  // ---------------------------------------------------------------------

  datatype Requirement = Requirement(key: char, digits: seq<char>)

  predicate WellFormed(segs: seq<Requirement>) {
    forall i :: 0 <= i < |segs| ==> IsLetter(segs[i].key) && |segs[i].digits| >= 1 && AllDigits(segs[i].digits)
  }

  /** The pattern text of a sequence of segments. */
  function Render(segs: seq<Requirement>): string {
    if segs == [] then [] else Render(segs[..|segs| - 1]) + ([segs[|segs| - 1].key] + segs[|segs| - 1].digits)
  }

  /** The intended meaning: each segment sets its letter's minimum count, later segments winning. */
  function Requirements(segs: seq<Requirement>): map<char, int>
    requires WellFormed(segs)
  {
    if segs == [] then map[]
    else Requirements(segs[..|segs| - 1])[segs[|segs| - 1].key := Decimal(segs[|segs| - 1].digits)]
  }

  lemma {:induction false} RenderHead(segs: seq<Requirement>)
    requires segs != []
    ensures Render(segs) != [] && Render(segs)[0] == segs[0].key
    decreases |segs|
  {
    var init := segs[..|segs| - 1];
    if init != [] {
      RenderHead(init);
    }
  }

  lemma {:induction false} RunWellFormed(lead: char, segs: seq<Requirement>)
    requires lead > '9' && WellFormed(segs)
    ensures !Run(lead, Initial, Render(segs)).segmentOpen
    ensures Run(lead, Initial, Render(segs)).counts == Requirements(segs)
    decreases |segs|
  {
    if segs != [] {
      var init := segs[..|segs| - 1];
      var last := segs[|segs| - 1];
      assert WellFormed(init);
      RunWellFormed(lead, init);
      RunAppend(lead, Initial, Render(init), [last.key] + last.digits);
      Segment(lead, Run(lead, Initial, Render(init)), last.key, last.digits);
    }
  }

  /** On a well-formed pattern the parser returns exactly the intended requirements. */
  lemma ParseWellFormed(segs: seq<Requirement>)
    requires WellFormed(segs)
    ensures CharCount(Render(segs)) == Requirements(segs)
  {
    if segs != [] {
      RenderHead(segs);
      RunWellFormed(segs[0].key, segs);
    }
  }

  /** Reading one more character is one more step. */
  lemma RunSnoc(lead: char, s: ParseState, p: seq<char>, c: char)
    ensures Run(lead, s, p + [c]) == Step(lead, Run(lead, s, p), c)
  {
    assert (p + [c])[..|p|] == p;
  }

  // The quirks of the parser on small inputs.

  /** Two segments, each letter taking its own digits. */
  lemma ExampleTwoSegments()
    ensures CharCount("a2b2") == map['a' := 2, 'b' := 2]
  {
    var segs := [Requirement('a', "2"), Requirement('b', "2")];
    assert WellFormed(segs);
    assert segs[..1] == [Requirement('a', "2")] && segs[..1][..0] == [];
    assert Render(segs) == "a2b2";
    assert Decimal("2") == 2 by { assert "2"[..0] == []; }
    ParseWellFormed(segs);
  }

  /** Digits accumulate in base 10. */
  lemma ExampleMultiDigit()
    ensures CharCount("a12") == map['a' := 12]
  {
    var segs := [Requirement('a', "12")];
    assert WellFormed(segs);
    assert segs[..0] == [];
    assert Render(segs) == "a12";
    assert Decimal("12") == 12 by { assert "12"[..1] == "1" && "1"[..0] == []; }
    ParseWellFormed(segs);
  }

  /** A letter read while a segment is open is ignored. */
  lemma ExampleLetterInOpenSegment()
    ensures CharCount("ab2") == map['a' := 2]
  {
    assert Run('a', Initial, []) == Initial;
    RunSnoc('a', Initial, [], 'a');
    RunSnoc('a', Initial, "a", 'b');
    RunSnoc('a', Initial, "ab", '2');
    assert [] + ['a'] == "a" && "a" + ['b'] == "ab" && "ab" + ['2'] == "ab2";
    assert Run('a', Initial, "a") == ParseState('a', 0, true, map['a' := 0]);
    assert Run('a', Initial, "ab") == ParseState('a', 0, true, map['a' := 0]);
    assert Run('a', Initial, "ab2") == ParseState('a', 2, false, map['a' := 2]);
    assert "ab2"[0] == 'a';
  }

  /** A letter that opens a later segment overwrites its earlier value. */
  lemma ExampleReopenedLetter()
    ensures CharCount("a2a1") == map['a' := 1]
  {
    var segs := [Requirement('a', "2"), Requirement('a', "1")];
    assert WellFormed(segs);
    assert segs[..1] == [Requirement('a', "2")] && segs[..1][..0] == [];
    assert Render(segs) == "a2a1";
    assert Decimal("1") == 1 by { assert "1"[..0] == []; }
    ParseWellFormed(segs);
  }

  /** A digit-led pattern keys its first segment by the digit itself. */
  lemma ExampleDigitLed()
    ensures CharCount("2a3") == map['2' := 3]
  {
    assert Run('2', Initial, []) == Initial;
    RunSnoc('2', Initial, [], '2');
    RunSnoc('2', Initial, "2", 'a');
    RunSnoc('2', Initial, "2a", '3');
    assert [] + ['2'] == "2" && "2" + ['a'] == "2a" && "2a" + ['3'] == "2a3";
    assert Run('2', Initial, "2") == ParseState('2', 0, true, map['2' := 0]);
    assert Run('2', Initial, "2a") == ParseState('2', 0, true, map['2' := 0]);
    assert Run('2', Initial, "2a3") == ParseState('2', 3, false, map['2' := 3]);
    assert "2a3"[0] == '2';
  }
}
