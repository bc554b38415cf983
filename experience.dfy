/**
 * The experience estimate of `extract_skills_from_text`: every match of
 *
 *     (\d+)\+?\s*(?:years?|yrs?)\s*(?:of\s*)?(?:experience|exp)
 *
 * in the upper-cased text contributes its captured integer, and the
 * estimate is the largest of them, or 0 when there is none.
 *
 * The part after the digits never starts with a digit, so a capture is
 * exactly a maximal run of digits that is immediately followed by a match
 * of the rest of the pattern.  That rest is stated below as a relation over
 * positions (one relation per piece of the pattern, the way the regular
 * expression may match it with backtracking), and a greedy matcher that
 * never backtracks is proved to accept exactly the same positions.
 */
module Experience {
  import opened Chars

  /** Positions `i` up to `j` (exclusive) hold white space. */
  predicate AllSpaces(t: string, i: nat, j: nat)
    requires i <= j <= |t|
  {
    forall k :: i <= k < j ==> IsSpace(t[k])
  }

  // The pieces of `\+?\s*(?:years?|yrs?)\s*(?:of\s*)?(?:experience|exp)`,
  // each the relation between where the piece starts and where it ends.
  // The text is already upper-cased, so the words are written upper-case.

  /** `\+?` */
  ghost predicate OptionalPlus(t: string, i: nat, j: nat) {
    j == i || (j == i + 1 && HasAt(t, i, "+"))
  }

  /** `\s*` */
  ghost predicate Spaces(t: string, i: nat, j: nat) {
    i <= j <= |t| && AllSpaces(t, i, j)
  }

  /** `(?:years?|yrs?)` */
  ghost predicate YearWord(t: string, i: nat, j: nat) {
    || (HasAt(t, i, "YEAR") && j == i + 4)
    || (HasAt(t, i, "YEARS") && j == i + 5)
    || (HasAt(t, i, "YR") && j == i + 2)
    || (HasAt(t, i, "YRS") && j == i + 3)
  }

  /** `(?:of\s*)?` */
  ghost predicate OptionalOf(t: string, i: nat, j: nat) {
    j == i || (HasAt(t, i, "OF") && Spaces(t, i + 2, j))
  }

  /** `(?:experience|exp)`: only its start matters, since the match may end anywhere. */
  ghost predicate ExperienceWord(t: string, i: nat) {
    HasAt(t, i, "EXPERIENCE") || HasAt(t, i, "EXP")
  }

  /** `\s*(?:of\s*)?(?:experience|exp)`, the end of the pattern, matches at `c`. */
  ghost predicate TailAt(t: string, c: nat) {
    exists d: nat, f: nat :: Spaces(t, c, d) && OptionalOf(t, d, f) && ExperienceWord(t, f)
  }

  /** `\s*(?:years?|yrs?)` followed by the end of the pattern matches at `a`. */
  ghost predicate YearTailAt(t: string, a: nat) {
    exists b: nat, c: nat :: Spaces(t, a, b) && YearWord(t, b, c) && TailAt(t, c)
  }

  /** The part of the pattern after `(\d+)` matches starting at position `e`. */
  ghost predicate SuffixAt(t: string, e: nat) {
    exists a: nat :: OptionalPlus(t, e, a) && YearTailAt(t, a)
  }

  /** `\s*` taken greedily: the first position at or after `i` that is not white space. */
  function SkipSpaces(t: string, i: nat): (j: nat)
    requires i <= |t|
    ensures i <= j <= |t| && AllSpaces(t, i, j)
    ensures j == |t| || !IsSpace(t[j])
    decreases |t| - i
  {
    if i < |t| && IsSpace(t[i]) then SkipSpaces(t, i + 1) else i
  }

  // The greedy matcher: every optional piece and every `\s*` takes as much
  // as it can, and nothing is ever undone.

  /** Greedy match of `\s*(?:of\s*)?(?:experience|exp)` at `c`. */
  predicate GreedyTailAt(t: string, c: nat)
    requires c <= |t|
  {
    var d := SkipSpaces(t, c);
    var f := if HasAt(t, d, "OF") then SkipSpaces(t, d + 2) else d;
    HasAt(t, f, "EXP")
  }

  /** Where the greedy `(?:years?|yrs?)` starting at `b` ends: "YEAR" is
      tried before "YR", and a following "S" is always taken. */
  function GreedyYearEnd(t: string, b: nat): nat {
    var c0 := if HasAt(t, b, "YEAR") then b + 4 else b + 2;
    if HasAt(t, c0, "S") then c0 + 1 else c0
  }

  /** Greedy match of `\s*(?:years?|yrs?)` and the rest at `a`. */
  predicate GreedyYearTailAt(t: string, a: nat)
    requires a <= |t|
  {
    var b := SkipSpaces(t, a);
    (HasAt(t, b, "YEAR") || HasAt(t, b, "YR")) && GreedyYearEnd(t, b) <= |t| && GreedyTailAt(t, GreedyYearEnd(t, b))
  }

  /** Greedy match of the part of the pattern after `(\d+)` at `e`. */
  predicate GreedySuffixAt(t: string, e: nat)
    requires e <= |t|
  {
    GreedyYearTailAt(t, if HasAt(t, e, "+") then e + 1 else e)
  }

  /** A word occurring at `i` fixes the characters from `i` on. */
  lemma HasAtChar(t: string, i: nat, w: string, k: nat)
    requires HasAt(t, i, w) && k < |w|
    ensures i + k < |t| && t[i + k] == w[k]
  {
    assert t[i..i + |w|][k] == t[i + k];
  }

  /** A prefix of a word occurring at `i` occurs at `i`. */
  lemma HasAtPrefix(t: string, i: nat, w: string, v: string)
    requires HasAt(t, i, w) && v <= w
    ensures HasAt(t, i, v)
  {
    assert t[i..i + |v|] == t[i..i + |w|][..|v|];
  }

  /** A word occurring at `i` followed by one character. */
  lemma HasAtSnoc(t: string, i: nat, w: string, x: char)
    requires HasAt(t, i, w) && HasAt(t, i + |w|, [x])
    ensures HasAt(t, i, w + [x])
  {
    assert t[i..i + |w| + 1] == t[i..i + |w|] + t[i + |w|..i + |w| + 1];
  }

  /** The greedy `\s*` stops at the first non-space, so it ends wherever a
      run of spaces is followed by a non-space. */
  lemma {:induction false} SkipSpacesStopsAt(t: string, i: nat, j: nat)
    requires i <= j < |t| && AllSpaces(t, i, j) && !IsSpace(t[j])
    ensures SkipSpaces(t, i) == j
    decreases j - i
  {
    if i < j {
      SkipSpacesStopsAt(t, i + 1, j);
    }
  }

  /** "EXPERIENCE" or "EXP" at `f` starts with "E". */
  lemma ExperienceWordStart(t: string, f: nat)
    requires ExperienceWord(t, f)
    ensures HasAt(t, f, "EXP") && f < |t| && t[f] == 'E'
  {
    if HasAt(t, f, "EXPERIENCE") {
      HasAtPrefix(t, f, "EXPERIENCE", "EXP");
    }
    HasAtChar(t, f, "EXP", 0);
  }

  /** The end of the pattern starts with white space, "O" or "E". */
  lemma TailStart(t: string, c: nat)
    requires TailAt(t, c)
    ensures c < |t| && (t[c] == 'O' || t[c] == 'E' || IsSpace(t[c]))
  {
    var d: nat, f: nat :| Spaces(t, c, d) && OptionalOf(t, d, f) && ExperienceWord(t, f);
    ExperienceWordStart(t, f);
    if f != d {
      HasAtChar(t, d, "OF", 0);
    }
  }

  /** The year word and what follows start with white space or "Y". */
  lemma YearTailStart(t: string, a: nat)
    requires YearTailAt(t, a)
    ensures a < |t| && (t[a] == 'Y' || IsSpace(t[a]))
  {
    var b: nat, c: nat :| Spaces(t, a, b) && YearWord(t, b, c) && TailAt(t, c);
    YearWordStart(t, b, c);
  }

  /** A year word starts with "Y". */
  lemma YearWordStart(t: string, b: nat, c: nat)
    requires YearWord(t, b, c)
    ensures b < |t| && t[b] == 'Y'
  {
    if HasAt(t, b, "YEAR") { HasAtChar(t, b, "YEAR", 0); }
    else if HasAt(t, b, "YEARS") { HasAtChar(t, b, "YEARS", 0); }
    else if HasAt(t, b, "YR") { HasAtChar(t, b, "YR", 0); }
    else { HasAtChar(t, b, "YRS", 0); }
  }

  /** The greedy match of the end of the pattern is exact. */
  lemma GreedyTailCorrect(t: string, c: nat)
    requires c <= |t|
    ensures GreedyTailAt(t, c) <==> TailAt(t, c)
  {
    if GreedyTailAt(t, c) {
      GreedyTailSound(t, c);
    }
    if TailAt(t, c) {
      GreedyTailComplete(t, c);
    }
  }

  lemma GreedyTailSound(t: string, c: nat)
    requires c <= |t| && GreedyTailAt(t, c)
    ensures TailAt(t, c)
  {
    var d := SkipSpaces(t, c);
    var f := if HasAt(t, d, "OF") then SkipSpaces(t, d + 2) else d;
    assert Spaces(t, c, d) && OptionalOf(t, d, f) && ExperienceWord(t, f);
  }

  lemma GreedyTailComplete(t: string, c: nat)
    requires c <= |t| && TailAt(t, c)
    ensures GreedyTailAt(t, c)
  {
    var d: nat, f: nat :| Spaces(t, c, d) && OptionalOf(t, d, f) && ExperienceWord(t, f);
    ExperienceWordStart(t, f);
    if f != d {
      HasAtChar(t, d, "OF", 0);
    }
    SkipSpacesStopsAt(t, c, d);
    if HasAt(t, d, "OF") {
      HasAtChar(t, d, "OF", 0);
      SkipSpacesStopsAt(t, d + 2, f);
    }
  }

  /** The greedy match of the year word and the rest is exact. */
  lemma GreedyYearTailCorrect(t: string, a: nat)
    requires a <= |t|
    ensures GreedyYearTailAt(t, a) <==> YearTailAt(t, a)
  {
    if GreedyYearTailAt(t, a) {
      GreedyYearTailSound(t, a);
    }
    if YearTailAt(t, a) {
      GreedyYearTailComplete(t, a);
    }
  }

  lemma GreedyYearTailSound(t: string, a: nat)
    requires a <= |t| && GreedyYearTailAt(t, a)
    ensures YearTailAt(t, a)
  {
    var b := SkipSpaces(t, a);
    var c := GreedyYearEnd(t, b);
    GreedyTailCorrect(t, c);
    GreedyYearWord(t, b, c);
    YearTailFrom(t, a, b, c);
  }

  /** White space, a year word and the end of the pattern, one after the other. */
  lemma YearTailFrom(t: string, a: nat, b: nat, c: nat)
    requires a <= b <= |t| && AllSpaces(t, a, b)
    requires YearWord(t, b, c) && TailAt(t, c)
    ensures YearTailAt(t, a)
  {
    assert Spaces(t, a, b);
  }

  /** The year word the greedy matcher takes is one of the four alternatives. */
  lemma GreedyYearWord(t: string, b: nat, c: nat)
    requires HasAt(t, b, "YEAR") || HasAt(t, b, "YR")
    requires c == GreedyYearEnd(t, b)
    ensures YearWord(t, b, c)
  {
    var long := HasAt(t, b, "YEAR");
    var c0 := if long then b + 4 else b + 2;
    if long && HasAt(t, c0, "S") {
      HasAtSnoc(t, b, "YEAR", 'S');
      assert "YEAR" + ['S'] == "YEARS";
    } else if HasAt(t, c0, "S") {
      HasAtSnoc(t, b, "YR", 'S');
      assert "YR" + ['S'] == "YRS";
    }
  }

  lemma GreedyYearTailComplete(t: string, a: nat)
    requires a <= |t| && YearTailAt(t, a)
    ensures GreedyYearTailAt(t, a)
  {
    var b: nat, c: nat :| Spaces(t, a, b) && YearWord(t, b, c) && TailAt(t, c);
    YearWordStart(t, b, c);
    SkipSpacesStopsAt(t, a, b);
    TailStart(t, c);
    YearWordChoice(t, b, c);
    GreedyTailCorrect(t, c);
    GreedyYearTailFrom(t, a, b, c);
  }

  /** The greedy match of the year word and the rest, given where each of its steps ends. */
  lemma GreedyYearTailFrom(t: string, a: nat, b: nat, c: nat)
    requires a <= b <= |t| && SkipSpaces(t, a) == b
    requires HasAt(t, b, "YEAR") || HasAt(t, b, "YR")
    requires c == GreedyYearEnd(t, b)
    requires c <= |t| && GreedyTailAt(t, c)
    ensures GreedyYearTailAt(t, a)
  {
  }

  /** When the end of the pattern follows the year word that ends at `c`,
      the greedy choice of "YEAR"/"YEARS"/"YR"/"YRS" also ends at `c`. */
  lemma YearWordChoice(t: string, b: nat, c: nat)
    requires YearWord(t, b, c) && c < |t| && (t[c] == 'O' || t[c] == 'E' || IsSpace(t[c]))
    ensures HasAt(t, b, "YEAR") || HasAt(t, b, "YR")
    ensures c == GreedyYearEnd(t, b)
  {
    var long := HasAt(t, b, "YEAR") || HasAt(t, b, "YEARS");
    if HasAt(t, b, "YEARS") {
      HasAtPrefix(t, b, "YEARS", "YEAR");
      HasAtChar(t, b, "YEARS", 4);
    }
    if HasAt(t, b, "YRS") {
      HasAtPrefix(t, b, "YRS", "YR");
      HasAtChar(t, b, "YRS", 2);
    }
    if HasAt(t, b, "YEAR") {
      HasAtChar(t, b, "YEAR", 1);
      assert t[b..b + 2][1] == t[b + 1];
    }
    if HasAt(t, b + 4, "S") { HasAtChar(t, b + 4, "S", 0); }
    if HasAt(t, b + 2, "S") { HasAtChar(t, b + 2, "S", 0); }
    if HasAt(t, b, "YEARS") { assert t[b + 4..b + 5] == [t[b + 4]]; }
    if HasAt(t, b, "YRS") { assert t[b + 2..b + 3] == [t[b + 2]]; }
  }

  /** The greedy matcher accepts exactly the positions where the part of the
      pattern after `(\d+)` matches. */
  lemma GreedySuffixCorrect(t: string, e: nat)
    requires e <= |t|
    ensures GreedySuffixAt(t, e) <==> SuffixAt(t, e)
  {
    var a := if HasAt(t, e, "+") then e + 1 else e;
    GreedyYearTailCorrect(t, a);
    assert GreedySuffixAt(t, e) ==> OptionalPlus(t, e, a);
    if SuffixAt(t, e) {
      var a': nat :| OptionalPlus(t, e, a') && YearTailAt(t, a');
      YearTailStart(t, a');
      if HasAt(t, e, "+") {
        HasAtChar(t, e, "+", 0);
      }
    }
  }

  /** The value of a decimal digit. */
  function DigitValue(c: char): (v: nat)
    ensures v <= 9
  {
    if IsDigit(c) then c as int - '0' as int else 0
  }

  /** `int()` of a run of decimal digits. */
  function DecimalValue(s: string): nat
    decreases |s|
  {
    if s == [] then 0 else 10 * DecimalValue(s[..|s| - 1]) + DigitValue(s[|s| - 1])
  }

  /** A capture of the pattern `(\d+)`: a maximal run of digits from `r` to
      `e` (exclusive) followed by a match of the rest of the pattern. */
  ghost predicate IsCapture(t: string, r: nat, e: nat) {
    && r < e <= |t|
    && (forall k :: r <= k < e ==> IsDigit(t[k]))
    && (r == 0 || !IsDigit(t[r - 1]))
    && (e == |t| || !IsDigit(t[e]))
    && SuffixAt(t, e)
  }

  /** The end of the run of digits that starts at `i`. */
  function DigitRunEnd(t: string, i: nat): (j: nat)
    requires i <= |t|
    ensures i <= j <= |t|
    ensures forall k :: i <= k < j ==> IsDigit(t[k])
    ensures j == |t| || !IsDigit(t[j])
    decreases |t| - i
  {
    if i < |t| && IsDigit(t[i]) then DigitRunEnd(t, i + 1) else i
  }

  /** A capture that starts inside the run beginning at `i` is that whole run. */
  lemma CaptureIsWholeRun(t: string, i: nat, j: nat, r: nat, e: nat)
    requires i < |t| && IsDigit(t[i]) && (i == 0 || !IsDigit(t[i - 1]))
    requires j == DigitRunEnd(t, i)
    requires IsCapture(t, r, e) && i <= r < j
    ensures r == i && e == j
  {
  }

  /** `years` is the largest captured value, or 0 when nothing is captured:
      what `max([int(m) for m in matches], default=0)` gives. */
  ghost predicate IsLargestCapture(t: string, years: nat) {
    && (forall r: nat, e: nat :: IsCapture(t, r, e) ==> DecimalValue(t[r..e]) <= years)
    && (years == 0 || exists r: nat, e: nat :: IsCapture(t, r, e) && DecimalValue(t[r..e]) == years)
  }

  /** The estimate is determined by the text: re-running it gives the same value. */
  lemma LargestCaptureUnique(t: string, y1: nat, y2: nat)
    requires IsLargestCapture(t, y1) && IsLargestCapture(t, y2)
    ensures y1 == y2
  {
  }

  /** Scanning the run of digits from `i` to `j`: the only capture starting
      in it is the whole run, taken when the rest of the pattern follows it. */
  lemma RunStep(t: string, i: nat, j: nat, years: nat, next: nat)
    requires i < |t| && IsDigit(t[i]) && (i == 0 || !IsDigit(t[i - 1]))
    requires j == DigitRunEnd(t, i)
    requires forall r: nat, e: nat :: IsCapture(t, r, e) && r < i ==> DecimalValue(t[r..e]) <= years
    requires next == if GreedySuffixAt(t, j) && DecimalValue(t[i..j]) > years then DecimalValue(t[i..j]) else years
    ensures forall r: nat, e: nat :: IsCapture(t, r, e) && r < j ==> DecimalValue(t[r..e]) <= next
    ensures next == years || (IsCapture(t, i, j) && DecimalValue(t[i..j]) == next)
  {
    GreedySuffixCorrect(t, j);
    forall r: nat, e: nat | IsCapture(t, r, e) && i <= r < j
      ensures DecimalValue(t[r..e]) <= next
    {
      CaptureIsWholeRun(t, i, j, r, e);
    }
  }

  /** `max(int(m) for m in re.findall(pattern, t), default=0)`, computed by one
      left-to-right scan over the runs of digits of `t`. */
  method EstimateExperience(t: string) returns (years: nat)
    ensures IsLargestCapture(t, years)
  {
    years := 0;
    var i: nat := 0;
    while i < |t|
      invariant i <= |t|
      invariant i == 0 || i == |t| || !IsDigit(t[i - 1]) || !IsDigit(t[i])
      invariant forall r: nat, e: nat :: IsCapture(t, r, e) && r < i ==> DecimalValue(t[r..e]) <= years
      invariant years == 0 || exists r: nat, e: nat :: IsCapture(t, r, e) && DecimalValue(t[r..e]) == years
      decreases |t| - i
    {
      if IsDigit(t[i]) {
        var j := DigitRunEnd(t, i);
        var next := years;
        if GreedySuffixAt(t, j) && DecimalValue(t[i..j]) > years {
          next := DecimalValue(t[i..j]);
        }
        RunStep(t, i, j, years, next);
        years, i := next, j;
      } else {
        i := i + 1;
      }
    }
  }
}
