/**
 * The skill scan of `extract_skills_from_text`: the text is upper-cased and
 * every vocabulary entry is searched for as the literal pattern
 * `\b` + escaped(upper-cased entry) + `\b`.  The entries found are kept in
 * vocabulary order.
 *
 * `\b` is the regular-expression boundary assertion: it holds at a position
 * when exactly one of the characters on its two sides is a word character,
 * a position outside the text counting as a non-word character.  So a
 * skill name that ends in a non-word character, such as "C++" or "C#", is
 * only found when a word character FOLLOWS it.
 */
module SkillScan {
  import opened Wrappers
  import opened Chars
  import opened Sequences

  /** The character just before position `i` is a word character. */
  predicate WordBefore(t: string, i: nat)
    requires i <= |t|
  {
    i > 0 && IsWordChar(t[i - 1])
  }

  /** The character at position `i` is a word character. */
  predicate WordAfter(t: string, i: nat)
    requires i <= |t|
  {
    i < |t| && IsWordChar(t[i])
  }

  /** `\b` at position `i` (0 <= i <= |t|). */
  predicate IsBoundary(t: string, i: nat)
    requires i <= |t|
  {
    WordBefore(t, i) != WordAfter(t, i)
  }

  /** The pattern `\b p \b` matches at position `i`. */
  predicate WholeWordAt(t: string, p: string, i: nat) {
    HasAt(t, i, p) && IsBoundary(t, i) && IsBoundary(t, i + |p|)
  }

  /** `re.search(\b p \b, t)` finds a match. */
  ghost predicate ContainsWholeWord(t: string, p: string) {
    exists i: nat :: WholeWordAt(t, p, i)
  }

  /** `re.search(\b p \b, t)`: tries the positions of `t` from left to right
      and reports the first one where the pattern matches, if any. */
  method SearchWholeWord(t: string, p: string) returns (at: Option<nat>)
    ensures at.Some? ==> WholeWordAt(t, p, at.value)
    ensures at.Some? ==> forall j: nat :: j < at.value ==> !WholeWordAt(t, p, j)
    ensures at.None? <==> !ContainsWholeWord(t, p)
  {
    var i: nat := 0;
    while i + |p| <= |t|
      invariant forall j: nat :: j < i ==> !WholeWordAt(t, p, j)
      decreases |t| - i
    {
      if IsBoundary(t, i) && t[i..i + |p|] == p && IsBoundary(t, i + |p|) {
        assert WholeWordAt(t, p, i);
        return Some(i);
      }
      i := i + 1;
    }
    return None;
  }

  /** The entries of `vocab` found in the (upper-cased) text `t`, in
      vocabulary order: the value `found_skills` has after the loop. */
  ghost function SkillsIn(vocab: seq<string>, t: string): seq<string>
    decreases |vocab|
  {
    if vocab == [] then []
    else
      var last := vocab[|vocab| - 1];
      SkillsIn(vocab[..|vocab| - 1], t) + (if ContainsWholeWord(t, Upper(last)) then [last] else [])
  }

  /** The loop of `extract_skills_from_text` that fills `found_skills`,
      run on the upper-cased text `t`. */
  method ExtractSkills(vocab: seq<string>, t: string) returns (found: seq<string>)
    ensures found == SkillsIn(vocab, t)
  {
    found := [];
    for k := 0 to |vocab|
      invariant found == SkillsIn(vocab[..k], t)
    {
      var hit := SearchWholeWord(t, Upper(vocab[k]));
      assert vocab[..k + 1][..k] == vocab[..k];
      if hit.Some? {
        found := found + [vocab[k]];
      }
    }
    assert vocab[..|vocab|] == vocab;
  }

  /** An entry is found exactly when it belongs to the vocabulary and its
      upper-cased form occurs between two boundaries in the text. */
  lemma {:induction false} SkillsInMembers(vocab: seq<string>, t: string, x: string)
    ensures x in SkillsIn(vocab, t) <==> x in vocab && ContainsWholeWord(t, Upper(x))
    decreases |vocab|
  {
    if vocab != [] {
      var init, last := vocab[..|vocab| - 1], vocab[|vocab| - 1];
      assert vocab == init + [last];
      SkillsInMembers(init, t, x);
    }
  }

  /** The entries found are a subsequence of the vocabulary: declared order. */
  lemma {:induction false} SkillsInOrdered(vocab: seq<string>, t: string)
    ensures IsSubsequence(SkillsIn(vocab, t), vocab)
    decreases |vocab|
  {
    if vocab != [] {
      var init, last := vocab[..|vocab| - 1], vocab[|vocab| - 1];
      assert vocab == init + [last];
      SkillsInOrdered(init, t);
      if ContainsWholeWord(t, Upper(last)) {
        SubsequenceSnoc(SkillsIn(init, t), init, last);
      } else {
        assert SkillsIn(vocab, t) == SkillsIn(init, t);
        SubsequenceExtend(SkillsIn(init, t), init, last);
      }
    }
  }

  /** A vocabulary without duplicates yields a result without duplicates. */
  lemma SkillsInDistinct(vocab: seq<string>, t: string)
    requires Distinct(vocab)
    ensures Distinct(SkillsIn(vocab, t))
  {
    SkillsInOrdered(vocab, t);
    SubsequenceDistinct(SkillsIn(vocab, t), vocab);
  }

  /** The result depends only on which entries occur, not on where or in
      what order they are mentioned: two texts in which the same entries
      occur give the same result. */
  lemma {:induction false} SkillsInDependsOnlyOnOccurrence(vocab: seq<string>, t1: string, t2: string)
    requires forall x :: x in vocab ==> (ContainsWholeWord(t1, Upper(x)) <==> ContainsWholeWord(t2, Upper(x)))
    ensures SkillsIn(vocab, t1) == SkillsIn(vocab, t2)
    decreases |vocab|
  {
    if vocab != [] {
      var init := vocab[..|vocab| - 1];
      assert forall x :: x in init ==> x in vocab;
      SkillsInDependsOnlyOnOccurrence(init, t1, t2);
    }
  }

  /** For a skill name that begins and ends with word characters (such as
      "JAVA"), a match is an occurrence not preceded and not followed by a
      word character: a prefix of a longer word is rejected. */
  lemma WordSkillMatch(t: string, p: string, i: nat)
    requires |p| > 0 && IsWordChar(p[0]) && IsWordChar(p[|p| - 1])
    ensures WholeWordAt(t, p, i) <==>
      HasAt(t, i, p)
      && (i == 0 || !IsWordChar(t[i - 1]))
      && (i + |p| == |t| || !IsWordChar(t[i + |p|]))
  {
    if HasAt(t, i, p) {
      assert t[i] == p[0];
      assert t[i + |p| - 1] == p[|p| - 1];
    }
  }

  /** For a skill name that begins with a word character and ends with a
      non-word character (such as "C++" or "C#"), a match needs a WORD
      character right after the occurrence: "C++" is found in "C++11" but
      not in "C++ and Java", nor at the very end of the text. */
  lemma NonWordEndingSkillMatch(t: string, p: string, i: nat)
    requires |p| > 0 && IsWordChar(p[0]) && !IsWordChar(p[|p| - 1])
    ensures WholeWordAt(t, p, i) <==>
      HasAt(t, i, p)
      && (i == 0 || !IsWordChar(t[i - 1]))
      && i + |p| < |t| && IsWordChar(t[i + |p|])
  {
    if HasAt(t, i, p) {
      assert t[i] == p[0];
      assert t[i + |p| - 1] == p[|p| - 1];
    }
  }

  /** `s` consists of word characters only. */
  predicate AllWordChars(s: string) {
    forall k :: 0 <= k < |s| ==> IsWordChar(s[k])
  }

  /** Inside a run of word characters there is no boundary, so no skill
      name can start or end strictly inside a word. */
  lemma NoBoundaryInsideWord(t: string, k: nat)
    requires AllWordChars(t) && 0 < k < |t|
    ensures !IsBoundary(t, k)
  {
  }

  /** "JAVA" is not found inside "JAVASCRIPT". */
  lemma JavaNotInJavaScript()
    ensures !ContainsWholeWord("JAVASCRIPT", "JAVA")
  {
    var t := "JAVASCRIPT";
    assert AllWordChars(t);
    forall i: nat | WholeWordAt(t, "JAVA", i) ensures false {
      NoBoundaryInsideWord(t, if i == 0 then 4 else i);
    }
  }

  /** "JAVA" is found in "JAVA 17". */
  lemma JavaInJava17()
    ensures ContainsWholeWord("JAVA 17", "JAVA")
  {
    WordSkillMatch("JAVA 17", "JAVA", 0);
    assert WholeWordAt("JAVA 17", "JAVA", 0);
  }

  /** Neither "C++" nor "C#" is found in "C++ AND C#". */
  lemma PlusPlusAndSharpNotFoundBeforeSpaceOrEnd()
    ensures !ContainsWholeWord("C++ AND C#", "C++")
    ensures !ContainsWholeWord("C++ AND C#", "C#")
  {
    var t := "C++ AND C#";
    forall i: nat | WholeWordAt(t, "C++", i) ensures false {
      NonWordEndingSkillMatch(t, "C++", i);
    }
    forall i: nat | WholeWordAt(t, "C#", i) ensures false {
      NonWordEndingSkillMatch(t, "C#", i);
    }
  }

  /** "C++" is found in "C++11". */
  lemma PlusPlusFoundBeforeWordChar()
    ensures ContainsWholeWord("C++11", "C++")
  {
    NonWordEndingSkillMatch("C++11", "C++", 0);
    assert WholeWordAt("C++11", "C++", 0);
  }
}
