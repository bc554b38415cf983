/**
 * Match scoring (`calculate_skill_match`) and the verdicts the page derives
 * from a match: the missing-skill lists, the experience check and the
 * colour band of the overall score.
 *
 * Skills are compared by membership of their upper-cased form in the list
 * of the candidate's upper-cased skills.  Scores are exact reals.
 */
module Scoring {
  import opened Chars
  import opened Sequences
  import opened Vocabulary

  /** `[skill.upper() for skill in skills]` */
  function UpperAll(skills: seq<string>): (r: seq<string>)
    ensures |r| == |skills|
    ensures forall k :: 0 <= k < |skills| ==> r[k] == Upper(skills[k])
  {
    seq(|skills|, k requires 0 <= k < |skills| => Upper(skills[k]))
  }

  /** A name is in the upper-cased list exactly when it is the upper-cased
      form of some skill of the list. */
  lemma UpperAllMembers(skills: seq<string>, x: string)
    ensures x in UpperAll(skills) <==> exists s :: s in skills && Upper(s) == x
  {
    var r := UpperAll(skills);
    if x in r {
      var k :| 0 <= k < |r| && r[k] == x;
      assert skills[k] in skills;
    }
    if exists s :: s in skills && Upper(s) == x {
      var s :| s in skills && Upper(s) == x;
      var k :| 0 <= k < |skills| && skills[k] == s;
      assert r[k] == x;
    }
  }

  /** `skill.upper() in candidate_skills_upper` */
  predicate IsMatched(skill: string, candidatesUpper: seq<string>) {
    Upper(skill) in candidatesUpper
  }

  /** `sum(1 for skill in skills if skill.upper() in candidatesUpper)` */
  function CountMatched(skills: seq<string>, candidatesUpper: seq<string>): nat
    decreases |skills|
  {
    if skills == [] then 0
    else
      CountMatched(skills[..|skills| - 1], candidatesUpper)
      + (if IsMatched(skills[|skills| - 1], candidatesUpper) then 1 else 0)
  }

  /** `[skill for skill in skills if skill.upper() not in candidatesUpper]` */
  function MissingFrom(skills: seq<string>, candidatesUpper: seq<string>): seq<string>
    decreases |skills|
  {
    if skills == [] then []
    else
      var last := skills[|skills| - 1];
      MissingFrom(skills[..|skills| - 1], candidatesUpper)
      + (if IsMatched(last, candidatesUpper) then [] else [last])
  }

  /** Every skill of the list is either matched or missing, never both:
      the number matched plus the number missing is the length of the list. */
  lemma {:induction false} MatchedPlusMissing(skills: seq<string>, candidatesUpper: seq<string>)
    ensures CountMatched(skills, candidatesUpper) + |MissingFrom(skills, candidatesUpper)| == |skills|
    decreases |skills|
  {
    if skills != [] {
      MatchedPlusMissing(skills[..|skills| - 1], candidatesUpper);
    }
  }

  /** A skill is missing exactly when it is listed and its upper-cased form
      is not among the candidate's upper-cased skills. */
  lemma {:induction false} MissingMembers(skills: seq<string>, candidatesUpper: seq<string>, x: string)
    ensures x in MissingFrom(skills, candidatesUpper) <==> x in skills && !IsMatched(x, candidatesUpper)
    decreases |skills|
  {
    if skills != [] {
      var init, last := skills[..|skills| - 1], skills[|skills| - 1];
      assert skills == init + [last];
      MissingMembers(init, candidatesUpper, x);
    }
  }

  /** The missing skills keep the order in which the profile lists them. */
  lemma {:induction false} MissingOrdered(skills: seq<string>, candidatesUpper: seq<string>)
    ensures IsSubsequence(MissingFrom(skills, candidatesUpper), skills)
    decreases |skills|
  {
    if skills != [] {
      var init, last := skills[..|skills| - 1], skills[|skills| - 1];
      assert skills == init + [last];
      MissingOrdered(init, candidatesUpper);
      if IsMatched(last, candidatesUpper) {
        assert MissingFrom(skills, candidatesUpper) == MissingFrom(init, candidatesUpper);
        SubsequenceExtend(MissingFrom(init, candidatesUpper), init, last);
      } else {
        SubsequenceSnoc(MissingFrom(init, candidatesUpper), init, last);
      }
    }
  }

  /** The missing skills of a concatenation of lists. */
  lemma {:induction false} MissingFromConcat(a: seq<string>, b: seq<string>, candidatesUpper: seq<string>)
    ensures MissingFrom(a + b, candidatesUpper) == MissingFrom(a, candidatesUpper) + MissingFrom(b, candidatesUpper)
    decreases |b|
  {
    if b == [] {
      assert a + b == a;
    } else {
      var init, last := b[..|b| - 1], b[|b| - 1];
      assert (a + b)[..|a + b| - 1] == a + init;
      MissingFromConcat(a, init, candidatesUpper);
    }
  }

  /** A candidate whose upper-cased skills include everything another's do
      matches at least as many skills of any list. */
  lemma {:induction false} CountMatchedMonotone(skills: seq<string>, c1: seq<string>, c2: seq<string>)
    requires forall x :: x in c1 ==> x in c2
    ensures CountMatched(skills, c1) <= CountMatched(skills, c2)
    decreases |skills|
  {
    if skills != [] {
      CountMatchedMonotone(skills[..|skills| - 1], c1, c2);
    }
  }

  /** `(matches / total * 100) if total else 0` */
  function PercentScore(matches: nat, total: nat): (r: real)
    ensures total == 0 ==> r == 0.0
    ensures 0.0 <= r
    ensures matches <= total ==> r <= 100.0
    ensures matches <= total ==> (r == 100.0 <==> total > 0 && matches == total)
  {
    if total == 0 then 0.0
    else
      var q := matches as real / total as real;
      FractionBounds(matches, total);
      q * 100.0
  }

  /** The fraction of a positive total is non-negative, at most 1 for at
      most the total, and exactly 1 for the total alone. */
  lemma FractionBounds(m: nat, n: nat)
    requires n > 0
    ensures 0.0 <= m as real / n as real
    ensures m <= n ==> m as real / n as real <= 1.0
    ensures m as real / n as real == 1.0 ==> m == n
  {
    var q := m as real / n as real;
    assert q * n as real == m as real;
    if m <= n {
      assert q * n as real <= 1.0 * n as real;
    }
  }

  /** More matches out of the same total never give a lower score. */
  lemma PercentScoreMonotone(m1: nat, m2: nat, total: nat)
    requires m1 <= m2
    ensures PercentScore(m1, total) <= PercentScore(m2, total)
  {
    if total > 0 {
      assert m1 as real / total as real <= m2 as real / total as real;
    }
  }

  /** The value `calculate_skill_match` returns. */
  datatype MatchReport = MatchReport(
    overallScore: real,
    requiredScore: real,
    preferredScore: real,
    requiredMatches: nat,
    preferredMatches: nat,
    totalRequired: nat,
    totalPreferred: nat)

  /** The weight of the required-skill score in the overall score; the
      preferred-skill score has the rest. */
  const RequiredWeight: real := 0.7
  const PreferredWeight: real := 0.3

  /** `missing_required`: the required skills, in declared order, that the candidate lacks. */
  function MissingRequired(candidates: seq<string>, job: JobProfile): seq<string> {
    MissingFrom(job.required, UpperAll(candidates))
  }

  /** `missing_preferred`: the preferred skills, in declared order, that the candidate lacks. */
  function MissingPreferred(candidates: seq<string>, job: JobProfile): seq<string> {
    MissingFrom(job.preferred, UpperAll(candidates))
  }

  /** `calculate_skill_match(candidate_skills, job_requirements)` */
  function CalculateSkillMatch(candidates: seq<string>, job: JobProfile): (r: MatchReport)
    ensures r.totalRequired == |job.required| && r.totalPreferred == |job.preferred|
    ensures r.requiredMatches + |MissingRequired(candidates, job)| == r.totalRequired
    ensures r.preferredMatches + |MissingPreferred(candidates, job)| == r.totalPreferred
    ensures 0.0 <= r.requiredScore <= 100.0 && 0.0 <= r.preferredScore <= 100.0
    ensures 0.0 <= r.overallScore <= 100.0
    ensures r.totalRequired == 0 ==> r.requiredScore == 0.0
    ensures r.totalPreferred == 0 ==> r.preferredScore == 0.0
    ensures r.requiredScore == 100.0 <==> r.totalRequired > 0 && MissingRequired(candidates, job) == []
    ensures r.preferredScore == 100.0 <==> r.totalPreferred > 0 && MissingPreferred(candidates, job) == []
    ensures r.overallScore == RequiredWeight * r.requiredScore + PreferredWeight * r.preferredScore
  {
    var candidatesUpper := UpperAll(candidates);
    var requiredMatches := CountMatched(job.required, candidatesUpper);
    var preferredMatches := CountMatched(job.preferred, candidatesUpper);
    MatchedPlusMissing(job.required, candidatesUpper);
    MatchedPlusMissing(job.preferred, candidatesUpper);
    var requiredScore := PercentScore(requiredMatches, |job.required|);
    var preferredScore := PercentScore(preferredMatches, |job.preferred|);
    MatchReport(
      RequiredWeight * requiredScore + PreferredWeight * preferredScore,
      requiredScore, preferredScore,
      requiredMatches, preferredMatches,
      |job.required|, |job.preferred|)
  }

  /** The overall score is 100 exactly when both lists are non-empty and the
      candidate has every skill of both. */
  lemma PerfectScoreIff(candidates: seq<string>, job: JobProfile)
    ensures CalculateSkillMatch(candidates, job).overallScore == 100.0 <==>
      |job.required| > 0 && |job.preferred| > 0
      && MissingRequired(candidates, job) == [] && MissingPreferred(candidates, job) == []
  {
    var r := CalculateSkillMatch(candidates, job);
    if r.overallScore == 100.0 {
      assert r.requiredScore == 100.0 && r.preferredScore == 100.0;
    }
  }

  /** A profile without preferred skills caps the overall score at 70, and
      one without required skills at 30. */
  lemma EmptyListCapsScore(candidates: seq<string>, job: JobProfile)
    ensures job.preferred == [] ==> CalculateSkillMatch(candidates, job).overallScore <= 70.0
    ensures job.required == [] ==> CalculateSkillMatch(candidates, job).overallScore <= 30.0
  {
  }

  /** A candidate with more skills (compared case-insensitively) never gets a
      lower score, in any of the three scores. */
  lemma MoreSkillsNeverLowerScore(c1: seq<string>, c2: seq<string>, job: JobProfile)
    requires forall x :: x in UpperAll(c1) ==> x in UpperAll(c2)
    ensures CalculateSkillMatch(c1, job).requiredScore <= CalculateSkillMatch(c2, job).requiredScore
    ensures CalculateSkillMatch(c1, job).preferredScore <= CalculateSkillMatch(c2, job).preferredScore
    ensures CalculateSkillMatch(c1, job).overallScore <= CalculateSkillMatch(c2, job).overallScore
  {
    var u1, u2 := UpperAll(c1), UpperAll(c2);
    CountMatchedMonotone(job.required, u1, u2);
    CountMatchedMonotone(job.preferred, u1, u2);
    MatchedPlusMissing(job.required, u2);
    MatchedPlusMissing(job.preferred, u2);
    PercentScoreMonotone(CountMatched(job.required, u1), CountMatched(job.required, u2), |job.required|);
    PercentScoreMonotone(CountMatched(job.preferred, u1), CountMatched(job.preferred, u2), |job.preferred|);
  }

  /** Two required skills of which one is matched and one preferred skill
      that is matched give 50, 100 and 0.7 * 50 + 0.3 * 100 = 65. */
  lemma ScoreFormulaExample()
    ensures var r := CalculateSkillMatch(["Python", "AWS"], JobProfile(["Python", "Docker"], ["AWS"], 0));
      r.requiredScore == 50.0 && r.preferredScore == 100.0 && r.overallScore == 65.0
  {
    assert Upper("Python") == "PYTHON";
    assert Upper("AWS") == "AWS";
    assert Upper("Docker") == "DOCKER";
    assert UpperAll(["Python", "AWS"]) == ["PYTHON", "AWS"];
  }

  /** The outcome of the experience check shown under the recommendations. */
  datatype ExperienceVerdict =
    | Met(years: nat)
    | Short(years: nat, required: nat)

  /** `years_experience < job_req['experience_years']` gives the warning,
      anything else the success message. */
  function CheckExperience(years: nat, job: JobProfile): (v: ExperienceVerdict)
    ensures v.years == years
    ensures v.Met? <==> years >= job.experienceYears
    ensures v.Short? ==> v.required == job.experienceYears && v.years < v.required
  {
    if years < job.experienceYears then Short(years, job.experienceYears) else Met(years)
  }

  /** The colour band of the overall score. */
  datatype Band = Strong | Fair | Weak {
    /** Higher is better. */
    function Rank(): nat {
      match this
      case Strong => 2
      case Fair => 1
      case Weak => 0
    }

    /** The colour the page uses for the band. */
    function Color(): string {
      match this
      case Strong => "#4ade80"
      case Fair => "#fbbf24"
      case Weak => "#ef4444"
    }
  }

  /** Green from 70, amber from 50, red below. */
  function ScoreBand(score: real): (b: Band)
    ensures b == Strong <==> score >= 70.0
    ensures b == Weak <==> score < 50.0
  {
    if score >= 70.0 then Strong else if score >= 50.0 then Fair else Weak
  }

  /** A higher score never falls in a worse band. */
  lemma ScoreBandMonotone(s1: real, s2: real)
    requires s1 <= s2
    ensures ScoreBand(s1).Rank() <= ScoreBand(s2).Rank()
  {
  }
}
