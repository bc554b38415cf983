/**
 * Facts about the fixed configuration: some skills that the job profiles
 * list are not in the skill vocabulary, so a résumé can never be credited
 * with them, whatever its text.  As a consequence no profile of the
 * catalogue can be matched at 100%, and the Data Scientist's required
 * score never exceeds 87.5.
 */
module Catalog {
  import opened Chars
  import opened Sequences
  import opened Vocabulary
  import opened SkillScan
  import opened Scoring

  /** One profile skill per profile that has no vocabulary entry,
      upper-cased: "SQL" (required by Data Scientist), "CELERY" (preferred by
      Senior Python Developer), "WEBPACK" (preferred by Full Stack
      Developer), "BASH" (preferred by DevOps Engineer).  "GitOps" and
      "ArgoCD", also preferred by DevOps Engineer, have none either; one
      such skill per profile is all the lemmas below need. */
  const Unlisted: seq<string> := ["SQL", "CELERY", "WEBPACK", "BASH"]

  /** A cheap sufficient test that the upper-cased `v` differs from `w`. */
  predicate ShapeDiffers(v: string, w: string) {
    |v| != |w| || (|w| > 0 && UpperChar(v[0]) != w[0])
  }

  lemma ShapeDiffersSound(v: string, w: string)
    requires ShapeDiffers(v, w)
    ensures Upper(v) != w
  {
    if |v| == |w| && |w| > 0 {
      assert Upper(v)[0] == UpperChar(v[0]);
    }
  }

  /** `v` differs in shape from every unlisted skill. */
  predicate DiffersFromUnlisted(v: string) {
    ShapeDiffers(v, "SQL") && ShapeDiffers(v, "CELERY") && ShapeDiffers(v, "WEBPACK") && ShapeDiffers(v, "BASH")
  }

  // One lemma per group of the vocabulary keeps each proof small.
  lemma LanguagesDiffer(v: string) requires v in ProgrammingLanguages ensures DiffersFromUnlisted(v) {}
  lemma WebDiffer(v: string) requires v in WebTechnologies ensures DiffersFromUnlisted(v) {}
  lemma DatabasesDiffer(v: string) requires v in Databases ensures DiffersFromUnlisted(v) {}
  lemma CloudDiffer(v: string) requires v in CloudAndDevOps ensures DiffersFromUnlisted(v) {}
  lemma DataScienceDiffer(v: string) requires v in DataScienceAndML ensures DiffersFromUnlisted(v) {}
  lemma OtherDiffer(v: string) requires v in OtherTechnologies ensures DiffersFromUnlisted(v) {}

  /** No vocabulary entry upper-cases to an unlisted skill. */
  lemma UnlistedNotInVocabulary(v: string, w: string)
    requires v in TechSkills && w in Unlisted
    ensures Upper(v) != w
  {
    if v in ProgrammingLanguages { LanguagesDiffer(v); }
    else if v in WebTechnologies { WebDiffer(v); }
    else if v in Databases { DatabasesDiffer(v); }
    else if v in CloudAndDevOps { CloudDiffer(v); }
    else if v in DataScienceAndML { DataScienceDiffer(v); }
    else { OtherDiffer(v); }
    ShapeDiffersSound(v, w);
  }

  /** A profile skill whose upper-cased form is unlisted is missing from the
      skills extracted from any text. */
  lemma UnlistedAlwaysMissing(text: string, skills: seq<string>, x: string)
    requires x in skills && Upper(x) in Unlisted
    ensures x in MissingFrom(skills, UpperAll(SkillsIn(TechSkills, Upper(text))))
  {
    var found := SkillsIn(TechSkills, Upper(text));
    var u := UpperAll(found);
    forall k | 0 <= k < |found| ensures u[k] != Upper(x) {
      SkillsInMembers(TechSkills, Upper(text), found[k]);
      UnlistedNotInVocabulary(found[k], Upper(x));
    }
    MissingMembers(skills, u, x);
  }

  /** No text scores 100 against any profile of the catalogue. */
  lemma CatalogNeverPerfect(text: string, position: string)
    requires position in JobPositions
    ensures CalculateSkillMatch(SkillsIn(TechSkills, Upper(text)), JobPositions[position]).overallScore < 100.0
  {
    var found := SkillsIn(TechSkills, Upper(text));
    var job := JobPositions[position];
    var u := UpperAll(found);
    if job == SeniorPythonDeveloper {
      assert Upper("Celery") == "CELERY";
      UnlistedAlwaysMissing(text, job.preferred, "Celery");
      assert MissingPreferred(found, job) != [];
    } else if job == DataScientist {
      assert Upper("SQL") == "SQL";
      UnlistedAlwaysMissing(text, job.required, "SQL");
      assert MissingRequired(found, job) != [];
    } else if job == FullStackDeveloper {
      assert Upper("Webpack") == "WEBPACK";
      UnlistedAlwaysMissing(text, job.preferred, "Webpack");
      assert MissingPreferred(found, job) != [];
    } else {
      assert job == DevOpsEngineer;
      assert Upper("Bash") == "BASH";
      UnlistedAlwaysMissing(text, job.preferred, "Bash");
      assert MissingPreferred(found, job) != [];
    }
    PerfectScoreIff(found, job);
  }

  /** "SQL" is never found, so at most 7 of the Data Scientist's 8 required
      skills can be matched. */
  lemma DataScientistRequiredCapped(text: string)
    ensures CalculateSkillMatch(SkillsIn(TechSkills, Upper(text)), DataScientist).requiredScore <= 87.5
  {
    var found := SkillsIn(TechSkills, Upper(text));
    var r := CalculateSkillMatch(found, DataScientist);
    assert Upper("SQL") == "SQL";
    UnlistedAlwaysMissing(text, DataScientist.required, "SQL");
    assert |MissingRequired(found, DataScientist)| >= 1;
    assert r.requiredMatches <= 7 && r.totalRequired == 8;
    assert r.requiredScore == r.requiredMatches as real / 8.0 * 100.0;
  }

}
