/**
 * The reports the page builds inline from the extracted skills and the
 * selected job profile: the matched/missing status table behind the skills
 * gap chart, and the per-category counts behind the categories chart.
 */
module Reports {
  import opened Chars
  import opened Sequences
  import opened Vocabulary
  import opened Scoring

  datatype Status = Matched | Missing
  datatype SkillKind = Required | Preferred

  /** One row of `skill_status`. */
  datatype SkillRow = SkillRow(skill: string, status: Status, kind: SkillKind)

  /** The row the table holds for `skill`: its status by case-insensitive
      membership, its kind by exact membership in the required list. */
  predicate RowDescribes(row: SkillRow, skill: string, job: JobProfile, candidatesUpper: seq<string>) {
    && row.skill == skill
    && (row.status == Matched <==> IsMatched(skill, candidatesUpper))
    && (row.kind == Required <==> skill in job.required)
  }

  /** The loop that fills `skill_status`: one row per required skill, then
      one per preferred skill. */
  method SkillStatusTable(job: JobProfile, candidates: seq<string>) returns (rows: seq<SkillRow>)
    ensures |rows| == |job.required| + |job.preferred|
    ensures forall k :: 0 <= k < |rows| ==>
      RowDescribes(rows[k], (job.required + job.preferred)[k], job, UpperAll(candidates))
  {
    var all := job.required + job.preferred;
    var candidatesUpper := UpperAll(candidates);
    rows := [];
    for k := 0 to |all|
      invariant |rows| == k
      invariant forall j :: 0 <= j < k ==> RowDescribes(rows[j], all[j], job, candidatesUpper)
    {
      var skill := all[k];
      var status := if Upper(skill) in candidatesUpper then Matched else Missing;
      var kind := if skill in job.required then Required else Preferred;
      rows := rows + [SkillRow(skill, status, kind)];
    }
  }

  /** The skills of the rows marked missing, in table order. */
  function MissingSkillsOf(rows: seq<SkillRow>): seq<string>
    decreases |rows|
  {
    if rows == [] then []
    else
      var last := rows[|rows| - 1];
      MissingSkillsOf(rows[..|rows| - 1]) + (if last.status == Missing then [last.skill] else [])
  }

  /** The rows marked missing are exactly the recommendations: the missing
      required skills followed by the missing preferred skills. */
  lemma StatusTableAgreesWithRecommendations(rows: seq<SkillRow>, job: JobProfile, candidates: seq<string>)
    requires |rows| == |job.required| + |job.preferred|
    requires forall k :: 0 <= k < |rows| ==>
      RowDescribes(rows[k], (job.required + job.preferred)[k], job, UpperAll(candidates))
    ensures MissingSkillsOf(rows) == MissingRequired(candidates, job) + MissingPreferred(candidates, job)
  {
    var all := job.required + job.preferred;
    MissingRowsFollowSkills(rows, all, job, UpperAll(candidates));
    MissingFromConcat(job.required, job.preferred, UpperAll(candidates));
  }

  lemma {:induction false} MissingRowsFollowSkills(rows: seq<SkillRow>, skills: seq<string>, job: JobProfile, candidatesUpper: seq<string>)
    requires |rows| == |skills|
    requires forall k :: 0 <= k < |rows| ==> RowDescribes(rows[k], skills[k], job, candidatesUpper)
    ensures MissingSkillsOf(rows) == MissingFrom(skills, candidatesUpper)
    decreases |rows|
  {
    if rows != [] {
      var n := |rows| - 1;
      assert forall k :: 0 <= k < n ==> rows[..n][k] == rows[k] && skills[..n][k] == skills[k];
      MissingRowsFollowSkills(rows[..n], skills[..n], job, candidatesUpper);
    }
  }

  /** When no skill is listed as both required and preferred, the first
      rows are the required ones and the rest the preferred ones.  (A skill
      listed in both is marked required in both of its rows.) */
  lemma KindFollowsPosition(rows: seq<SkillRow>, job: JobProfile, candidates: seq<string>, k: nat)
    requires |rows| == |job.required| + |job.preferred|
    requires forall k :: 0 <= k < |rows| ==>
      RowDescribes(rows[k], (job.required + job.preferred)[k], job, UpperAll(candidates))
    requires forall x :: x in job.preferred ==> x !in job.required
    requires k < |rows|
    ensures rows[k].kind == Required <==> k < |job.required|
  {
    if k >= |job.required| {
      assert (job.required + job.preferred)[k] == job.preferred[k - |job.required|];
    }
  }

  /** `sum(1 for skill in found if skill in skills)`: exact, case-sensitive membership. */
  function CountIn(found: seq<string>, skills: seq<string>): (n: nat)
    ensures n <= |found|
    decreases |found|
  {
    if found == [] then 0
    else CountIn(found[..|found| - 1], skills) + (if found[|found| - 1] in skills then 1 else 0)
  }

  /** The categories with a positive count, each with its count, in the
      order the categories are declared: the contents of `category_counts`. */
  function PositiveCounts(categories: seq<(string, seq<string>)>, found: seq<string>): seq<(string, nat)>
    decreases |categories|
  {
    if categories == [] then []
    else
      var (name, skills) := categories[|categories| - 1];
      var count := CountIn(found, skills);
      PositiveCounts(categories[..|categories| - 1], found) + (if count > 0 then [(name, count)] else [])
  }

  /** The loop that fills `category_counts`. */
  method CategoryCounts(categories: seq<(string, seq<string>)>, found: seq<string>) returns (counts: seq<(string, nat)>)
    ensures counts == PositiveCounts(categories, found)
  {
    counts := [];
    for k := 0 to |categories|
      invariant counts == PositiveCounts(categories[..k], found)
    {
      var (name, skills) := categories[k];
      var count := 0;
      for j := 0 to |found|
        invariant count == CountIn(found[..j], skills)
      {
        assert found[..j + 1][..j] == found[..j];
        if found[j] in skills {
          count := count + 1;
        }
      }
      assert found[..|found|] == found;
      assert categories[..k + 1][..k] == categories[..k];
      if count > 0 {
        counts := counts + [(name, count)];
      }
    }
    assert categories[..|categories|] == categories;
  }

  /** A category with its count is reported exactly when it is declared
      and the count of found skills belonging to it is that positive count. */
  lemma {:induction false} PositiveCountsMembers(categories: seq<(string, seq<string>)>, found: seq<string>, name: string, count: nat)
    ensures (name, count) in PositiveCounts(categories, found) <==>
      count > 0 && exists skills :: (name, skills) in categories && CountIn(found, skills) == count
    decreases |categories|
  {
    if categories != [] {
      var init, last := categories[..|categories| - 1], categories[|categories| - 1];
      assert categories == init + [last];
      PositiveCountsMembers(init, found, name, count);
      if (name, count) in PositiveCounts(categories, found) && (name, count) !in PositiveCounts(init, found) {
        assert (name, last.1) in categories;
      }
    }
  }

  /** The names of a list of pairs. */
  function Names<T>(pairs: seq<(string, T)>): (r: seq<string>)
    ensures |r| == |pairs|
    ensures forall k :: 0 <= k < |pairs| ==> r[k] == pairs[k].0
  {
    seq(|pairs|, k requires 0 <= k < |pairs| => pairs[k].0)
  }

  /** The reported categories keep their declared order, so with distinct
      declared names no category is reported twice. */
  lemma {:induction false} PositiveCountsOrdered(categories: seq<(string, seq<string>)>, found: seq<string>)
    ensures IsSubsequence(Names(PositiveCounts(categories, found)), Names(categories))
    decreases |categories|
  {
    if categories != [] {
      var init, last := categories[..|categories| - 1], categories[|categories| - 1];
      PositiveCountsOrdered(init, found);
      var r := PositiveCounts(init, found);
      assert Names(categories) == Names(init) + [last.0];
      if CountIn(found, last.1) > 0 {
        assert Names(PositiveCounts(categories, found)) == Names(r) + [last.0];
        SubsequenceSnoc(Names(r), Names(init), last.0);
      } else {
        assert PositiveCounts(categories, found) == r;
        SubsequenceExtend(Names(r), Names(init), last.0);
      }
    }
  }

  /** No category is reported twice when the declared names are distinct. */
  lemma PositiveCountsDistinct(categories: seq<(string, seq<string>)>, found: seq<string>)
    requires Distinct(Names(categories))
    ensures Distinct(Names(PositiveCounts(categories, found)))
  {
    PositiveCountsOrdered(categories, found);
    SubsequenceDistinct(Names(PositiveCounts(categories, found)), Names(categories));
  }
}
