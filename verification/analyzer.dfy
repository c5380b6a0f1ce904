/** Repository statistics over a time window (src/services/analyzer.ts):
    commit rate and add/remove ratio, pipeline outcome counts and deployment
    frequency, and contributor concentration (bus factor, top contributor). */
module Analyzer {
  import opened Util
  import opened RepositoryTypes

  const MsPerDay: int := 86400000

  /** `Math.ceil((end - start) / day)`: the window length in started days. */
  function TotalDays(tf: TimeFilter): (days: int)
    ensures (days - 1) * MsPerDay < tf.endMs - tf.startMs <= days * MsPerDay
  {
    CeilDiv(tf.endMs - tf.startMs, MsPerDay)
  }

  // ---------------------------------------------------------------------------
  // analyzeCommits

  /** `addRemoveRatio` is a finite number or `Infinity`. */
  datatype Ratio = Finite(value: real) | Infinity

  datatype CommitStats = CommitStats(
    dailyCommitRate: real,
    commitWithLongDescription: nat,
    addRemoveRatio: Ratio)

  function LinesAdded(c: Commit): nat { c.code_added }
  function LinesRemoved(c: Commit): nat { c.code_removed }
  predicate HasLongDescription(c: Commit) { |c.message| > 50 }

  function AnalyzeCommits(commits: seq<Commit>, tf: TimeFilter): (r: CommitStats)
    ensures TotalDays(tf) > 0 ==> IsQuotient(r.dailyCommitRate, |commits| as real, TotalDays(tf) as real)
    ensures TotalDays(tf) <= 0 ==> r.dailyCommitRate == 0.0
    ensures r.dailyCommitRate >= 0.0
    ensures r.commitWithLongDescription == CountIf(commits, HasLongDescription) <= |commits|
    ensures r.commitWithLongDescription == 0 <==>
              forall i :: 0 <= i < |commits| ==> |commits[i].message| <= 50
    ensures var added, removed := SumOf(commits, LinesAdded), SumOf(commits, LinesRemoved);
            && (removed > 0 ==> r.addRemoveRatio.Finite?
                                && IsQuotient(r.addRemoveRatio.value, added as real, removed as real))
            && (r.addRemoveRatio.Infinity? <==> removed == 0 && added > 0)
            && (removed == 0 && added == 0 ==> r.addRemoveRatio == Finite(1.0))
  {
    var totalDays := TotalDays(tf);
    var totalAdded := SumOf(commits, LinesAdded);
    var totalRemoved := SumOf(commits, LinesRemoved);
    CountIfZero(commits, HasLongDescription);
    CommitStats(
      if totalDays > 0 then Quotient(|commits|, totalDays as real) else 0.0,
      CountIf(commits, HasLongDescription),
      if totalRemoved > 0 then Finite(Quotient(totalAdded, totalRemoved as real))
      else if totalAdded > 0 then Infinity
      else Finite(1.0))
  }

  /** An empty commit list has rate 0, no long descriptions and ratio 1. */
  lemma AnalyzeCommitsEmpty(tf: TimeFilter)
    ensures AnalyzeCommits([], tf) == CommitStats(0.0, 0, Finite(1.0))
  {
  }

  /** The worked example: three commits adding 10, 20, 15 and removing 5, 8, 3 lines, one of
      them with a message over 50 characters, over 2025-01-01..2025-02-01 (31 days). */
  lemma AnalyzeCommitsExample(c1: Commit, c2: Commit, c3: Commit)
    requires c1.code_added == 10 && c2.code_added == 20 && c3.code_added == 15
    requires c1.code_removed == 5 && c2.code_removed == 8 && c3.code_removed == 3
    requires |c1.message| <= 50 && |c2.message| <= 50 && |c3.message| > 50
    ensures var tf := TimeFilter(1735689600000, 1738368000000);
            var r := AnalyzeCommits([c1, c2, c3], tf);
            && TotalDays(tf) == 31
            && r.dailyCommitRate == 3.0 / 31.0
            && r.commitWithLongDescription == 1
            && r.addRemoveRatio == Finite(2.8125)
  {
    assert [c1, c2, c3] == [c1] + ([c2] + ([c3] + []));
    CountIfCons(c1, [c2] + ([c3] + []), HasLongDescription);
    CountIfCons(c2, [c3] + [], HasLongDescription);
    CountIfCons(c3, [], HasLongDescription);
    SumOfCons(c1, [c2] + ([c3] + []), LinesAdded);
    SumOfCons(c2, [c3] + [], LinesAdded);
    SumOfCons(c3, [], LinesAdded);
    SumOfCons(c1, [c2] + ([c3] + []), LinesRemoved);
    SumOfCons(c2, [c3] + [], LinesRemoved);
    SumOfCons(c3, [], LinesRemoved);
    var tf := TimeFilter(1735689600000, 1738368000000);
    assert TotalDays(tf) == 31;
    assert SumOf([c1, c2, c3], LinesAdded) == 45 && SumOf([c1, c2, c3], LinesRemoved) == 16;
    assert Quotient(3, 31.0) == 3.0 / 31.0 && Quotient(45, 16.0) == 2.8125;
  }

  // ---------------------------------------------------------------------------
  // analyzePipelines

  predicate IsSuccessful(p: Pipeline)
  {
    p.status == "success" || p.status == "succeeded" || p.status == "completed"
    || p.conclusion == Some("success")
  }

  predicate IsFailed(p: Pipeline)
  {
    p.status == "failed" || p.status == "failure" || p.conclusion == Some("failure")
  }

  /** A successful pipeline on one of the long-lived branches counts as a deployment. */
  predicate IsMainBranchDeployment(p: Pipeline)
  {
    (p.ref == "main" || p.ref == "master" || p.ref == "develop") && IsSuccessful(p)
  }

  datatype PipelineStats = PipelineStats(
    successfulPipelines: nat,
    failedPipelines: nat,
    successRate: real,
    deploymentFrequency: real)

  function AnalyzePipelines(pipelines: seq<Pipeline>, tf: TimeFilter): (r: PipelineStats)
    ensures r.successfulPipelines == CountIf(pipelines, IsSuccessful) <= |pipelines|
    ensures r.failedPipelines == CountIf(pipelines, IsFailed) <= |pipelines|
    ensures 0.0 <= r.successRate <= 100.0
    ensures pipelines == [] ==> r.successRate == 0.0
    ensures r.successRate == 100.0 <==>
              pipelines != [] && forall i :: 0 <= i < |pipelines| ==> IsSuccessful(pipelines[i])
    ensures pipelines != [] ==> IsQuotient(r.successRate, 100.0 * r.successfulPipelines as real, |pipelines| as real)
    ensures TotalDays(tf) > 0 ==>
              IsQuotient(r.deploymentFrequency, CountIf(pipelines, IsMainBranchDeployment) as real, TotalDays(tf) as real)
    ensures TotalDays(tf) <= 0 ==> r.deploymentFrequency == 0.0
    ensures CountIf(pipelines, IsMainBranchDeployment) <= r.successfulPipelines
  {
    var successful := CountIf(pipelines, IsSuccessful);
    var failed := CountIf(pipelines, IsFailed);
    var total := |pipelines|;
    var mainBranch := CountIf(pipelines, IsMainBranchDeployment);
    var totalDays := TotalDays(tf);
    CountIfAll(pipelines, IsSuccessful);
    CountIfMono(pipelines, IsMainBranchDeployment, IsSuccessful);
    PipelineStats(
      successful,
      failed,
      Percentage(successful, total),
      if totalDays > 0 then Quotient(mainBranch, totalDays as real) else 0.0)
  }

  /** The success and failure filters overlap: a completed run that concluded in failure is in both. */
  lemma CompletedFailureCountsTwice(tf: TimeFilter)
    ensures var p := Pipeline(1, "completed", "main", "", Some("failure"), 0, 0);
            var r := AnalyzePipelines([p], tf);
            r.successfulPipelines == 1 && r.failedPipelines == 1
  {
  }

  /** The worked example: five runs (success on main, failed, succeeded on a feature branch,
      concluded success on master, concluded failure) over 31 days. */
  lemma AnalyzePipelinesExample(p1: Pipeline, p2: Pipeline, p3: Pipeline, p4: Pipeline, p5: Pipeline)
    requires p1.status == "success" && p1.ref == "main" && p1.conclusion == None
    requires p2.status == "failed" && p2.ref == "" && p2.conclusion == None
    requires p3.status == "succeeded" && p3.ref == "feature" && p3.conclusion == None
    requires p4.status == "" && p4.ref == "master" && p4.conclusion == Some("success")
    requires p5.status == "" && p5.ref == "" && p5.conclusion == Some("failure")
    ensures var r := AnalyzePipelines([p1, p2, p3, p4, p5], TimeFilter(1735689600000, 1738368000000));
            r == PipelineStats(3, 2, 60.0, 2.0 / 31.0)
  {
    ExamplePipelineCounts(p1, p2, p3, p4, p5);
    assert TotalDays(TimeFilter(1735689600000, 1738368000000)) == 31;
    assert Percentage(3, 5) == 60.0;
    assert Quotient(2, 31.0) == 2.0 / 31.0;
  }

  /** The counts of the worked example. */
  lemma ExamplePipelineCounts(p1: Pipeline, p2: Pipeline, p3: Pipeline, p4: Pipeline, p5: Pipeline)
    requires p1.status == "success" && p1.ref == "main" && p1.conclusion == None
    requires p2.status == "failed" && p2.ref == "" && p2.conclusion == None
    requires p3.status == "succeeded" && p3.ref == "feature" && p3.conclusion == None
    requires p4.status == "" && p4.ref == "master" && p4.conclusion == Some("success")
    requires p5.status == "" && p5.ref == "" && p5.conclusion == Some("failure")
    ensures CountIf([p1, p2, p3, p4, p5], IsSuccessful) == 3
    ensures CountIf([p1, p2, p3, p4, p5], IsFailed) == 2
    ensures CountIf([p1, p2, p3, p4, p5], IsMainBranchDeployment) == 2
  {
    var ps := [p1, p2, p3, p4, p5];
    assert ps == [p1] + ([p2] + ([p3] + ([p4] + ([p5] + []))));
    forall p: Pipeline -> bool | p == IsSuccessful || p == IsFailed || p == IsMainBranchDeployment
      ensures CountIf(ps, p) == (if p(p1) then 1 else 0) + (if p(p2) then 1 else 0)
                + (if p(p3) then 1 else 0) + (if p(p4) then 1 else 0) + (if p(p5) then 1 else 0)
    {
      CountIfCons(p1, [p2] + ([p3] + ([p4] + ([p5] + []))), p);
      CountIfCons(p2, [p3] + ([p4] + ([p5] + [])), p);
      CountIfCons(p3, [p4] + ([p5] + []), p);
      CountIfCons(p4, [p5] + [], p);
      CountIfCons(p5, [], p);
    }
    assert CountIf(ps, IsSuccessful) == 3;
    assert CountIf(ps, IsFailed) == 2;
    assert CountIf(ps, IsMainBranchDeployment) == 2;
  }

  // ---------------------------------------------------------------------------
  // analyzeContributors

  function CommitCount(c: Contributor): nat { c.commits }

  function TotalCommits(cs: seq<Contributor>): nat { SumOf(cs, CommitCount) }

  /** The commits of the first `k` contributors of `cs`. */
  function PrefixCommits(cs: seq<Contributor>, k: nat): nat
    requires k <= |cs|
  {
    SumOf(cs[..k], CommitCount)
  }

  /** `cumulative / total >= 0.5` on JavaScript numbers, for counts: `0 / 0` is NaN, which is
      not at least anything, and `k / 0` for `k > 0` is Infinity. */
  predicate ReachesHalf(cumulative: nat, total: nat)
  {
    if total == 0 then cumulative > 0 else 2 * cumulative >= total
  }

  /** `commits / total > 0.35` on JavaScript numbers, for counts. */
  predicate ExceedsShare(commits: nat, total: nat)
  {
    if total == 0 then commits > 0 else 20 * commits > 7 * total
  }

  /** `k` is the bus factor of the contributors in the order `sorted`: the least number of
      leading contributors holding at least half of all commits, or everybody when nobody
      has committed (the loop then never breaks). */
  predicate IsBusFactor(sorted: seq<Contributor>, k: nat)
  {
    var total := TotalCommits(sorted);
    && k <= |sorted|
    && (total == 0 ==> k == |sorted|)
    && (total > 0 ==> && 1 <= k
                      && 2 * PrefixCommits(sorted, k) >= total
                      && forall j :: 0 <= j < k ==> 2 * PrefixCommits(sorted, j) < total)
  }

  /** Only one number is the bus factor of a given order. */
  lemma BusFactorUnique(sorted: seq<Contributor>, k1: nat, k2: nat)
    requires IsBusFactor(sorted, k1) && IsBusFactor(sorted, k2)
    ensures k1 == k2
  {
  }

  lemma PrefixCommitsStep(cs: seq<Contributor>, i: nat)
    requires i < |cs|
    ensures PrefixCommits(cs, i + 1) == PrefixCommits(cs, i) + cs[i].commits
  {
    assert cs[..i + 1][..i] == cs[..i];
  }

  lemma {:induction false} PrefixCommitsBounded(cs: seq<Contributor>, k: nat)
    requires k <= |cs|
    ensures PrefixCommits(cs, k) <= TotalCommits(cs)
  {
    assert cs == cs[..k] + cs[k..];
    SumOfAppend(cs[..k], cs[k..], CommitCount);
  }

  /** The bus-factor loop: add contributors in order until half the commits are covered. */
  method BusFactor(sorted: seq<Contributor>) returns (busFactor: nat)
    ensures IsBusFactor(sorted, busFactor)
  {
    var totalCommits := TotalCommits(sorted);
    var cumulativeCommits := 0;
    busFactor := 0;
    while busFactor < |sorted|
      invariant busFactor <= |sorted|
      invariant cumulativeCommits == PrefixCommits(sorted, busFactor)
      invariant forall j :: 0 < j <= busFactor ==> !ReachesHalf(PrefixCommits(sorted, j), totalCommits)
    {
      PrefixCommitsStep(sorted, busFactor);
      cumulativeCommits := cumulativeCommits + sorted[busFactor].commits;
      busFactor := busFactor + 1;
      if ReachesHalf(cumulativeCommits, totalCommits) {
        break;
      }
    }
    PrefixCommitsBounded(sorted, busFactor);
    assert sorted[..|sorted|] == sorted;
  }

  function CommitsKey(c: Contributor): int { c.commits }

  datatype ContributorStats = ContributorStats(
    imbalanceContribution: bool,
    busFactor: nat,
    topContributor: string,
    topContributorPercentage: real)

  /** The contributor `sortedContributors[0]` refers to: the first one, in input order,
      with the most commits. */
  function TopContributor(contributors: seq<Contributor>): (top: Contributor)
    requires contributors != []
    ensures top in contributors
    ensures forall i :: 0 <= i < |contributors| ==> contributors[i].commits <= top.commits
    ensures top.commits <= TotalCommits(contributors)
  {
    var i := FirstMaxIndex(contributors, CommitsKey);
    SumOfBoundsElement(contributors, CommitCount, i);
    contributors[i]
  }

  /** `name || 'N/A'`: an empty name also reads as N/A. */
  function DisplayName(name: string): (shown: string)
    ensures shown != ""
  {
    if name == "" then "N/A" else name
  }

  /** Some contributor holds more than 35% of all commits. */
  predicate HasImbalance(contributors: seq<Contributor>)
  {
    var total := TotalCommits(contributors);
    total > 0 && exists i :: 0 <= i < |contributors| && contributors[i].commits as real > 0.35 * total as real
  }

  method AnalyzeContributors(contributors: seq<Contributor>) returns (r: ContributorStats)
    ensures IsBusFactor(SortDesc(contributors, CommitsKey), r.busFactor)
    ensures r.imbalanceContribution <==> HasImbalance(contributors)
    ensures contributors == [] ==> r.topContributor == "N/A" && r.busFactor == 0
    ensures contributors != [] ==> r.topContributor == DisplayName(TopContributor(contributors).name)
    ensures contributors == [] ==> r.topContributorPercentage == 0.0
    ensures contributors != [] ==>
              r.topContributorPercentage
                == Percentage(TopContributor(contributors).commits, TotalCommits(contributors))
    ensures 0.0 <= r.topContributorPercentage <= 100.0
  {
    var totalCommits := TotalCommits(contributors);
    var sortedContributors := SortDesc(contributors, CommitsKey);
    SumOfSortDesc(contributors, CommitsKey, CommitCount);

    var hasImbalance := SomeExceedsShare(sortedContributors, totalCommits);
    ImbalanceOverPermutation(contributors, sortedContributors);

    var busFactor := BusFactor(sortedContributors);
    var name, percentage := TopShare(contributors, sortedContributors);
    r := ContributorStats(hasImbalance, busFactor, name, percentage);
  }

  /** The name and commit share of `sortedContributors[0]`, or N/A and 0 without contributors. */
  method TopShare(contributors: seq<Contributor>, sortedContributors: seq<Contributor>)
    returns (name: string, percentage: real)
    requires sortedContributors == SortDesc(contributors, CommitsKey)
    ensures contributors == [] ==> name == "N/A"
    ensures contributors != [] ==> name == DisplayName(TopContributor(contributors).name)
    ensures contributors == [] ==> percentage == 0.0
    ensures contributors != [] ==>
              percentage == Percentage(TopContributor(contributors).commits, TotalCommits(contributors))
    ensures 0.0 <= percentage <= 100.0
  {
    var totalCommits := TotalCommits(contributors);
    var top := 0;
    name := "N/A";
    if sortedContributors != [] {
      SortDescHead(contributors, CommitsKey);
      assert sortedContributors[0] == TopContributor(contributors);
      top := sortedContributors[0].commits;
      name := DisplayName(sortedContributors[0].name);
    }
    percentage := Percentage(top, totalCommits);
  }

  /** `sortedContributors.some(c => c.commits / totalCommits > 0.35)`. */
  predicate SomeExceedsShare(sorted: seq<Contributor>, total: nat)
  {
    exists i | 0 <= i < |sorted| :: ExceedsShare(sorted[i].commits, total)
  }

  /** Some contributor of a permutation holds more than 35% exactly when one of the original does. */
  lemma ImbalanceOverPermutation(cs: seq<Contributor>, sorted: seq<Contributor>)
    requires multiset(sorted) == multiset(cs)
    ensures SomeExceedsShare(sorted, TotalCommits(cs)) <==> HasImbalance(cs)
  {
    var total := TotalCommits(cs);
    if total == 0 {
      forall i | 0 <= i < |sorted| ensures sorted[i].commits == 0 {
        assert sorted[i] in multiset(cs);
        var k :| 0 <= k < |cs| && cs[k] == sorted[i];
        SumOfBoundsElement(cs, CommitCount, k);
      }
    } else {
      forall i | 0 <= i < |sorted| && ExceedsShare(sorted[i].commits, total)
        ensures exists k :: 0 <= k < |cs| && cs[k].commits as real > 0.35 * total as real
      {
        assert sorted[i] in multiset(cs);
        var k :| 0 <= k < |cs| && cs[k] == sorted[i];
        assert cs[k].commits as real > 0.35 * total as real;
      }
      forall i | 0 <= i < |cs| && cs[i].commits as real > 0.35 * total as real
        ensures exists k :: 0 <= k < |sorted| && ExceedsShare(sorted[k].commits, total)
      {
        assert cs[i] in multiset(sorted);
        var k :| 0 <= k < |sorted| && sorted[k] == cs[i];
        assert ExceedsShare(sorted[k].commits, total);
      }
    }
  }

  /** The worked examples: [100, 50, 30] and a lone contributor both have bus factor 1. */
  lemma BusFactorExamples()
    ensures IsBusFactor([Contributor(1, "Alice", "", 100, 0, 0), Contributor(2, "Bob", "", 50, 0, 0),
                         Contributor(3, "Charlie", "", 30, 0, 0)], 1)
    ensures IsBusFactor([Contributor(1, "Solo", "", 100, 0, 0)], 1)
  {
    var cs := [Contributor(1, "Alice", "", 100, 0, 0), Contributor(2, "Bob", "", 50, 0, 0),
               Contributor(3, "Charlie", "", 30, 0, 0)];
    assert cs[..0] == [] && cs[..1] == [cs[0]];
    assert cs[..3][..2] == cs[..2] && cs[..2][..1] == cs[..1] && cs[..3] == cs;
    var solo := [Contributor(1, "Solo", "", 100, 0, 0)];
    assert solo[..0] == [] && solo[..1] == solo;
  }
}
