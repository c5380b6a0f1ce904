/** The category scores of src/services/metrics.ts: fixed weighted sums of the metric
    records, rounded with `Math.round`. Every score lies in [0, 100] when its inputs are
    in range (percentages in [0, 100], counts, sizes and times non-negative). */
module Metrics {
  import opened Util
  import opened GitLabTypes

  predicate InPercent(x: real) { 0.0 <= x <= 100.0 }

  predicate InPercentI(x: int) { 0 <= x <= 100 }

  function Flag(b: bool): real { if b then 100.0 else 0.0 }

  // ----- documentation -------------------------------------------------------------

  /** 0.3 readme + 0.2 ADR + 0.3 inline docs + 0.1 per present guide, rounded. */
  function DocumentationScore(m: DocumentationMetrics): (score: int)
    ensures InPercentI(m.readmeScore) && InPercentI(m.adrScore) && InPercentI(m.inlineDocScore)
            ==> InPercentI(score)
  {
    var weighted := m.readmeScore as real * 0.3 + m.adrScore as real * 0.2
                    + m.inlineDocScore as real * 0.3
                    + Flag(m.contributingGuideExists) * 0.1 + Flag(m.licenseExists) * 0.1;
    RoundBetween(weighted, 0, 100);
    Round(weighted)
  }

  /** A better sub-score never lowers the documentation score. */
  lemma DocumentationScoreMonotone(m: DocumentationMetrics, n: DocumentationMetrics)
    requires m.readmeScore <= n.readmeScore && m.adrScore <= n.adrScore
    requires m.inlineDocScore <= n.inlineDocScore
    requires m.contributingGuideExists ==> n.contributingGuideExists
    requires m.licenseExists ==> n.licenseExists
    ensures DocumentationScore(m) <= DocumentationScore(n)
  {
    var x := m.readmeScore as real * 0.3 + m.adrScore as real * 0.2
             + m.inlineDocScore as real * 0.3
             + Flag(m.contributingGuideExists) * 0.1 + Flag(m.licenseExists) * 0.1;
    var y := n.readmeScore as real * 0.3 + n.adrScore as real * 0.2
             + n.inlineDocScore as real * 0.3
             + Flag(n.contributingGuideExists) * 0.1 + Flag(n.licenseExists) * 0.1;
    RoundMonotone(x, y);
  }

  /** Perfect sub-scores and both guides give 100; 80/60/70 with only a contributing
      guide gives 67. */
  lemma DocumentationScoreExamples()
    ensures DocumentationScore(DocumentationMetrics(100, 100, 100, true, true, 100)) == 100
    ensures DocumentationScore(DocumentationMetrics(80, 60, 70, true, false, 0)) == 67
  {
    RoundBetween(100.0, 100, 100);
    RoundBetween(67.0, 67, 67);
  }

  // ----- testing -------------------------------------------------------------------

  /** `Math.min(total / 100, 1) * 100`: the test count on a 0..100 scale, full at 100 tests. */
  function NormalizedTestCount(total: nat): (r: real)
    ensures InPercent(r)
    ensures r == 100.0 <==> total >= 100
    ensures total < 100 ==> r == total as real
  {
    MinR(total as real / 100.0, 1.0) * 100.0
  }

  /** `Math.max(0, 100 - ms / 10)`: loses one point per 10 ms, never below 0. */
  function NormalizedExecutionTime(avgMs: real): (r: real)
    ensures r >= 0.0
    ensures avgMs >= 0.0 ==> r <= 100.0
    ensures r == 0.0 <==> avgMs >= 1000.0
    ensures avgMs < 1000.0 ==> r == 100.0 - avgMs / 10.0
  {
    MaxR(0.0, 100.0 - avgMs / 10.0)
  }

  function TestingWeighted(m: TestingMetrics): real
  {
    m.coverage * 0.4
    + NormalizedTestCount(m.unitTestCount + m.integrationTestCount + m.e2eTestCount) * 0.2
    + NormalizedExecutionTime(m.avgExecutionTime) * 0.2
    + m.reliability * 0.2
  }

  /** 0.4 coverage + 0.2 test count + 0.2 execution time + 0.2 reliability, rounded. */
  function TestingScore(m: TestingMetrics): (score: int)
    ensures InPercent(m.coverage) && InPercent(m.reliability) && m.avgExecutionTime >= 0.0
            ==> InPercentI(score)
  {
    RoundBetween(TestingWeighted(m), 0, 100);
    Round(TestingWeighted(m))
  }

  /** Slower tests never raise the testing score. */
  lemma TestingScoreSlowerIsWorse(m: TestingMetrics, slower: real)
    requires m.avgExecutionTime <= slower
    ensures TestingScore(m.(avgExecutionTime := slower)) <= TestingScore(m)
  {
    RoundMonotone(TestingWeighted(m.(avgExecutionTime := slower)), TestingWeighted(m));
  }

  /** Perfect metrics give 100; the same suite at 50 ms per run gives 99. */
  lemma TestingScoreExamples()
    ensures TestingScore(TestingMetrics(100.0, 200, 50, 20, 0.0, 100.0)) == 100
    ensures TestingScore(TestingMetrics(100.0, 200, 50, 20, 50.0, 100.0)) == 99
  {
    RoundBetween(TestingWeighted(TestingMetrics(100.0, 200, 50, 20, 0.0, 100.0)), 100, 100);
    RoundBetween(TestingWeighted(TestingMetrics(100.0, 200, 50, 20, 50.0, 100.0)), 99, 99);
  }

  // ----- commits -------------------------------------------------------------------

  /** `Math.max(0, 100 - avgCommitSize)`. */
  function NormalizedSize(avgSize: real): (r: real)
    ensures r >= 0.0 && (avgSize >= 0.0 ==> r <= 100.0)
    ensures r == 0.0 <==> avgSize >= 100.0
  {
    MaxR(0.0, 100.0 - avgSize)
  }

  /** `Math.min(frequency * 20, 100)`: full marks at five per day. */
  function NormalizedFrequency(frequency: real): (r: real)
    ensures r <= 100.0 && (frequency >= 0.0 ==> r >= 0.0)
    ensures r == 100.0 <==> frequency >= 5.0
  {
    MinR(frequency * 20.0, 100.0)
  }

  /** `Math.max(0, 100 - rate * 100)`. */
  function ProblematicScore(rate: real): (r: real)
    ensures r >= 0.0 && (rate >= 0.0 ==> r <= 100.0)
    ensures r == 0.0 <==> rate >= 1.0
  {
    MaxR(0.0, 100.0 - rate * 100.0)
  }

  function CommitWeighted(m: CommitMetrics): real
  {
    m.conventionalCommitRate * 0.2 + NormalizedSize(m.avgCommitSize) * 0.4
    + NormalizedFrequency(m.commitFrequency) * 0.2 + ProblematicScore(m.problematicCommitsRate) * 0.2
  }

  /** 0.2 conventional rate + 0.4 size + 0.2 frequency + 0.2 problem score, rounded. */
  function CommitScore(m: CommitMetrics): (score: int)
    ensures InPercent(m.conventionalCommitRate) && m.avgCommitSize >= 0.0
            && m.commitFrequency >= 0.0 && m.problematicCommitsRate >= 0.0
            ==> InPercentI(score)
  {
    RoundBetween(CommitWeighted(m), 0, 100);
    Round(CommitWeighted(m))
  }

  /** Larger commits never raise the commit score. */
  lemma CommitScoreLargerIsWorse(m: CommitMetrics, larger: real)
    requires m.avgCommitSize <= larger
    ensures CommitScore(m.(avgCommitSize := larger)) <= CommitScore(m)
  {
    RoundMonotone(CommitWeighted(m.(avgCommitSize := larger)), CommitWeighted(m));
  }

  /** More problematic commits never raise the commit score. */
  lemma CommitScoreMoreProblemsIsWorse(m: CommitMetrics, higher: real)
    requires m.problematicCommitsRate <= higher
    ensures CommitScore(m.(problematicCommitsRate := higher)) <= CommitScore(m)
  {
    RoundMonotone(CommitWeighted(m.(problematicCommitsRate := higher)), CommitWeighted(m));
  }

  /** Small, frequent, clean conventional commits score 96; size 200 with half of the
      commits problematic scores 50. */
  lemma CommitScoreExamples()
    ensures CommitScore(CommitMetrics(100.0, 10.0, 5.0, 0.0)) == 96
    ensures CommitScore(CommitMetrics(100.0, 200.0, 5.0, 0.5)) == 50
  {
    RoundBetween(CommitWeighted(CommitMetrics(100.0, 10.0, 5.0, 0.0)), 96, 96);
    RoundBetween(CommitWeighted(CommitMetrics(100.0, 200.0, 5.0, 0.5)), 50, 50);
  }

  // ----- security ------------------------------------------------------------------

  /** `Math.max(0, 100 - count * perItem)`. */
  function Deduct(count: nat, perItem: nat): (r: real)
    ensures 0.0 <= r <= 100.0
    ensures r == 100.0 <==> count == 0 || perItem == 0
  {
    MaxR(0.0, 100.0 - (count * perItem) as real)
  }

  /** `Math.max(0, 100 - (hours / 24) * 10)`: ten points per day of patch time. */
  function PatchTimeScore(hours: real): (r: real)
    ensures r >= 0.0 && (hours >= 0.0 ==> r <= 100.0)
    ensures r == 0.0 <==> hours >= 240.0
  {
    MaxR(0.0, 100.0 - (hours / 24.0) * 10.0)
  }

  function SecurityWeighted(m: SecurityMetrics): real
  {
    Deduct(m.vulnerabilityCount, 10) * 0.3 + Deduct(m.exposedSecretsCount, 50) * 0.5
    + PatchTimeScore(m.avgPatchTime) * 0.2
  }

  /** 0.3 vulnerabilities (10 each) + 0.5 secrets (50 each) + 0.2 patch time, rounded. */
  function SecurityScore(m: SecurityMetrics): (score: int)
    ensures m.avgPatchTime >= 0.0 ==> InPercentI(score)
    ensures m.vulnerabilityCount == 0 && m.exposedSecretsCount == 0 && m.avgPatchTime == 0.0
            ==> score == 100
  {
    RoundBetween(SecurityWeighted(m), 0, 100);
    Round(SecurityWeighted(m))
  }

  /** More findings never raise the security score. */
  lemma SecurityScoreMoreFindingsIsWorse(m: SecurityMetrics, vulns: nat, secrets: nat)
    requires m.vulnerabilityCount <= vulns && m.exposedSecretsCount <= secrets
    ensures SecurityScore(m.(vulnerabilityCount := vulns, exposedSecretsCount := secrets))
            <= SecurityScore(m)
  {
    var worse := m.(vulnerabilityCount := vulns, exposedSecretsCount := secrets);
    assert m.vulnerabilityCount * 10 <= vulns * 10;
    assert m.exposedSecretsCount * 50 <= secrets * 50;
    RoundMonotone(SecurityWeighted(worse), SecurityWeighted(m));
  }

  /** Two vulnerabilities, three secrets and a day's patch time score 42. */
  lemma SecurityScoreExample()
    ensures SecurityScore(SecurityMetrics(2, 3, 24.0, 0)) == 42
  {
    RoundBetween(SecurityWeighted(SecurityMetrics(2, 3, 24.0, 0)), 42, 42);
  }

  // ----- deployment ----------------------------------------------------------------

  /** `Math.max(0, 100 - rollbackRate * 500)`: nothing left at a 20% rollback rate. */
  function RollbackScore(rate: real): (r: real)
    ensures r >= 0.0 && (rate >= 0.0 ==> r <= 100.0)
    ensures r == 0.0 <==> rate >= 0.2
  {
    MaxR(0.0, 100.0 - rate * 500.0)
  }

  function DeploymentWeighted(m: DeploymentMetrics): real
  {
    NormalizedFrequency(m.frequency) * 0.2 + m.successRate * 0.2 + m.pipelineEfficiency * 0.2
    + RollbackScore(m.rollbackRate) * 0.4
  }

  /** 0.2 frequency + 0.2 success rate + 0.2 efficiency + 0.4 rollback score, rounded. */
  function DeploymentScore(m: DeploymentMetrics): (score: int)
    ensures m.frequency >= 0.0 && InPercent(m.successRate) && InPercent(m.pipelineEfficiency)
            && m.rollbackRate >= 0.0
            ==> InPercentI(score)
  {
    RoundBetween(DeploymentWeighted(m), 0, 100);
    Round(DeploymentWeighted(m))
  }

  /** Beyond five deployments a day and beyond a 20% rollback rate the score no longer moves. */
  lemma DeploymentScoreSaturates(m: DeploymentMetrics, f: real, rb: real)
    requires m.frequency >= 5.0 && f >= 5.0 && m.rollbackRate >= 0.2 && rb >= 0.2
    ensures DeploymentScore(m.(frequency := f, rollbackRate := rb)) == DeploymentScore(m)
  {
  }

  /** Perfect metrics give 100; a 30% rollback rate with 90% success and 80% efficiency
      gives 54. */
  lemma DeploymentScoreExamples()
    ensures DeploymentScore(DeploymentMetrics(5.0, 100.0, 0.0, 100.0, 0.0)) == 100
    ensures DeploymentScore(DeploymentMetrics(5.0, 90.0, 0.0, 80.0, 0.3)) == 54
  {
    RoundBetween(DeploymentWeighted(DeploymentMetrics(5.0, 100.0, 0.0, 100.0, 0.0)), 100, 100);
    RoundBetween(DeploymentWeighted(DeploymentMetrics(5.0, 90.0, 0.0, 80.0, 0.3)), 54, 54);
  }

  // ----- overall -------------------------------------------------------------------

  /** The five category scores with equal weight 0.2, rounded. */
  function OverallScore(documentation: int, testing: int, commits: int, security: int,
                        deployment: int): (score: int)
    ensures InPercentI(documentation) && InPercentI(testing) && InPercentI(commits)
            && InPercentI(security) && InPercentI(deployment)
            ==> InPercentI(score)
    ensures documentation == testing == commits == security == deployment ==> score == documentation
  {
    var weighted := (documentation + testing + commits + security + deployment) as real * 0.2;
    RoundBetween(weighted, MinI5(documentation, testing, commits, security, deployment),
                           MaxI5(documentation, testing, commits, security, deployment));
    Round(weighted)
  }

  function MinI5(a: int, b: int, c: int, d: int, e: int): (r: int)
    ensures r <= a && r <= b && r <= c && r <= d && r <= e
    ensures r == a || r == b || r == c || r == d || r == e
  {
    var ab := if a <= b then a else b;
    var cd := if c <= d then c else d;
    var abcd := if ab <= cd then ab else cd;
    if abcd <= e then abcd else e
  }

  function MaxI5(a: int, b: int, c: int, d: int, e: int): (r: int)
    ensures r >= a && r >= b && r >= c && r >= d && r >= e
    ensures r == a || r == b || r == c || r == d || r == e
  {
    var ab := if a >= b then a else b;
    var cd := if c >= d then c else d;
    var abcd := if ab >= cd then ab else cd;
    if abcd >= e then abcd else e
  }

  /** (80, 90, 70, 85, 75) averages to 80. */
  lemma OverallScoreExample()
    ensures OverallScore(80, 90, 70, 85, 75) == 80
  {
    RoundBetween(80.0, 80, 80);
  }
}
