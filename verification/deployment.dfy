/** Deployment analysis (src/services/deployment.ts): which pipelines count as
    deployments, and the five deployment metrics over them. The pipelines of the window,
    the jobs of each pipeline (`jobsOf`, keyed by pipeline id) and the window length in
    days are inputs; fetching them and reading the clock are not modelled. */
module Deployment {
  import opened Util
  import opened GitLabTypes

  /** A pipeline as the GitLab client returns it; `createdAt` is in milliseconds. */
  datatype Pipeline = Pipeline(id: int, status: string, ref: string, createdAt: int, message: Option<string>)

  datatype Job = Job(id: int, status: string)

  const MsPerHour: real := 3600000.0

  // ----- eligibility and success ---------------------------------------------------

  /** `ref === 'main' || ref === 'master' || ref.startsWith('release/')` */
  predicate IsDeploymentRef(ref: string)
  {
    ref == "main" || ref == "master" || StartsWith(ref, "release/")
  }

  predicate IsDeployment(p: Pipeline) { IsDeploymentRef(p.ref) }

  predicate IsSuccess(p: Pipeline) { p.status == "success" }

  /** The deployment pipelines: each deployment as often as it occurs in the input. */
  function DeploymentPipelines(pipelines: seq<Pipeline>): (ds: seq<Pipeline>)
    ensures |ds| == CountIf(pipelines, IsDeployment) && |ds| <= |pipelines|
    ensures forall p :: p in ds <==> p in pipelines && IsDeploymentRef(p.ref)
    ensures forall p :: multiset(ds)[p] == if IsDeployment(p) then multiset(pipelines)[p] else 0
  {
    Filter(pipelines, IsDeployment)
  }

  /** `successful / deployments * 100`, and 0 without deployments. */
  function SuccessRate(ds: seq<Pipeline>): (rate: real)
    ensures 0.0 <= rate <= 100.0
    ensures ds != [] ==> IsQuotient(rate, 100.0 * CountIf(ds, IsSuccess) as real, |ds| as real)
    ensures rate == 100.0 <==> ds != [] && forall i | 0 <= i < |ds| :: IsSuccess(ds[i])
    ensures rate == 0.0 <==> forall i | 0 <= i < |ds| :: !IsSuccess(ds[i])
  {
    CountIfAll(ds, IsSuccess);
    CountIfZero(ds, IsSuccess);
    Percentage(CountIf(ds, IsSuccess), |ds|)
  }

  // ----- time between deployments --------------------------------------------------

  function CreatedKey(p: Pipeline): int { p.createdAt }

  function NegCreatedKey(p: Pipeline): int { -p.createdAt }

  /** The creation time of the newest pipeline. */
  function Latest(ps: seq<Pipeline>): (t: int)
    requires ps != []
    ensures forall i | 0 <= i < |ps| :: ps[i].createdAt <= t
    ensures exists i | 0 <= i < |ps| :: ps[i].createdAt == t
  {
    var k := FirstMaxIndex(ps, CreatedKey);
    assert CreatedKey(ps[k]) == ps[k].createdAt;
    ps[k].createdAt
  }

  /** The creation time of the oldest pipeline. */
  function Earliest(ps: seq<Pipeline>): (t: int)
    requires ps != []
    ensures forall i | 0 <= i < |ps| :: t <= ps[i].createdAt
    ensures exists i | 0 <= i < |ps| :: ps[i].createdAt == t
  {
    var k := FirstMaxIndex(ps, NegCreatedKey);
    assert forall i | 0 <= i < |ps| :: NegCreatedKey(ps[i]) <= NegCreatedKey(ps[k]);
    ps[k].createdAt
  }

  /** The mean gap between consecutive deployments, in hours: the span from the oldest
      to the newest deployment over the number of gaps, and 0 with fewer than two. */
  function AvgTimeBetweenHours(ds: seq<Pipeline>): (hours: real)
    ensures hours >= 0.0
    ensures |ds| > 1 ==> IsQuotient(hours * MsPerHour, (Latest(ds) - Earliest(ds)) as real, (|ds| - 1) as real)
    ensures |ds| <= 1 ==> hours == 0.0
  {
    if |ds| > 1 then
      var span := Latest(ds) - Earliest(ds);
      assert span >= 0 by {
        var i :| 0 <= i < |ds| && ds[i].createdAt == Latest(ds);
      }
      var mean := Quotient(span, (|ds| - 1) as real);
      MsToHours(mean)
    else 0.0
  }

  function MsToHours(ms: real): (hours: real)
    ensures IsQuotient(hours, ms, MsPerHour)
    ensures ms >= 0.0 ==> hours >= 0.0
  {
    ms / MsPerHour
  }

  /** Sorted newest first, a permutation of `ds` runs from its latest to its earliest
      creation time. */
  lemma SortedEnds(ds: seq<Pipeline>, sorted: seq<Pipeline>)
    requires ds != [] && multiset(sorted) == multiset(ds) && SortedDesc(sorted, CreatedKey)
    ensures sorted[0].createdAt == Latest(ds)
    ensures sorted[|sorted| - 1].createdAt == Earliest(ds)
  {
    assert |sorted| == |ds| by {
      assert |multiset(sorted)| == |multiset(ds)|;
    }
    SortedFirstIsLatest(ds, sorted);
    SortedLastIsEarliest(ds, sorted);
  }

  lemma SortedFirstIsLatest(ds: seq<Pipeline>, sorted: seq<Pipeline>)
    requires ds != [] && |sorted| == |ds| && multiset(sorted) == multiset(ds)
    requires SortedDesc(sorted, CreatedKey)
    ensures sorted[0].createdAt == Latest(ds)
  {
    var i :| 0 <= i < |ds| && ds[i].createdAt == Latest(ds);
    assert ds[i] in multiset(sorted);
    var i' := IndexIn(ds[i], sorted);
    assert CreatedKey(sorted[0]) >= CreatedKey(sorted[i']);
    assert sorted[0] in multiset(ds);
    var a := IndexIn(sorted[0], ds);
  }

  lemma SortedLastIsEarliest(ds: seq<Pipeline>, sorted: seq<Pipeline>)
    requires ds != [] && |sorted| == |ds| && multiset(sorted) == multiset(ds)
    requires SortedDesc(sorted, CreatedKey)
    ensures sorted[|sorted| - 1].createdAt == Earliest(ds)
  {
    var last := |sorted| - 1;
    var j :| 0 <= j < |ds| && ds[j].createdAt == Earliest(ds);
    assert ds[j] in multiset(sorted);
    var j' := IndexIn(ds[j], sorted);
    assert CreatedKey(sorted[j']) >= CreatedKey(sorted[last]);
    assert sorted[last] in multiset(ds);
    var b := IndexIn(sorted[last], ds);
  }

  /** A position of a member of a sequence. */
  lemma IndexIn(x: Pipeline, s: seq<Pipeline>) returns (k: nat)
    requires x in s
    ensures k < |s| && s[k] == x
  {
    k :| 0 <= k < |s| && s[k] == x;
  }

  /** The loop over consecutive pairs of the sorted deployments: the differences
      telescope to first minus last. */
  method TotalTimeBetween(sorted: seq<Pipeline>) returns (total: int)
    ensures |sorted| <= 1 ==> total == 0
    ensures |sorted| > 1 ==> total == sorted[0].createdAt - sorted[|sorted| - 1].createdAt
  {
    total := 0;
    var i := 0;
    while i < |sorted| - 1
      invariant 0 <= i <= if |sorted| > 0 then |sorted| - 1 else 0
      invariant total == if |sorted| > 0 then sorted[0].createdAt - sorted[i].createdAt else 0
    {
      var timeDiff := sorted[i].createdAt - sorted[i + 1].createdAt;
      total := total + timeDiff;
      i := i + 1;
    }
  }

  /** Each gap of a newest-first list is non-negative. */
  lemma SortedGapsNonNegative(sorted: seq<Pipeline>)
    requires SortedDesc(sorted, CreatedKey)
    ensures forall i | 0 <= i < |sorted| - 1 :: sorted[i].createdAt - sorted[i + 1].createdAt >= 0
  {
    forall i | 0 <= i < |sorted| - 1
      ensures sorted[i].createdAt - sorted[i + 1].createdAt >= 0
    {
      assert CreatedKey(sorted[i]) >= CreatedKey(sorted[i + 1]);
    }
  }

  // ----- pipeline efficiency -------------------------------------------------------

  predicate IsSuccessfulJob(j: Job) { j.status == "success" }

  /** The number of jobs of the pipelines `ps`. */
  function TotalJobs(ps: seq<Pipeline>, jobsOf: int -> seq<Job>): nat
  {
    if ps == [] then 0 else TotalJobs(ps[..|ps| - 1], jobsOf) + |jobsOf(ps[|ps| - 1].id)|
  }

  /** The number of successful jobs of the pipelines `ps`; never more than all of them. */
  function SuccessfulJobs(ps: seq<Pipeline>, jobsOf: int -> seq<Job>): (n: nat)
    ensures n <= TotalJobs(ps, jobsOf)
  {
    if ps == [] then 0
    else SuccessfulJobs(ps[..|ps| - 1], jobsOf) + CountIf(jobsOf(ps[|ps| - 1].id), IsSuccessfulJob)
  }

  /** The job loop: adds up all jobs and the successful ones, pipeline by pipeline. */
  method CountJobs(ds: seq<Pipeline>, jobsOf: int -> seq<Job>) returns (totalJobs: nat, successfulJobs: nat)
    ensures totalJobs == TotalJobs(ds, jobsOf)
    ensures successfulJobs == SuccessfulJobs(ds, jobsOf)
    ensures successfulJobs <= totalJobs
  {
    totalJobs, successfulJobs := 0, 0;
    for i := 0 to |ds|
      invariant totalJobs == TotalJobs(ds[..i], jobsOf)
      invariant successfulJobs == SuccessfulJobs(ds[..i], jobsOf)
    {
      assert ds[..i + 1][..i] == ds[..i];
      var jobs := jobsOf(ds[i].id);
      totalJobs := totalJobs + |jobs|;
      successfulJobs := successfulJobs + CountIf(jobs, IsSuccessfulJob);
    }
    assert ds[..|ds|] == ds;
  }

  /** `successfulJobs / totalJobs * 100`, and 0 without jobs. */
  function PipelineEfficiency(ds: seq<Pipeline>, jobsOf: int -> seq<Job>): (rate: real)
    ensures 0.0 <= rate <= 100.0
    ensures TotalJobs(ds, jobsOf) > 0 ==>
              IsQuotient(rate, 100.0 * SuccessfulJobs(ds, jobsOf) as real, TotalJobs(ds, jobsOf) as real)
    ensures rate == 0.0 <==> SuccessfulJobs(ds, jobsOf) == 0
  {
    var successful := SuccessfulJobs(ds, jobsOf);
    var total := TotalJobs(ds, jobsOf);
    Percentage(successful, total)
  }

  // ----- rollbacks -----------------------------------------------------------------

  /** `message?.toLowerCase().includes('rollback') || … .includes('revert')`; a missing
      message mentions nothing. */
  predicate MentionsRollback(message: Option<string>)
  {
    message.Some? && (Contains(ToLower(message.value), "rollback") || Contains(ToLower(message.value), "revert"))
  }

  /** The rollback filter as written: `&&` binds tighter than `||`, so a pipeline whose
      message mentions a revert counts whatever its status. */
  predicate IsRollbackAsWritten(p: Pipeline)
  {
    (IsSuccess(p) && StartsWith(p.ref, "revert-")) || MentionsRollback(p.message)
  }

  /** The rollback filter as intended: a successful deployment that is a revert. */
  predicate IsRollback(p: Pipeline)
  {
    IsSuccess(p) && (StartsWith(p.ref, "revert-") || MentionsRollback(p.message))
  }

  /** `rollbacks / successful` with the filter as written, and 0 without successes. */
  function RollbackRateAsWritten(ds: seq<Pipeline>): (rate: real)
    ensures rate >= 0.0
    ensures CountIf(ds, IsSuccess) > 0 ==>
              IsQuotient(rate, CountIf(ds, IsRollbackAsWritten) as real, CountIf(ds, IsSuccess) as real)
    ensures rate == 0.0 <==>
              CountIf(ds, IsSuccess) == 0 || forall i | 0 <= i < |ds| :: !IsRollbackAsWritten(ds[i])
  {
    var successful := CountIf(ds, IsSuccess);
    CountIfZero(ds, IsRollbackAsWritten);
    if successful > 0 then Quotient(CountIf(ds, IsRollbackAsWritten), successful as real) else 0.0
  }

  /** With the filter as written the rate is not a fraction of the successful
      deployments: one success and two failed reverts give 2. */
  lemma RollbackRateAsWrittenExceedsOne()
    ensures RollbackRateAsWritten([
              Pipeline(1, "success", "main", 0, None),
              Pipeline(2, "failed", "main", 1, Some("Revert \"Feature X\"")),
              Pipeline(3, "failed", "master", 2, Some("rollback"))]) == 2.0
  {
    var ds := [Pipeline(1, "success", "main", 0, None),
               Pipeline(2, "failed", "main", 1, Some("Revert \"Feature X\"")),
               Pipeline(3, "failed", "master", 2, Some("rollback"))];
    assert ToLower(ds[1].message.value)[..6] == "revert";
    assert OccursAt(ToLower(ds[1].message.value), "revert", 0);
    assert ToLower(ds[2].message.value) == "rollback";
    assert OccursAt(ToLower(ds[2].message.value), "rollback", 0);
    assert ds[..2][..1] == [ds[0]] && ds[..2] == [ds[0], ds[1]] && ds[..1][..0] == [];
    assert CountIf(ds, IsSuccess) == 1;
    assert CountIf(ds, IsRollbackAsWritten) == 2;
  }

  /** `rollbacks / successful`, and 0 without successes: the share of successful
      deployments that are rollbacks. */
  function RollbackRate(ds: seq<Pipeline>): (rate: real)
    ensures 0.0 <= rate <= 1.0
    ensures CountIf(ds, IsSuccess) > 0 ==> IsQuotient(rate, CountIf(ds, IsRollback) as real, CountIf(ds, IsSuccess) as real)
    ensures rate == 0.0 <==> forall i | 0 <= i < |ds| :: !IsRollback(ds[i])
  {
    CountIfMono(ds, IsRollback, IsSuccess);
    CountIfZero(ds, IsRollback);
    Fraction(CountIf(ds, IsRollback), CountIf(ds, IsSuccess))
  }

  /** The corrected rate never exceeds the rate as written, and the two agree when only
      successful deployments mention a rollback or revert. */
  lemma RollbackRateAtMostAsWritten(ds: seq<Pipeline>)
    ensures RollbackRate(ds) <= RollbackRateAsWritten(ds)
    ensures (forall i | 0 <= i < |ds| :: MentionsRollback(ds[i].message) ==> IsSuccess(ds[i]))
            ==> RollbackRate(ds) == RollbackRateAsWritten(ds)
  {
    var successful := CountIf(ds, IsSuccess);
    CountIfMono(ds, IsRollback, IsRollbackAsWritten);
    if forall i | 0 <= i < |ds| :: MentionsRollback(ds[i].message) ==> IsSuccess(ds[i]) {
      CountIfAgree(ds, IsRollback, IsRollbackAsWritten);
    }
    if successful > 0 {
      QuotientMonotone(RollbackRate(ds), RollbackRateAsWritten(ds), CountIf(ds, IsRollback) as real,
                       CountIf(ds, IsRollbackAsWritten) as real, successful as real);
    }
  }

  lemma QuotientMonotone(q1: real, q2: real, a: real, b: real, d: real)
    requires d > 0.0 && a <= b && IsQuotient(q1, a, d) && IsQuotient(q2, b, d)
    ensures q1 <= q2
  {
  }

  /** Two predicates that agree on every element count the same elements. */
  lemma {:induction false} CountIfAgree(s: seq<Pipeline>, p: Pipeline -> bool, q: Pipeline -> bool)
    requires forall i | 0 <= i < |s| :: p(s[i]) == q(s[i])
    ensures CountIf(s, p) == CountIf(s, q)
  {
    if s != [] {
      CountIfAgree(s[..|s| - 1], p, q);
    }
  }

  /** A deployment ref never starts with `revert-`, so only the message makes a
      deployment a rollback. */
  lemma DeploymentNeverRevertRef(p: Pipeline)
    requires IsDeployment(p)
    ensures !StartsWith(p.ref, "revert-")
    ensures IsRollback(p) <==> IsSuccess(p) && MentionsRollback(p.message)
  {
    if StartsWith(p.ref, "release/") {
      assert p.ref[..8] == "release/";
      assert p.ref[..7][2] == 'l';
    }
  }

  // ----- analyzeDeployments --------------------------------------------------------

  /** `analyzeDeployments` over the pipelines of a window of `daysDiff` days. */
  method AnalyzeDeployments(pipelines: seq<Pipeline>, jobsOf: int -> seq<Job>, daysDiff: real)
    returns (m: DeploymentMetrics)
    requires daysDiff > 0.0
    ensures pipelines == [] ==> m == DeploymentMetrics(0.0, 0.0, 0.0, 0.0, 0.0)
    ensures pipelines != [] ==>
              var ds := DeploymentPipelines(pipelines);
              m == DeploymentMetrics(Quotient(|ds|, daysDiff), SuccessRate(ds), AvgTimeBetweenHours(ds),
                                     PipelineEfficiency(ds, jobsOf), RollbackRateAsWritten(ds))
    ensures m.frequency >= 0.0 && m.avgTimeBetween >= 0.0
    ensures 0.0 <= m.successRate <= 100.0 && 0.0 <= m.pipelineEfficiency <= 100.0
    ensures m.rollbackRate >= 0.0
  {
    if |pipelines| == 0 {
      return DeploymentMetrics(0.0, 0.0, 0.0, 0.0, 0.0);
    }
    var deploymentPipelines := DeploymentPipelines(pipelines);
    var frequency := Quotient(|deploymentPipelines|, daysDiff);
    var successRate := SuccessRate(deploymentPipelines);

    var sortedDeployments := SortDesc(deploymentPipelines, CreatedKey);
    SortDescSorted(deploymentPipelines, CreatedKey);
    var totalTimeBetween := TotalTimeBetween(sortedDeployments);
    var avgTimeBetween := AvgFromTotal(deploymentPipelines, sortedDeployments, totalTimeBetween);

    var totalJobs, successfulJobs := CountJobs(deploymentPipelines, jobsOf);
    var pipelineEfficiency := Percentage(successfulJobs, totalJobs);

    var rollbackRate := RollbackRateAsWritten(deploymentPipelines);
    m := DeploymentMetrics(frequency, successRate, avgTimeBetween, pipelineEfficiency, rollbackRate);
  }

  /** `totalTimeBetween / (n - 1) / (1000 * 60 * 60)`, and 0 with fewer than two
      deployments, for the total the loop computed over the sorted deployments. */
  method AvgFromTotal(ds: seq<Pipeline>, sorted: seq<Pipeline>, total: int) returns (avg: real)
    requires |sorted| == |ds| && multiset(sorted) == multiset(ds) && SortedDesc(sorted, CreatedKey)
    requires |sorted| > 1 ==> total == sorted[0].createdAt - sorted[|sorted| - 1].createdAt
    ensures avg == AvgTimeBetweenHours(ds)
  {
    if |sorted| > 1 {
      SortedEnds(ds, sorted);
      avg := MsToHours(Quotient(total, (|ds| - 1) as real));
    } else {
      avg := 0.0;
    }
  }

  /** Two successful runs on `main` a day apart, each with three successful jobs. */
  const ExampleRuns: seq<Pipeline> :=
    [Pipeline(1, "success", "main", 86400000, None), Pipeline(2, "success", "main", 0, None)]

  const ExampleJobs: seq<Job> := [Job(1, "success"), Job(2, "success"), Job(3, "success")]

  /** Both runs are deployments and both succeeded; neither is a rollback. */
  lemma ExampleRunsRates()
    ensures DeploymentPipelines(ExampleRuns) == ExampleRuns
    ensures SuccessRate(ExampleRuns) == 100.0 && RollbackRateAsWritten(ExampleRuns) == 0.0
  {
    assert ExampleRuns[..1] == [ExampleRuns[0]] && ExampleRuns[..1][..0] == [];
    assert IsSuccess(ExampleRuns[0]) && IsSuccess(ExampleRuns[1]);
    assert IsDeployment(ExampleRuns[0]) && IsDeployment(ExampleRuns[1]);
    assert !IsRollbackAsWritten(ExampleRuns[0]) && !StartsWith(ExampleRuns[1].ref, "revert-");
  }

  /** The runs are 24 hours apart. */
  lemma ExampleRunsGap()
    ensures AvgTimeBetweenHours(ExampleRuns) == 24.0
  {
    assert Latest(ExampleRuns) == 86400000 && Earliest(ExampleRuns) == 0;
  }

  /** Every job of every run succeeded. */
  lemma ExampleRunsEfficiency(jobsOf: int -> seq<Job>)
    requires jobsOf(1) == ExampleJobs && jobsOf(2) == ExampleJobs
    ensures PipelineEfficiency(ExampleRuns, jobsOf) == 100.0
  {
    assert ExampleJobs[..2][..1] == [ExampleJobs[0]] && ExampleJobs[..2] == ExampleJobs[..3][..2];
    assert CountIf(ExampleJobs, IsSuccessfulJob) == 3 by {
      CountIfAll(ExampleJobs, IsSuccessfulJob);
    }
    assert ExampleRuns[..1] == [ExampleRuns[0]] && ExampleRuns[..1][..0] == [];
    assert TotalJobs(ExampleRuns, jobsOf) == 6 && SuccessfulJobs(ExampleRuns, jobsOf) == 6;
  }
}
