/** The provider-neutral records the repository analyser consumes
    (src/types/repository.ts). Timestamps are milliseconds since the epoch;
    the ISO-8601 parsing done by `new Date(...)` is not modelled. */
module RepositoryTypes {
  import opened Util

  /** An analysis window `[startDate, endDate]`. */
  datatype TimeFilter = TimeFilter(startMs: int, endMs: int)

  datatype Commit = Commit(
    id: string,
    message: string,
    author_name: string,
    author_email: string,
    created_at: int,
    code_added: nat,
    code_removed: nat)

  /** A CI run; `conclusion` is only reported by some providers. */
  datatype Pipeline = Pipeline(
    id: int,
    status: string,
    ref: string,
    sha: string,
    conclusion: Option<string>,
    created_at: int,
    updated_at: int)

  /** A contributor with pre-aggregated counts for the window. */
  datatype Contributor = Contributor(
    id: int,
    name: string,
    email: string,
    commits: nat,
    additions: nat,
    deletions: nat)
}

/** The metrics and score records shared by the GitLab services and the
    dashboard (src/types/gitlab.ts). Counts are `nat`; rates, sizes and
    times are `real`, the exact value of the JavaScript number. */
module GitLabTypes {

  /** A file of the repository with its text, as the file listing returns it. */
  datatype RepoFile = RepoFile(path: string, content: string)

  datatype AnalyticsScore = AnalyticsScore(
    documentation: int,
    testing: int,
    commits: int,
    security: int,
    deployment: int,
    overall: int)

  datatype DocumentationMetrics = DocumentationMetrics(
    readmeScore: int,
    adrScore: int,
    inlineDocScore: int,
    contributingGuideExists: bool,
    licenseExists: bool,
    totalScore: int)

  datatype TestingMetrics = TestingMetrics(
    coverage: real,
    unitTestCount: nat,
    integrationTestCount: nat,
    e2eTestCount: nat,
    avgExecutionTime: real,
    reliability: real)

  datatype CommitMetrics = CommitMetrics(
    conventionalCommitRate: real,
    avgCommitSize: real,
    commitFrequency: real,
    problematicCommitsRate: real)

  datatype SecurityMetrics = SecurityMetrics(
    vulnerabilityCount: nat,
    exposedSecretsCount: nat,
    avgPatchTime: real,
    securityScore: int)

  datatype DeploymentMetrics = DeploymentMetrics(
    frequency: real,
    successRate: real,
    avgTimeBetween: real,
    pipelineEfficiency: real,
    rollbackRate: real)
}
