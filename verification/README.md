# git-analyzer: the analytics and scoring core in Dafny

git-analyzer is a dashboard for GitLab, GitHub and Azure DevOps repositories. It fetches
commits, pipelines, contributors and repository files, turns them into counts, rates and
0–100 scores, and shows them in a health dashboard. This project models the part that
does the arithmetic, and proves what it guarantees:

- `Analyzer` (`analyzer.dfy`): commit, pipeline and contributor statistics, including
  the bus-factor loop over contributors sorted by commit count.
- `Metrics` (`metrics.dfy`): the five weighted category scores and the overall score.
- `Documentation` (`documentation.dfy`): the Markdown document analysis (headings, code
  blocks, links, images, word and sentence counts, readability) and the file score.
- `CommitAnalysis` (`commit.dfy`): the Conventional Commits header check, the per-commit
  problem list and the commit rates.
- `Deployment` (`deployment.dfy`): deployment frequency, success rate, mean time between
  deployments, job efficiency and rollback rate.
- `Security` (`security.dfy`): secret and vulnerability findings per file, the file
  extension filter, the per-repository totals and the capped-deduction score.
- `Analytics` (`analytics.dfy`): the classification of repository files into README,
  architecture record, contributing guide and licence, and the testing-metrics stub.
- `Dashboard` (`dashboard.dfy`): the dashboard's own card scores, overall score,
  problem list, security issue list, error message choice and retry policy.
- `Pinned` (`pinned.dfy`): the pinned-repository store, a class whose list is toggled in
  place and persisted to local or session storage.
- `Util` (`util.dfy`) holds `Option`, `Math.round`, counting and summing over sequences,
  `trim`, ASCII lower-casing, and a stable descending insertion sort proved sorted and a
  permutation. `GitLabTypes` and `RepositoryTypes` (`types.dfy`) are the records of
  `src/types/gitlab.ts` and `src/types/repository.ts`.

Numbers are exact: counts are `nat`, rates and weighted sums are `real`, and `Math.round`
is `floor(x + 1/2)`. Timestamps are milliseconds as `int`. Many contracts say that a rate
`r` satisfies `IsQuotient(r, a, b)`, which means `r * b == a`: `r` is `a / b`, stated
without asking the solver to divide. Everything the program fetches becomes a parameter:
the file list, the jobs of each pipeline (`jobsOf`), and the number of matches of each
security pattern in a text (`matchCount`). The length of the analysis window, which the
program reads from the clock, is a parameter too.

## Model

| member | source | states |
|---|---|---|
| Util.Round | src/services/metrics.ts:34 | `Math.round`: the result is within one half of the argument, halves rounding up |
| Util.RoundBetween | src/services/metrics.ts:130-137 | rounding a value that lies between two integers gives a value between them |
| Util.RoundMonotone | src/services/metrics.ts:34 | rounding never reverses an order |
| Util.Fraction | src/services/commit.ts:60 | a part over a whole lies in [0, 1]; it is 0 without a whole, 1 exactly when the part is the whole, and 0 exactly when the part is 0 |
| Util.Percentage | src/services/deployment.ts:43-45 | `part / whole * 100`: lies in [0, 100]; it is 0 for an empty whole, 100 exactly when the part is the whole, and 0 exactly when the part is 0 |
| Util.Quotient | src/services/commit.ts:46 | a count per unit of a positive divisor, non-negative |
| Util.Filter | src/services/deployment.ts:34-36 | `filter`: keeps exactly the elements satisfying the predicate, each as often as in the input, as many as it counts |
| Util.CountIfMono | src/services/analyzer.ts:34-37 | a predicate implied by another counts no more elements |
| Util.CountIfAll | src/services/analyzer.ts:46 | the count equals the length exactly when every element qualifies |
| Util.CountIfZero | src/services/commit.ts:60 | the count is 0 exactly when no element qualifies |
| Util.SumOfBoundsElement | src/services/analyzer.ts:52 | each contribution is at most the sum |
| Util.TrimStartSpec | src/services/commit.ts:102 | `trim` at the start drops exactly the leading white space |
| Util.TrimEndSpec | src/services/commit.ts:102 | `trim` at the end drops exactly the trailing white space |
| Util.TrimSpec | src/services/commit.ts:102 | the trimmed text sits in the original between runs of white space and starts and ends with a non-space character |
| Util.ToLower | services/analytics.ts:39 | `toLowerCase` keeps the length and lowers each ASCII capital |
| Util.SortDesc | src/services/analyzer.ts:55 | the sort returns a permutation of its input |
| Util.SortDescSorted | src/services/analyzer.ts:55 | the sort orders by the key, largest first |
| Util.SumOfSortDesc | src/services/analyzer.ts:52-55 | sorting does not change the total of a per-element count |
| Util.SortDescHead | src/services/analyzer.ts:72-73 | the head of the sorted list is the first element of the input with the largest key |
| Analyzer.TotalDays | src/services/analyzer.ts:5-7 | `ceil(span / 86400000)`: the smallest whole number of days covering the window |
| Analyzer.AnalyzeCommits | src/services/analyzer.ts:4-17 | commits per day over the window (0 for an empty window), the number of messages longer than 50 characters (the count of such commits, 0 exactly when none is), and lines added over lines removed: Infinity exactly when nothing was removed but something was added, 1 when neither |
| Analyzer.AnalyzeCommitsEmpty | src/services/__tests__/analyzer.spec.ts:32-37 | no commits give rate 0, no long descriptions and ratio 1 |
| Analyzer.AnalyzeCommitsExample | src/services/__tests__/analyzer.spec.ts:17-29 | three commits in January 2025 give 3/31 per day, one long description and ratio 45/16 |
| Analyzer.AnalyzePipelines | src/services/analyzer.ts:19-49 | the number of successful runs and the number of failed runs, each at most the total; success rate in [0, 100], 0 for no runs, 100 exactly when every run succeeded; main-branch deployments per day, never more deployments than successes |
| Analyzer.CompletedFailureCountsTwice | src/services/analyzer.ts:20-30 | a run with status `completed` and conclusion `failure` is counted both as successful and as failed |
| Analyzer.AnalyzePipelinesExample | src/services/__tests__/analyzer.spec.ts:51-66 | the five-run example gives 3 successes, 2 failures, rate 60 and 2/31 deployments per day |
| Analyzer.ExamplePipelineCounts | src/services/__tests__/analyzer.spec.ts:51-64 | the counts of that example |
| Analyzer.BusFactor | src/services/analyzer.ts:60-67 | the loop stops at the shortest prefix of the sorted contributors holding at least half of all commits, or runs through the list when none does |
| Analyzer.BusFactorUnique | src/services/analyzer.ts:60-67 | that bus factor is uniquely determined |
| Analyzer.PrefixCommitsBounded | src/services/analyzer.ts:61-64 | the running total never exceeds the total of all commits |
| Analyzer.TopContributor | src/services/analyzer.ts:72-73 | the top contributor is one of the contributors, with the most commits |
| Analyzer.DisplayName | src/services/analyzer.ts:72 | `name \|\| 'N/A'` is never empty |
| Analyzer.ImbalanceOverPermutation | src/services/analyzer.ts:55-58 | checking the 35% share on the sorted copy is the same as checking it on the input |
| Analyzer.AnalyzeContributors | src/services/analyzer.ts:51-75 | the bus factor of the sorted list, the imbalance flag, the top contributor's name (`N/A` without contributors) and share in [0, 100] (0 without contributors) |
| Analyzer.TopShare | src/services/analyzer.ts:72-73 | the top contributor's name and percentage of all commits |
| Analyzer.BusFactorExamples | src/services/__tests__/analyzer.spec.ts:113-142 | 100/50/30 commits give bus factor 1; a single contributor gives 1 |
| Metrics.DocumentationScore | src/services/metrics.ts:18-35 | with sub-scores in [0, 100] the weighted documentation score is in [0, 100] |
| Metrics.DocumentationScoreMonotone | src/services/metrics.ts:18-35 | better sub-scores and more guides never lower the score |
| Metrics.DocumentationScoreExamples | services/__tests__/metrics.test.ts:13-38 | full marks give 100; the partial example gives 67 |
| Metrics.NormalizedTestCount | src/services/metrics.ts:45-48 | the test count as a percentage of 100 tests, capped at 100 |
| Metrics.NormalizedExecutionTime | src/services/metrics.ts:50 | 100 less a tenth of the mean time, 0 from 1000 ms on |
| Metrics.TestingScore | src/services/metrics.ts:37-59 | with coverage and reliability in [0, 100] the testing score is in [0, 100] |
| Metrics.TestingScoreSlowerIsWorse | src/services/metrics.ts:50-55 | slower tests never raise the score |
| Metrics.TestingScoreExamples | services/__tests__/metrics.test.ts:43-67 | the perfect example gives 100, a slower run 99 |
| Metrics.NormalizedSize | src/services/metrics.ts:69 | in [0, 100] for a non-negative size, and 0 exactly from a mean of 100 lines on |
| Metrics.NormalizedFrequency | src/services/metrics.ts:70 | at most 100, non-negative for a non-negative frequency, and 100 exactly from 5 commits a day on |
| Metrics.ProblematicScore | src/services/metrics.ts:71 | in [0, 100] for a non-negative rate, and 0 exactly when every commit is problematic |
| Metrics.CommitScore | src/services/metrics.ts:61-80 | with a rate in [0, 100] and non-negative inputs the commit score is in [0, 100] |
| Metrics.CommitScoreLargerIsWorse | src/services/metrics.ts:69-75 | larger commits never raise the score |
| Metrics.CommitScoreMoreProblemsIsWorse | src/services/metrics.ts:71-77 | more problematic commits never raise the score |
| Metrics.CommitScoreExamples | services/__tests__/metrics.test.ts:72-93 | the two worked examples give 96 and 50 |
| Metrics.Deduct | src/services/metrics.ts:89-90 | `max(0, 100 - count * perItem)` is in [0, 100] and 100 exactly when nothing is deducted |
| Metrics.PatchTimeScore | src/services/metrics.ts:91 | in [0, 100] for a non-negative time, and 0 exactly from 240 hours (10 days) of patch time on |
| Metrics.SecurityScore | src/services/metrics.ts:82-99 | the weighted security score is in [0, 100] and 100 with no findings and no patch time |
| Metrics.SecurityScoreMoreFindingsIsWorse | src/services/metrics.ts:89-95 | more findings never raise the score |
| Metrics.SecurityScoreExample | services/__tests__/metrics.test.ts:109-118 | 2 vulnerabilities, 3 secrets and a day of patch time give 42 |
| Metrics.RollbackScore | src/services/metrics.ts:110 | in [0, 100] for a non-negative rate, and 0 exactly from a rollback rate of 0.2 on |
| Metrics.DeploymentScore | src/services/metrics.ts:101-119 | with rates in [0, 100] and non-negative inputs the deployment score is in [0, 100] |
| Metrics.DeploymentScoreSaturates | src/services/metrics.ts:109-110 | beyond 5 deployments a day and a rollback rate of 0.2 the score no longer changes |
| Metrics.DeploymentScoreExamples | services/__tests__/metrics.test.ts:123-145 | the perfect example gives 100, the rollback example 54 |
| Metrics.OverallScore | src/services/metrics.ts:121-138 | the rounded equal-weight mean of five scores in [0, 100] is in [0, 100], and equals their common value when they agree |
| Metrics.OverallScoreExample | services/__tests__/metrics.test.ts:162-172 | 80, 90, 70, 85 and 75 give 80 |
| Documentation.ImageIsLink | src/services/documentation.ts:27-28 | every image match is also a link match |
| Documentation.NextFence | src/services/documentation.ts:26 | the first triple backtick from a position, or none |
| Documentation.LineEnd | src/services/documentation.ts:27 | the end of the line a position is on |
| Documentation.LastClose | src/services/documentation.ts:27 | the last `)` in a range, or -1 |
| Documentation.LinkEnd | src/services/documentation.ts:33 | a link match from a position ends after it and within the text |
| Documentation.MatchEnd | src/services/documentation.ts:32-34 | a pattern's match from a position ends after it and within the text |
| Documentation.CodeBlockMatch | src/services/documentation.ts:26-32 | the code-block pattern matches from a position exactly when a fenced block starts there, and ends at the nearest closing fence |
| Documentation.LinkMatch | src/services/documentation.ts:27-33 | the link pattern matches from a position exactly when a link starts there, and takes the longest one on the line |
| Documentation.LinkEndsOnLine | src/services/documentation.ts:27 | a link's `)` is never after the line's last `)` |
| Documentation.StripFrom | src/services/documentation.ts:32-34 | removing matches never lengthens the text |
| Documentation.StripFromNoMatch | src/services/documentation.ts:32-34 | with no match the text is unchanged |
| Documentation.StripFromShrinks | src/services/documentation.ts:32-34 | one match makes the text strictly shorter |
| Documentation.StripLinksChanges | src/services/documentation.ts:27-33 | removing links changes the text exactly when it has a link |
| Documentation.StripCodeBlocksChanges | src/services/documentation.ts:26-32 | removing code blocks changes the text exactly when it has one |
| Documentation.CleanContent | src/services/documentation.ts:31-34 | the cleaned text is no longer than the content |
| Documentation.WordCountZero | src/services/documentation.ts:36-39 | no words exactly when the text is all white space |
| Documentation.WordCountSplit | src/services/documentation.ts:36 | words on both sides of a white-space character add up |
| Documentation.SentenceCountSplit | src/services/documentation.ts:51 | sentences on both sides of a sentence end add up |
| Documentation.AvgWordsPerSentence | src/services/documentation.ts:52 | words per sentence, 0 without sentences |
| Documentation.ReadabilityScore | src/services/documentation.ts:53-61 | the rounded readability is in [0, 100]; it is 100 exactly within 0.1 of 15 words a sentence and 0 exactly more than 19.9 away from it |
| Documentation.ReadabilityCloserIsBetter | src/services/documentation.ts:53 | closer to 15 words a sentence never scores lower |
| Documentation.AnalyzeDocument | src/services/documentation.ts:24-63 | the word count of the cleaned text; an all-zero analysis when it has no words; otherwise each flag is its pattern's test and readability is the score of the cleaned text's words per sentence; an image implies a link; readability in [0, 100] |
| Documentation.AnalyzeEmptyDocument | src/services/__tests__/documentation.test.ts:41-48 | the empty document gives the all-zero analysis |
| Documentation.WordCountScore | src/services/documentation.ts:72-84 | in [0, 100]; 100 exactly between 200 and 2000 words; below 80 under 200 words; 0 exactly for no words or from 2000 + 100000/15 words on |
| Documentation.StructureScore | src/services/documentation.ts:86-94 | 25 points per feature: 100 with all four, 0 with none |
| Documentation.FileScore | src/services/documentation.ts:96-101 | with readability in [0, 100] the file score is in [0, 100] |
| Documentation.FileScoreOfAnalysis | src/services/documentation.ts:65-102 | the score of any analysed document is in [0, 100] |
| Documentation.FileScoreReadabilityMonotone | src/services/documentation.ts:96-99 | better readability never lowers the score |
| Documentation.FileScoreExamples | src/services/__tests__/documentation.test.ts:80-119 | a rich document scores 96, a very long one 83, a poor one 18 |
| CommitAnalysis.HeaderWithSomeTypeIff | src/services/commit.ts:75 | the alternation of types matches exactly when one listed type does |
| CommitAnalysis.HeaderWithListedType | src/services/commit.ts:75 | a header matching with a listed type matches the alternation |
| CommitAnalysis.ConventionalHeader | src/services/commit.ts:73-77 | `type: description` and `type(scope): description` pass for every listed type, scope without `)` and description |
| CommitAnalysis.ConventionalFirstLetter | src/services/commit.ts:75 | a conventional header starts with the first letter of a type |
| CommitAnalysis.ConventionalHasColon | src/services/commit.ts:75 | a conventional header has a colon |
| CommitAnalysis.Label | src/services/commit.ts:87-112 | every problem has a non-empty label |
| CommitAnalysis.ProblemListSpec | src/services/commit.ts:84-115 | each problem is listed exactly when its check fires, the list is empty exactly when none does, and problems appear in check order |
| CommitAnalysis.GetCommitProblems | src/services/commit.ts:79-116 | large changes over 1000 lines, the uninformative rule only for non-conventional titles, conflict markers, titles under 10 characters |
| CommitAnalysis.PushProblems | src/services/commit.ts:84-115 | the pushes produce the problem list of the checks |
| CommitAnalysis.ProblematicIffSomeRule | src/services/commit.ts:118-124 | a commit is problematic exactly when one of the four rules fires |
| CommitAnalysis.ConventionalRate | src/services/commit.ts:31-35 | the conventional share in percent: in [0, 100], 100 exactly when all are conventional, 0 exactly when none is |
| CommitAnalysis.AvgCommitSize | src/services/commit.ts:38-42 | the mean of the change totals, missing stats counting 0 |
| CommitAnalysis.ProblematicRate | src/services/commit.ts:50-60 | the problematic share in [0, 1], 1 exactly when all are, 0 exactly when none is |
| CommitAnalysis.AnalyzeRepository | src/services/commit.ts:11-71 | all zeros without commits; otherwise the four rates, each in range |
| CommitAnalysis.ConventionalExamples | src/services/__tests__/commit.test.ts:23-53 | `feat: add new feature` and `fix: resolve bug` are conventional, `update stuff` is not |
| Deployment.DeploymentPipelines | src/services/deployment.ts:34-36 | exactly the runs on `main`, `master` or a `release/` branch, each as often as in the input, as many as there are such runs |
| Deployment.SuccessRate | src/services/deployment.ts:42-45 | the share of successful deployments in percent: 0 without deployments, 100 exactly when all succeeded |
| Deployment.Latest | src/services/deployment.ts:50-52 | the latest creation time among the deployments |
| Deployment.Earliest | src/services/deployment.ts:50-52 | the earliest creation time among the deployments |
| Deployment.SortedEnds | src/services/deployment.ts:50-57 | sorted newest first, the deployments run from the latest to the earliest time |
| Deployment.TotalTimeBetween | src/services/deployment.ts:54-59 | the gaps between consecutive sorted deployments add up to first minus last, 0 for fewer than two |
| Deployment.SortedGapsNonNegative | src/services/deployment.ts:55-58 | every gap of the sorted deployments is non-negative |
| Deployment.AvgTimeBetweenHours | src/services/deployment.ts:60-62 | the span from earliest to latest over the number of gaps, in hours; 0 for fewer than two deployments |
| Deployment.MsToHours | src/services/deployment.ts:61 | milliseconds to hours |
| Deployment.AvgFromTotal | src/services/deployment.ts:60-62 | the mean computed from the loop's total equals the mean gap of the deployments |
| Deployment.SuccessfulJobs | src/services/deployment.ts:66-73 | never more successful jobs than jobs |
| Deployment.CountJobs | src/services/deployment.ts:66-73 | the loop totals the jobs and the successful jobs of every deployment |
| Deployment.PipelineEfficiency | src/services/deployment.ts:75-77 | successful jobs over jobs in percent, 0 exactly when no job succeeded |
| Deployment.RollbackRateAsWrittenExceedsOne | src/services/deployment.ts:81-89 | as written, one success and two failed reverts give a rollback rate of 2 |
| Deployment.RollbackRateAsWritten | src/services/deployment.ts:81-89 | the filter as written over the number of successful deployments: non-negative, 0 without successes, 0 exactly when there are no successes or no pipeline passes the filter |
| Deployment.RollbackRate | src/services/deployment.ts:81-89 | rollbacks over successful deployments, in [0, 1], 0 exactly when there is no rollback |
| Deployment.RollbackRateAtMostAsWritten | src/services/deployment.ts:81-89 | the corrected rate never exceeds the rate as written, and equals it when only successful deployments mention a rollback or revert |
| Deployment.DeploymentNeverRevertRef | src/services/deployment.ts:81-83 | a deployment's ref never starts with `revert-`, so only its message can make it a rollback |
| Deployment.AnalyzeDeployments | src/services/deployment.ts:11-99 | all zeros without pipelines; otherwise frequency, success rate, mean gap, efficiency and the rollback rate as written of the deployments; rates in range and the rollback rate non-negative |
| Deployment.ExampleRunsRates | services/__tests__/deployment.test.ts:25-60 | two successful runs on `main` give success rate 100 and rollback rate 0 as written |
| Deployment.ExampleRunsGap | src/services/deployment.ts:50-62 | two runs a day apart give a mean gap of 24 hours |
| Deployment.ExampleRunsEfficiency | services/__tests__/deployment.test.ts:25-59 | all jobs successful give efficiency 100 |
| Security.Label | services/security.ts:62-120 | every finding has a non-empty type label |
| Security.Repeat | services/security.ts:88 | `n` copies of one label |
| Security.EmittedLength | services/security.ts:85-90 | one label per match of every pattern |
| Security.EmittedFrom | services/security.ts:85-90 | every label is one of the patterns' |
| Security.EmittedCount | services/security.ts:85-90 | each pattern's label occurs as often as the pattern matches |
| Security.EmittedGrouped | services/security.ts:85-90 | labels come grouped in pattern order |
| Security.PushMatches | services/security.ts:85-90 | the loop over the patterns pushes exactly the emitted labels |
| Security.FindExposedSecrets | services/security.ts:58-93 | one secret label per match of each of the five secret patterns, grouped in pattern order |
| Security.EndsWithSomeExtensionIff | services/security.ts:123 | the extension alternation matches exactly when one listed extension ends the path |
| Security.ScannedPathHasDot | services/security.ts:123 | a scanned path has a dot |
| Security.LastCharRulesOut | services/security.ts:123 | a path whose last character ends no extension is not scanned |
| Security.UpperCaseExtensionScanned | services/security.ts:123 | the filter ignores case: `src/App.TSX` is scanned |
| Security.MarkdownNotScanned | services/security.ts:123 | `README.md` is not scanned |
| Security.FindVulnerabilities | services/security.ts:95-133 | nothing for a path without a listed extension; otherwise one label per match of each vulnerability pattern, grouped in pattern order |
| Security.UnscannedFilesAddNothing | services/security.ts:21-28 | files without a listed extension add no vulnerabilities |
| Security.SecurityScore | services/security.ts:135-149 | in [10, 100]; 100 exactly without findings; 10 exactly from 4 vulnerabilities and 2 secrets on |
| Security.SecurityScoreMonotone | services/security.ts:140-145 | more findings never raise the score |
| Security.SecurityScoreCaps | services/security.ts:140-145 | only the first 4 vulnerabilities and 2 secrets count |
| Security.CalculateSecurityScore | services/security.ts:135-149 | the step-by-step deductions give the capped score |
| Security.AnalyzeRepository | services/security.ts:11-56 | the totals are the sums of the per-file counts, patch time is 0, and the score is the capped score of the totals |
| Security.SecurityScoreExamples | services/security.ts:140-148 | no findings give 100, 2 and 3 give 30, 10 and 10 give 10 |
| Analytics.Classify | services/analytics.ts:39-47 | first match: `readme.md` exactly, then `adr` or `architecture` anywhere in the lower-cased path |
| Analytics.ScoreOf | services/analytics.ts:36-37 | every file scores in [0, 100] |
| Analytics.ClassifyFiles | services/analytics.ts:35-48 | the loop yields the last README's score, the best architecture-record score, and whether a contributing guide and a licence were seen |
| Analytics.HasKindExtend | services/analytics.ts:35-48 | one more file adds its own kind and nothing else |
| Analytics.ReadmeScoreIsLast | services/analytics.ts:39-40 | the README score is the score of the last `readme.md`, 0 without one |
| Analytics.AdrScoreIsMax | services/analytics.ts:41-42 | the architecture score is the largest score among architecture records, attained by one of them, or 0 |
| Analytics.FirstMatchWins | services/analytics.ts:39-47 | `docs/adr/license.md` counts as an architecture record, not as a licence |
| Analytics.CalculateDocumentationScore | services/analytics.ts:27-61 | the classified scores and flags; inline score 0; total equal to the README score |
| Analytics.CalculateTestingMetrics | services/analytics.ts:63-73 | all testing metrics are 0 for every repository |
| Dashboard.FilePoints | src/App.tsx:120-125 | 20 points per feature and for readability above 60: 0 with none, 100 with all |
| Dashboard.CalculateDocumentationScore | src/App.tsx:116-128 | 0 without files; otherwise the points of all files, capped at 100 |
| Dashboard.FullDocumentFillsCard | src/App.tsx:116-128 | one full-featured readable document fills the card |
| Dashboard.TestScore | src/App.tsx:130-133 | 20 per test file, 100 exactly from 5 files on, 0 without files |
| Dashboard.CommitScore | src/App.tsx:135-138 | 5 per commit, 100 exactly from 20 commits on |
| Dashboard.DeploymentScore | src/App.tsx:147-150 | 10 per deployment, 100 exactly from 10 deployments on |
| Dashboard.SecurityScore | src/App.tsx:140-145 | 0 without metrics; otherwise 100 less 10 per issue, 0 from 10 issues on |
| Dashboard.CardScoresMonotone | src/App.tsx:130-150 | more items never lower a card score |
| Dashboard.OverallScore | src/App.tsx:152-168 | with the five category scores in [0, 100] the rounded 0.2-weighted sum is in [0, 100] |
| Dashboard.OverallMatchesService | src/App.tsx:152-168 | the dashboard's overall score equals the service's equal-weight score and ignores the stored overall value |
| Dashboard.SecurityIssues | src/App.tsx:261-278 | one entry per positive count, each of high severity with its count; the vulnerability entry first and the secrets entry last |
| Dashboard.DashboardCommitProblems | src/App.tsx:312-342 | the four checks in order, with the uninformative rule for a title that is exactly a listed word or only dots |
| Dashboard.BareWordTitleIsUninformative | src/App.tsx:321-333 | every title the dashboard finds uninformative the service does too |
| Dashboard.UpdateStuffFlaggedByService | src/services/commit.ts:91-104 | the service flags `update stuff` |
| Dashboard.UpdateStuffIgnoredByDashboard | src/App.tsx:321-333 | the dashboard does not flag `update stuff` |
| Dashboard.HandleError | src/App.tsx:68-86 | the message by first match of 429, a `finite` message, 401 (which also logs out) and 404, otherwise the generic message |
| Dashboard.FetchWithRetry | src/App.tsx:90-108 | at most `retries` calls; only rate and resource limit errors are retried, after waiting `baseDelay * 2^i`; the last outcome is returned or thrown; no calls and `Failed after retries` when `retries <= 0` |
| Pinned.IndexOf | src/stores/pinned.store.ts:54 | `findIndex`: the first entry with the same id and provider, or -1 exactly when there is none |
| Pinned.TogglePinAppends | src/stores/pinned.store.ts:53-57 | toggling an unpinned repository appends it and nothing else, after which it is pinned |
| Pinned.TogglePinRemovesFirst | src/stores/pinned.store.ts:54-59 | toggling a pinned repository cuts out the first entry with its identity and keeps the others in order |
| Pinned.TogglePinFlips | src/stores/pinned.store.ts:53-60 | without duplicates, a toggle flips whether the repository is pinned and keeps the list free of duplicates |
| Pinned.TogglePinTwice | src/stores/pinned.store.ts:53-60 | toggling an unpinned repository twice restores the list |
| Pinned.IdentityIsThePair | src/stores/pinned.store.ts:54 | the same id under another provider, or as a string rather than a number, is a different pin |
| Pinned.PinnedStore.constructor | src/stores/pinned.store.ts:16-28 | `rememberPins` is read from local storage; the list is loaded from the storage it selects, and empty when that storage holds none |
| Pinned.PinnedStore.LoadPinnedRepos | src/stores/pinned.store.ts:20-28 | the list becomes the selected storage's list when there is one |
| Pinned.PinnedStore.SavePinnedRepos | src/stores/pinned.store.ts:31-34 | the selected storage holds the list; the other is unchanged |
| Pinned.PinnedStore.ToggleRememberPins | src/stores/pinned.store.ts:37-50 | the setting is recorded, the chosen storage holds the list and the other storage's list is removed |
| Pinned.PinnedStore.TogglePin | src/stores/pinned.store.ts:53-61 | the list is toggled and saved to the selected storage |
| Pinned.PinnedStore.IsPinned | src/stores/pinned.store.ts:64-66 | `some` agrees with `findIndex` |
| Pinned.PinThenUnpin | src/stores/pinned.store.ts:53-61 | pinning and unpinning through the store restores the list and leaves it saved |

## Left out

- Provider HTTP clients, authentication stores, the router and all rendering: the model
  starts from fetched records. File lists, pipeline jobs and pattern match counts are
  parameters.
- The five secret and five vulnerability regular expressions of services/security.ts are
  not modelled character by character: `matchCount(pattern, text)` gives the number of
  matches, and the model proves what the finders do with those numbers. The extension
  filter, the Markdown patterns, the Conventional Commits pattern and the uninformative
  patterns are modelled in full.
- The clock: the length of the 30-day window read from `new Date()` in
  src/services/commit.ts and src/services/deployment.ts is a positive parameter.
  ISO-8601 parsing is not modelled; timestamps are given in milliseconds.
- Floating point: all arithmetic is exact. Rounding of JavaScript numbers can differ
  from the exact result in the last bit (for example 66.66666666666666 in the commit
  tests); `Math.round` is modelled exactly.
- Text: strings are sequences of Unicode scalar values; `toLowerCase` and the `/i` flag
  lower ASCII letters only. `\s` and `trim` use JavaScript's white-space set (ASCII white
  space, the line terminators, U+00A0, U+1680, U+2000 to U+200A, U+202F, U+205F, U+3000
  and U+FEFF).
- String lengths: JavaScript's `.length` counts UTF-16 code units, while the model counts
  characters, so a character outside the Basic Multilingual Plane counts 2 there and 1
  here. The title `fix 🎉🎉🎉` has length 10 in JavaScript and is not short under
  src/services/commit.ts:111 or src/App.tsx:337, but the model counts 7 and flags it as
  short; the 50-character test of src/services/analyzer.ts:14 differs for such text in
  the same way.
- Deployment.AnalyzeDeployments returns the rollback rate as written (see "## Findings"),
  so it promises only a non-negative rollback rate; the corrected rate, proved to lie in
  [0, 1], is `Deployment.RollbackRate`, related to the as-written one by
  `Deployment.RollbackRateAtMostAsWritten`.
- Logging and the promise plumbing of the services (`console.log`, `async`/`await`).
- `fetchWithRetry` does not wait: the waits it would perform are returned as a list.
- `handleError` also writes the message to component state and resets loading flags;
  the model returns the message and whether the user is logged out.
- The dashboard's `calculateDocumentationScore`, `calculateTestScore` and
  `calculateDeploymentScore` are modelled on the inputs their formulas expect. At their
  call sites in src/App.tsx the first receives records without the analysis fields and
  the other two receive empty lists, so they yield 0 there; those call sites are not
  modelled. `calculateSecurityScore` in src/App.tsx is never called.
- The pinned store's JSON encoding: storage holds the list itself, so encoding and
  decoding are the identity and a malformed stored value is not modelled. Provider
  names are a datatype, so `isPinned` with a provider string outside the three is not
  modelled (it is always false there). Numeric ids are integers.
- Analyzer.AnalyzeContributors: the share test `c.commits / totalCommits > 0.35` is
  modelled for a positive total; with no commits at all JavaScript divides by zero and
  every comparison with NaN is false, which the model gives as "no imbalance".
- CommitAnalysis.ConventionalRate, AvgCommitSize and ProblematicRate require a non-empty
  list: the source computes them only after returning early for an empty one.
- The deployment test "should identify rollbacks and failed pipelines"
  (services/__tests__/deployment.test.ts:63-103) expects a positive rollback rate, but its
  revert pipeline runs on ref `revert-123`, which is not a deployment ref, so both the
  code as written and the corrected rule give 0 for it.
- The security score in src/services/metrics.ts deducts 50 per exposed secret; the
  service in services/security.ts deducts 25 per secret capped at 50. Both are modelled
  as written, in `Metrics.SecurityScore` and `Security.SecurityScore`.
- Test files that call functions the sources do not define (branch statistics and the
  Gini coefficient in src/services/__tests__/analyzer.spec.ts) are not modelled.

## Findings

| source | as written | input that shows it | evidently intended | confidence | as-written member | corrected member |
|---|---|---|---|---|---|---|
| src/services/deployment.ts:81-86 | `p.status === 'success' && p.ref.startsWith('revert-') \|\| mentions rollback \|\| mentions revert`: `&&` binds tighter than `\|\|`, so a failed deployment whose message mentions a revert counts as a rollback, and the rate, divided by the number of successful deployments, can exceed 1 | one successful run on `main`, a failed run on `main` with message `Revert "Feature X"` and a failed run on `master` with message `rollback`: rate 2 | a rollback is a successful deployment whose ref starts with `revert-` or whose message mentions a rollback or revert, so the rate lies in [0, 1] | medium, not executed | Deployment.RollbackRateAsWrittenExceedsOne | Deployment.RollbackRate |
