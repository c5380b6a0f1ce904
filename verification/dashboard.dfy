/** The dashboard's own helpers (src/App.tsx): the card scores it shows, its overall
    score, its variant of the commit problem list, the security issue list, the error
    message it picks and the retry policy around every fetch. Component state, rendering
    and the requests themselves are not modelled; an operation that is retried is given
    as the outcome of each successive call, and the waits are recorded, not slept. */
module Dashboard {
  import opened Util
  import opened GitLabTypes
  import Documentation
  import Metrics
  import opened CommitAnalysis

  // ----- card scores ---------------------------------------------------------------

  /** 20 points for each feature of a document, and 20 for readability above 60. */
  function FilePoints(a: Documentation.DocumentationAnalysis): (points: nat)
    ensures points <= 100 && points % 20 == 0
    ensures points == 0 <==>
              !a.hasHeadings && !a.hasCodeBlocks && !a.hasLinks && !a.hasImages && a.readabilityScore <= 60
    ensures points == 100 <==>
              a.hasHeadings && a.hasCodeBlocks && a.hasLinks && a.hasImages && a.readabilityScore > 60
  {
    (if a.hasHeadings then 20 else 0) + (if a.hasCodeBlocks then 20 else 0)
    + (if a.hasLinks then 20 else 0) + (if a.hasImages then 20 else 0)
    + (if a.readabilityScore > 60 then 20 else 0)
  }

  function MinI(a: int, b: int): (r: int)
    ensures r <= a && r <= b && (r == a || r == b)
  {
    if a <= b then a else b
  }

  /** `calculateDocumentationScore`: 0 without files, otherwise the points of all files
      together, capped at 100. */
  method CalculateDocumentationScore(files: seq<Documentation.DocumentationAnalysis>) returns (score: int)
    ensures files == [] ==> score == 0
    ensures files != [] ==> score == MinI(100, SumOf(files, FilePoints))
    ensures 0 <= score <= 100
  {
    if |files| == 0 {
      return 0;
    }
    score := 0;
    for i := 0 to |files|
      invariant score == SumOf(files[..i], FilePoints)
    {
      assert files[..i + 1][..i] == files[..i];
      var analysis := files[i];
      if analysis.hasHeadings { score := score + 20; }
      if analysis.hasCodeBlocks { score := score + 20; }
      if analysis.hasLinks { score := score + 20; }
      if analysis.hasImages { score := score + 20; }
      if analysis.readabilityScore > 60 { score := score + 20; }
    }
    assert files[..|files|] == files;
    score := MinI(100, score);
  }

  /** One fully featured, readable document already fills the card. */
  lemma FullDocumentFillsCard(files: seq<Documentation.DocumentationAnalysis>, i: nat)
    requires i < |files|
    requires files[i].hasHeadings && files[i].hasCodeBlocks && files[i].hasLinks && files[i].hasImages
    requires files[i].readabilityScore > 60
    ensures MinI(100, SumOf(files, FilePoints)) == 100
  {
    SumOfBoundsElement(files, FilePoints, i);
  }

  /** `calculateTestScore`: 20 per test file, capped at 100; 0 without files. */
  function TestScore(fileCount: nat): (score: int)
    ensures 0 <= score <= 100
    ensures score == 100 <==> fileCount >= 5
    ensures fileCount < 5 ==> score == 20 * fileCount
  {
    if fileCount == 0 then 0 else MinI(100, fileCount * 20)
  }

  /** `calculateCommitScore`: 5 per commit, capped at 100; 0 without commits. */
  function CommitScore(commitCount: nat): (score: int)
    ensures 0 <= score <= 100
    ensures score == 100 <==> commitCount >= 20
    ensures commitCount < 20 ==> score == 5 * commitCount
  {
    if commitCount == 0 then 0 else MinI(100, commitCount * 5)
  }

  /** `calculateDeploymentScore`: 10 per deployment, capped at 100; 0 without any. */
  function DeploymentScore(deploymentCount: nat): (score: int)
    ensures 0 <= score <= 100
    ensures score == 100 <==> deploymentCount >= 10
    ensures deploymentCount < 10 ==> score == 10 * deploymentCount
  {
    if deploymentCount == 0 then 0 else MinI(100, deploymentCount * 10)
  }

  /** `calculateSecurityScore`: 0 without metrics, otherwise 100 less 10 per issue, never
      below 0. */
  function SecurityScore(metrics: Option<SecurityMetrics>, issueCount: nat): (score: int)
    ensures 0 <= score <= 100
    ensures metrics.None? ==> score == 0
    ensures metrics.Some? ==> (score == 100 <==> issueCount == 0)
    ensures metrics.Some? ==> (score == 0 <==> issueCount >= 10)
    ensures metrics.Some? && issueCount < 10 ==> score == 100 - 10 * issueCount
  {
    if metrics.None? then 0
    else
      var deduction := issueCount * 10;
      if 100 - deduction > 0 then 100 - deduction else 0
  }

  /** More items never lower a capped card score. */
  lemma CardScoresMonotone(m: nat, n: nat)
    requires m <= n
    ensures TestScore(m) <= TestScore(n) && CommitScore(m) <= CommitScore(n)
    ensures DeploymentScore(m) <= DeploymentScore(n)
  {
  }

  /** `calculateOverallScore`: the rounded 0.2-weighted sum of the five category
      scores; the stored `overall` plays no part. */
  function OverallScore(scores: AnalyticsScore): (score: int)
    ensures 0 <= scores.documentation <= 100 && 0 <= scores.testing <= 100 && 0 <= scores.commits <= 100
            && 0 <= scores.security <= 100 && 0 <= scores.deployment <= 100
            ==> 0 <= score <= 100
  {
    var weighted := scores.documentation as real * 0.2 + scores.testing as real * 0.2
                    + scores.commits as real * 0.2 + scores.security as real * 0.2
                    + scores.deployment as real * 0.2;
    RoundBetween(weighted, 0, 100);
    Round(weighted)
  }

  /** The dashboard's overall score is the service's equal-weight score of the same five
      categories, whatever the previous overall value was. */
  lemma OverallMatchesService(scores: AnalyticsScore, previous: int)
    ensures OverallScore(scores) ==
            Metrics.OverallScore(scores.documentation, scores.testing, scores.commits,
                                 scores.security, scores.deployment)
    ensures OverallScore(scores.(overall := previous)) == OverallScore(scores)
  {
  }

  // ----- the security issue list ---------------------------------------------------

  datatype Severity = High

  datatype SecurityIssue = SecurityIssue(file: string, kind: string, severity: Severity, count: nat)

  const VulnerabilityIssueFile: string := "Multiple files"
  const SecretsIssueFile: string := "Repository files"

  /** The issue list: an entry for vulnerabilities, then one for exposed secrets, each
      only when its count is positive. */
  method SecurityIssues(m: SecurityMetrics) returns (issues: seq<SecurityIssue>)
    ensures |issues| == (if m.vulnerabilityCount > 0 then 1 else 0) + (if m.exposedSecretsCount > 0 then 1 else 0)
    ensures forall k | 0 <= k < |issues| :: issues[k].count > 0 && issues[k].severity == High
    ensures m.vulnerabilityCount > 0 ==>
              issues[0] == SecurityIssue(VulnerabilityIssueFile, "Security Vulnerabilities", High, m.vulnerabilityCount)
    ensures m.exposedSecretsCount > 0 ==>
              issues[|issues| - 1] == SecurityIssue(SecretsIssueFile, "Exposed Secrets", High, m.exposedSecretsCount)
  {
    issues := [];
    if m.vulnerabilityCount > 0 {
      issues := issues + [SecurityIssue(VulnerabilityIssueFile, "Security Vulnerabilities", High, m.vulnerabilityCount)];
    }
    if m.exposedSecretsCount > 0 {
      issues := issues + [SecurityIssue(SecretsIssueFile, "Exposed Secrets", High, m.exposedSecretsCount)];
    }
  }

  // ----- the dashboard's getCommitProblems -----------------------------------------

  /** `/^word$/i` for a lower-case `word`: the whole of `s` is that word. */
  predicate IsWord(s: string, word: string)
  {
    ToLower(s) == word
  }

  /** The whole string is one of `words`. */
  predicate IsSomeWord(s: string, words: seq<string>)
  {
    words != [] && (IsWord(s, words[0]) || IsSomeWord(s, words[1..]))
  }

  /** The dashboard's uninformative rule: the trimmed title is exactly one of the words,
      or only dots. Conventional titles are not exempt. */
  predicate IsBareWordTitle(title: string)
  {
    var trimmed := Trim(title);
    IsSomeWord(trimmed, UninformativeWords) || AllDots(trimmed)
  }

  function DashboardChecksOf(c: GitLabCommit): Checks
  {
    Checks(IsLarge(c), IsBareWordTitle(c.title), HasConflictMarkers(c.message), IsShort(c.title))
  }

  /** The dashboard's `getCommitProblems`: the same four checks in the same order, with
      the narrower uninformative rule. */
  method DashboardCommitProblems(c: GitLabCommit) returns (problems: seq<Problem>)
    ensures problems == ProblemList(DashboardChecksOf(c))
    ensures LargeChanges in problems <==> IsLarge(c)
    ensures UninformativeMessage in problems <==> IsBareWordTitle(c.title)
    ensures MergeConflictMarkers in problems <==> HasConflictMarkers(c.message)
    ensures ShortMessage in problems <==> |c.title| < 10
  {
    problems := PushProblems(DashboardChecksOf(c));
    ProblemListSpec(DashboardChecksOf(c));
  }

  /** A whole word is also a word the string starts with. */
  lemma {:induction false} SomeWordStartsWithSomeWord(s: string, words: seq<string>)
    requires IsSomeWord(s, words)
    ensures StartsWithSomeWord(s, words)
  {
    if IsWord(s, words[0]) {
      assert ToLower(s)[..|words[0]|] == ToLower(s);
    } else {
      SomeWordStartsWithSomeWord(s, words[1..]);
    }
  }

  /** The words contain no colon. */
  lemma {:induction false} SomeWordHasNoColon(s: string, words: seq<string>)
    requires IsSomeWord(s, words)
    requires forall k, m | 0 <= k < |words| && 0 <= m < |words[k]| :: words[k][m] != ':'
    ensures forall m | 0 <= m < |s| :: s[m] != ':'
  {
    if IsWord(s, words[0]) {
      forall m | 0 <= m < |s| ensures s[m] != ':' {
        assert ToLower(s)[m] == LowerChar(s[m]) == words[0][m];
      }
    } else {
      SomeWordHasNoColon(s, words[1..]);
    }
  }

  /** A title the dashboard finds uninformative has no colon, so it is not conventional,
      and its trimmed text starts with the word: the service flags it too. */
  lemma BareWordTitleIsUninformative(title: string)
    requires IsBareWordTitle(title)
    ensures IsUninformative(title)
  {
    var trimmed := Trim(title);
    TrimSpec(title);
    var a :| 0 <= a <= |title| - |trimmed| && TrimmedAt(title, trimmed, a);
    assert forall m | 0 <= m < |trimmed| :: trimmed[m] != ':' by {
      if IsSomeWord(trimmed, UninformativeWords) {
        SomeWordHasNoColon(trimmed, UninformativeWords);
      }
    }
    forall m | 0 <= m < |title| ensures title[m] != ':' {
      if a <= m < a + |trimmed| {
        assert title[m] == trimmed[m - a];
      } else {
        assert IsSpace(title[m]);
      }
    }
    if IsConventionalCommit(title) {
      ConventionalHasColon(title);
    }
    if IsSomeWord(trimmed, UninformativeWords) {
      SomeWordStartsWithSomeWord(trimmed, UninformativeWords);
    }
  }

  /** `update stuff` is its own trimmed text. */
  lemma UpdateStuffTrimmed()
    ensures Trim("update stuff") == "update stuff"
  {
    var t := "update stuff";
    assert !IsSpace(t[0]) && !IsSpace(t[|t| - 1]);
    assert TrimStart(t) == t;
    assert TrimEnd(t) == t;
  }

  /** Starting with any listed word is enough for the service's rule. */
  lemma {:induction false} StartsWithListedWord(s: string, words: seq<string>, word: string)
    requires word in words && StartsWithWord(s, word)
    ensures StartsWithSomeWord(s, words)
  {
    if words[0] != word {
      StartsWithListedWord(s, words[1..], word);
    }
  }

  lemma UpdateStuffStartsWithUpdate()
    ensures StartsWithWord("update stuff", "update")
  {
    var t := "update stuff";
    var lower := ToLower(t);
    forall m | 0 <= m < 6 ensures lower[m] == t[m] {
      assert LowerChar(t[m]) == t[m];
    }
    assert lower[..6] == "update";
    assert !IsWordChar(t[6]);
  }

  /** The service flags `update stuff` as uninformative: it is not conventional and
      starts with the word `update`. */
  lemma UpdateStuffFlaggedByService()
    ensures IsUninformative("update stuff")
  {
    var t := "update stuff";
    ConventionalFirstLetter(t);
    UpdateStuffTrimmed();
    UpdateStuffStartsWithUpdate();
    StartsWithListedWord(t, UninformativeWords, "update");
  }

  /** The dashboard does not: the title is longer than any of the words. */
  lemma UpdateStuffIgnoredByDashboard()
    ensures !IsBareWordTitle("update stuff")
  {
    var t := "update stuff";
    UpdateStuffTrimmed();
    assert forall k | 0 <= k < |UninformativeWords| :: |ToLower(t)| != |UninformativeWords[k]|;
    NotSomeWord(t, UninformativeWords);
    assert t[0] != '.';
  }

  lemma {:induction false} NotSomeWord(s: string, words: seq<string>)
    requires forall k | 0 <= k < |words| :: ToLower(s) != words[k]
    ensures !IsSomeWord(s, words)
  {
    if words != [] {
      NotSomeWord(s, words[1..]);
    }
  }

  // ----- handleError ---------------------------------------------------------------

  /** What `handleError` reads of an error: the response status and the message, either
      of which may be missing. */
  datatype ApiError = ApiError(status: Option<int>, message: Option<string>)

  /** `error.message?.includes('finite')` */
  predicate MentionsFinite(e: ApiError)
  {
    e.message.Some? && Contains(e.message.value, "finite")
  }

  const RateLimitMessage: string := "GitLab API rate limit exceeded. Please try again later."
  const ResourceLimitMessage: string := "GitLab API resource limit exceeded. Please try again later."
  const AuthFailedMessage: string := "Authentication failed. Please check your API token."
  const NotFoundMessage: string := "Repository not found or access denied."
  const UnexpectedMessage: string := "An unexpected error occurred"

  /** The message shown, and whether the user is logged out. */
  datatype ErrorReport = ErrorReport(text: string, logout: bool)

  /** `handleError`'s choice: the first of 429, a `finite` message, 401 (which also logs
      out) and 404 that applies, otherwise the generic message. */
  function HandleError(e: ApiError): (r: ErrorReport)
    ensures r.text == RateLimitMessage <==> e.status == Some(429)
    ensures r.text == ResourceLimitMessage <==> e.status != Some(429) && MentionsFinite(e)
    ensures r.logout <==> r.text == AuthFailedMessage
    ensures r.logout <==> e.status == Some(401) && !MentionsFinite(e)
    ensures r.text == NotFoundMessage <==> e.status == Some(404) && !MentionsFinite(e)
    ensures r.text == UnexpectedMessage <==>
              !MentionsFinite(e) && e.status !in {Some(429), Some(401), Some(404)}
  {
    if e.status == Some(429) then ErrorReport(RateLimitMessage, false)
    else if MentionsFinite(e) then ErrorReport(ResourceLimitMessage, false)
    else if e.status == Some(401) then ErrorReport(AuthFailedMessage, true)
    else if e.status == Some(404) then ErrorReport(NotFoundMessage, false)
    else ErrorReport(UnexpectedMessage, false)
  }

  // ----- fetchWithRetry ------------------------------------------------------------

  /** The outcome of one call of the operation. */
  datatype Attempt<T> = Success(value: T) | Failure(error: ApiError)

  /** What `fetchWithRetry` ends with: a value, or the error it throws. */
  datatype Fetched<T> = Returned(value: T) | Thrown(error: ApiError)

  /** The error thrown when no attempt was made at all. */
  const FailedAfterRetries: ApiError := ApiError(None, Some("Failed after retries"))

  /** A rate-limit or resource-limit error is worth another attempt. */
  predicate IsRetryable(e: ApiError)
  {
    e.status == Some(429) || MentionsFinite(e)
  }

  /** `fetchWithRetry(operation, retries, baseDelay)`, where `attempts(i)` is the outcome
      of call `i`: it stops at the first success, at the first error that is not worth
      retrying and at the last allowed call, and before each further call waits
      `baseDelay * 2^i` after failed call `i`. */
  method FetchWithRetry<T>(attempts: nat -> Attempt<T>, retries: int, baseDelay: int)
    returns (result: Fetched<T>, calls: nat, waits: seq<int>)
    ensures retries <= 0 ==> calls == 0 && result == Thrown(FailedAfterRetries)
    ensures retries > 0 ==> 1 <= calls <= retries
    ensures |waits| == if calls > 0 then calls - 1 else 0
    ensures forall k | 0 <= k < |waits| :: waits[k] == baseDelay * Pow2(k)
    ensures forall k | 0 <= k < calls - 1 :: attempts(k).Failure? && IsRetryable(attempts(k).error)
    ensures calls > 0 ==>
              result == match attempts(calls - 1)
                        case Success(v) => Returned(v)
                        case Failure(e) => Thrown(e)
    ensures calls > 0 && attempts(calls - 1).Failure? ==>
              calls == retries || !IsRetryable(attempts(calls - 1).error)
  {
    calls := 0;
    waits := [];
    var i := 0;
    while i < retries
      invariant 0 <= i && (if retries > 0 then i < retries else i == 0) && calls == i
      invariant |waits| == i
      invariant forall k | 0 <= k < |waits| :: waits[k] == baseDelay * Pow2(k)
      invariant forall k | 0 <= k < i :: attempts(k).Failure? && IsRetryable(attempts(k).error)
      decreases retries - i
    {
      var attempt := attempts(i);
      calls := calls + 1;
      match attempt
      case Success(v) =>
        return Returned(v), calls, waits;
      case Failure(error) =>
        if i == retries - 1 {
          return Thrown(error), calls, waits;
        }
        if IsRetryable(error) {
          waits := waits + [baseDelay * Pow2(i)];
          i := i + 1;
          continue;
        }
        return Thrown(error), calls, waits;
    }
    result := Thrown(FailedAfterRetries);
  }
}
