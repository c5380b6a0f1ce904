/** Security analysis (services/security.ts): the secret and vulnerability finders, the
    source-file filter, the per-repository totals and the capped-deduction score. The
    regular expressions themselves are abstracted by `matchCount(kind, content)`, the
    number of matches `content.match(regex)` returns for the pattern of that kind (0 when
    it returns null); the repository's files are an input. */
module Security {
  import opened Util
  import opened GitLabTypes

  /** The kinds of finding, one per pattern. */
  datatype Finding =
    | ApiKey | AwsKey | PrivateKey | GenericToken | Password
    | SqlInjectionRisk | XssRisk | InsecureCookie | EvalUsage | InsecureRandom

  /** The type label each finding is reported with. */
  function Label(f: Finding): (text: string)
    ensures text != []
  {
    match f
    case ApiKey => "API Key"
    case AwsKey => "AWS Key"
    case PrivateKey => "Private Key"
    case GenericToken => "Generic Token"
    case Password => "Password"
    case SqlInjectionRisk => "SQL Injection Risk"
    case XssRisk => "XSS Risk"
    case InsecureCookie => "Insecure Cookie"
    case EvalUsage => "Eval Usage"
    case InsecureRandom => "Insecure Random"
  }

  /** Position of each pattern in the order the finders try them. */
  function Rank(f: Finding): nat
  {
    match f
    case ApiKey => 0
    case AwsKey => 1
    case PrivateKey => 2
    case GenericToken => 3
    case Password => 4
    case SqlInjectionRisk => 5
    case XssRisk => 6
    case InsecureCookie => 7
    case EvalUsage => 8
    case InsecureRandom => 9
  }

  const SecretPatterns: seq<Finding> := [ApiKey, AwsKey, PrivateKey, GenericToken, Password]

  const VulnerabilityPatterns: seq<Finding> :=
    [SqlInjectionRisk, XssRisk, InsecureCookie, EvalUsage, InsecureRandom]

  /** `n` copies of `f`: `matches.map(() => type)`. */
  function Repeat(f: Finding, n: nat): (r: seq<Finding>)
    ensures |r| == n && forall i | 0 <= i < n :: r[i] == f
  {
    if n == 0 then [] else Repeat(f, n - 1) + [f]
  }

  /** The labels the finder loop pushes for `patterns`: for each pattern in turn, one per
      match. */
  function Emitted(patterns: seq<Finding>, content: string, matchCount: (Finding, string) -> nat): seq<Finding>
  {
    if patterns == [] then []
    else
      var last := patterns[|patterns| - 1];
      Emitted(patterns[..|patterns| - 1], content, matchCount) + Repeat(last, matchCount(last, content))
  }

  /** The total number of matches of `patterns`. */
  function TotalMatches(patterns: seq<Finding>, content: string, matchCount: (Finding, string) -> nat): nat
  {
    if patterns == [] then 0
    else
      var last := patterns[|patterns| - 1];
      TotalMatches(patterns[..|patterns| - 1], content, matchCount) + matchCount(last, content)
  }

  /** One label per match. */
  lemma {:induction false} EmittedLength(patterns: seq<Finding>, content: string, matchCount: (Finding, string) -> nat)
    ensures |Emitted(patterns, content, matchCount)| == TotalMatches(patterns, content, matchCount)
  {
    if patterns != [] {
      EmittedLength(patterns[..|patterns| - 1], content, matchCount);
    }
  }

  /** Only the kinds of the patterns tried are reported. */
  lemma {:induction false} EmittedFrom(patterns: seq<Finding>, content: string, matchCount: (Finding, string) -> nat)
    ensures forall f | f in Emitted(patterns, content, matchCount) :: f in patterns
  {
    if patterns != [] {
      var init := patterns[..|patterns| - 1];
      EmittedFrom(init, content, matchCount);
      assert forall f | f in init :: f in patterns;
    }
  }

  /** Each kind is reported exactly as often as its pattern matched. */
  lemma {:induction false} EmittedCount(patterns: seq<Finding>, content: string,
                                        matchCount: (Finding, string) -> nat, f: Finding)
    requires forall i, j | 0 <= i < j < |patterns| :: patterns[i] != patterns[j]
    ensures multiset(Emitted(patterns, content, matchCount))[f] ==
            if f in patterns then matchCount(f, content) else 0
  {
    if patterns != [] {
      var init := patterns[..|patterns| - 1];
      var last := patterns[|patterns| - 1];
      EmittedCount(init, content, matchCount, f);
      RepeatCount(last, matchCount(last, content), f);
      assert patterns == init + [last];
      assert f in patterns <==> f in init || f == last;
      if f == last {
        assert f !in init;
      }
    }
  }

  lemma {:induction false} RepeatCount(g: Finding, n: nat, f: Finding)
    ensures multiset(Repeat(g, n))[f] == if f == g then n else 0
  {
    if n > 0 {
      RepeatCount(g, n - 1, f);
    }
  }

  /** The findings of `s` appear in pattern order. */
  predicate InPatternOrder(s: seq<Finding>)
  {
    forall i, j | 0 <= i < j < |s| :: Rank(s[i]) <= Rank(s[j])
  }

  /** Labels come out grouped by pattern, in the order the patterns are tried. */
  lemma {:induction false} EmittedGrouped(patterns: seq<Finding>, content: string, matchCount: (Finding, string) -> nat)
    requires forall i, j | 0 <= i < j < |patterns| :: Rank(patterns[i]) < Rank(patterns[j])
    ensures InPatternOrder(Emitted(patterns, content, matchCount))
  {
    if patterns != [] {
      var init := patterns[..|patterns| - 1];
      var last := patterns[|patterns| - 1];
      var front := Emitted(init, content, matchCount);
      var back := Repeat(last, matchCount(last, content));
      EmittedGrouped(init, content, matchCount);
      EmittedFrom(init, content, matchCount);
      forall i | 0 <= i < |front| ensures Rank(front[i]) < Rank(last) {
        assert front[i] in init;
        var k :| 0 <= k < |init| && init[k] == front[i];
        assert init[k] == patterns[k];
      }
      var e := front + back;
      assert e == Emitted(patterns, content, matchCount);
      forall i, j | 0 <= i < j < |e| ensures Rank(e[i]) <= Rank(e[j]) {
        if j >= |front| {
          assert e[j] == back[j - |front|] == last;
          if i < |front| {
            assert e[i] == front[i];
          } else {
            assert e[i] == back[i - |front|];
          }
        } else {
          assert e[i] == front[i] && e[j] == front[j];
        }
      }
    }
  }

  /** The loop over `patterns`: push one label per match of each pattern. */
  method PushMatches(patterns: seq<Finding>, content: string, matchCount: (Finding, string) -> nat)
    returns (found: seq<Finding>)
    ensures found == Emitted(patterns, content, matchCount)
  {
    found := [];
    for k := 0 to |patterns|
      invariant found == Emitted(patterns[..k], content, matchCount)
    {
      assert patterns[..k + 1][..k] == patterns[..k];
      var matches := matchCount(patterns[k], content);
      found := found + Repeat(patterns[k], matches);
    }
    assert patterns[..|patterns|] == patterns;
  }

  /** `findExposedSecrets`: one label per match of each secret pattern, in pattern order. */
  method FindExposedSecrets(content: string, matchCount: (Finding, string) -> nat) returns (secrets: seq<Finding>)
    ensures secrets == Emitted(SecretPatterns, content, matchCount)
    ensures |secrets| == TotalMatches(SecretPatterns, content, matchCount)
    ensures forall f | f in secrets :: f in SecretPatterns
    ensures forall f :: multiset(secrets)[f] == if f in SecretPatterns then matchCount(f, content) else 0
    ensures InPatternOrder(secrets)
  {
    secrets := PushMatches(SecretPatterns, content, matchCount);
    EmittedLength(SecretPatterns, content, matchCount);
    EmittedFrom(SecretPatterns, content, matchCount);
    EmittedGrouped(SecretPatterns, content, matchCount);
    forall f {
      EmittedCount(SecretPatterns, content, matchCount, f);
    }
  }

  // ----- the source-file filter ----------------------------------------------------

  /** The extensions `findVulnerabilities` scans. */
  const ScannedExtensions: seq<string> := ["js", "jsx", "ts", "tsx", "php", "py", "rb"]

  /** `lowerPath` ends with `.` and one of `extensions`. */
  predicate EndsWithSomeExtension(lowerPath: string, extensions: seq<string>)
  {
    extensions != []
    && (EndsWith(lowerPath, "." + extensions[0]) || EndsWithSomeExtension(lowerPath, extensions[1..]))
  }

  /** `/\.(js|jsx|ts|tsx|php|py|rb)$/i.test(path)`: the patterns are ASCII, so matching
      case-insensitively is matching the ASCII-lowered path. */
  predicate IsScannedPath(path: string)
  {
    EndsWithSomeExtension(ToLower(path), ScannedExtensions)
  }

  lemma {:induction false} EndsWithSomeExtensionIff(lowerPath: string, extensions: seq<string>)
    ensures EndsWithSomeExtension(lowerPath, extensions) <==>
            exists e | e in extensions :: EndsWith(lowerPath, "." + e)
  {
    if extensions != [] {
      EndsWithSomeExtensionIff(lowerPath, extensions[1..]);
      assert forall e :: e in extensions <==> e == extensions[0] || e in extensions[1..];
    }
  }

  /** A scanned path has a dot. */
  lemma ScannedPathHasDot(path: string)
    requires IsScannedPath(path)
    ensures exists m | 0 <= m < |path| :: path[m] == '.'
  {
    var lower := ToLower(path);
    EndsWithSomeExtensionIff(lower, ScannedExtensions);
    var e :| e in ScannedExtensions && EndsWith(lower, "." + e);
    var m := |path| - |e| - 1;
    assert lower[m] == ("." + e)[0] == '.';
  }

  /** A path whose last character ends none of the extensions is not scanned. */
  lemma {:induction false} LastCharRulesOut(lowerPath: string, extensions: seq<string>)
    requires lowerPath != []
    requires forall k | 0 <= k < |extensions| ::
               extensions[k] != [] && extensions[k][|extensions[k]| - 1] != lowerPath[|lowerPath| - 1]
    ensures !EndsWithSomeExtension(lowerPath, extensions)
  {
    if extensions != [] {
      LastCharRulesOut(lowerPath, extensions[1..]);
    }
  }

  /** The extension is matched whatever its case. */
  lemma UpperCaseExtensionScanned()
    ensures IsScannedPath("src/App.TSX")
  {
    var app := ToLower("src/App.TSX");
    assert app == "src/app.tsx";
    assert EndsWith(app, ".tsx");
  }

  /** A Markdown file is not scanned. */
  lemma MarkdownNotScanned()
    ensures !IsScannedPath("README.md")
  {
    assert ToLower("README.md") == "readme.md";
    LastCharRulesOut("readme.md", ScannedExtensions);
  }

  /** `findVulnerabilities`: nothing for a file that is not scanned, otherwise one label
      per match of each vulnerability pattern, in pattern order. */
  method FindVulnerabilities(path: string, content: string, matchCount: (Finding, string) -> nat)
    returns (vulnerabilities: seq<Finding>)
    ensures !IsScannedPath(path) ==> vulnerabilities == []
    ensures IsScannedPath(path) ==> vulnerabilities == Emitted(VulnerabilityPatterns, content, matchCount)
    ensures |vulnerabilities| == FileVulnerabilities(RepoFile(path, content), matchCount)
    ensures forall f :: multiset(vulnerabilities)[f] ==
              if IsScannedPath(path) && f in VulnerabilityPatterns then matchCount(f, content) else 0
    ensures InPatternOrder(vulnerabilities)
  {
    vulnerabilities := [];
    if IsScannedPath(path) {
      vulnerabilities := PushMatches(VulnerabilityPatterns, content, matchCount);
      EmittedLength(VulnerabilityPatterns, content, matchCount);
      EmittedGrouped(VulnerabilityPatterns, content, matchCount);
      forall f {
        EmittedCount(VulnerabilityPatterns, content, matchCount, f);
      }
    }
  }

  // ----- analyzeRepository ---------------------------------------------------------

  /** The number of vulnerability labels for one file. */
  function FileVulnerabilities(file: RepoFile, matchCount: (Finding, string) -> nat): nat
  {
    if IsScannedPath(file.path) then TotalMatches(VulnerabilityPatterns, file.content, matchCount) else 0
  }

  function FileSecrets(file: RepoFile, matchCount: (Finding, string) -> nat): nat
  {
    TotalMatches(SecretPatterns, file.content, matchCount)
  }

  /** The vulnerability labels over all files. */
  function TotalVulnerabilities(files: seq<RepoFile>, matchCount: (Finding, string) -> nat): nat
  {
    if files == [] then 0
    else TotalVulnerabilities(files[..|files| - 1], matchCount) + FileVulnerabilities(files[|files| - 1], matchCount)
  }

  /** The secret labels over all files. */
  function TotalSecrets(files: seq<RepoFile>, matchCount: (Finding, string) -> nat): nat
  {
    if files == [] then 0
    else TotalSecrets(files[..|files| - 1], matchCount) + FileSecrets(files[|files| - 1], matchCount)
  }

  /** Files that are not scanned add no vulnerabilities, whatever they contain. */
  lemma {:induction false} UnscannedFilesAddNothing(files: seq<RepoFile>, matchCount: (Finding, string) -> nat)
    requires forall i | 0 <= i < |files| :: !IsScannedPath(files[i].path)
    ensures TotalVulnerabilities(files, matchCount) == 0
  {
    if files != [] {
      UnscannedFilesAddNothing(files[..|files| - 1], matchCount);
    }
  }

  /** `100 - min(10 v, 40) - min(25 s, 50)`, never below 0: the deduction for
      vulnerabilities stops at 40 and the one for secrets at 50. */
  function SecurityScore(vulnerabilities: nat, secrets: nat): (score: int)
    ensures 10 <= score <= 100
    ensures score == 100 <==> vulnerabilities == 0 && secrets == 0
    ensures score == 10 <==> vulnerabilities >= 4 && secrets >= 2
  {
    var vulnerabilityImpact := if vulnerabilities * 10 < 40 then vulnerabilities * 10 else 40;
    var secretsImpact := if secrets * 25 < 50 then secrets * 25 else 50;
    var score := 100 - vulnerabilityImpact - secretsImpact;
    if score < 0 then 0 else score
  }

  /** More findings never raise the score. */
  lemma SecurityScoreMonotone(v: nat, s: nat, v': nat, s': nat)
    requires v <= v' && s <= s'
    ensures SecurityScore(v', s') <= SecurityScore(v, s)
  {
  }

  /** Beyond four vulnerabilities and two secrets further findings cost nothing. */
  lemma SecurityScoreCaps(v: nat, s: nat)
    ensures SecurityScore(v, s) == SecurityScore(if v < 4 then v else 4, if s < 2 then s else 2)
  {
  }

  /** `calculateSecurityScore`: start at 100, deduct the capped impacts, clamp at 0. */
  method CalculateSecurityScore(metrics: SecurityMetrics) returns (score: int)
    ensures score == SecurityScore(metrics.vulnerabilityCount, metrics.exposedSecretsCount)
  {
    score := 100;
    var vulnerabilityImpact := if metrics.vulnerabilityCount * 10 < 40 then metrics.vulnerabilityCount * 10 else 40;
    score := score - vulnerabilityImpact;
    var secretsImpact := if metrics.exposedSecretsCount * 25 < 50 then metrics.exposedSecretsCount * 25 else 50;
    score := score - secretsImpact;
    if score < 0 {
      score := 0;
    }
  }

  /** `analyzeRepository` over the repository's files: the totals of the per-file
      findings, no patch time, and the score of the totals. */
  method AnalyzeRepository(files: seq<RepoFile>, matchCount: (Finding, string) -> nat)
    returns (m: SecurityMetrics)
    ensures m.vulnerabilityCount == TotalVulnerabilities(files, matchCount)
    ensures m.exposedSecretsCount == TotalSecrets(files, matchCount)
    ensures m.avgPatchTime == 0.0
    ensures m.securityScore == SecurityScore(m.vulnerabilityCount, m.exposedSecretsCount)
    ensures 10 <= m.securityScore <= 100
  {
    var vulnerabilityCount := 0;
    var exposedSecretsCount := 0;
    for i := 0 to |files|
      invariant vulnerabilityCount == TotalVulnerabilities(files[..i], matchCount)
      invariant exposedSecretsCount == TotalSecrets(files[..i], matchCount)
    {
      assert files[..i + 1][..i] == files[..i];
      var file := files[i];
      var secretsFound := FindExposedSecrets(file.content, matchCount);
      exposedSecretsCount := exposedSecretsCount + |secretsFound|;
      var vulnerabilities := FindVulnerabilities(file.path, file.content, matchCount);
      vulnerabilityCount := vulnerabilityCount + |vulnerabilities|;
    }
    assert files[..|files|] == files;
    var securityScore := CalculateSecurityScore(SecurityMetrics(vulnerabilityCount, exposedSecretsCount, 0.0, 0));
    m := SecurityMetrics(vulnerabilityCount, exposedSecretsCount, 0.0, securityScore);
  }

  /** The sample counts: two vulnerabilities and three secrets leave 30. */
  lemma SecurityScoreExamples()
    ensures SecurityScore(0, 0) == 100
    ensures SecurityScore(2, 3) == 30
    ensures SecurityScore(10, 10) == 10
  {
  }
}
