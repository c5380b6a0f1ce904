/** Commit hygiene (src/services/commit.ts): the Conventional Commits header test, the
    per-commit problem list and the four repository commit metrics. The commits of the
    window and the window length in days are inputs; fetching them is not modelled. */
module CommitAnalysis {
  import opened Util
  import opened GitLabTypes

  datatype ChangeStats = ChangeStats(additions: nat, deletions: nat, total: nat)

  /** A commit as the GitLab client returns it; `stats` may be missing. */
  datatype GitLabCommit = GitLabCommit(title: string, message: string, stats: Option<ChangeStats>)

  // ----- isConventionalCommit ------------------------------------------------------

  /** The commit types the header pattern accepts. */
  const ConventionalTypes: seq<string> :=
    ["feat", "fix", "docs", "style", "refactor", "perf", "test", "build", "ci", "chore", "revert"]

  /** `: .+` at the start of `r`: a colon, a space and at least one more character on the
      same line. */
  predicate DescriptionFollows(r: string)
  {
    |r| >= 3 && r[0] == ':' && r[1] == ' ' && !IsLineTerminator(r[2])
  }

  /** `\([^)]+\): .+` at the start of `r`, with the scope's `)` at `k`. */
  predicate ScopeEndsAt(r: string, k: int)
  {
    && 2 <= k < |r| && r[0] == '(' && r[k] == ')'
    && (forall m | 1 <= m < k :: r[m] != ')')
    && DescriptionFollows(r[k + 1..])
  }

  /** `^(feat|fix|…|revert)(\([^)]+\))?: .+` with the type `t`. */
  predicate HeaderWithType(title: string, t: string)
  {
    StartsWith(title, t)
    && (DescriptionFollows(title[|t|..])
        || exists k | 0 <= k < |title| - |t| :: ScopeEndsAt(title[|t|..], k))
  }

  /** The header pattern matches with one of `types`. */
  predicate HeaderWithSomeType(title: string, types: seq<string>)
  {
    types != [] && (HeaderWithType(title, types[0]) || HeaderWithSomeType(title, types[1..]))
  }

  predicate IsConventionalCommit(title: string)
  {
    HeaderWithSomeType(title, ConventionalTypes)
  }

  lemma {:induction false} HeaderWithSomeTypeIff(title: string, types: seq<string>)
    ensures HeaderWithSomeType(title, types) <==> exists t | t in types :: HeaderWithType(title, t)
  {
    if types != [] {
      HeaderWithSomeTypeIff(title, types[1..]);
      assert forall t :: t in types <==> t == types[0] || t in types[1..];
    }
  }

  /** A header that matches with one listed type matches the alternation. */
  lemma {:induction false} HeaderWithListedType(title: string, types: seq<string>, t: string)
    requires t in types && HeaderWithType(title, t)
    ensures HeaderWithSomeType(title, types)
  {
    if types[0] != t {
      HeaderWithListedType(title, types[1..], t);
    }
  }

  /** Every header built from a listed type, an optional scope without `)` and a
      description passes. */
  lemma ConventionalHeader(t: string, scope: string, description: string)
    requires t in ConventionalTypes
    requires forall m | 0 <= m < |scope| :: scope[m] != ')'
    requires description != [] && !IsLineTerminator(description[0])
    ensures IsConventionalCommit(t + ": " + description)
    ensures scope != [] ==> IsConventionalCommit(t + "(" + scope + ")" + ": " + description)
  {
    PlainHeader(t, description);
    HeaderWithListedType(t + ": " + description, ConventionalTypes, t);
    if scope != [] {
      ScopedHeader(t, scope, description);
      HeaderWithListedType(t + "(" + scope + ")" + ": " + description, ConventionalTypes, t);
    }
  }

  lemma PlainHeader(t: string, description: string)
    requires description != [] && !IsLineTerminator(description[0])
    ensures HeaderWithType(t + ": " + description, t)
  {
    var plain := t + ": " + description;
    assert plain[..|t|] == t && plain[|t|..] == ": " + description;
  }

  lemma ScopedHeader(t: string, scope: string, description: string)
    requires scope != [] && forall m | 0 <= m < |scope| :: scope[m] != ')'
    requires description != [] && !IsLineTerminator(description[0])
    ensures HeaderWithType(t + "(" + scope + ")" + ": " + description, t)
  {
    var scoped := t + "(" + scope + ")" + ": " + description;
    var rest := "(" + scope + ")" + ": " + description;
    assert scoped[..|t|] == t && scoped[|t|..] == rest;
    assert rest[|scope| + 2..] == ": " + description;
    assert ScopeEndsAt(rest, |scope| + 1);
  }

  /** A conventional header starts with the first letter of one of the types. */
  lemma ConventionalFirstLetter(title: string)
    ensures IsConventionalCommit(title) ==> title != [] && title[0] in "fdsrptbc"
  {
    if IsConventionalCommit(title) {
      HeaderWithSomeTypeIff(title, ConventionalTypes);
      var t :| t in ConventionalTypes && HeaderWithType(title, t);
      assert t[0] in "fdsrptbc";
      assert title[0] == title[..|t|][0];
    }
  }

  /** A conventional header always has a colon. */
  lemma ConventionalHasColon(title: string)
    requires IsConventionalCommit(title)
    ensures exists m | 0 <= m < |title| :: title[m] == ':'
  {
    HeaderWithSomeTypeIff(title, ConventionalTypes);
    var t :| t in ConventionalTypes && HeaderWithType(title, t);
    var rest := title[|t|..];
    if DescriptionFollows(rest) {
      assert title[|t|] == ':';
    } else {
      var k :| 0 <= k < |title| - |t| && ScopeEndsAt(rest, k);
      assert title[|t| + k + 1] == rest[k + 1..][0] == ':';
    }
  }

  // ----- getCommitProblems ---------------------------------------------------------

  datatype Problem = LargeChanges | UninformativeMessage | MergeConflictMarkers | ShortMessage

  /** The label pushed for each problem. */
  function Label(p: Problem): (text: string)
    ensures text != []
  {
    match p
    case LargeChanges => "large-changes"
    case UninformativeMessage => "uninformative-message"
    case MergeConflictMarkers => "merge-conflict-markers"
    case ShortMessage => "short-message"
  }

  /** `commit.stats?.total || 0` */
  function ChangeTotal(c: GitLabCommit): nat
  {
    match c.stats
    case Some(st) => st.total
    case None => 0
  }

  /** `commit.stats?.total && commit.stats.total > 1000` */
  predicate IsLarge(c: GitLabCommit)
  {
    ChangeTotal(c) > 1000
  }

  /** `[A-Za-z0-9_]`, the characters `\b` separates from the others. */
  predicate IsWordChar(ch: char)
  {
    ('a' <= ch <= 'z') || ('A' <= ch <= 'Z') || ('0' <= ch <= '9') || ch == '_'
  }

  /** The words an uninformative title starts with. */
  const UninformativeWords: seq<string> := ["fix", "update", "changes", "wip", "temp", "testing", "commit"]

  /** `/^word\b/i.test(s)` for a lower-case `word`. */
  predicate StartsWithWord(s: string, word: string)
  {
    var lower := ToLower(s);
    StartsWith(lower, word) && (|s| == |word| || !IsWordChar(s[|word|]))
  }

  /** `/^[.]+$/.test(s)` */
  predicate AllDots(s: string)
  {
    s != [] && forall m | 0 <= m < |s| :: s[m] == '.'
  }

  /** One of the uninformative patterns matches the trimmed title: it starts with one of
      the words as a whole word, or is only dots. */
  predicate SoundsUninformative(trimmed: string)
  {
    StartsWithSomeWord(trimmed, UninformativeWords) || AllDots(trimmed)
  }

  /** `s` starts with one of `words` as a whole word. */
  predicate StartsWithSomeWord(s: string, words: seq<string>)
  {
    words != [] && (StartsWithWord(s, words[0]) || StartsWithSomeWord(s, words[1..]))
  }

  /** The uninformative-message rule: only checked for non-conventional titles. */
  predicate IsUninformative(title: string)
  {
    !IsConventionalCommit(title) && SoundsUninformative(Trim(title))
  }

  predicate HasConflictMarkers(message: string)
  {
    Contains(message, "<<<<<<<") || Contains(message, ">>>>>>>")
  }

  predicate IsShort(title: string)
  {
    |title| < 10
  }

  /** Position of each problem in the order the checks run. */
  function Rank(p: Problem): nat
  {
    match p
    case LargeChanges => 0
    case UninformativeMessage => 1
    case MergeConflictMarkers => 2
    case ShortMessage => 3
  }

  /** The outcome of the four checks on one commit. */
  datatype Checks = Checks(large: bool, uninformative: bool, markers: bool, short: bool)

  function ChecksOf(c: GitLabCommit): Checks
  {
    Checks(IsLarge(c), IsUninformative(c.title), HasConflictMarkers(c.message), IsShort(c.title))
  }

  /** The problems the checks found, in check order. */
  function ProblemList(k: Checks): seq<Problem>
  {
    (if k.large then [LargeChanges] else [])
    + (if k.uninformative then [UninformativeMessage] else [])
    + (if k.markers then [MergeConflictMarkers] else [])
    + (if k.short then [ShortMessage] else [])
  }

  /** Each failing check contributes its problem, exactly once and in check order. */
  lemma ProblemListSpec(k: Checks)
    ensures LargeChanges in ProblemList(k) <==> k.large
    ensures UninformativeMessage in ProblemList(k) <==> k.uninformative
    ensures MergeConflictMarkers in ProblemList(k) <==> k.markers
    ensures ShortMessage in ProblemList(k) <==> k.short
    ensures ProblemList(k) == [] <==> !k.large && !k.uninformative && !k.markers && !k.short
    ensures forall i, j | 0 <= i < j < |ProblemList(k)| :: Rank(ProblemList(k)[i]) < Rank(ProblemList(k)[j])
  {
    ProblemListOrdered(k);
  }

  /** Each problem's rank exceeds the ranks before it. */
  lemma ProblemListOrdered(k: Checks)
    ensures forall i, j | 0 <= i < j < |ProblemList(k)| :: Rank(ProblemList(k)[i]) < Rank(ProblemList(k)[j])
  {
    var ps := ProblemList(k);
    assert forall i | 0 <= i < |ps| :: Rank(ps[i]) >= i;
  }

  /** `getCommitProblems` as a value. */
  function CommitProblems(c: GitLabCommit): seq<Problem>
  {
    ProblemList(ChecksOf(c))
  }

  /** `getCommitProblems`: run the four checks and push each failing one, in order. */
  method GetCommitProblems(c: GitLabCommit) returns (problems: seq<Problem>)
    ensures problems == CommitProblems(c)
    ensures LargeChanges in problems <==> IsLarge(c)
    ensures UninformativeMessage in problems <==> IsUninformative(c.title)
    ensures MergeConflictMarkers in problems <==> HasConflictMarkers(c.message)
    ensures ShortMessage in problems <==> |c.title| < 10
  {
    problems := PushProblems(ChecksOf(c));
    ProblemListSpec(ChecksOf(c));
  }

  /** The pushes of `getCommitProblems`, given the outcome of each check. */
  method PushProblems(checks: Checks) returns (problems: seq<Problem>)
    ensures problems == ProblemList(checks)
  {
    problems := [];
    if checks.large {
      problems := problems + [LargeChanges];
    }
    if checks.uninformative {
      problems := problems + [UninformativeMessage];
    }
    if checks.markers {
      problems := problems + [MergeConflictMarkers];
    }
    if checks.short {
      problems := problems + [ShortMessage];
    }
  }

  /** `isProblematicCommit`: the commit has at least one problem. */
  predicate IsProblematic(c: GitLabCommit)
  {
    |CommitProblems(c)| > 0
  }

  /** A commit is problematic exactly when one of the four rules fires. */
  lemma ProblematicIffSomeRule(c: GitLabCommit)
    ensures IsProblematic(c) <==>
              IsLarge(c) || IsUninformative(c.title) || HasConflictMarkers(c.message) || IsShort(c.title)
  {
    var ps := CommitProblems(c);
    ProblemListSpec(ChecksOf(c));
    assert ps == [] <==> |ps| == 0;
  }

  // ----- analyzeRepository ---------------------------------------------------------

  predicate IsConventional(c: GitLabCommit) { IsConventionalCommit(c.title) }

  /** `conventionalCommits.length / commits.length * 100`. */
  function ConventionalRate(commits: seq<GitLabCommit>): (rate: real)
    requires commits != []
    ensures 0.0 <= rate <= 100.0
    ensures IsQuotient(rate, 100.0 * CountIf(commits, IsConventional) as real, |commits| as real)
    ensures rate == 100.0 <==> forall i | 0 <= i < |commits| :: IsConventionalCommit(commits[i].title)
    ensures rate == 0.0 <==> forall i | 0 <= i < |commits| :: !IsConventionalCommit(commits[i].title)
  {
    CountIfAll(commits, IsConventional);
    CountIfZero(commits, IsConventional);
    Percentage(CountIf(commits, IsConventional), |commits|)
  }

  /** `totalChanges / commits.length`, a missing total counting as 0. */
  function AvgCommitSize(commits: seq<GitLabCommit>): (avg: real)
    requires commits != []
    ensures avg >= 0.0 && IsQuotient(avg, SumOf(commits, ChangeTotal) as real, |commits| as real)
  {
    Quotient(SumOf(commits, ChangeTotal), |commits| as real)
  }

  /** `problematicCommits.length / commits.length`. */
  function ProblematicRate(commits: seq<GitLabCommit>): (rate: real)
    requires commits != []
    ensures 0.0 <= rate <= 1.0
    ensures IsQuotient(rate, CountIf(commits, IsProblematic) as real, |commits| as real)
    ensures rate == 1.0 <==> forall i | 0 <= i < |commits| :: IsProblematic(commits[i])
    ensures rate == 0.0 <==> forall i | 0 <= i < |commits| :: !IsProblematic(commits[i])
  {
    CountIfAll(commits, IsProblematic);
    CountIfZero(commits, IsProblematic);
    Fraction(CountIf(commits, IsProblematic), |commits|)
  }

  /** The four commit metrics of a window of `daysDiff` days: all zero without commits. */
  function AnalyzeRepository(commits: seq<GitLabCommit>, daysDiff: real): (m: CommitMetrics)
    requires daysDiff > 0.0
    ensures commits == [] ==> m == CommitMetrics(0.0, 0.0, 0.0, 0.0)
    ensures commits != [] ==>
              m == CommitMetrics(ConventionalRate(commits), AvgCommitSize(commits),
                                 Quotient(|commits|, daysDiff), ProblematicRate(commits))
    ensures 0.0 <= m.conventionalCommitRate <= 100.0 && 0.0 <= m.problematicCommitsRate <= 1.0
    ensures m.avgCommitSize >= 0.0 && m.commitFrequency >= 0.0
  {
    if commits == [] then CommitMetrics(0.0, 0.0, 0.0, 0.0)
    else
      CommitMetrics(ConventionalRate(commits), AvgCommitSize(commits),
                    Quotient(|commits|, daysDiff), ProblematicRate(commits))
  }

  /** The header pattern on the sample titles. */
  lemma ConventionalExamples()
    ensures IsConventionalCommit("feat: add new feature")
    ensures IsConventionalCommit("fix: resolve bug")
    ensures !IsConventionalCommit("update stuff")
  {
    var feat := "feat: add new feature";
    assert feat[..4] == "feat" && feat[4..][0] == ':' && feat[4..][1] == ' ' && feat[4..][2] == 'a';
    assert HeaderWithType(feat, ConventionalTypes[0]);
    var fix := "fix: resolve bug";
    assert fix[..3] == "fix" && fix[3..][0] == ':' && fix[3..][1] == ' ' && fix[3..][2] == 'r';
    assert HeaderWithType(fix, ConventionalTypes[1]);
    assert HeaderWithSomeType(fix, ConventionalTypes[1..]);
    ConventionalFirstLetter("update stuff");
  }
}
