/** Repository-level documentation metrics (services/analytics.ts): each file of the
    repository is scored with the document analysis and classified by its path, and the
    scores of the README and of the architecture records are kept. The file listing is an
    input. */
module Analytics {
  import opened Util
  import opened GitLabTypes
  import Documentation

  /** Which branch of the classification a file falls into. */
  datatype DocKind = Readme | ArchitectureRecord | ContributingGuide | License | Other

  /** The first branch whose test the lower-cased path passes; ASCII lower-casing decides
      every test the same way as `toLowerCase`, because none of the words contains a
      letter that a non-ASCII character lower-cases to. */
  function Classify(path: string): (kind: DocKind)
    ensures kind == Readme <==> ToLower(path) == "readme.md"
    ensures kind == ArchitectureRecord <==>
              ToLower(path) != "readme.md"
              && (Contains(ToLower(path), "adr") || Contains(ToLower(path), "architecture"))
  {
    var lower := ToLower(path);
    if lower == "readme.md" then Readme
    else if Contains(lower, "adr") || Contains(lower, "architecture") then ArchitectureRecord
    else if lower == "contributing.md" then ContributingGuide
    else if Contains(lower, "license") then License
    else Other
  }

  /** The document score of one file. */
  function ScoreOf(file: RepoFile): (score: int)
    ensures 0 <= score <= 100
  {
    Documentation.FileScoreOfAnalysis(file.content);
    Documentation.FileScore(Documentation.AnalyzeDocument(file.content))
  }

  /** A file score within [0, 100]. */
  ghost predicate ScoreInRange(scoreOf: RepoFile -> int)
  {
    forall f :: 0 <= scoreOf(f) <= 100
  }

  /** The score of the last README, and 0 without one. */
  function ReadmeScore(files: seq<RepoFile>, scoreOf: RepoFile -> int): int
  {
    if files == [] then 0
    else
      var last := files[|files| - 1];
      if Classify(last.path) == Readme then scoreOf(last) else ReadmeScore(files[..|files| - 1], scoreOf)
  }

  /** The best architecture-record score, and 0 without one. */
  function AdrScore(files: seq<RepoFile>, scoreOf: RepoFile -> int): int
  {
    if files == [] then 0
    else
      var last := files[|files| - 1];
      var before := AdrScore(files[..|files| - 1], scoreOf);
      if Classify(last.path) == ArchitectureRecord && scoreOf(last) > before then scoreOf(last) else before
  }

  predicate HasKind(files: seq<RepoFile>, kind: DocKind)
  {
    exists i | 0 <= i < |files| :: Classify(files[i].path) == kind
  }

  /** `calculateDocumentationScore` over the repository's files, each scored by
      analysing its text. */
  method CalculateDocumentationScore(files: seq<RepoFile>) returns (m: DocumentationMetrics)
    ensures m.readmeScore == ReadmeScore(files, ScoreOf) && m.adrScore == AdrScore(files, ScoreOf)
    ensures m.inlineDocScore == 0 && m.totalScore == m.readmeScore
    ensures m.contributingGuideExists <==> HasKind(files, ContributingGuide)
    ensures m.licenseExists <==> HasKind(files, License)
  {
    var readmeScore, adrScore, contributingGuideExists, licenseExists := ClassifyFiles(files, ScoreOf);
    var inlineDocScore := 0;
    m := DocumentationMetrics(readmeScore, adrScore, inlineDocScore, contributingGuideExists, licenseExists, readmeScore);
  }

  /** The loop of `calculateDocumentationScore`: each file goes to the first branch
      its path matches. */
  method ClassifyFiles(files: seq<RepoFile>, scoreOf: RepoFile -> int)
    returns (readmeScore: int, adrScore: int, contributingGuideExists: bool, licenseExists: bool)
    ensures readmeScore == ReadmeScore(files, scoreOf) && adrScore == AdrScore(files, scoreOf)
    ensures contributingGuideExists <==> HasKind(files, ContributingGuide)
    ensures licenseExists <==> HasKind(files, License)
  {
    readmeScore, adrScore := 0, 0;
    contributingGuideExists, licenseExists := false, false;
    for i := 0 to |files|
      invariant readmeScore == ReadmeScore(files[..i], scoreOf) && adrScore == AdrScore(files[..i], scoreOf)
      invariant contributingGuideExists <==> HasKind(files[..i], ContributingGuide)
      invariant licenseExists <==> HasKind(files[..i], License)
    {
      var file := files[i];
      ClassifyStep(files, i, scoreOf);
      var fileScore := scoreOf(file);
      match Classify(file.path)
      case Readme =>
        readmeScore := fileScore;
      case ArchitectureRecord =>
        adrScore := if adrScore >= fileScore then adrScore else fileScore;
      case ContributingGuide =>
        contributingGuideExists := true;
      case License =>
        licenseExists := true;
      case Other =>
    }
    assert files[..|files|] == files;
  }

  /** What one more file does to each of the loop's results. */
  lemma ClassifyStep(files: seq<RepoFile>, i: nat, scoreOf: RepoFile -> int)
    requires i < |files|
    ensures var kind := Classify(files[i].path);
            && ReadmeScore(files[..i + 1], scoreOf) ==
                 (if kind == Readme then scoreOf(files[i]) else ReadmeScore(files[..i], scoreOf))
            && AdrScore(files[..i + 1], scoreOf) ==
                 (if kind == ArchitectureRecord && scoreOf(files[i]) > AdrScore(files[..i], scoreOf)
                  then scoreOf(files[i]) else AdrScore(files[..i], scoreOf))
            && (HasKind(files[..i + 1], ContributingGuide) <==> HasKind(files[..i], ContributingGuide) || kind == ContributingGuide)
            && (HasKind(files[..i + 1], License) <==> HasKind(files[..i], License) || kind == License)
  {
    var prefix := files[..i + 1];
    assert prefix[..i] == files[..i] && prefix[i] == files[i];
    assert prefix == files[..i] + [files[i]];
    HasKindExtend(files[..i], files[i], ContributingGuide);
    HasKindExtend(files[..i], files[i], License);
  }

  lemma HasKindExtend(files: seq<RepoFile>, file: RepoFile, kind: DocKind)
    ensures HasKind(files + [file], kind) <==> HasKind(files, kind) || Classify(file.path) == kind
  {
    var extended := files + [file];
    if HasKind(extended, kind) && Classify(file.path) != kind {
      var i :| 0 <= i < |extended| && Classify(extended[i].path) == kind;
      assert extended[i] == files[i];
    }
    if HasKind(files, kind) {
      var i :| 0 <= i < |files| && Classify(files[i].path) == kind;
      assert extended[i] == files[i];
    }
    if Classify(file.path) == kind {
      assert extended[|files|] == file;
    }
  }

  /** The README score is the score of the last file named `readme.md`, and 0 when
      there is none. */
  lemma {:induction false} ReadmeScoreIsLast(files: seq<RepoFile>, scoreOf: RepoFile -> int)
    ensures !HasKind(files, Readme) ==> ReadmeScore(files, scoreOf) == 0
    ensures HasKind(files, Readme) ==>
              exists i | 0 <= i < |files| ::
                && Classify(files[i].path) == Readme
                && ReadmeScore(files, scoreOf) == scoreOf(files[i])
                && forall j | i < j < |files| :: Classify(files[j].path) != Readme
  {
    if files != [] {
      var init := files[..|files| - 1];
      var last := files[|files| - 1];
      assert files == init + [last];
      HasKindExtend(init, last, Readme);
      ReadmeScoreIsLast(init, scoreOf);
      if Classify(last.path) != Readme && HasKind(init, Readme) {
        var i :| 0 <= i < |init| && Classify(init[i].path) == Readme
                 && ReadmeScore(init, scoreOf) == scoreOf(init[i])
                 && forall j | i < j < |init| :: Classify(init[j].path) != Readme;
        assert files[i] == init[i];
      }
    }
  }

  /** With scores in [0, 100], the architecture score is the largest score of an
      architecture record, and 0 when there is none. */
  lemma {:induction false} AdrScoreIsMax(files: seq<RepoFile>, scoreOf: RepoFile -> int)
    requires ScoreInRange(scoreOf)
    ensures 0 <= AdrScore(files, scoreOf) <= 100
    ensures forall i | 0 <= i < |files| && Classify(files[i].path) == ArchitectureRecord ::
              scoreOf(files[i]) <= AdrScore(files, scoreOf)
    ensures AdrScore(files, scoreOf) == 0 ||
            exists i | 0 <= i < |files| ::
              Classify(files[i].path) == ArchitectureRecord && scoreOf(files[i]) == AdrScore(files, scoreOf)
  {
    if files != [] {
      var init := files[..|files| - 1];
      var last := files[|files| - 1];
      AdrScoreIsMax(init, scoreOf);
      forall i | 0 <= i < |init| ensures files[i] == init[i] { }
    }
  }

  /** The first matching branch wins: an architecture record under a licence name feeds
      the architecture score and does not count as a licence. */
  lemma FirstMatchWins()
    ensures Classify("docs/adr/license.md") == ArchitectureRecord
  {
    var lower := ToLower("docs/adr/license.md");
    assert lower == "docs/adr/license.md";
    assert OccursAt(lower, "adr", 5);
  }

  /** `calculateTestingMetrics` has no implementation yet: all zeros, for every input. */
  function CalculateTestingMetrics(repoId: int): (m: TestingMetrics)
    ensures m.coverage == 0.0 && m.unitTestCount == 0 && m.integrationTestCount == 0
    ensures m.e2eTestCount == 0 && m.avgExecutionTime == 0.0 && m.reliability == 0.0
  {
    TestingMetrics(0.0, 0, 0, 0, 0.0, 0.0)
  }
}
