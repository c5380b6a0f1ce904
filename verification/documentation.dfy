/** Text analysis of one documentation file (src/services/documentation.ts): Markdown
    feature tests, removal of code blocks, links and images, word and sentence counting,
    the readability score and the per-file score. The regular expressions are written
    out as predicates on positions, and each scanner used by `replace` is tied to the
    declarative shape of its pattern by a lemma. */
module Documentation {
  import opened Util

  datatype DocumentationAnalysis = DocumentationAnalysis(
    wordCount: nat,
    hasHeadings: bool,
    hasCodeBlocks: bool,
    hasLinks: bool,
    hasImages: bool,
    readabilityScore: int)

  // ----- feature tests -------------------------------------------------------------

  /** `^` in multiline mode: the start of the text or just after a line terminator. */
  predicate LineStart(s: string, p: int)
  {
    p == 0 || (0 < p <= |s| && IsLineTerminator(s[p - 1]))
  }

  /** `^#{1,6}\s.+` matches at `p` using `k` hashes. */
  predicate HeadingAt(s: string, p: int, k: int)
  {
    && 0 <= p && 1 <= k <= 6 && p + k + 1 < |s|
    && LineStart(s, p)
    && (forall m | p <= m < p + k :: s[m] == '#')
    && IsSpace(s[p + k])
    && !IsLineTerminator(s[p + k + 1])
  }

  /** `/^#{1,6}\s.+/m.test(content)` */
  predicate HasHeading(s: string)
  {
    exists p, k | 0 <= p < |s| && 1 <= k <= 6 :: HeadingAt(s, p, k)
  }

  /** Three backticks start at `i`. */
  predicate FenceAt(s: string, i: int)
  {
    OccursAt(s, "```", i)
  }

  /** `` ```[\s\S]*?``` `` can match from `i` to the fence at `j`. */
  predicate CodeBlockAt(s: string, i: int, j: int)
  {
    FenceAt(s, i) && i + 3 <= j && FenceAt(s, j)
  }

  /** `` /```[\s\S]*?```/.test(content) `` */
  predicate HasCodeBlock(s: string)
  {
    exists i, j | 0 <= i < |s| && i + 3 <= j < |s| :: CodeBlockAt(s, i, j)
  }

  /** No `.`-excluded character in `s[a..b]`. */
  predicate OnOneLine(s: string, a: int, b: int)
    requires 0 <= a <= b <= |s|
  {
    forall m | a <= m < b :: !IsLineTerminator(s[m])
  }

  /** `\[.+\]\(.+\)` can match from `i` with `]` at `j` and the final `)` at `l`. */
  predicate LinkAt(s: string, i: int, j: int, l: int)
  {
    && 0 <= i && i + 2 <= j && j + 3 <= l < |s|
    && s[i] == '[' && s[j] == ']' && s[j + 1] == '(' && s[l] == ')'
    && OnOneLine(s, i + 1, l)
  }

  /** `/\[.+\]\(.+\)/.test(content)` */
  predicate HasLink(s: string)
  {
    exists i, j, l | 0 <= i < |s| && i < j < |s| && j < l < |s| :: LinkAt(s, i, j, l)
  }

  /** `!\[.+\]\(.+\)` can match from `i`. */
  predicate ImageAt(s: string, i: int, j: int, l: int)
  {
    0 <= i < |s| && s[i] == '!' && LinkAt(s, i + 1, j, l)
  }

  /** `/!\[.+\]\(.+\)/.test(content)` */
  predicate HasImage(s: string)
  {
    exists i, j, l | 0 <= i < |s| && i < j < |s| && j < l < |s| :: ImageAt(s, i, j, l)
  }

  /** Every image is also a link. */
  lemma ImageIsLink(s: string)
    ensures HasImage(s) ==> HasLink(s)
  {
    if HasImage(s) {
      var i, j, l :| 0 <= i < |s| && i < j < |s| && j < l < |s| && ImageAt(s, i, j, l);
      assert LinkAt(s, i + 1, j, l);
    }
  }

  // ----- the matchers used by replace ----------------------------------------------

  datatype Pattern = CodeBlock | Link | Image

  /** The first fence starting at or after `from`. */
  function NextFence(s: string, from: nat): (r: Option<nat>)
    decreases |s| - from
    ensures r.Some? ==> from <= r.value && r.value + 3 <= |s| && FenceAt(s, r.value)
    ensures r.Some? ==> forall m | from <= m < r.value :: !FenceAt(s, m)
    ensures r.None? ==> forall m | from <= m :: !FenceAt(s, m)
  {
    if from + 3 > |s| then None
    else if FenceAt(s, from) then Some(from)
    else NextFence(s, from + 1)
  }

  /** The end of the line that contains `i`: the first line terminator at or after `i`. */
  function LineEnd(s: string, i: nat): (e: nat)
    requires i <= |s|
    decreases |s| - i
    ensures i <= e <= |s| && OnOneLine(s, i, e)
    ensures e < |s| ==> IsLineTerminator(s[e])
  {
    if i == |s| || IsLineTerminator(s[i]) then i else LineEnd(s, i + 1)
  }

  /** The last `)` in `s[lo..hi]`, or -1. */
  function LastClose(s: string, lo: int, hi: int): (r: int)
    requires 0 <= lo <= hi <= |s|
    decreases hi - lo
    ensures r == -1 || (lo <= r < hi && s[r] == ')')
    ensures forall m | lo <= m < hi && r < m :: s[m] != ')'
  {
    if lo == hi then -1
    else if s[hi - 1] == ')' then hi - 1
    else LastClose(s, lo, hi - 1)
  }

  /** Where the leftmost match of the link pattern starting at `i` ends. The first `.+` is
      greedy and the second `.+` too, so the match ends at the last `)` of the line as
      soon as some `](` leaves room for both `.+`. */
  function LinkEnd(s: string, i: nat): (r: Option<nat>)
    ensures r.Some? ==> i < r.value <= |s|
  {
    if i < |s| && s[i] == '[' then
      var close := LastClose(s, i + 1, LineEnd(s, i + 1));
      if exists j | i + 2 <= j && j + 3 <= close :: s[j] == ']' && s[j + 1] == '(' then
        Some(close + 1)
      else None
    else None
  }

  /** Where the match of `pattern` starting at `i` ends, if it matches there. */
  function MatchEnd(pattern: Pattern, s: string, i: nat): (r: Option<nat>)
    ensures r.Some? ==> i < r.value <= |s|
  {
    match pattern
    case CodeBlock =>
      if FenceAt(s, i) then
        match NextFence(s, i + 3)
        case Some(j) => Some(j + 3)
        case None => None
      else None
    case Link => LinkEnd(s, i)
    case Image => if i < |s| && s[i] == '!' then LinkEnd(s, i + 1) else None
  }

  /** The lazy code-block match at `i` ends just after the first closing fence. */
  lemma CodeBlockMatch(s: string, i: nat)
    ensures MatchEnd(CodeBlock, s, i).Some? <==> exists j | i + 3 <= j < |s| :: CodeBlockAt(s, i, j)
    ensures MatchEnd(CodeBlock, s, i).Some? ==>
              var j := MatchEnd(CodeBlock, s, i).value - 3;
              CodeBlockAt(s, i, j) && forall m | i + 3 <= m < j :: !CodeBlockAt(s, i, m)
  {
    if FenceAt(s, i) {
      match NextFence(s, i + 3)
      case Some(j) =>
        assert CodeBlockAt(s, i, j);
      case None =>
    }
  }

  /** A link match from `i` can end at the `)` at `l`, and none ends later. */
  predicate LongestLinkAt(s: string, i: int, l: int)
  {
    && (exists j | i < j < l :: LinkAt(s, i, j, l))
    && forall j, m | i < j < m < |s| && LinkAt(s, i, j, m) :: m <= l
  }

  /** The greedy link match at `i` exists exactly when the pattern can match there, and it
      is the longest such match. */
  lemma {:induction false} LinkMatch(s: string, i: nat)
    ensures LinkEnd(s, i).Some? <==> exists j, l | i < j < l < |s| :: LinkAt(s, i, j, l)
    ensures LinkEnd(s, i).Some? ==> LongestLinkAt(s, i, LinkEnd(s, i).value - 1)
  {
    if i < |s| && s[i] == '[' {
      var e := LineEnd(s, i + 1);
      var close := LastClose(s, i + 1, e);
      if exists j | i + 2 <= j && j + 3 <= close :: s[j] == ']' && s[j + 1] == '(' {
        var j :| i + 2 <= j && j + 3 <= close && s[j] == ']' && s[j + 1] == '(';
        assert OnOneLine(s, i + 1, close);
        assert LinkAt(s, i, j, close);
        assert LinkEnd(s, i) == Some(close + 1);
        forall j', m | i < j' < m < |s| && LinkAt(s, i, j', m) ensures m <= close {
          LinkEndsOnLine(s, i, j', m);
        }
      } else {
        forall j, l | i < j < l < |s| ensures !LinkAt(s, i, j, l) {
          if LinkAt(s, i, j, l) {
            LinkEndsOnLine(s, i, j, l);
          }
        }
      }
    }
  }

  /** A link match starting at `i` ends no later than the last `)` of the line. */
  lemma LinkEndsOnLine(s: string, i: nat, j: int, l: int)
    requires LinkAt(s, i, j, l)
    ensures l <= LastClose(s, i + 1, LineEnd(s, i + 1))
  {
    var e := LineEnd(s, i + 1);
    assert e > l by {
      assert e < |s| ==> IsLineTerminator(s[e]);
    }
  }

  /** `content.replace(pattern /g, '')` on `s[i..]`: scan left to right, drop every match
      and resume after it. */
  function StripFrom(pattern: Pattern, s: string, i: nat): (r: string)
    requires i <= |s|
    decreases |s| - i
    ensures |r| <= |s| - i
  {
    if i == |s| then []
    else
      match MatchEnd(pattern, s, i)
      case Some(end) => StripFrom(pattern, s, end)
      case None => [s[i]] + StripFrom(pattern, s, i + 1)
  }

  function Strip(pattern: Pattern, s: string): (r: string)
    ensures |r| <= |s|
  {
    StripFrom(pattern, s, 0)
  }

  /** Where nothing matches, `replace` leaves the text as it was. */
  lemma {:induction false} StripFromNoMatch(pattern: Pattern, s: string, i: nat)
    requires i <= |s|
    requires forall m | i <= m < |s| :: MatchEnd(pattern, s, m).None?
    ensures StripFrom(pattern, s, i) == s[i..]
    decreases |s| - i
  {
    if i < |s| {
      StripFromNoMatch(pattern, s, i + 1);
      assert s[i..] == [s[i]] + s[i + 1..];
    }
  }

  /** A match at or after `i` makes the result strictly shorter. */
  lemma {:induction false} StripFromShrinks(pattern: Pattern, s: string, i: nat, at: nat)
    requires i <= at < |s| && MatchEnd(pattern, s, at).Some?
    ensures |StripFrom(pattern, s, i)| < |s| - i
    decreases |s| - i
  {
    if MatchEnd(pattern, s, i).None? {
      StripFromShrinks(pattern, s, i + 1, at);
    }
  }

  /** Removing links changes the text exactly when the link test succeeds. */
  lemma StripLinksChanges(s: string)
    ensures HasLink(s) <==> Strip(Link, s) != s
  {
    if HasLink(s) {
      var i, j, l :| 0 <= i < |s| && i < j < |s| && j < l < |s| && LinkAt(s, i, j, l);
      LinkMatch(s, i);
      StripFromShrinks(Link, s, 0, i);
    } else {
      forall m | 0 <= m < |s| ensures MatchEnd(Link, s, m).None? {
        LinkMatch(s, m);
      }
      StripFromNoMatch(Link, s, 0);
    }
  }

  /** Removing code blocks changes the text exactly when the code-block test succeeds. */
  lemma StripCodeBlocksChanges(s: string)
    ensures HasCodeBlock(s) <==> Strip(CodeBlock, s) != s
  {
    if HasCodeBlock(s) {
      var i, j :| 0 <= i < |s| && i + 3 <= j < |s| && CodeBlockAt(s, i, j);
      CodeBlockMatch(s, i);
      StripFromShrinks(CodeBlock, s, 0, i);
    } else {
      forall m | 0 <= m < |s| ensures MatchEnd(CodeBlock, s, m).None? {
        CodeBlockMatch(s, m);
      }
      StripFromNoMatch(CodeBlock, s, 0);
    }
  }

  /** The text words and sentences are counted in: code blocks, then links, then images
      removed. */
  function CleanContent(content: string): (clean: string)
    ensures |clean| <= |content|
  {
    Strip(Image, Strip(Link, Strip(CodeBlock, content)))
  }

  // ----- words and sentences -------------------------------------------------------

  /** Runs of non-space characters in `s`, where `inWord` says a run is already open. */
  function WordsFrom(s: string, inWord: bool): nat
  {
    if s == [] then 0
    else if IsSpace(s[0]) then WordsFrom(s[1..], false)
    else (if inWord then 0 else 1) + WordsFrom(s[1..], true)
  }

  /** `s.split(/\s+/).filter(word => word.length > 0).length` */
  function WordCount(s: string): nat
  {
    WordsFrom(s, false)
  }

  /** A text has no words exactly when it is all white space. */
  lemma {:induction false} WordsFromZero(s: string, inWord: bool)
    ensures WordsFrom(s, inWord) == 0 <==> (inWord || forall m | 0 <= m < |s| :: IsSpace(s[m]))
                                           && (forall m | 0 <= m < |s| :: IsSpace(s[m]) || (inWord && forall k | 0 <= k < m :: !IsSpace(s[k])))
  {
    if s != [] {
      WordsFromZero(s[1..], !IsSpace(s[0]));
      if IsSpace(s[0]) {
        WordsFromZero(s[1..], false);
      }
      assert forall m | 1 <= m < |s| :: s[m] == s[1..][m - 1];
    }
  }

  lemma WordCountZero(s: string)
    ensures WordCount(s) == 0 <==> forall m | 0 <= m < |s| :: IsSpace(s[m])
  {
    WordsFromZero(s, false);
  }

  /** White space separates words: the words of `a + [c] + b` are those of `a` and `b`. */
  lemma {:induction false} WordsFromSplit(a: string, c: char, b: string, inWord: bool)
    requires IsSpace(c)
    ensures WordsFrom(a + [c] + b, inWord) == WordsFrom(a, inWord) + WordCount(b)
  {
    if a == [] {
      assert a + [c] + b == [c] + b;
      assert ([c] + b)[1..] == b;
    } else {
      assert (a + [c] + b)[1..] == a[1..] + [c] + b;
      WordsFromSplit(a[1..], c, b, !IsSpace(a[0]));
    }
  }

  lemma WordCountSplit(a: string, c: char, b: string)
    requires IsSpace(c)
    ensures WordCount(a + [c] + b) == WordCount(a) + WordCount(b)
  {
    WordsFromSplit(a, c, b, false);
  }

  predicate IsSentenceEnd(c: char) { c == '.' || c == '!' || c == '?' }

  /** Pieces between runs of `.`, `!`, `?` that hold a non-space character, where `seen`
      says the current piece already has one. */
  function SentencesFrom(s: string, seen: bool): nat
  {
    if s == [] then 0
    else if IsSentenceEnd(s[0]) then SentencesFrom(s[1..], false)
    else if IsSpace(s[0]) then SentencesFrom(s[1..], seen)
    else (if seen then 0 else 1) + SentencesFrom(s[1..], true)
  }

  /** `s.split(/[.!?]+/).filter(s => s.trim().length > 0).length` */
  function SentenceCount(s: string): nat
  {
    SentencesFrom(s, false)
  }

  /** A sentence end separates sentences: those of `a + [c] + b` are those of `a` and `b`. */
  lemma {:induction false} SentencesFromSplit(a: string, c: char, b: string, seen: bool)
    requires IsSentenceEnd(c)
    ensures SentencesFrom(a + [c] + b, seen) == SentencesFrom(a, seen) + SentenceCount(b)
  {
    if a == [] {
      assert a + [c] + b == [c] + b;
      assert ([c] + b)[1..] == b;
    } else {
      assert (a + [c] + b)[1..] == a[1..] + [c] + b;
      var next := if IsSentenceEnd(a[0]) then false else if IsSpace(a[0]) then seen else true;
      SentencesFromSplit(a[1..], c, b, next);
    }
  }

  lemma SentenceCountSplit(a: string, c: char, b: string)
    requires IsSentenceEnd(c)
    ensures SentenceCount(a + [c] + b) == SentenceCount(a) + SentenceCount(b)
  {
    SentencesFromSplit(a, c, b, false);
  }

  // ----- readability ---------------------------------------------------------------

  /** `sentences.length > 0 ? wordCount / sentences.length : 0` */
  function AvgWordsPerSentence(words: nat, sentences: nat): (avg: real)
    ensures avg >= 0.0
    ensures sentences > 0 ==> IsQuotient(avg, words as real, sentences as real)
    ensures sentences == 0 ==> avg == 0.0
  {
    if sentences > 0 then words as real / sentences as real else 0.0
  }

  function ReadabilityRaw(avg: real): real
  {
    MaxR(0.0, 100.0 - AbsR(avg - 15.0) * 5.0)
  }

  /** `Math.round(Math.max(0, 100 - Math.abs(avg - 15) * 5))`: 100 within 0.1 of fifteen
      words per sentence, five points less per word away from it. */
  function ReadabilityScore(avg: real): (r: int)
    ensures 0 <= r <= 100
    ensures r == 100 <==> 14.9 <= avg <= 15.1
    ensures r == 0 <==> avg < -4.9 || avg > 34.9
  {
    RoundBetween(ReadabilityRaw(avg), 0, 100);
    Round(ReadabilityRaw(avg))
  }

  /** Sentence length closer to fifteen words never reads worse. */
  lemma ReadabilityCloserIsBetter(a: real, b: real)
    requires AbsR(a - 15.0) <= AbsR(b - 15.0)
    ensures ReadabilityScore(b) <= ReadabilityScore(a)
  {
    RoundMonotone(ReadabilityRaw(b), ReadabilityRaw(a));
  }

  // ----- analyzeDocument -----------------------------------------------------------

  /** The analysis of one document. With no words left after removing code, links and
      images, every flag is false and readability is 0. */
  function AnalyzeDocument(content: string): (r: DocumentationAnalysis)
    ensures r.wordCount == WordCount(CleanContent(content))
    ensures r.wordCount == 0 <==> forall m | 0 <= m < |CleanContent(content)| :: IsSpace(CleanContent(content)[m])
    ensures r.wordCount == 0 ==> r == DocumentationAnalysis(0, false, false, false, false, 0)
    ensures r.wordCount > 0 ==>
              && (r.hasHeadings <==> HasHeading(content))
              && (r.hasCodeBlocks <==> HasCodeBlock(content))
              && (r.hasLinks <==> HasLink(content))
              && (r.hasImages <==> HasImage(content))
    ensures r.hasImages ==> r.hasLinks
    ensures r.wordCount > 0 ==>
              r.readabilityScore == ReadabilityScore(AvgWordsPerSentence(r.wordCount, SentenceCount(CleanContent(content))))
    ensures 0 <= r.readabilityScore <= 100
  {
    var clean := CleanContent(content);
    var wordCount := WordCount(clean);
    WordCountZero(clean);
    ImageIsLink(content);
    if wordCount == 0 then DocumentationAnalysis(0, false, false, false, false, 0)
    else
      var avg := AvgWordsPerSentence(wordCount, SentenceCount(clean));
      DocumentationAnalysis(wordCount, HasHeading(content), HasCodeBlock(content),
                            HasLink(content), HasImage(content), ReadabilityScore(avg))
  }

  /** The empty document analyses to all zeros. */
  lemma AnalyzeEmptyDocument()
    ensures AnalyzeDocument("") == DocumentationAnalysis(0, false, false, false, false, 0)
  {
  }

  // ----- calculateFileScore --------------------------------------------------------

  /** The length component: a ramp to 80 below 200 words, 100 for 200..2000 words, then
      15 points lost per extra 1000 words. */
  function WordCountScore(words: nat): (r: real)
    ensures 0.0 <= r <= 100.0
    ensures r == 100.0 <==> 200 <= words <= 2000
    ensures words < 200 ==> r < 80.0
    ensures r == 0.0 <==> words == 0 || words as real >= 2000.0 + 100000.0 / 15.0
  {
    if words == 0 then 0.0
    else if words < 200 then (words as real / 200.0) * 80.0
    else if words <= 2000 then 100.0
    else MaxR(0.0, 100.0 - ((words - 2000) as real / 1000.0) * 15.0)
  }

  function Count(b: bool): nat { if b then 1 else 0 }

  /** 25 points per structural feature present. */
  function StructureScore(a: DocumentationAnalysis): (r: nat)
    ensures r % 25 == 0 && r <= 100
    ensures r == 100 <==> a.hasHeadings && a.hasCodeBlocks && a.hasLinks && a.hasImages
    ensures r == 0 <==> !a.hasHeadings && !a.hasCodeBlocks && !a.hasLinks && !a.hasImages
  {
    (Count(a.hasHeadings) + Count(a.hasCodeBlocks) + Count(a.hasLinks) + Count(a.hasImages)) * 25
  }

  function FileScoreRaw(a: DocumentationAnalysis): real
  {
    WordCountScore(a.wordCount) * 0.3 + StructureScore(a) as real * 0.3
    + a.readabilityScore as real * 0.4
  }

  /** 0.3 length + 0.3 structure + 0.4 readability, rounded. */
  function FileScore(a: DocumentationAnalysis): (score: int)
    ensures 0 <= a.readabilityScore <= 100 ==> 0 <= score <= 100
  {
    RoundBetween(FileScoreRaw(a), 0, 100);
    Round(FileScoreRaw(a))
  }

  /** Every analysed document scores within [0, 100]. */
  lemma FileScoreOfAnalysis(content: string)
    ensures 0 <= FileScore(AnalyzeDocument(content)) <= 100
  {
  }

  /** Better readability never lowers the file score. */
  lemma FileScoreReadabilityMonotone(a: DocumentationAnalysis, better: int)
    requires a.readabilityScore <= better
    ensures FileScore(a) <= FileScore(a.(readabilityScore := better))
  {
    RoundMonotone(FileScoreRaw(a), FileScoreRaw(a.(readabilityScore := better)));
  }

  /** 500 words with every feature and readability 90 score 96; the same at 5000 words
      score 83; 50 words with no features and readability 30 score 18. */
  lemma FileScoreExamples()
    ensures FileScore(DocumentationAnalysis(500, true, true, true, true, 90)) == 96
    ensures FileScore(DocumentationAnalysis(5000, true, true, true, true, 90)) == 83
    ensures FileScore(DocumentationAnalysis(50, false, false, false, false, 30)) == 18
  {
    RoundBetween(FileScoreRaw(DocumentationAnalysis(500, true, true, true, true, 90)), 96, 96);
    assert WordCountScore(5000) == 55.0;
    RoundBetween(FileScoreRaw(DocumentationAnalysis(5000, true, true, true, true, 90)), 82, 83);
    assert FileScoreRaw(DocumentationAnalysis(5000, true, true, true, true, 90)) == 82.5;
    RoundBetween(FileScoreRaw(DocumentationAnalysis(50, false, false, false, false, 30)), 18, 18);
  }
}
