/**
 * The metadata extractor: a title, a summary, keyword tags and a content
 * hash derived from a memory's raw text, with no state and no error cases.
 */
module MetadataExtractor {
  import opened Wrappers
  import opened Text
  import opened Seqs
  import opened Bytes

  const MaxTitle: nat := 100
  const MaxSummary: nat := 200
  const MaxKeywords: nat := 5
  /** A paragraph must be longer than this to be chosen as the summary. */
  const ShortParagraph: nat := 20

  datatype Metadata = Metadata(title: string, summary: string, tags: string, contentHash: string)

  /** `extract_metadata(content, user_tags)`, with SHA-256 supplied as `sha256`. */
  function ExtractMetadata(content: string, userTags: Option<string>, sha256: seq<Byte> -> Digest): (m: Metadata)
    ensures |m.title| <= MaxTitle && |m.summary| <= MaxSummary
    ensures |m.contentHash| == 66 && m.contentHash[..2] == "0x" && IsLowerHex(m.contentHash[2..])
  {
    Metadata(
      ExtractTitle(content),
      ExtractSummary(content),
      CombineTags(userTags, ExtractKeywords(content)),
      ContentHash(content, sha256))
  }

  // ---------------------------------------------------------------- title

  predicate IsHash(c: char) { c == '#' }

  /** A stripped line that starts with `#`. */
  predicate IsHeading(line: string) { line != [] && line[0] == '#' }

  /** `line.lstrip("#").strip()`. */
  function HeadingText(line: string): string { Strip(TrimStartBy(line, IsHash)) }

  /** `content.strip().split("\n")`. */
  function Lines(content: string): seq<string> { SplitOn(Strip(content), "\n") }

  /** The first loop of `_extract_title`: the text of the first heading line. */
  function FirstHeading(lines: seq<string>): Option<string>
  {
    if lines == [] then None
    else if IsHeading(Strip(lines[0])) then Some(HeadingText(Strip(lines[0])))
    else FirstHeading(lines[1..])
  }

  /** The second loop of `_extract_title`: the first line that is not blank, stripped. */
  function FirstNonBlank(lines: seq<string>): Option<string>
  {
    if lines == [] then None
    else if Strip(lines[0]) != "" then Some(Strip(lines[0]))
    else FirstNonBlank(lines[1..])
  }

  /** `_extract_title(content)`. */
  function ExtractTitle(content: string): (title: string)
    ensures |title| <= MaxTitle
  {
    var lines := Lines(content);
    match FirstHeading(lines)
    case Some(h) => PyTake(h, MaxTitle)
    case None =>
      match FirstNonBlank(lines)
      case Some(l) => PyTake(l, MaxTitle)
      case None => "Untitled"
  }

  lemma {:induction false} FirstHeadingAt(lines: seq<string>, k: nat)
    requires k < |lines| && IsHeading(Strip(lines[k]))
    requires forall j :: 0 <= j < k ==> !IsHeading(Strip(lines[j]))
    ensures FirstHeading(lines) == Some(HeadingText(Strip(lines[k])))
  {
    if k > 0 {
      FirstHeadingAt(lines[1..], k - 1);
    }
  }

  lemma {:induction false} NoHeading(lines: seq<string>)
    requires forall j :: 0 <= j < |lines| ==> !IsHeading(Strip(lines[j]))
    ensures FirstHeading(lines) == None
  {
    if lines != [] {
      NoHeading(lines[1..]);
    }
  }

  lemma {:induction false} FirstNonBlankAt(lines: seq<string>, k: nat)
    requires k < |lines| && Strip(lines[k]) != ""
    requires forall j :: 0 <= j < k ==> Strip(lines[j]) == ""
    ensures FirstNonBlank(lines) == Some(Strip(lines[k]))
  {
    if k > 0 {
      FirstNonBlankAt(lines[1..], k - 1);
    }
  }

  /** A heading line anywhere wins over an earlier plain line. */
  lemma TitleFromHeading(content: string, k: nat)
    requires k < |Lines(content)| && IsHeading(Strip(Lines(content)[k]))
    requires forall j :: 0 <= j < k ==> !IsHeading(Strip(Lines(content)[j]))
    ensures ExtractTitle(content) == PyTake(HeadingText(Strip(Lines(content)[k])), MaxTitle)
  {
    FirstHeadingAt(Lines(content), k);
  }

  /** Without a heading line, the title is the first non-blank line. */
  lemma TitleFromFirstLine(content: string, k: nat)
    requires forall j :: 0 <= j < |Lines(content)| ==> !IsHeading(Strip(Lines(content)[j]))
    requires k < |Lines(content)| && Strip(Lines(content)[k]) != ""
    requires forall j :: 0 <= j < k ==> Strip(Lines(content)[j]) == ""
    ensures ExtractTitle(content) == PyTake(Strip(Lines(content)[k]), MaxTitle)
  {
    NoHeading(Lines(content));
    FirstNonBlankAt(Lines(content), k);
  }

  lemma {:induction false} JoinBlank(parts: seq<string>, sep: string)
    requires IsBlank(sep)
    requires forall j :: 0 <= j < |parts| ==> IsBlank(parts[j])
    ensures IsBlank(Join(parts, sep))
  {
    if |parts| > 1 {
      JoinBlank(parts[1..], sep);
    }
  }

  lemma {:induction false} AllBlankLines(lines: seq<string>)
    requires FirstNonBlank(lines) == None
    ensures forall j :: 0 <= j < |lines| ==> IsBlank(lines[j])
  {
    if lines != [] {
      AllBlankLines(lines[1..]);
      forall j | 0 <= j < |lines| ensures IsBlank(lines[j]) {
        if j > 0 {
          assert lines[j] == lines[1..][j - 1];
        }
      }
    }
  }

  /** The title falls back to "Untitled" exactly when the text is blank. */
  lemma UntitledWhenBlank(content: string)
    ensures IsBlank(content) ==> ExtractTitle(content) == "Untitled"
    ensures !IsBlank(content) ==> FirstNonBlank(Lines(content)).Some?
  {
    var lines := Lines(content);
    if IsBlank(content) {
      assert Strip(content) == "";
      assert Find("", "\n") == 0;
      assert lines == [""];
      assert Strip("") == "" && lines[1..] == [];
      assert FirstHeading(lines) == None;
      assert FirstNonBlank(lines) == None;
    } else if FirstNonBlank(lines) == None {
      AllBlankLines(lines);
      JoinBlank(lines, "\n");
      JoinSplitOn(Strip(content), "\n");
      assert false;
    }
  }

  /** A bare `#` line gives an empty title. */
  lemma BareHashTitle()
    ensures ExtractTitle("#") == ""
  {
    assert Strip("#") == "#";
    assert Find("#", "\n") == 1;
    assert Lines("#") == ["#"];
    assert TrimStartBy("#", IsHash) == "";
  }

  /** A single plain line of at most 100 characters is its own title. */
  lemma PlainLineTitle(content: string)
    requires content != [] && Trimmed(content) && |content| <= MaxTitle
    requires '\n' !in content && content[0] != '#'
    ensures ExtractTitle(content) == content
  {
    forall j | 0 <= j < |content| ensures !OccursAt("\n", content, j) {
      assert content[j..j + 1] == [content[j]];
    }
    assert Lines(content) == [content];
    FirstNonBlankAt(Lines(content), 0);
    NoHeading(Lines(content));
  }

  // -------------------------------------------------------------- summary

  /**
   * `re.sub(r'#{1,6}\s', '', s)`: scanning left to right, a run of one to
   * six `#` that starts here, reaches the end of the `#` run and is followed
   * by whitespace is removed together with that whitespace character.
   */
  function RemoveHeadingMarks(s: string): (r: string)
    ensures |r| <= |s|
    ensures '#' !in s ==> r == s
    decreases |s|
  {
    if s == [] then []
    else
      var n := CountLeading(s, IsHash);
      if 1 <= n <= 6 && n < |s| && IsSpace(s[n]) then RemoveHeadingMarks(s[n + 1..])
      else [s[0]] + RemoveHeadingMarks(s[1..])
  }

  /** The characters `re.sub(r'[*_`\[\]]', '', ...)` removes. */
  predicate IsEmphasis(c: char) { c == '*' || c == '_' || c == '`' || c == '[' || c == ']' }

  /** The text with markdown heading markers and emphasis characters removed. */
  function Unmarked(content: string): string { Without(RemoveHeadingMarks(content), IsEmphasis) }

  /** `[p.strip() for p in text.split("\n\n") if p.strip()]`. */
  function Paragraphs(content: string): seq<string> { NonEmptyStripped(SplitOn(Unmarked(content), "\n\n")) }

  /** `s.replace("\n", " ").strip()`. */
  function Flatten(s: string): string { Strip(ReplaceChar(s, '\n', ' ')) }

  /** The loop of `_extract_summary`: the first paragraph longer than 20 characters. */
  function FirstLong(paras: seq<string>): Option<string>
  {
    if paras == [] then None
    else if |paras[0]| > ShortParagraph then Some(paras[0])
    else FirstLong(paras[1..])
  }

  /** `_extract_summary(content)`. */
  function ExtractSummary(content: string): (summary: string)
    ensures |summary| <= MaxSummary
  {
    var paras := Paragraphs(content);
    if paras == [] then PyTake(Flatten(content), MaxSummary)
    else
      match FirstLong(paras)
      case Some(p) => PyTake(Flatten(p), MaxSummary)
      case None => PyTake(Flatten(paras[0]), MaxSummary)
  }

  lemma {:induction false} FirstLongAt(paras: seq<string>, k: nat)
    requires k < |paras| && |paras[k]| > ShortParagraph
    requires forall j :: 0 <= j < k ==> |paras[j]| <= ShortParagraph
    ensures FirstLong(paras) == Some(paras[k])
  {
    if k > 0 {
      FirstLongAt(paras[1..], k - 1);
    }
  }

  lemma {:induction false} NoLong(paras: seq<string>)
    requires forall j :: 0 <= j < |paras| ==> |paras[j]| <= ShortParagraph
    ensures FirstLong(paras) == None
  {
    if paras != [] {
      NoLong(paras[1..]);
    }
  }

  /** The summary is the first paragraph longer than 20 characters, flattened. */
  lemma SummaryFromLongParagraph(content: string, k: nat)
    requires k < |Paragraphs(content)| && |Paragraphs(content)[k]| > ShortParagraph
    requires forall j :: 0 <= j < k ==> |Paragraphs(content)[j]| <= ShortParagraph
    ensures ExtractSummary(content) == PyTake(Flatten(Paragraphs(content)[k]), MaxSummary)
  {
    FirstLongAt(Paragraphs(content), k);
  }

  /** Without any non-blank paragraph, the summary is the original content (markup included), flattened. */
  lemma SummaryWithoutParagraphs(content: string)
    requires Paragraphs(content) == []
    ensures ExtractSummary(content) == PyTake(Flatten(content), MaxSummary)
  {
  }

  /** With only short paragraphs, the summary is the first one, flattened. */
  lemma SummaryFromFirstParagraph(content: string)
    requires Paragraphs(content) != []
    requires forall j :: 0 <= j < |Paragraphs(content)| ==> |Paragraphs(content)[j]| <= ShortParagraph
    ensures ExtractSummary(content) == PyTake(Flatten(Paragraphs(content)[0]), MaxSummary)
  {
    NoLong(Paragraphs(content));
  }

  // ------------------------------------------------------------- keywords

  /** Python's `\w`, restricted to ASCII: letters, digits and `_`. */
  predicate IsWordChar(c: char) {
    ('a' <= c <= 'z') || ('A' <= c <= 'Z') || ('0' <= c <= '9') || c == '_'
  }

  /** The characters `re.sub(r'[#*`\[\](){}]', '', ...)` removes. */
  predicate IsMarkup(c: char) {
    c == '#' || c == '*' || c == '`' || c == '[' || c == ']' || c == '(' || c == ')' || c == '{' || c == '}'
  }

  /** The maximal runs of word characters, left to right. */
  function Words(s: string): seq<string>
    decreases |s|
  {
    if s == [] then []
    else if !IsWordChar(s[0]) then Words(s[1..])
    else
      var n := CountLeading(s, IsWordChar);
      [s[..n]] + Words(s[n..])
  }

  /** Every word is a non-empty string of word characters taken from `s`. */
  lemma {:induction false} WordsShape(s: string)
    ensures forall w :: w in Words(s) ==> w != [] && forall c :: c in w ==> IsWordChar(c) && c in s
    decreases |s|
  {
    if s == [] {
    } else if !IsWordChar(s[0]) {
      WordsShape(s[1..]);
      forall w, c | w in Words(s) && c in w ensures c in s {
        assert w in Words(s[1..]);
        assert c in s[1..];
      }
    } else {
      var n := CountLeading(s, IsWordChar);
      WordsShape(s[n..]);
      forall w, c | w in Words(s) && c in w ensures c in s {
        if w == s[..n] {
          assert c in s[..n];
        } else {
          assert w in Words(s[n..]);
          assert c in s[n..];
        }
      }
    }
  }

  /** Position `j` starts a run of word characters. */
  predicate RunStart(s: string, j: nat) {
    j < |s| && IsWordChar(s[j]) && (j == 0 || !IsWordChar(s[j - 1]))
  }

  /** The number of runs of word characters that start before position `i`. */
  function RunsBefore(s: string, i: nat): nat
    requires i <= |s|
  {
    if i == 0 then 0 else RunsBefore(s, i - 1) + (if RunStart(s, i - 1) then 1 else 0)
  }

  /** `s[i..i + n]` is a maximal run of word characters (what `\w+` matches there). */
  predicate IsRun(s: string, i: nat, n: nat) {
    && 0 < n && i + n <= |s|
    && (forall k :: i <= k < i + n ==> IsWordChar(s[k]))
    && (i == 0 || !IsWordChar(s[i - 1]))
    && (i + n == |s| || !IsWordChar(s[i + n]))
  }

  /** There are as many words as runs of word characters. */
  lemma {:induction false} WordsCount(s: string)
    ensures |Words(s)| == RunsBefore(s, |s|)
    decreases |s|
  {
    if s == [] {
    } else if !IsWordChar(s[0]) {
      WordsCount(s[1..]);
      RunsShift(s, 1, |s|);
    } else {
      var n := CountLeading(s, IsWordChar);
      WordsCount(s[n..]);
      RunsInside(s, n);
      RunsShift(s, n, |s|);
    }
  }

  /** The run starting at `i` is the word numbered by the runs before it: every run is a word, in order. */
  lemma {:induction false} WordsAt(s: string, i: nat, n: nat)
    requires IsRun(s, i, n)
    ensures RunsBefore(s, i) < |Words(s)| && Words(s)[RunsBefore(s, i)] == s[i..i + n]
    decreases |s|, 1
  {
    if !IsWordChar(s[0]) {
      WordsAtPastSkip(s, i, n);
    } else {
      var m := CountLeading(s, IsWordChar);
      if i == 0 {
        FirstRun(s, n, m);
      } else {
        WordsAtPastWord(s, i, n, m);
      }
    }
  }

  /** `WordsAt` when `s` starts with a non-word character. */
  lemma {:induction false} WordsAtPastSkip(s: string, i: nat, n: nat)
    requires IsRun(s, i, n) && !IsWordChar(s[0])
    ensures RunsBefore(s, i) < |Words(s)| && Words(s)[RunsBefore(s, i)] == s[i..i + n]
    decreases |s|, 0
  {
    assert i != 0;
    var t := s[1..];
    RunPastBoundary(s, 1, i, n);
    WordsAt(t, i - 1, n);
    WordsSkip(s);
    assert RunsBefore(s, 1) == 0;
  }

  /** `WordsAt` for a run after the leading word of `s`, which is `s[..m]`. */
  lemma {:induction false} WordsAtPastWord(s: string, i: nat, n: nat, m: nat)
    requires IsRun(s, i, n) && 0 < i && IsWordChar(s[0]) && m == CountLeading(s, IsWordChar)
    ensures RunsBefore(s, i) < |Words(s)| && Words(s)[RunsBefore(s, i)] == s[i..i + n]
    decreases |s|, 0
  {
    LaterRun(s, i, n, m);
    var t := s[m..];
    RunPastBoundary(s, m, i, n);
    WordsAt(t, i - m, n);
    IndexPastHead(Words(s), s[..m], Words(t), RunsBefore(t, i - m));
  }

  /** Cutting `s` at a word boundary `d` before a run keeps the run and counts the runs before `d` separately. */
  lemma RunPastBoundary(s: string, d: nat, i: nat, n: nat)
    requires IsRun(s, i, n) && 0 < d <= i && !(IsWordChar(s[d - 1]) && IsWordChar(s[d]))
    ensures IsRun(s[d..], i - d, n) && s[d..][i - d..i - d + n] == s[i..i + n]
    ensures RunsBefore(s, i) == RunsBefore(s, d) + RunsBefore(s[d..], i - d)
  {
    RunOfSuffix(s, d, i, n);
    RunsShift(s, d, i);
    SuffixSlice(s, d, i - d, i - d + n);
  }

  /** A slice of a suffix is a slice of the whole. */
  lemma SuffixSlice<T>(s: seq<T>, d: nat, a: nat, b: nat)
    requires d <= |s| && a <= b <= |s| - d
    ensures s[d..][a..b] == s[d + a..d + b]
  {
  }

  /** Element `r` of the tail is element `r + 1` of the whole. */
  lemma IndexPastHead<T>(w: seq<T>, head: T, tail: seq<T>, r: nat)
    requires w == [head] + tail && r < |tail|
    ensures 1 + r < |w| && w[1 + r] == tail[r]
  {
  }

  /** A leading non-word character contributes nothing. */
  lemma WordsSkip(s: string)
    requires s != [] && !IsWordChar(s[0])
    ensures Words(s) == Words(s[1..])
  {
  }

  /** A run at the start is the leading word. */
  lemma FirstRun(s: string, n: nat, m: nat)
    requires IsRun(s, 0, n) && m == CountLeading(s, IsWordChar)
    ensures m == n && RunsBefore(s, 0) < |Words(s)| && Words(s)[RunsBefore(s, 0)] == s[0..n]
  {
    if n < m {
      assert false;
    } else if m < n {
      assert false;
    }
  }

  /** A later run starts after the leading word, and the first word is that leading word. */
  lemma LaterRun(s: string, i: nat, n: nat, m: nat)
    requires IsRun(s, i, n) && 0 < i && IsWordChar(s[0]) && m == CountLeading(s, IsWordChar)
    ensures 0 < m < i && !IsWordChar(s[m]) && Words(s) == [s[..m]] + Words(s[m..])
    ensures RunsBefore(s, m) == 1
  {
    if i <= m {
      assert false;
    }
    RunsInside(s, m);
  }

  /** A run of `s` past a boundary is a run of the suffix from there. */
  lemma RunOfSuffix(s: string, d: nat, i: nat, n: nat)
    requires IsRun(s, i, n) && d <= i
    ensures IsRun(s[d..], i - d, n)
  {
    var t := s[d..];
    if i - d > 0 {
      assert t[i - d - 1] == s[i - 1];
    }
    forall k | i - d <= k < i - d + n ensures IsWordChar(t[k]) {
      assert t[k] == s[k + d];
    }
    if i - d + n < |t| {
      assert t[i - d + n] == s[i + n];
    }
  }

  /** Inside a leading run of word characters only one run has started. */
  lemma {:induction false} RunsInside(s: string, n: nat)
    requires 0 < n <= |s| && forall k :: 0 <= k < n ==> IsWordChar(s[k])
    ensures RunsBefore(s, n) == 1
  {
    if n > 1 {
      RunsInside(s, n - 1);
      assert IsWordChar(s[n - 2]);
    }
  }

  /** Runs past a boundary `d` are the runs of `s[d..]`. */
  lemma {:induction false} RunsShift(s: string, d: nat, i: nat)
    requires 0 < d <= i <= |s|
    requires d == |s| || !IsWordChar(s[d - 1]) || !IsWordChar(s[d])
    ensures RunsBefore(s, i) == RunsBefore(s, d) + RunsBefore(s[d..], i - d)
  {
    if i > d {
      RunsShift(s, d, i - 1);
      assert s[d..][i - 1 - d] == s[i - 1];
      if i - 1 > d {
        assert s[d..][i - 2 - d] == s[i - 2];
      }
      assert RunStart(s, i - 1) == RunStart(s[d..], i - 1 - d);
    }
  }

  const Stopwords: set<string> := {
    "that", "this", "with", "from", "have", "been", "they",
    "would", "their", "there", "about", "which", "when",
    "will", "what", "were", "your", "more", "than", "them",
    "some", "into", "other", "then", "also", "only", "over",
    "such", "just", "these", "those", "being", "both", "could"
  }

  /** `\b\w{4,}\b` keeps the runs of four or more; stopwords are then dropped. */
  function Candidates(ws: seq<string>): (r: seq<string>)
    ensures forall w :: w in r ==> w in ws && |w| >= 4 && !IsStopword(w)
  {
    KeepIf(ws, IsCandidate)
  }

  predicate IsCandidate(w: string) {
    |w| >= 4 && !IsStopword(w)
  }

  predicate IsStopword(w: string) {
    w in Stopwords
  }

  /** Every word of four or more characters that is not a stopword is kept, as often as it occurs. */
  lemma CandidatesCount(ws: seq<string>, w: string)
    ensures multiset(Candidates(ws))[w] == if |w| >= 4 && !IsStopword(w) then multiset(ws)[w] else 0
  {
    KeepIfCount(ws, IsCandidate, w);
  }

  /** The words `_extract_keywords` counts, of the lower-cased text with markup removed. */
  function KeywordCandidates(content: string): seq<string>
  {
    Candidates(Words(Without(Lower(content), IsMarkup)))
  }

  /** How often a word occurs among `ws` (`Counter(ws)[w]`). */
  function Frequency(ws: seq<string>): string -> int
  {
    w => multiset(ws)[w]
  }

  /**
   * `[w for w, _ in Counter(ws).most_common(5)]`: the distinct words in
   * first-occurrence order, stably sorted by frequency, the first five.
   */
  function Ranked(ws: seq<string>): seq<string>
  {
    PyTake(SortDesc(Dedup(ws), Frequency(ws)), MaxKeywords)
  }

  /** The keywords of a text, most frequent first. */
  function KeywordList(content: string): seq<string>
  {
    Ranked(KeywordCandidates(content))
  }

  /** `_extract_keywords(content)`: the keywords joined by commas. */
  function ExtractKeywords(content: string): string
  {
    Join(KeywordList(content), ",")
  }

  /** Five keywords, or every distinct word when there are fewer; pairwise distinct, each one of the counted words. */
  lemma RankedShape(ws: seq<string>)
    ensures |Ranked(ws)| == Min(MaxKeywords, |Dedup(ws)|)
    ensures NoDuplicates(Ranked(ws))
    ensures forall w :: w in Ranked(ws) ==> w in ws
  {
    var d := Dedup(ws);
    var sorted := SortDesc(d, Frequency(ws));
    var r := Ranked(ws);
    NoDuplicatesPrefix(sorted, MaxKeywords);
    forall w | w in r ensures w in ws {
      assert r == sorted[..|r|];
      assert w in sorted;
      assert multiset(sorted)[w] > 0;
      assert w in multiset(d);
    }
  }

  /**
   * Most frequent first, and words of equal frequency keep their order of
   * first occurrence (the keywords of each frequency are a prefix of the
   * distinct words of that frequency).
   */
  lemma RankedOrder(ws: seq<string>)
    ensures NonIncreasing(Ranked(ws), Frequency(ws))
    ensures forall f :: KeyFilter(Ranked(ws), Frequency(ws), f) <= KeyFilter(Dedup(ws), Frequency(ws), f)
  {
    SortedPrefix(Dedup(ws), Frequency(ws), MaxKeywords);
  }

  /** A counted word that is not a keyword occurs no more often than any keyword. */
  lemma RankedTop(ws: seq<string>, w: string)
    requires w in ws && w !in Ranked(ws)
    ensures forall v :: v in Ranked(ws) ==> multiset(ws)[v] >= multiset(ws)[w]
  {
    TopOfSorted(Dedup(ws), Frequency(ws), MaxKeywords, w);
  }

  /** There are no keywords exactly when there is no word to count. */
  lemma RankedEmpty(ws: seq<string>)
    ensures Ranked(ws) == [] <==> ws == []
  {
    var d := Dedup(ws);
    if ws != [] {
      assert ws[0] in d;
    }
  }

  /**
   * Conversely, a run of four or more word characters in the lower-cased text without markup that is
   * not a stopword is counted, so the text has at least one keyword.
   */
  lemma RunIsCandidate(content: string, i: nat, n: nat)
    requires IsRun(Without(Lower(content), IsMarkup), i, n) && n >= 4
    requires !IsStopword(Without(Lower(content), IsMarkup)[i..i + n])
    ensures Without(Lower(content), IsMarkup)[i..i + n] in KeywordCandidates(content)
    ensures KeywordList(content) != []
  {
    var text := Without(Lower(content), IsMarkup);
    var w := text[i..i + n];
    var ws := Words(text);
    WordsAt(text, i, n);
    assert w in ws;
    CandidatesCount(ws, w);
    assert w in multiset(Candidates(ws));
    var d := Dedup(Candidates(ws));
    assert w in d;
    RankedShape(Candidates(ws));
  }

  /** Every keyword is a lower-case run of at least four word characters and not a stopword. */
  lemma KeywordsAreWords(content: string)
    ensures forall w :: w in KeywordList(content) ==> |w| >= 4 && !IsStopword(w)
    ensures forall w, c :: w in KeywordList(content) && c in w ==> IsWordChar(c) && !IsUpper(c)
  {
    var text := Without(Lower(content), IsMarkup);
    RankedShape(KeywordCandidates(content));
    WordsShape(text);
    forall w, c | w in KeywordList(content) && c in w ensures IsWordChar(c) && !IsUpper(c) {
      assert w in Words(text);
      assert c in text;
      assert c in Lower(content);
    }
  }

  // ----------------------------------------------------------------- tags

  predicate IsComma(c: char) { c == ',' }

  /** `f"{user_tags},{auto_tags}" if user_tags else auto_tags`, then `.strip(",")`. */
  function CombineTags(userTags: Option<string>, autoTags: string): string
  {
    var all := if userTags.Some? && userTags.value != "" then userTags.value + "," + autoTags else autoTags;
    TrimEndBy(TrimStartBy(all, IsComma), IsComma)
  }

  lemma {:induction false} JoinEnds(parts: seq<string>, sep: string)
    requires |parts| >= 1 && forall j :: 0 <= j < |parts| ==> parts[j] != ""
    ensures var s := Join(parts, sep); s != [] && s[0] == parts[0][0] && s[|s| - 1] == parts[|parts| - 1][|parts[|parts| - 1]| - 1]
  {
    if |parts| > 1 {
      JoinEnds(parts[1..], sep);
    }
  }

  /** A string that does not start or end with a comma. */
  predicate NoOuterCommas(k: string) {
    k == "" || (k[0] != ',' && k[|k| - 1] != ',')
  }

  /** Comma-joining words that contain no comma gives no outer comma. */
  lemma JoinNoOuterCommas(kws: seq<string>)
    requires forall w :: w in kws ==> w != "" && ',' !in w
    ensures NoOuterCommas(Join(kws, ","))
    ensures Join(kws, ",") == "" <==> kws == []
  {
    if kws != [] {
      forall j | 0 <= j < |kws| ensures kws[j] != "" {
        assert kws[j] in kws;
      }
      JoinEnds(kws, ",");
      var last := kws[|kws| - 1];
      assert kws[0] in kws && last in kws;
      assert kws[0][0] in kws[0];
      assert last[|last| - 1] in last;
    }
  }

  lemma WordsHaveNoComma(kws: seq<string>)
    requires forall w :: w in kws ==> |w| >= 4
    requires forall w, c :: w in kws && c in w ==> IsWordChar(c) && !IsUpper(c)
    ensures forall w :: w in kws ==> w != "" && ',' !in w
  {
    assert !IsWordChar(',');
  }

  /** The keyword string never starts or ends with a comma, and is empty only without keywords. */
  lemma KeywordsHaveNoOuterCommas(content: string)
    ensures NoOuterCommas(ExtractKeywords(content))
    ensures ExtractKeywords(content) == "" <==> KeywordList(content) == []
  {
    var kws := KeywordList(content);
    KeywordsAreWords(content);
    WordsHaveNoComma(kws);
    JoinNoOuterCommas(kws);
  }

  lemma CombineWithoutUser(userTags: Option<string>, k: string)
    requires userTags.None? || userTags.value == ""
    requires NoOuterCommas(k)
    ensures CombineTags(userTags, k) == k
  {
    if k != "" {
      assert !IsComma(k[0]) && !IsComma(k[|k| - 1]);
    }
    assert TrimStartBy(k, IsComma) == k;
  }

  /**
   * Non-empty user tags lose their leading commas; the keywords follow after one comma, unless the
   * user tags were nothing but commas. Without keywords, the user tags lose the commas at both ends.
   */
  lemma CombineWithUser(user: string, k: string)
    requires user != "" && NoOuterCommas(k)
    ensures k == "" ==> CombineTags(Some(user), k) == TrimEndBy(TrimStartBy(user, IsComma), IsComma)
    ensures k != "" && TrimStartBy(user, IsComma) == "" ==> CombineTags(Some(user), k) == k
    ensures k != "" && TrimStartBy(user, IsComma) != "" ==> CombineTags(Some(user), k) == TrimStartBy(user, IsComma) + "," + k
  {
    var u := TrimStartBy(user, IsComma);
    StartOfCombined(user, k);
    if u == "" {
      KeptWhole(k);
    } else if k == "" {
      assert u + "," + k == u + [','];
      TrimEndSnoc(u, ',', IsComma);
    } else {
      EndKept(u + ",", k);
    }
  }

  /** Nothing is stripped from the end of a string ending in a non-empty `k` without outer commas. */
  lemma EndKept(a: string, k: string)
    requires k != "" && NoOuterCommas(k)
    ensures TrimEndBy(a + k, IsComma) == a + k
  {
    assert (a + k)[|a + k| - 1] == k[|k| - 1];
  }

  lemma StartOfCombined(user: string, k: string)
    requires NoOuterCommas(k)
    ensures TrimStartBy(user, IsComma) != "" ==> TrimStartBy(user + "," + k, IsComma) == TrimStartBy(user, IsComma) + "," + k
    ensures TrimStartBy(user, IsComma) == "" ==> TrimStartBy(user + "," + k, IsComma) == k
  {
    KeptWhole(k);
    TrimStartSep(user, ',', k, IsComma);
  }

  /** A string with no outer comma is unchanged by `.strip(",")`. */
  lemma KeptWhole(k: string)
    requires NoOuterCommas(k)
    ensures TrimStartBy(k, IsComma) == k && TrimEndBy(k, IsComma) == k
  {
    if k != "" {
      assert !IsComma(k[0]) && !IsComma(k[|k| - 1]);
    }
  }

  /** User tags without outer commas are kept as given, followed by the keywords after one comma. */
  lemma CombineWithPlainUser(user: string, k: string)
    requires user != "" && NoOuterCommas(user) && NoOuterCommas(k)
    ensures CombineTags(Some(user), k) == if k == "" then user else user + "," + k
  {
    CombineWithUser(user, k);
    KeptWhole(user);
  }

  /** Without user tags, the tags are exactly the keywords. */
  lemma TagsWithoutUserTags(content: string, userTags: Option<string>)
    requires userTags.None? || userTags.value == ""
    ensures CombineTags(userTags, ExtractKeywords(content)) == ExtractKeywords(content)
  {
    KeywordsHaveNoOuterCommas(content);
    CombineWithoutUser(userTags, ExtractKeywords(content));
  }

  /**
   * User tags come first, minus their leading commas (nothing is de-duplicated); the keywords follow
   * after one comma when there are any, and replace user tags made only of commas.
   */
  lemma TagsWithUserTags(content: string, user: string)
    requires user != ""
    ensures var k := ExtractKeywords(content); var u := TrimStartBy(user, IsComma);
      CombineTags(Some(user), k) ==
        if k == "" then TrimEndBy(u, IsComma) else if u == "" then k else u + "," + k
  {
    KeywordsHaveNoOuterCommas(content);
    CombineWithUser(user, ExtractKeywords(content));
  }

  /** User tags without outer commas are kept exactly as given. */
  lemma TagsWithPlainUserTags(content: string, user: string)
    requires user != "" && NoOuterCommas(user)
    ensures var k := ExtractKeywords(content);
      CombineTags(Some(user), k) == if k == "" then user else user + "," + k
  {
    KeywordsHaveNoOuterCommas(content);
    CombineWithPlainUser(user, ExtractKeywords(content));
  }

  // ----------------------------------------------------------------- hash

  /** `"0x" + sha256(content.encode()).hexdigest()`. */
  function ContentHash(content: string, sha256: seq<Byte> -> Digest): (h: string)
    ensures |h| == 66 && h[..2] == "0x" && IsLowerHex(h[2..])
  {
    var h := "0x" + Hex(sha256(Utf8(content)));
    assert h[2..] == Hex(sha256(Utf8(content)));
    h
  }
}
