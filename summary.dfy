/** `generateSummary`: the text is normalised and chunked, the first few
    chunks are condensed one by one by the summarization model, the
    condensations are joined with ". ", and a short result is extended once,
    with generated text or with a fixed filler paragraph. */
module Summary {
  import opened Common
  import opened Text
  import opened Chunker

  const MinTextLength := 100
  const MaxChunkSize := 800
  const MaxChunks := 5
  const MinChunkLength := 50
  const MaxExcerptLength := 1000
  const TargetWords := 500
  const PromptExcerptLength := 500

  const SummaryFailure := "Failed to generate summary. Please try again."
  const ExpansionRequest := "Based on this summary, provide a detailed academic explanation with key concepts, principles, and important details: "
  const FillerParagraph := "This document contains important academic content covering key concepts, theoretical frameworks, and practical applications relevant to the subject matter. The material presents comprehensive information that students should understand and remember for academic success."

  /** A stretch of a single-spaced string is single-spaced. */
  lemma SliceSingleSpaced(s: string, a: nat, b: nat, t: string)
    requires a <= b <= |s| && t == s[a..b] && SingleSpaced(s)
    ensures SingleSpaced(t)
  {
    assert forall i :: 0 <= i < |t| ==> t[i] == s[a + i];
  }

  /** `text.replace(/\s+/g, ' ').trim()`: only white space changes, so the
      other characters stay, in order (`CleanTextShape` gives the spacing). */
  function CleanText(text: string): (r: string)
    ensures Visible(r) == Visible(text)
  {
    VisibleCollapse(text);
    VisibleTrim(Collapse(text));
    Trim(Collapse(text))
  }

  /** Trimming a single-spaced string keeps it single-spaced and leaves no
      space at either end. */
  lemma {:induction false} TrimSingleSpaced(c: string)
    requires SingleSpaced(c)
    ensures var r := Trim(c); SingleSpaced(r) && (r == [] || (r[0] != ' ' && r[|r| - 1] != ' '))
  {
    var r := Trim(c);
    var a := |c| - |TrimStart(c)|;
    assert a + |r| <= |c| && r == c[a..a + |r|];
    SliceSingleSpaced(c, a, a + |r|, r);
  }

  /** The cleaned text has single spaces between its pieces, no other white
      space, and none at either end. */
  lemma CleanTextShape(text: string)
    ensures var r := CleanText(text);
      SingleSpaced(r) && (r == [] || (r[0] != ' ' && r[|r| - 1] != ' '))
  {
    CollapseShape(text);
    TrimSingleSpaced(Collapse(text));
  }

  /** What the summarization model is handed for a chunk: its first 1000
      characters. */
  function Excerpt(chunk: string): (e: string)
    requires |chunk| >= MinChunkLength
    ensures MinChunkLength <= |e| <= MaxExcerptLength && StartsWith(chunk, e)
  {
    Prefix(chunk, MaxExcerptLength)
  }

  /** Chunk `i` is long enough and the model answers its excerpt with
      non-empty text. */
  predicate Condenses(chunks: seq<string>, i: nat, summarize: Oracle)
    requires i < |chunks|
  {
    |chunks[i]| >= MinChunkLength &&
    var reply := summarize(i, Excerpt(chunks[i])); reply.Generated? && reply.text != ""
  }

  /** What chunk `i` adds to the list of condensations: nothing when it is
      shorter than 50 characters, when the model fails or when it answers
      with empty text; otherwise the model's answer. */
  function Condensed(chunks: seq<string>, i: nat, summarize: Oracle): (r: seq<string>)
    requires i < |chunks|
    ensures |r| <= 1 && forall k :: 0 <= k < |r| ==> r[k] != ""
    ensures |chunks[i]| < MinChunkLength ==> r == []
    ensures r != [] ==> summarize(i, Excerpt(chunks[i])) == Generated(r[0])
    ensures r != [] <==> Condenses(chunks, i, summarize)
    ensures Condenses(chunks, i, summarize) ==> r == [summarize(i, Excerpt(chunks[i])).text]
  {
    if |chunks[i]| < MinChunkLength then []
    else
      match summarize(i, Excerpt(chunks[i]))
      case Generated(t) => if t != "" then [t] else []
      case Unavailable => []
  }

  /** The condensations of the first `n` chunks, in chunk order. */
  function Condensations(chunks: seq<string>, n: nat, summarize: Oracle): (r: seq<string>)
    requires n <= |chunks|
    ensures |r| <= n
    ensures forall k :: 0 <= k < |r| ==> r[k] != ""
  {
    if n == 0 then [] else Condensations(chunks, n - 1, summarize) + Condensed(chunks, n - 1, summarize)
  }

  /** Each condensation is the non-empty answer to the excerpt of one of the
      first `n` chunks, a chunk of 50 or more characters. */
  lemma {:induction false} CondensationsAnswer(chunks: seq<string>, n: nat, summarize: Oracle, k: nat)
    requires n <= |chunks| && k < |Condensations(chunks, n, summarize)|
    ensures exists i ::
      && 0 <= i < n
      && Condenses(chunks, i, summarize)
      && summarize(i, Excerpt(chunks[i])) == Generated(Condensations(chunks, n, summarize)[k])
  {
    var front := Condensations(chunks, n - 1, summarize);
    if k < |front| {
      CondensationsAnswer(chunks, n - 1, summarize, k);
    } else {
      assert Condenses(chunks, n - 1, summarize);
    }
  }

  /** Condensations keep chunk order: those of the first `i` chunks begin
      those of the first `n`. */
  lemma {:induction false} CondensationsPrefix(chunks: seq<string>, i: nat, n: nat, summarize: Oracle)
    requires i <= n <= |chunks|
    ensures var early := Condensations(chunks, i, summarize);
      var all := Condensations(chunks, n, summarize);
      |early| <= |all| && all[..|early|] == early
    decreases n - i
  {
    if i < n {
      CondensationsPrefix(chunks, i + 1, n, summarize);
      var early := Condensations(chunks, i, summarize);
      var next := Condensations(chunks, i + 1, summarize);
      assert next[..|early|] == early;
    }
  }

  /** A chunk that condenses leaves a condensation. */
  lemma {:induction false} CondensesCollected(chunks: seq<string>, n: nat, summarize: Oracle, i: nat)
    requires i < n <= |chunks| && Condenses(chunks, i, summarize)
    ensures Condensations(chunks, n, summarize) != []
  {
    if i < n - 1 {
      CondensesCollected(chunks, n - 1, summarize, i);
    }
  }

  /** No condensation is collected exactly when none of the first `n` chunks
      is long enough with a non-empty answer. */
  lemma {:induction false} CondensationsEmpty(chunks: seq<string>, n: nat, summarize: Oracle)
    requires n <= |chunks|
    ensures Condensations(chunks, n, summarize) == [] <==> forall i :: 0 <= i < n ==> !Condenses(chunks, i, summarize)
  {
    if exists i :: 0 <= i < n && Condenses(chunks, i, summarize) {
      var i :| 0 <= i < n && Condenses(chunks, i, summarize);
      CondensesCollected(chunks, n, summarize, i);
    } else if n > 0 {
      CondensationsEmpty(chunks, n - 1, summarize);
      assert !Condenses(chunks, n - 1, summarize);
    }
  }

  /** The chunks `generateSummary` works on. */
  function SummaryChunks(text: string): (r: seq<string>)
    ensures |r| >= 1
  {
    Chunks(CleanText(text), MaxChunkSize)
  }

  /** The condensations `generateSummary` collects: at most five. */
  function SummaryCondensations(text: string, summarize: Oracle): (r: seq<string>)
    ensures |r| <= MaxChunks
  {
    var chunks := SummaryChunks(text);
    Condensations(chunks, Min(|chunks|, MaxChunks), summarize)
  }

  /** The prompt of the expansion step: the request and the first 500
      characters of the summary. */
  function ExpansionPrompt(combined: string): (p: string)
    ensures StartsWith(p, ExpansionRequest) && |p| <= |ExpansionRequest| + PromptExcerptLength
    ensures StartsWith(combined, p[|ExpansionRequest|..])
  {
    var excerpt := Prefix(combined, PromptExcerptLength);
    ConcatEnds(ExpansionRequest, excerpt);
    assert (ExpansionRequest + excerpt)[|ExpansionRequest|..] == excerpt;
    ExpansionRequest + excerpt
  }

  /** The expansion step: a summary of 500 or more space-separated words is
      kept; a shorter one gets ". " and the generated text appended, or ". "
      and the filler paragraph when the model fails. */
  function Expand(combined: string, generate: Oracle): (s: string)
    ensures StartsWith(s, combined)
  {
    if WordCount(combined) >= TargetWords then combined
    else
      match generate(0, ExpansionPrompt(combined))
      case Generated(t) =>
        if t != "" then
          assert (combined + ". " + t)[..|combined|] == combined;
          combined + ". " + t
        else combined
      case Unavailable =>
        assert (combined + ". " + FillerParagraph)[..|combined|] == combined;
        combined + ". " + FillerParagraph
  }

  /** The result once the condensations are known: a failure when there is
      none, otherwise their ". "-join, expanded. */
  function Finish(summaries: seq<string>, generate: Oracle): (r: Result<string, string>)
    ensures r.Failure? <==> summaries == []
  {
    if summaries == [] then Failure(SummaryFailure)
    else Success(Expand(Join(summaries, ". "), generate))
  }

  /** What `generateSummary` resolves to, or the message it rejects with. */
  function SummaryOf(text: string, summarize: Oracle, generate: Oracle): (r: Result<string, string>)
    ensures r.Failure? ==> r.error == SummaryFailure
    ensures r.Failure? <==> |CleanText(text)| < MinTextLength || SummaryCondensations(text, summarize) == []
  {
    if |CleanText(text)| < MinTextLength then Failure(SummaryFailure)
    else Finish(SummaryCondensations(text, summarize), generate)
  }

  /** `generateSummary` rejects exactly when the cleaned text is shorter than
      100 characters or none of the first five chunks is long enough with a
      non-empty answer. */
  lemma SummaryFails(text: string, summarize: Oracle, generate: Oracle)
    ensures var chunks := SummaryChunks(text);
      SummaryOf(text, summarize, generate).Failure? <==>
        |CleanText(text)| < MinTextLength ||
        forall i :: 0 <= i < Min(|chunks|, MaxChunks) ==> !Condenses(chunks, i, summarize)
  {
    var chunks := SummaryChunks(text);
    CondensationsEmpty(chunks, Min(|chunks|, MaxChunks), summarize);
  }

  /** The loop of `generateSummary`: the first `min(#chunks, 5)` chunks are
      condensed in order, skipping short chunks and failed or empty answers. */
  method CondenseChunks(chunks: seq<string>, summarize: Oracle) returns (summaries: seq<string>)
    ensures summaries == Condensations(chunks, Min(|chunks|, MaxChunks), summarize)
  {
    summaries := [];
    for i := 0 to Min(|chunks|, MaxChunks)
      invariant summaries == Condensations(chunks, i, summarize)
    {
      var chunk := chunks[i];
      CondensationsStep(chunks, i, summarize);
      if |chunk| >= MinChunkLength {
        var reply := summarize(i, Prefix(chunk, MaxExcerptLength));
        if reply.Generated? && reply.text != "" {
          summaries := summaries + [reply.text];
        }
      }
    }
  }

  /** Chunk `i` adds its answer when it is long enough and the answer is
      non-empty text, and nothing otherwise. */
  lemma CondensationsStep(chunks: seq<string>, i: nat, summarize: Oracle)
    requires i < |chunks|
    ensures var reply := summarize(i, Prefix(chunks[i], MaxExcerptLength));
      Condensations(chunks, i + 1, summarize) == Condensations(chunks, i, summarize) +
        (if |chunks[i]| >= MinChunkLength && reply.Generated? && reply.text != "" then [reply.text] else [])
  {
  }

  /** The steps of `generateSummary`, with the two hosted models as oracles. */
  method GenerateSummary(text: string, summarize: Oracle, generate: Oracle) returns (r: Result<string, string>)
    ensures r == SummaryOf(text, summarize, generate)
  {
    var clean := CleanText(text);
    if |clean| < MinTextLength {
      return Failure(SummaryFailure);
    }
    var chunks := SplitTextIntoChunks(clean, MaxChunkSize);
    var summaries := CondenseChunks(chunks, summarize);
    assert summaries == SummaryCondensations(text, summarize);
    if summaries == [] {
      return Failure(SummaryFailure);
    }
    var combined := Join(summaries, ". ");
    ghost var joined := combined;
    if WordCount(combined) < TargetWords {
      var reply := generate(0, ExpansionRequest + Prefix(combined, PromptExcerptLength));
      match reply {
        case Generated(t) =>
          if t != "" {
            combined := combined + ". " + t;
          }
        case Unavailable =>
          combined := combined + ". " + FillerParagraph;
      }
    }
    assert combined == Expand(joined, generate);
    return Success(combined);
  }

  /** A join of non-empty parts is non-empty. */
  lemma JoinNonEmpty(parts: seq<string>, sep: string)
    requires parts != [] && parts[0] != ""
    ensures Join(parts, sep) != ""
  {
    JoinStartsWithFirst(parts, sep);
  }

  /** The expansion keeps the summary as its beginning; if it appends, the
      summary had fewer than 500 words and the words of the appended text are
      added to its own. Below 500 words, a failed call appends the filler
      paragraph, a non-empty answer is appended, and an empty answer leaves
      the summary as it is. */
  lemma ExpandShape(combined: string, generate: Oracle)
    ensures var s := Expand(combined, generate);
      && StartsWith(s, combined)
      && (s == combined ||
          (WordCount(combined) < TargetWords &&
           exists t :: t != "" && s == combined + ". " + t && WordCount(s) == WordCount(combined) + WordCount(t)))
    ensures var s, reply := Expand(combined, generate), generate(0, ExpansionPrompt(combined));
      && (WordCount(combined) >= TargetWords ==> s == combined)
      && (WordCount(combined) < TargetWords ==>
            && (reply.Unavailable? ==> s == combined + ". " + FillerParagraph)
            && (reply.Generated? && reply.text != "" ==> s == combined + ". " + reply.text)
            && (reply.Generated? && reply.text == "" ==> s == combined))
  {
    var s := Expand(combined, generate);
    if s != combined {
      var t := s[|combined| + 2..];
      assert s == combined + ". " + t;
      WordCountAfterSentence(combined, t);
    }
    assert s[..|combined|] == combined;
  }

  /** A successful summary is never empty, begins with the condensations
      joined by ". ", and is either exactly that or that, ". " and a
      non-empty text whose words it adds, appended only below 500 words:
      the filler paragraph when the expansion call fails, its answer when
      that is non-empty. */
  lemma SummaryShape(text: string, summarize: Oracle, generate: Oracle)
    requires SummaryOf(text, summarize, generate).Success?
    ensures var s, combined := SummaryOf(text, summarize, generate).value, Join(SummaryCondensations(text, summarize), ". ");
      && s != ""
      && StartsWith(s, combined)
      && (s == combined ||
          (WordCount(combined) < TargetWords &&
           exists t :: t != "" && s == combined + ". " + t && WordCount(s) == WordCount(combined) + WordCount(t)))
    ensures var s, combined := SummaryOf(text, summarize, generate).value, Join(SummaryCondensations(text, summarize), ". ");
      var reply := generate(0, ExpansionPrompt(combined));
      && (WordCount(combined) >= TargetWords ==> s == combined)
      && (WordCount(combined) < TargetWords ==>
            && (reply.Unavailable? ==> s == combined + ". " + FillerParagraph)
            && (reply.Generated? && reply.text != "" ==> s == combined + ". " + reply.text)
            && (reply.Generated? && reply.text == "" ==> s == combined))
  {
    var cs := SummaryCondensations(text, summarize);
    var combined := Join(cs, ". ");
    JoinNonEmpty(cs, ". ");
    assert SummaryOf(text, summarize, generate).value == Expand(combined, generate);
    ExpandShape(combined, generate);
  }

  /** The two summarization models answer alike every call made for the
      first `n` chunks: one per chunk of 50 or more characters, on its excerpt. */
  predicate AgreeOnExcerpts(chunks: seq<string>, n: nat, s1: Oracle, s2: Oracle)
    requires n <= |chunks|
  {
    forall i :: 0 <= i < n && |chunks[i]| >= MinChunkLength ==> s1(i, Excerpt(chunks[i])) == s2(i, Excerpt(chunks[i]))
  }

  /** Only the first `n` chunks, and of them only those of 50 or more
      characters, are sent to the summarization model, each as its excerpt:
      two models that agree on those calls give the same condensations. */
  lemma {:induction false} OnlyLeadingChunksConsulted(chunks: seq<string>, n: nat, s1: Oracle, s2: Oracle)
    requires n <= |chunks| && AgreeOnExcerpts(chunks, n, s1, s2)
    ensures Condensations(chunks, n, s1) == Condensations(chunks, n, s2)
  {
    if n > 0 {
      OnlyLeadingChunksConsulted(chunks, n - 1, s1, s2);
    }
  }

  /** `generateSummary` consults the summarization model only on the first
      five chunks: two models that agree there give the same result. */
  lemma SummaryConsultsLeadingChunks(text: string, s1: Oracle, s2: Oracle, generate: Oracle)
    requires AgreeOnExcerpts(SummaryChunks(text), Min(|SummaryChunks(text)|, MaxChunks), s1, s2)
    ensures SummaryOf(text, s1, generate) == SummaryOf(text, s2, generate)
  {
    var chunks := SummaryChunks(text);
    OnlyLeadingChunksConsulted(chunks, Min(|chunks|, MaxChunks), s1, s2);
    assert SummaryCondensations(text, s1) == SummaryCondensations(text, s2);
  }
}
