/** The deterministic string-to-record rules of the service:
    `parseQuestionAnswer`, `createMCQFromContent`, `createDefaultMCQ` and
    `parseMCQ` (whose random answer letter is a parameter). */
module Parsing {
  import opened Common
  import opened Text
  import opened Schema

  /** The alternatives of `/Question:|Answer:|Q:|A:|\n/`, in pattern order. */
  const Markers: seq<string> := ["Question:", "Answer:", "Q:", "A:", "\n"]

  /** Length of the first marker that `t` starts with, trying them from the
      k-th on; 0 when none does. */
  function MarkerFrom(t: string, k: nat): (m: nat)
    requires k <= |Markers|
    ensures m <= |t|
    ensures m == 0 <==> forall j :: k <= j < |Markers| ==> !StartsWith(t, Markers[j])
    decreases |Markers| - k
  {
    if k == |Markers| then 0
    else if StartsWith(t, Markers[k]) then |Markers[k]|
    else MarkerFrom(t, k + 1)
  }

  /** Length of the marker the pattern matches at position `q` of `s`. */
  function MarkerAt(s: string, q: nat): (m: nat)
    requires q <= |s|
    ensures q + m <= |s|
    ensures m == 0 <==> forall j :: 0 <= j < |Markers| ==> !StartsWith(s[q..], Markers[j])
  {
    MarkerFrom(s[q..], 0)
  }

  /** No marker starts anywhere in `t`. */
  predicate MarkerFree(t: string)
  {
    forall i :: 0 <= i < |t| ==> MarkerAt(t, i) == 0
  }

  /** No marker starts at a position of `s` from `p` up to `q`. */
  predicate NoMarkerBetween(s: string, p: nat, q: nat)
    requires p <= q <= |s|
  {
    forall j :: p <= j < q ==> MarkerAt(s, j) == 0
  }

  /** A stretch of `s` in which no marker starts is marker-free on its own. */
  lemma SliceMarkerFree(s: string, p: nat, q: nat, t: string)
    requires p <= q <= |s| && NoMarkerBetween(s, p, q) && t == s[p..q]
    ensures MarkerFree(t)
  {
    forall i | 0 <= i < |t|
      ensures MarkerAt(t, i) == 0
    {
      assert MarkerAt(s, p + i) == 0;
      forall j | 0 <= j < |Markers|
        ensures !StartsWith(t[i..], Markers[j])
      {
        assert !StartsWith(s[p + i..], Markers[j]);
        assert t[i..] == s[p + i..q];
      }
    }
  }

  /** Trimming keeps a string marker-free. */
  lemma TrimMarkerFree(t: string)
    requires MarkerFree(t)
    ensures MarkerFree(Trim(t))
  {
    var a := |t| - |TrimStart(t)|;
    assert NoMarkerBetween(t, a, a + |Trim(t)|);
    SliceMarkerFree(t, a, a + |Trim(t)|, Trim(t));
  }

  /** `s.split(markers)` from a piece that began at `p`, scanning from `q`. */
  function PiecesFrom(s: string, p: nat, q: nat): (r: seq<string>)
    requires p <= q <= |s|
    requires NoMarkerBetween(s, p, q)
    ensures |r| >= 1
    ensures forall k :: 0 <= k < |r| ==> MarkerFree(r[k])
    decreases |s| - q
  {
    if q == |s| then
      SliceMarkerFree(s, p, q, s[p..q]);
      [s[p..q]]
    else
      var m := MarkerAt(s, q);
      if m == 0 then PiecesFrom(s, p, q + 1)
      else
        SliceMarkerFree(s, p, q, s[p..q]);
        [s[p..q]] + PiecesFrom(s, q + m, q + m)
  }

  /** A marker found at the front of `t` is one of the alternatives. */
  lemma {:induction false} MarkerFromMatched(t: string, k: nat)
    requires k <= |Markers|
    ensures MarkerFrom(t, k) > 0 ==> t[..MarkerFrom(t, k)] in Markers
    decreases |Markers| - k
  {
    if k < |Markers| && !StartsWith(t, Markers[k]) {
      MarkerFromMatched(t, k + 1);
    }
  }

  /** The markers the split cuts at, scanning from `q`, in order. */
  function MatchedFrom(s: string, q: nat): (r: seq<string>)
    requires q <= |s|
    ensures forall k :: 0 <= k < |r| ==> r[k] in Markers
    decreases |s| - q
  {
    if q == |s| then []
    else
      var m := MarkerAt(s, q);
      if m == 0 then MatchedFrom(s, q + 1)
      else
        MarkerFromMatched(s[q..], 0);
        assert s[q..][..m] == s[q..q + m];
        [s[q..q + m]] + MatchedFrom(s, q + m)
  }

  /** The split at the end of the response. */
  lemma PiecesEnd(s: string, p: nat)
    requires p <= |s| && NoMarkerBetween(s, p, |s|)
    ensures PiecesFrom(s, p, |s|) == [s[p..]] && MatchedFrom(s, |s|) == []
  {
    assert s[p..|s|] == s[p..];
  }

  /** The split past a position where no marker starts. */
  lemma PiecesSkip(s: string, p: nat, q: nat)
    requires p <= q < |s| && NoMarkerBetween(s, p, q) && MarkerAt(s, q) == 0
    ensures NoMarkerBetween(s, p, q + 1)
    ensures PiecesFrom(s, p, q) == PiecesFrom(s, p, q + 1) && MatchedFrom(s, q) == MatchedFrom(s, q + 1)
  {
  }

  /** The split at a position where a marker starts. */
  lemma PiecesCut(s: string, p: nat, q: nat)
    requires p <= q < |s| && NoMarkerBetween(s, p, q) && MarkerAt(s, q) > 0
    ensures var m := MarkerAt(s, q);
      && PiecesFrom(s, p, q) == [s[p..q]] + PiecesFrom(s, q + m, q + m)
      && MatchedFrom(s, q) == [s[q..q + m]] + MatchedFrom(s, q + m)
  {
  }

  /** Putting back a piece and the marker after it in front of a rebuilt
      rest. */
  lemma WeaveCut(s: string, p: nat, q: nat, e: nat, pieces: seq<string>, cuts: seq<string>, rest: seq<string>, restCuts: seq<string>)
    requires p <= q <= e <= |s|
    requires pieces == [s[p..q]] + rest && cuts == [s[q..e]] + restCuts
    requires |rest| == |restCuts| + 1 && Weave(rest, restCuts) == s[e..]
    ensures |pieces| == |cuts| + 1 && Weave(pieces, cuts) == s[p..]
  {
    WeaveStep(s[p..q], s[q..e], rest, restCuts, s[e..]);
    Rejoin3(s, p, q, e);
  }

  /** Putting back a first piece and a first separator. */
  lemma WeaveStep(x: string, c: string, pieces: seq<string>, cuts: seq<string>, rest: string)
    requires |pieces| == |cuts| + 1 && Weave(pieces, cuts) == rest
    ensures Weave([x] + pieces, [c] + cuts) == x + c + rest
  {
    assert ([x] + pieces)[1..] == pieces;
    assert ([c] + cuts)[1..] == cuts;
  }

  /** A string is its three consecutive stretches. */
  lemma Rejoin3(s: string, p: nat, q: nat, e: nat)
    requires p <= q <= e <= |s|
    ensures s[p..] == s[p..q] + s[q..e] + s[e..]
  {
  }

  /** The marker split loses nothing but the markers: from `(p, q)` on, the
      pieces with the markers that were cut at put back between them give
      `s[p..]`. */
  lemma {:induction false} PiecesRebuild(s: string, p: nat, q: nat)
    requires p <= q <= |s| && NoMarkerBetween(s, p, q)
    ensures var pieces, cuts := PiecesFrom(s, p, q), MatchedFrom(s, q);
      |pieces| == |cuts| + 1 && Weave(pieces, cuts) == s[p..]
    decreases |s| - q
  {
    if q == |s| {
      PiecesEnd(s, p);
    } else if MarkerAt(s, q) == 0 {
      PiecesSkip(s, p, q);
      PiecesRebuild(s, p, q + 1);
    } else {
      var m := MarkerAt(s, q);
      PiecesCut(s, p, q);
      PiecesRebuild(s, q + m, q + m);
      WeaveCut(s, p, q, q + m, PiecesFrom(s, p, q), MatchedFrom(s, q), PiecesFrom(s, q + m, q + m), MatchedFrom(s, q + m));
    }
  }

  /** `response.split(/Question:|Answer:|Q:|A:|\n/)` loses nothing but the
      markers: its pieces contain no marker, and with the markers it cut at
      (each one of the five alternatives) put back between them they give
      the response back. */
  lemma MarkerSplitRebuild(response: string)
    ensures var pieces, cuts := PiecesFrom(response, 0, 0), MatchedFrom(response, 0);
      && |pieces| == |cuts| + 1
      && (forall k :: 0 <= k < |pieces| ==> MarkerFree(pieces[k]))
      && (forall k :: 0 <= k < |cuts| ==> cuts[k] in Markers)
      && Weave(pieces, cuts) == response
  {
    PiecesRebuild(response, 0, 0);
  }

  /** `response.split(/Question:|Answer:|Q:|A:|\n/).filter(p => p.trim())`:
      the non-blank pieces of the marker split, every one of them kept. */
  function MarkerParts(response: string): (parts: seq<string>)
    ensures forall k :: 0 <= k < |parts| ==> MarkerFree(parts[k]) && NonBlank(parts[k])
    ensures forall k :: 0 <= k < |parts| ==> parts[k] in PiecesFrom(response, 0, 0)
    ensures forall x :: x in PiecesFrom(response, 0, 0) && NonBlank(x) ==> x in parts
  {
    var pieces := PiecesFrom(response, 0, 0);
    var parts := Filter(pieces, NonBlank);
    FilterComplete(pieces, NonBlank);
    assert forall k :: 0 <= k < |parts| ==> exists j :: 0 <= j < |pieces| && pieces[j] == parts[k];
    parts
  }

  /** The sentence terminators of `/[.!?]/`. */
  const Terminators: set<char> := {'.', '!', '?'}

  /** `response.split(/[.!?]/).filter(s => s.trim())`: the non-blank
      pieces between terminators, every one of them kept. */
  function SentenceParts(response: string): (parts: seq<string>)
    ensures forall k :: 0 <= k < |parts| ==> !HasAny(parts[k], Terminators) && NonBlank(parts[k])
    ensures forall k :: 0 <= k < |parts| ==> parts[k] in Split(response, Terminators)
    ensures forall x :: x in Split(response, Terminators) && NonBlank(x) ==> x in parts
  {
    var pieces := Split(response, Terminators);
    var parts := Filter(pieces, NonBlank);
    FilterComplete(pieces, NonBlank);
    assert forall k :: 0 <= k < |parts| ==> exists j :: 0 <= j < |pieces| && pieces[j] == parts[k];
    parts
  }

  /** Trimming a string without terminators leaves none. */
  lemma TrimKeepsNoTerminator(t: string)
    requires !HasAny(t, Terminators)
    ensures !HasAny(Trim(t), Terminators)
  {
    var a := |t| - |TrimStart(t)|;
    var r := Trim(t);
    assert forall i :: 0 <= i < |r| ==> r[i] == t[a + i];
  }

  /** The marker branch: the first two non-blank marker pieces, trimmed. */
  function MarkerQA(parts: seq<string>): (r: (string, string))
    requires |parts| >= 2
    requires forall k :: 0 <= k < |parts| ==> MarkerFree(parts[k]) && NonBlank(parts[k])
    ensures r.0 != "" && r.1 != "" && MarkerFree(r.0) && MarkerFree(r.1)
    ensures r.0 == Trim(parts[0]) && r.1 == Trim(parts[1])
  {
    assert NonBlank(parts[0]) && NonBlank(parts[1]);
    TrimMarkerFree(parts[0]);
    TrimMarkerFree(parts[1]);
    (Trim(parts[0]), Trim(parts[1]))
  }

  /** The sentence branch: the first sentence, trimmed, made a question; the
      other sentences rejoined with ". " as the answer. */
  function SentenceQA(sentences: seq<string>): (r: (string, string))
    requires |sentences| >= 2
    requires !HasAny(sentences[0], Terminators) && NonBlank(sentences[0])
    ensures |r.0| >= 2 && EndsWith(r.0, "?") && !HasAny(r.0[..|r.0| - 1], Terminators)
    ensures r.0[..|r.0| - 1] == Trim(sentences[0]) && r.1 == Trim(Join(sentences[1..], ". "))
  {
    var first := Trim(sentences[0]);
    TrimKeepsNoTerminator(sentences[0]);
    assert (first + "?")[..|first|] == first;
    (first + "?", Trim(Join(sentences[1..], ". ")))
  }

  /** The last resort: the response cut in two halves. */
  function HalvesQA(response: string): (r: (string, string))
    ensures r.0 + r.1 == response && |r.0| == |response| / 2
  {
    assert response[..|response| / 2] + response[|response| / 2..] == response;
    (Prefix(response, |response| / 2), Drop(response, |response| / 2))
  }

  /** `parseQuestionAnswer`: a question and an answer read off a generated
      response, by markers, else by sentences, else by halves. */
  function ParseQuestionAnswer(response: string): (r: (string, string))
    ensures var parts := MarkerParts(response);
      |parts| >= 2 ==>
        && r.0 == Trim(parts[0]) && r.1 == Trim(parts[1])
        && r.0 != "" && r.1 != "" && MarkerFree(r.0) && MarkerFree(r.1)
    ensures var parts, sentences := MarkerParts(response), SentenceParts(response);
      |parts| < 2 && |sentences| >= 2 ==>
        && |r.0| >= 2 && EndsWith(r.0, "?") && !HasAny(r.0[..|r.0| - 1], Terminators)
        && r.0[..|r.0| - 1] == Trim(sentences[0]) && r.1 == Trim(Join(sentences[1..], ". "))
    ensures |MarkerParts(response)| < 2 && |SentenceParts(response)| < 2 ==>
        r.0 + r.1 == response && |r.0| == |response| / 2
  {
    var parts := MarkerParts(response);
    if |parts| >= 2 then MarkerQA(parts)
    else
      var sentences := SentenceParts(response);
      if |sentences| >= 2 then SentenceQA(sentences)
      else HalvesQA(response)
  }

  /** An option line: the letter, ") " and the text. */
  function Labelled(letter: string, text: string): string
  {
    letter + ") " + text
  }

  /** An explanation that opens by naming the answer letter. */
  function Explains(letter: string, rest: string): string
  {
    "Option " + letter + rest
  }

  /** Four options built with `Labelled` from A to D are labelled. */
  lemma LabelledFour(a: string, b: string, c: string, d: string)
    ensures LabelledOptions([Labelled("A", a), Labelled("B", b), Labelled("C", c), Labelled("D", d)])
  {
    var options := [Labelled("A", a), Labelled("B", b), Labelled("C", c), Labelled("D", d)];
    forall k | 0 <= k < 4
      ensures StartsWith(options[k], Letters[k] + ") ")
    {
      var text := [a, b, c, d][k];
      assert options[k] == Letters[k] + ") " + text;
      assert (Letters[k] + ") " + text)[..|Letters[k] + ") "|] == Letters[k] + ") ";
    }
  }

  /** An explanation built with `Explains` names its letter. */
  lemma ExplainsNames(letter: string, rest: string)
    ensures StartsWith(Explains(letter, rest), "Option " + letter)
  {
    assert Explains(letter, rest)[..|"Option " + letter|] == "Option " + letter;
  }

  const MCQQuestion := "Which of the following best describes the concept discussed in the material?"
  const ContentOptionB := "The material focuses on practical applications and real-world scenarios"
  const ContentOptionC := "The content primarily discusses theoretical frameworks and methodologies"
  const ContentOptionD := "The information provides background context for advanced study"
  const ContentExplanation := " is correct as it directly reflects the content discussed in the source material."

  /** The filter `s => s.trim().length > 10`. */
  predicate ConceptCandidate(s: string)
  {
    |Trim(s)| > 10
  }

  /** No `.`-segment of the context is long enough to quote. */
  predicate NoConcept(context: string)
  {
    var segments := Split(context, {'.'});
    forall k :: 0 <= k < |segments| ==> !ConceptCandidate(segments[k])
  }

  /** `context.split('.').filter(s => s.trim().length > 10).slice(0, 4)`:
      up to four long-enough segments, each one of the context's segments. */
  function Concepts(context: string): (r: seq<string>)
    ensures |r| <= 4
    ensures forall k :: 0 <= k < |r| ==> ConceptCandidate(r[k]) && r[k] in Split(context, {'.'})
    ensures r == [] <==> NoConcept(context)
  {
    var segments := Split(context, {'.'});
    var candidates := Filter(segments, ConceptCandidate);
    FilterEmpty(segments, ConceptCandidate);
    LeadingCandidates(segments, 4);
    candidates[..Min(4, |candidates|)]
  }

  /** The first `n` segments that pass the filter are qualifying segments. */
  lemma LeadingCandidates(segments: seq<string>, n: nat)
    ensures var candidates := Filter(segments, ConceptCandidate);
      var r := candidates[..Min(n, |candidates|)];
      forall k :: 0 <= k < |r| ==> ConceptCandidate(r[k]) && r[k] in segments
  {
    var candidates := Filter(segments, ConceptCandidate);
    var r := candidates[..Min(n, |candidates|)];
    assert forall k :: 0 <= k < |r| ==> r[k] == candidates[k];
  }

  /** The first concept is the first segment longer than 10 characters once
      trimmed. */
  lemma FirstConcept(context: string)
    ensures var first := Find(Split(context, {'.'}), ConceptCandidate);
      Concepts(context) != [] ==> first.Some? && Concepts(context)[0] == first.value
  {
    var segments := Split(context, {'.'});
    FilterFirst(segments, ConceptCandidate);
    if Concepts(context) != [] {
      assert Concepts(context)[0] == Filter(segments, ConceptCandidate)[0];
    }
  }

  /** The concept option A quotes: the first `.`-segment of the context that
      is longer than 10 characters once trimmed, trimmed; the key statement
      when no segment is. */
  function CorrectConcept(keyStatement: string, context: string): (r: string)
    ensures NoConcept(context) ==> r == keyStatement
    ensures var first := Find(Split(context, {'.'}), ConceptCandidate);
      first.Some? ==> ConceptCandidate(first.value) && r == Trim(first.value)
  {
    var concepts := Concepts(context);
    FirstConcept(context);
    if concepts != [] && Trim(concepts[0]) != "" then Trim(concepts[0]) else keyStatement
  }

  /** `createMCQFromContent`: four labelled options, option A quoting at most
      80 characters of the concept, and answer A. */
  function CreateMCQFromContent(keyStatement: string, context: string): (q: Question)
    ensures WellFormedMCQ(q) && LabelledOptions(q.options.value)
    ensures q.question == MCQQuestion && q.answer == "A"
    ensures q.options.value[0] == Labelled("A", Prefix(CorrectConcept(keyStatement, context), 80) + "...")
  {
    var quoted := Prefix(CorrectConcept(keyStatement, context), 80) + "...";
    LabelledFour(quoted, ContentOptionB, ContentOptionC, ContentOptionD);
    ExplainsNames("A", ContentExplanation);
    var options := [Labelled("A", quoted), Labelled("B", ContentOptionB), Labelled("C", ContentOptionC), Labelled("D", ContentOptionD)];
    Question(MCQQuestion, "A", Some(options), Some(Explains("A", ContentExplanation)))
  }

  const DefaultMCQQuestion := "Based on the academic content, which statement best represents the key concept discussed?"
  const DefaultOptionA := "The material presents fundamental principles essential for understanding"
  const DefaultOptionB := "The content focuses on practical applications in real-world contexts"
  const DefaultOptionC := "The information covers theoretical frameworks and methodologies"
  const DefaultOptionD := "The text provides background knowledge for advanced study"
  const DefaultMCQOptions: seq<string> :=
    [Labelled("A", DefaultOptionA), Labelled("B", DefaultOptionB), Labelled("C", DefaultOptionC), Labelled("D", DefaultOptionD)]
  const DefaultMCQExplanation := " correctly identifies the fundamental nature of the academic content presented."

  /** `createDefaultMCQ`: a fixed four-option record with answer A; the
      question number does not enter it. */
  function CreateDefaultMCQ(questionNumber: int): (q: Question)
    ensures WellFormedMCQ(q) && LabelledOptions(q.options.value) && q.answer == "A"
  {
    LabelledFour(DefaultOptionA, DefaultOptionB, DefaultOptionC, DefaultOptionD);
    ExplainsNames("A", DefaultMCQExplanation);
    Question(DefaultMCQQuestion, "A", Some(DefaultMCQOptions), Some(Explains("A", DefaultMCQExplanation)))
  }

  const ParsedDefaultQuestion := "Which of the following statements is correct based on the given content?"
  const ParsedOptionA := "The primary concept discussed is fundamental to understanding the topic"
  const ParsedOptionB := "The main idea relates to practical applications in the field"
  const ParsedOptionC := "The content focuses on theoretical frameworks and principles"
  const ParsedOptionD := "The information provides background context for further study"
  const ParsedDefaultOptions: seq<string> :=
    [Labelled("A", ParsedOptionA), Labelled("B", ParsedOptionB), Labelled("C", ParsedOptionC), Labelled("D", ParsedOptionD)]
  const ParsedExplanation := " is correct based on the information provided in the document."

  /** The test `line.includes('?') || line.toLowerCase().includes('which')`. */
  predicate IsQuestionLine(line: string)
  {
    Contains(line, "?") || Contains(LowerAscii(line), "which")
  }

  /** The test `/^[A-D][.)]/i` on the trimmed line. */
  predicate IsOptionLine(line: string)
  {
    var t := Trim(line);
    |t| >= 2 && (('A' <= t[0] <= 'D') || ('a' <= t[0] <= 'd')) && (t[1] == '.' || t[1] == ')')
  }

  /** The first question-like line, or the default question. */
  function QuestionOf(lines: seq<string>): (question: string)
    ensures (forall k :: 0 <= k < |lines| ==> !IsQuestionLine(lines[k])) ==> question == ParsedDefaultQuestion
    ensures (exists k :: 0 <= k < |lines| && IsQuestionLine(lines[k])) ==>
      exists k :: 0 <= k < |lines| && lines[k] == question && IsQuestionLine(question) &&
                  forall j :: 0 <= j < k ==> !IsQuestionLine(lines[j])
  {
    var found := Find(lines, IsQuestionLine);
    if found.Some? then found.value else ParsedDefaultQuestion
  }

  /** The first four option lines, or the four default labelled options
      when there are fewer than four. */
  function OptionsOf(lines: seq<string>): (options: seq<string>)
    ensures |options| == 4
    ensures var optionLines := Filter(lines, IsOptionLine);
      && (|optionLines| >= 4 ==> options == optionLines[..4])
      && (|optionLines| < 4 ==> options == ParsedDefaultOptions && LabelledOptions(options))
    ensures LabelledOptions(options) || forall k :: 0 <= k < 4 ==> options[k] in lines && IsOptionLine(options[k])
  {
    var optionLines := Filter(lines, IsOptionLine);
    assert |optionLines| >= 4 ==> forall k :: 0 <= k < 4 ==> optionLines[..4][k] == optionLines[k];
    LabelledFour(ParsedOptionA, ParsedOptionB, ParsedOptionC, ParsedOptionD);
    if |optionLines| >= 4 then optionLines[..4] else ParsedDefaultOptions
  }

  /** `parseMCQ`, with the random answer letter as the parameter `pick`: the
      first question-like line (or a default question), the first four option
      lines when there are four (or four default labelled options), and the
      picked letter as the answer, named by the explanation. */
  function ParseMCQ(response: string, context: string, pick: Letter): (q: Question)
    ensures WellFormedMCQ(q) && q.answer == Letters[pick]
    ensures q.question == QuestionOf(Tokens(response, '\n'))
    ensures q.options.value == OptionsOf(Tokens(response, '\n'))
  {
    var answer := Letters[pick];
    ExplainsNames(answer, ParsedExplanation);
    Question(QuestionOf(Tokens(response, '\n')), answer, Some(OptionsOf(Tokens(response, '\n'))), Some(Explains(answer, ParsedExplanation)))
  }
}
