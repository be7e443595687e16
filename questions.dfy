/** The six question generators of the service and the `generateQuestions`
    dispatcher. Calls to the text-generation model are an oracle handed the
    item index and the prompt; `Math.random()` draws are parameters indexed
    by the item. */
module Questions {
  import opened Common
  import opened Text
  import opened Chunker
  import opened Schema
  import opened Parsing
  import opened Batches

  /** `s || fallback` on strings: the empty string is falsy. */
  function Or(s: string, fallback: string): (r: string)
    ensures s != "" ==> r == s
    ensures s == "" ==> r == fallback
  {
    if s != "" then s else fallback
  }

  /** `s.endsWith('?') ? s : s + '?'`. */
  function AsQuestion(s: string): (r: string)
    ensures EndsWith(r, "?") && StartsWith(r, s) && |s| <= |r| <= |s| + 1
    ensures EndsWith(s, "?") ==> r == s
  {
    if EndsWith(s, "?") then s
    else
      ConcatEnds(s, "?");
      s + "?"
  }

  // ---------------------------------------------------------------- theoretical

  const TheoreticalChunkSize := 400
  const TheoreticalCue := "\n\nQuestion:"
  const TheoreticalRequest := "Based on this academic content, create a theoretical question that tests conceptual understanding:\n\n"
  const DefaultTheoreticalQuestion := "Explain the key theoretical concepts and principles discussed in this section of the material."
  const GenericTheoreticalAnswer := "This question relates to the fundamental concepts and theoretical principles discussed in the academic material."
  const ContentAnswerIntro := "Based on the content: "
  const ContentAnswerOutro := ". This demonstrates the key theoretical concepts that students should understand."
  const FallbackTheoreticalStem := "What are the main theoretical concepts covered in this academic material"
  const FallbackTheoreticalQuestion := FallbackTheoreticalStem + "?"
  const FallbackTheoreticalAnswer := "The material covers important theoretical frameworks and foundational principles that are essential for understanding the subject matter."

  function TheoreticalPrompt(chunk: string): string
  {
    TheoreticalRequest + Prefix(chunk, 500) + TheoreticalCue
  }

  /** `chunk.split('.').slice(0, 3).join('. ')`: it begins with the first
      `.`-segment of the chunk (`KeyPhrasesSplit` gives all of it). */
  function KeyPhrases(chunk: string): (r: string)
    ensures StartsWith(r, Split(chunk, {'.'})[0])
  {
    var segments := Split(chunk, {'.'});
    JoinStartsWithFirst(segments[..Min(3, |segments|)], ". ");
    Join(segments[..Min(3, |segments|)], ". ")
  }

  /** The key phrases split back on '.' into the first three segments of the
      chunk, every one after the first behind the space of the ". " join. */
  lemma KeyPhrasesSplit(chunk: string)
    ensures var segments, pieces := Split(chunk, {'.'}), Split(KeyPhrases(chunk), {'.'});
      && |pieces| == Min(3, |segments|)
      && pieces[0] == segments[0]
      && forall k :: 1 <= k < |pieces| ==> pieces[k] == " " + segments[k]
  {
    var segments := Split(chunk, {'.'});
    var firsts := segments[..Min(3, |segments|)];
    assert forall k :: 0 <= k < |firsts| ==> firsts[k] == segments[k] && '.' !in firsts[k];
    SplitSpacedJoin(firsts, '.');
  }

  /** The answer of a theoretical question: it quotes the first three
      `.`-segments of the chunk exactly when the chunk is longer than 100
      characters. */
  function TheoreticalAnswer(chunk: string): (a: string)
    ensures |chunk| > 100 ==> a == ContentAnswerIntro + KeyPhrases(chunk) + ContentAnswerOutro
    ensures |chunk| <= 100 ==> a == GenericTheoreticalAnswer
  {
    if |chunk| > 100 then ContentAnswerIntro + KeyPhrases(chunk) + ContentAnswerOutro
    else GenericTheoreticalAnswer
  }

  /** One theoretical question from a chunk and the model's reply: the
      trimmed reply, or a fixed question when it has fewer than 10
      characters, made to end in '?'; the fixed pair when the call fails. */
  function TheoreticalItem(chunk: string, reply: Reply): (q: Question)
    ensures EndsWith(q.question, "?") && |q.question| >= 10
    ensures q.options.None? && q.explanation.None?
    ensures reply.Generated? && |Trim(reply.text)| >= 10 ==> q.question == AsQuestion(Trim(reply.text))
    ensures reply.Generated? && |Trim(reply.text)| < 10 ==> q.question == AsQuestion(DefaultTheoreticalQuestion)
    ensures reply.Generated? ==> q.answer == TheoreticalAnswer(chunk)
    ensures reply.Unavailable? ==> q.question == FallbackTheoreticalQuestion && q.answer == FallbackTheoreticalAnswer
  {
    match reply
    case Unavailable =>
      ConcatEnds(FallbackTheoreticalStem, "?");
      Question(FallbackTheoreticalQuestion, FallbackTheoreticalAnswer, None, None)
    case Generated(t) =>
      var response := Trim(t);
      var question := if response == "" || |response| < 10 then DefaultTheoreticalQuestion else response;
      Question(AsQuestion(question), TheoreticalAnswer(chunk), None, None)
  }

  /** `generateTheoreticalQuestions`: exactly `count` questions from
      400-word chunks, item `i` from chunk `i % #chunks` and call `i`. */
  method GenerateTheoreticalQuestions(text: string, count: nat, generate: Oracle) returns (questions: seq<Question>)
    ensures questions == Collect(RoundRobin(Chunks(text, TheoreticalChunkSize), count), TheoreticalPrompt, generate, TheoreticalItem)
  {
    var chunks := SplitTextIntoChunks(text, TheoreticalChunkSize);
    ghost var inputs := RoundRobin(chunks, count);
    questions := [];
    for i := 0 to count
      invariant questions == Collect(inputs[..i], TheoreticalPrompt, generate, TheoreticalItem)
    {
      var chunk := chunks[i % |chunks|];
      var reply := generate(i, TheoreticalPrompt(chunk));
      CollectStep(inputs, TheoreticalPrompt, generate, TheoreticalItem, i);
      questions := questions + [TheoreticalItem(chunk, reply)];
    }
    assert inputs[..count] == inputs;
  }

  // ---------------------------------------------------------------- application

  const ApplicationChunkSize := 500
  const ApplicationRequest := "Create a practical application question based on this content: "
  const DefaultApplicationQuestion := "How can the concepts from this section be applied in real-world scenarios?"
  const DefaultApplicationAnswer := "These concepts can be applied in various practical situations as demonstrated in the text."

  function ApplicationPrompt(chunk: string): string
  {
    ApplicationRequest + chunk
  }

  /** A question and an answer parsed from a reply, each replaced by its
      fallback when it comes out empty. */
  function ParsedItem(response: string, defaultQuestion: string, defaultAnswer: string): (q: Question)
    requires defaultQuestion != "" && defaultAnswer != ""
    ensures q.question != "" && q.answer != ""
    ensures q.options.None? && q.explanation.None?
    ensures var parsed := ParseQuestionAnswer(response);
      && (parsed.0 != "" ==> q.question == parsed.0) && (parsed.0 == "" ==> q.question == defaultQuestion)
      && (parsed.1 != "" ==> q.answer == parsed.1) && (parsed.1 == "" ==> q.answer == defaultAnswer)
  {
    var parsed := ParseQuestionAnswer(response);
    Question(Or(parsed.0, defaultQuestion), Or(parsed.1, defaultAnswer), None, None)
  }

  /** The application question parsed from the reply for a chunk: the parsed
      question and answer, each replaced by its fixed fallback when empty. */
  function ApplicationItem(chunk: string, response: string): (q: Question)
    ensures q.question != "" && q.answer != "" && q.options.None? && q.explanation.None?
    ensures var parsed := ParseQuestionAnswer(response);
      && q.question == (if parsed.0 != "" then parsed.0 else DefaultApplicationQuestion)
      && q.answer == (if parsed.1 != "" then parsed.1 else DefaultApplicationAnswer)
  {
    ParsedItem(response, DefaultApplicationQuestion, DefaultApplicationAnswer)
  }

  /** `generateApplicationQuestions`: one question for each of the first
      min(count, #chunks) 500-word chunks, or a rejection when a call fails. */
  method GenerateApplicationQuestions(text: string, count: nat, generate: Oracle) returns (r: Option<seq<Question>>)
    ensures var chunks := Chunks(text, ApplicationChunkSize);
      r == Batch(chunks[..Min(count, |chunks|)], ApplicationPrompt, generate, ApplicationItem)
  {
    var chunks := SplitTextIntoChunks(text, ApplicationChunkSize);
    ghost var inputs := chunks[..Min(count, |chunks|)];
    var questions: seq<Question> := [];
    var i := 0;
    while i < count && i < |chunks|
      invariant i <= |inputs|
      invariant Batch(inputs[..i], ApplicationPrompt, generate, ApplicationItem) == Some(questions)
    {
      var chunk := chunks[i];
      assert chunk == inputs[i];
      var reply := generate(i, ApplicationPrompt(chunk));
      if reply.Unavailable? {
        assert Batch(inputs, ApplicationPrompt, generate, ApplicationItem).None?;
        return None;
      }
      BatchStep(inputs, ApplicationPrompt, generate, ApplicationItem, i, questions);
      questions := questions + [ApplicationItem(chunk, reply.text)];
      i := i + 1;
    }
    assert i == |inputs|;
    assert inputs[..i] == inputs;
    return Some(questions);
  }

  // ---------------------------------------------------------------- numerical

  const NumericalRequest := "Create a numerical problem based on this content with step-by-step solution: "
  const DefaultNumericalQuestion := "Calculate the value based on the formulas and data provided in the text."
  const DefaultNumericalAnswer := "Step 1: Identify the given values. Step 2: Apply the appropriate formula. Step 3: Calculate the result."

  function NumericalPrompt(text: string): string
  {
    NumericalRequest + Prefix(text, 500)
  }

  /** The numerical question parsed from the reply for the text: the parsed
      question and answer, each replaced by its fixed fallback when empty. */
  function NumericalItem(text: string, response: string): (q: Question)
    ensures q.question != "" && q.answer != "" && q.options.None? && q.explanation.None?
    ensures var parsed := ParseQuestionAnswer(response);
      && q.question == (if parsed.0 != "" then parsed.0 else DefaultNumericalQuestion)
      && q.answer == (if parsed.1 != "" then parsed.1 else DefaultNumericalAnswer)
  {
    ParsedItem(response, DefaultNumericalQuestion, DefaultNumericalAnswer)
  }

  /** `generateNumericalQuestions`: `count` questions, every call on the same
      prompt, or a rejection when a call fails. */
  method GenerateNumericalQuestions(text: string, count: nat, generate: Oracle) returns (r: Option<seq<Question>>)
    ensures r == Batch(Repeat(text, count), NumericalPrompt, generate, NumericalItem)
  {
    ghost var inputs := Repeat(text, count);
    var questions: seq<Question> := [];
    for i := 0 to count
      invariant Batch(inputs[..i], NumericalPrompt, generate, NumericalItem) == Some(questions)
    {
      var reply := generate(i, NumericalPrompt(text));
      assert inputs[i] == text;
      if reply.Unavailable? {
        assert Batch(inputs, NumericalPrompt, generate, NumericalItem).None?;
        return None;
      }
      BatchStep(inputs, NumericalPrompt, generate, NumericalItem, i, questions);
      questions := questions + [NumericalItem(text, reply.text)];
    }
    assert inputs[..count] == inputs;
    return Some(questions);
  }

  // ---------------------------------------------------------------- mcq

  const MCQChunkSize := 300

  /** The test `s => s.length > 20 && s.length < 100`. */
  predicate KeyCandidate(s: string)
  {
    20 < |s| < 100
  }

  /** The key statement of an MCQ: the first `.`-segment of 21 to 99
      characters, trimmed, or else the first 100 characters of the chunk;
      never longer than 100 characters, never empty for a non-empty chunk. */
  function KeyStatement(chunk: string): (r: string)
    ensures |r| <= 100
    ensures chunk != "" ==> r != ""
    ensures var found := Find(Split(chunk, {'.'}), KeyCandidate);
      && (found.Some? && Trim(found.value) != "" ==> r == Trim(found.value))
      && (found.None? || Trim(found.value) == "" ==> r == Prefix(chunk, 100))
  {
    var found := Find(Split(chunk, {'.'}), KeyCandidate);
    if found.Some? && Trim(found.value) != "" then Trim(found.value) else Prefix(chunk, 100)
  }

  /** The MCQ made from one chunk: option A quotes the chunk's first concept,
      or its key statement when it has none. */
  function ContentMCQ(chunk: string): (q: Question)
    ensures WellFormedMCQ(q) && LabelledOptions(q.options.value) && q.answer == "A"
    ensures q.question == MCQQuestion
    ensures q.options.value[0] == Labelled("A", Prefix(CorrectConcept(KeyStatement(chunk), chunk), 80) + "...")
  {
    CreateMCQFromContent(KeyStatement(chunk), chunk)
  }

  /** `generateMCQQuestions`: exactly `count` questions from 300-word chunks,
      item `i` from chunk `i % #chunks`. The fallback to `createDefaultMCQ` is
      never taken: nothing in the attempt can fail. */
  method GenerateMCQQuestions(text: string, count: nat) returns (questions: seq<Question>)
    ensures questions == Map(RoundRobin(Chunks(text, MCQChunkSize), count), ContentMCQ)
  {
    var chunks := SplitTextIntoChunks(text, MCQChunkSize);
    ghost var inputs := RoundRobin(chunks, count);
    questions := [];
    for i := 0 to count
      invariant questions == Map(inputs[..i], ContentMCQ)
    {
      MapStep(inputs, ContentMCQ, i);
      questions := questions + [ContentMCQ(chunks[i % |chunks|])];
    }
    assert inputs[..count] == inputs;
  }

  // ---------------------------------------------------------------- fill in the blank

  const BlankMarker := "______"
  const FillBlankIntro := "Fill in the blank: "

  /** `Math.floor(Math.random() * 3)`. */
  type Offset = r: nat | r < 3

  /** The filter `s => s.trim().length > 20`. */
  predicate LongEnough(s: string)
  {
    |Trim(s)| > 20
  }

  /** `text.split('.').filter(s => s.trim().length > 20)`: the `.`-segments
      of the text longer than 20 characters once trimmed, every one of them. */
  function Sentences(text: string): (r: seq<string>)
    ensures forall k :: 0 <= k < |r| ==> LongEnough(r[k]) && r[k] in Split(text, {'.'})
    ensures forall x :: x in Split(text, {'.'}) && LongEnough(x) ==> x in r
  {
    var segments := Split(text, {'.'});
    FilterComplete(segments, LongEnough);
    Filter(segments, LongEnough)
  }

  /** `Math.floor(words.length / 3) + offset`, always a valid word index for
      more than five words. */
  function BlankIndex(n: nat, offset: Offset): (k: nat)
    requires n > 5
    ensures k < n
  {
    n / 3 + offset
  }

  /** The blank question for a sentence of more than five words. */
  function FillBlankItem(words: seq<string>, offset: Offset): (q: Question)
    requires |words| > 5
    ensures var k := BlankIndex(|words|, offset);
      q.question == FillBlankIntro + Join(words[k := BlankMarker], " ") && q.answer == words[k]
    ensures q.options.None? && q.explanation.None?
  {
    var k := BlankIndex(|words|, offset);
    Question(FillBlankIntro + Join(words[k := BlankMarker], " "), words[k], None, None)
  }

  /** What sentence `i` contributes: a question when its trimmed form has more
      than five space-separated words, nothing otherwise. */
  function BlankFor(sentence: string, offset: Offset): (qs: seq<Question>)
    ensures |qs| <= 1
    ensures |qs| == 1 <==> WordCount(Trim(sentence)) > 5
    ensures |qs| == 1 ==> qs[0] == FillBlankItem(Split(Trim(sentence), {' '}), offset)
  {
    var words := Split(Trim(sentence), {' '});
    if |words| > 5 then [FillBlankItem(words, offset)] else []
  }

  /** What a sentence paired with its random offset contributes. */
  function BlankForInput(input: (string, Offset)): seq<Question>
  {
    BlankFor(input.0, input.1)
  }

  /** The loop of `generateFillBlankQuestions` over its sentences, with the
      random offset of round `i` as `offset(i)`: sentence `i` of the first
      min(count, #sentences), with offset `i`, gives its question or
      nothing. */
  method BlankSentences(sentences: seq<string>, count: nat, offset: nat -> Offset) returns (questions: seq<Question>)
    ensures questions == Flatten(WithDraws(sentences, Min(count, |sentences|), offset), BlankForInput)
  {
    questions := [];
    var i: nat := 0;
    while i < count && i < |sentences|
      invariant i <= count && i <= |sentences|
      invariant questions == Flatten(WithDraws(sentences, i, offset), BlankForInput)
    {
      var input := (sentences[i], offset(i));
      FlattenStep(WithDraws(sentences, i, offset), BlankForInput, input);
      questions := questions + BlankFor(input.0, input.1);
      i := i + 1;
    }
    assert i == Min(count, |sentences|);
  }

  /** `generateFillBlankQuestions`: the long sentences of the text, then the
      loop over them. */
  method GenerateFillBlankQuestions(text: string, count: nat, offset: nat -> Offset) returns (questions: seq<Question>)
    ensures var sentences := Sentences(text);
      questions == Flatten(WithDraws(sentences, Min(count, |sentences|), offset), BlankForInput)
  {
    var sentences := Sentences(text);
    questions := BlankSentences(sentences, count, offset);
  }

  /** At most min(count, #sentences) questions: a sentence gives at most one. */
  lemma FillBlankCount(text: string, count: nat, offset: nat -> Offset)
    ensures var sentences := Sentences(text);
      |Flatten(WithDraws(sentences, Min(count, |sentences|), offset), BlankForInput)| <= Min(count, |sentences|)
  {
    var sentences := Sentences(text);
    var inputs := WithDraws(sentences, Min(count, |sentences|), offset);
    forall k | 0 <= k < |inputs|
      ensures |BlankForInput(inputs[k])| <= 1
    {
    }
  }

  /** Every fill-in-the-blank question comes from one of the first `n`
      sentences, one of more than five words, with the offset drawn for it; so
      `FillBlankRoundTrip` applies to each. */
  lemma FillBlankQuestionsAre(sentences: seq<string>, n: nat, offset: nat -> Offset, q: Question)
    requires n <= |sentences|
    requires q in Flatten(WithDraws(sentences, n, offset), BlankForInput)
    ensures exists i ::
      && 0 <= i < n
      && WordCount(Trim(sentences[i])) > 5
      && q == FillBlankItem(Split(Trim(sentences[i]), {' '}), offset(i))
  {
    var inputs := WithDraws(sentences, n, offset);
    var i :| 0 <= i < |inputs| && q in BlankForInput(inputs[i]);
    assert inputs[i] == (sentences[i], offset(i));
    var qs := BlankForInput(inputs[i]);
    assert qs == BlankFor(sentences[i], offset(i));
    OnlyMember(qs, q);
  }

  /** Putting the answer back in the blank gives the trimmed sentence back,
      and the answer is one whole word. */
  lemma FillBlankRoundTrip(sentence: string, offset: Offset)
    requires WordCount(Trim(sentence)) > 5
    ensures var words := Split(Trim(sentence), {' '});
      var k := BlankIndex(|words|, offset);
      var q := FillBlankItem(words, offset);
      && Join(words[k := q.answer], " ") == Trim(sentence)
      && ' ' !in q.answer
      && q.question == FillBlankIntro + Join(words[k := BlankMarker], " ")
  {
    var words := Split(Trim(sentence), {' '});
    var k := BlankIndex(|words|, offset);
    assert words[k := words[k]] == words;
    JoinSplit(Trim(sentence), ' ');
    assert !HasAny(words[k], {' '});
  }

  // ---------------------------------------------------------------- true/false

  const TrueFalseChunkSize := 300
  const TrueFalseRequest := "Create a true or false statement based on this content: "
  const VerdictIntro := "This statement is "
  const TrueFalseIntro := "True or False: "
  const VerdictOutro := " based on the content provided in the document."

  function TrueFalsePrompt(chunk: string): string
  {
    TrueFalseRequest + chunk
  }

  /** A true/false question: the trimmed statement, and a coin-flipped answer
      that the explanation repeats in lower case. */
  function TrueFalseItem(statement: string, isTrue: bool): (q: Question)
    ensures q.answer in {"True", "False"} && (q.answer == "True" <==> isTrue)
    ensures q.explanation == Some(VerdictIntro + LowerAscii(q.answer) + VerdictOutro)
    ensures q.question == TrueFalseIntro + Trim(statement) && q.options.None?
  {
    var answer := if isTrue then "True" else "False";
    assert LowerAscii(answer) == (if isTrue then "true" else "false");
    Question(TrueFalseIntro + Trim(statement), answer, None,
             Some(VerdictIntro + (if isTrue then "true" else "false") + VerdictOutro))
  }

  /** The statement of a chunk paired with its coin. */
  function TrueFalseInputPrompt(input: (string, bool)): string
  {
    TrueFalsePrompt(input.0)
  }

  /** The question for a chunk and its coin, from the returned statement. */
  function TrueFalseInputItem(input: (string, bool), statement: string): Question
  {
    TrueFalseItem(statement, input.1)
  }

  /** `generateTrueFalseQuestions`, with `Math.random() > 0.5` for item `i` as
      `coin(i)`: one question for each of the first min(count, #chunks)
      300-word chunks, or a rejection when a call fails. */
  method GenerateTrueFalseQuestions(text: string, count: nat, generate: Oracle, coin: nat -> bool) returns (r: Option<seq<Question>>)
    ensures var chunks := Chunks(text, TrueFalseChunkSize);
      r == Batch(WithDraws(chunks, Min(count, |chunks|), coin), TrueFalseInputPrompt, generate, TrueFalseInputItem)
  {
    var chunks := SplitTextIntoChunks(text, TrueFalseChunkSize);
    ghost var inputs := WithDraws(chunks, Min(count, |chunks|), coin);
    var questions: seq<Question> := [];
    var i := 0;
    while i < count && i < |chunks|
      invariant i <= |inputs|
      invariant Batch(inputs[..i], TrueFalseInputPrompt, generate, TrueFalseInputItem) == Some(questions)
    {
      var input := (chunks[i], coin(i));
      assert input == inputs[i];
      var reply := generate(i, TrueFalseInputPrompt(input));
      if reply.Unavailable? {
        assert Batch(inputs, TrueFalseInputPrompt, generate, TrueFalseInputItem).None?;
        return None;
      }
      BatchStep(inputs, TrueFalseInputPrompt, generate, TrueFalseInputItem, i, questions);
      questions := questions + [TrueFalseInputItem(input, reply.text)];
      i := i + 1;
    }
    assert i == |inputs|;
    assert inputs[..i] == inputs;
    return Some(questions);
  }
}
