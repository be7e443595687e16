/** `generateQuestions`: the entry point that runs the generator of one
    question type and turns every failure into one fixed message. */
module Dispatch {
  import opened Common
  import opened Text
  import opened Chunker
  import opened Schema
  import opened Batches
  import opened Questions

  /** The question types the service knows. */
  const QuestionTypes: set<string> := {"theoretical", "application", "numerical", "mcq", "fillblanks", "truefalse"}

  const FailurePrefix := "Failed to generate "
  const FailureSuffix := " questions. Please try again."

  /** The message every failure of `generateQuestions` carries. */
  function FailureMessage(questionType: string): string
  {
    FailurePrefix + questionType + FailureSuffix
  }

  /** The message is the type between a fixed opening and a fixed closing,
      so the type can be read back from it. */
  lemma FailureMessageShape(questionType: string)
    ensures var m := FailureMessage(questionType);
      && StartsWith(m, FailurePrefix) && EndsWith(m, FailureSuffix)
      && |m| == |FailurePrefix| + |questionType| + |FailureSuffix|
      && m[|FailurePrefix|..|m| - |FailureSuffix|] == questionType
  {
    var m := FailureMessage(questionType);
    ConcatEnds(FailurePrefix + questionType, FailureSuffix);
    ConcatEnds(FailurePrefix, questionType + FailureSuffix);
    assert m == FailurePrefix + (questionType + FailureSuffix);
  }

  /** Different types give different messages. */
  lemma FailureMessageInjective(t1: string, t2: string)
    requires FailureMessage(t1) == FailureMessage(t2)
    ensures t1 == t2
  {
    FailureMessageShape(t1);
    FailureMessageShape(t2);
  }

  /** The number of loop rounds a count allows: `i < count` never holds
      for a count of zero or less. */
  function Rounds(count: int): (n: nat)
    ensures count <= 0 ==> n == 0
    ensures count > 0 ==> n == count
  {
    if count < 0 then 0 else count
  }

  /** A generator's rejection, re-thrown with the message of the type. */
  function OrFail(r: Option<seq<Question>>, questionType: string): (o: Result<seq<Question>, string>)
    ensures o.Success? <==> r.Some?
    ensures o.Success? ==> o.value == r.value
    ensures o.Failure? ==> o.error == FailureMessage(questionType)
  {
    match r
    case Some(qs) => Success(qs)
    case None => Failure(FailureMessage(questionType))
  }

  /** What `generateQuestions` resolves to, or the message it rejects with:
      an unknown type and any failure of a generator give the message of the
      type. */
  function QuestionsOf(text: string, questionType: string, count: int, generate: Oracle, offset: nat -> Offset, coin: nat -> bool): (r: Result<seq<Question>, string>)
    ensures r.Failure? ==> r.error == FailureMessage(questionType)
    ensures questionType !in QuestionTypes ==> r.Failure?
  {
    var n := Rounds(count);
    if questionType == "theoretical" then
      Success(Collect(RoundRobin(Chunks(text, TheoreticalChunkSize), n), TheoreticalPrompt, generate, TheoreticalItem))
    else if questionType == "application" then
      var chunks := Chunks(text, ApplicationChunkSize);
      OrFail(Batch(chunks[..Min(n, |chunks|)], ApplicationPrompt, generate, ApplicationItem), questionType)
    else if questionType == "numerical" then
      OrFail(Batch(Repeat(text, n), NumericalPrompt, generate, NumericalItem), questionType)
    else if questionType == "mcq" then
      Success(Map(RoundRobin(Chunks(text, MCQChunkSize), n), ContentMCQ))
    else if questionType == "fillblanks" then
      var sentences := Sentences(text);
      Success(Flatten(WithDraws(sentences, Min(n, |sentences|), offset), BlankForInput))
    else if questionType == "truefalse" then
      var chunks := Chunks(text, TrueFalseChunkSize);
      OrFail(Batch(WithDraws(chunks, Min(n, |chunks|), coin), TrueFalseInputPrompt, generate, TrueFalseInputItem), questionType)
    else
      Failure(FailureMessage(questionType))
  }

  /** Theoretical and multiple-choice requests always succeed with exactly
      `count` questions; every MCQ is well formed with answer A. */
  lemma AlwaysSucceeding(text: string, count: int, generate: Oracle, offset: nat -> Offset, coin: nat -> bool)
    ensures var r := QuestionsOf(text, "theoretical", count, generate, offset, coin);
      r.Success? && |r.value| == Rounds(count)
    ensures var r := QuestionsOf(text, "mcq", count, generate, offset, coin);
      && r.Success? && |r.value| == Rounds(count)
      && forall k :: 0 <= k < |r.value| ==> WellFormedMCQ(r.value[k]) && r.value[k].answer == "A"
  {
  }

  /** A successful numerical request has `count` questions; a successful
      application or true/false request has one per chunk, up to `count`. */
  lemma BatchSizes(text: string, count: int, generate: Oracle, offset: nat -> Offset, coin: nat -> bool)
    ensures var r := QuestionsOf(text, "numerical", count, generate, offset, coin);
      r.Success? ==> |r.value| == Rounds(count)
    ensures var r := QuestionsOf(text, "application", count, generate, offset, coin);
      r.Success? ==> |r.value| == Min(Rounds(count), |Chunks(text, ApplicationChunkSize)|)
    ensures var r := QuestionsOf(text, "truefalse", count, generate, offset, coin);
      r.Success? ==> |r.value| == Min(Rounds(count), |Chunks(text, TrueFalseChunkSize)|)
  {
  }

  /** Every answer of a successful true/false request is "True" or
      "False", the coin of its round, and its explanation names the same
      verdict in lower case. */
  lemma TrueFalseAnswers(text: string, count: int, generate: Oracle, offset: nat -> Offset, coin: nat -> bool)
    ensures var r := QuestionsOf(text, "truefalse", count, generate, offset, coin);
      r.Success? ==> forall k :: 0 <= k < |r.value| ==>
        && r.value[k].answer in {"True", "False"}
        && (r.value[k].answer == "True" <==> coin(k))
        && r.value[k].explanation == Some(VerdictIntro + LowerAscii(r.value[k].answer) + VerdictOutro)
  {
  }

  /** A fill-in-the-blank request always succeeds, with at most one
      question per sentence, up to `count`. */
  lemma FillBlanksBound(text: string, count: int, generate: Oracle, offset: nat -> Offset, coin: nat -> bool)
    ensures var r := QuestionsOf(text, "fillblanks", count, generate, offset, coin);
      r.Success? && |r.value| <= Min(Rounds(count), |Sentences(text)|)
  {
    FillBlankCount(text, Rounds(count), offset);
  }

  /** `generateQuestions`, with the model as `generate` and the random draws
      of the fill-in-the-blank and true/false generators as `offset` and
      `coin`. */
  method GenerateQuestions(text: string, questionType: string, count: int, generate: Oracle, offset: nat -> Offset, coin: nat -> bool)
    returns (r: Result<seq<Question>, string>)
    ensures r == QuestionsOf(text, questionType, count, generate, offset, coin)
  {
    var n := Rounds(count);
    if questionType == "theoretical" {
      var qs := GenerateTheoreticalQuestions(text, n, generate);
      r := Success(qs);
    } else if questionType == "application" {
      var qs := GenerateApplicationQuestions(text, n, generate);
      r := OrFail(qs, questionType);
    } else if questionType == "numerical" {
      var qs := GenerateNumericalQuestions(text, n, generate);
      r := OrFail(qs, questionType);
    } else if questionType == "mcq" {
      var qs := GenerateMCQQuestions(text, n);
      r := Success(qs);
    } else if questionType == "fillblanks" {
      var qs := GenerateFillBlankQuestions(text, n, offset);
      r := Success(qs);
    } else if questionType == "truefalse" {
      var qs := GenerateTrueFalseQuestions(text, n, generate, coin);
      r := OrFail(qs, questionType);
    } else {
      r := Failure(FailureMessage(questionType));
    }
  }
}
